/**
 * Font resolution (get_font) and the scaled font of the scale effect. The
 * file system and the font loader are oracles; glyph measurement is the
 * Metrics capability every layout function takes.
 */
module Fonts {
  import opened Wrappers
  import opened Templates

  /** A loaded font: a TrueType file at a size, or Pillow's built-in font. */
  datatype Font = TrueType(path: string, size: int) | BuiltIn

  /** os.path.exists, and whether ImageFont.truetype succeeds for a path at a size. */
  datatype FileSystem = FileSystem(pathExists: string -> bool, loads: (string, int) -> bool)

  /** The text extent a font gives a string (the textbbox width and height). */
  datatype Metrics = Metrics(width: (Font, string) -> int, height: (Font, string) -> int)

  predicate Usable(fs: FileSystem, path: string, size: int)
  {
    fs.pathExists(path) && fs.loads(path, size)
  }

  /** The first candidate path that exists and loads wins; with none, the
      built-in font. */
  function FirstUsable(paths: seq<string>, size: int, fs: FileSystem): (f: Font)
    ensures f.BuiltIn? <==> forall k :: 0 <= k < |paths| ==> !Usable(fs, paths[k], size)
    ensures f.TrueType? ==> f.size == size && exists k :: (0 <= k < |paths| && paths[k] == f.path
                              && Usable(fs, paths[k], size) && forall k' :: 0 <= k' < k ==> !Usable(fs, paths[k'], size))
  {
    if paths == [] then BuiltIn
    else if Usable(fs, paths[0], size) then TrueType(paths[0], size)
    else
      var f := FirstUsable(paths[1..], size, fs);
      assert f.TrueType? ==> exists k :: (1 <= k < |paths| && paths[k] == f.path
                               && Usable(fs, paths[k], size) && forall k' :: 0 <= k' < k ==> !Usable(fs, paths[k'], size)) by {
        if f.TrueType? {
          var k :| 0 <= k < |paths[1..]| && paths[1..][k] == f.path
            && Usable(fs, paths[1..][k], size) && forall k' :: 0 <= k' < k ==> !Usable(fs, paths[1..][k'], size);
          assert forall k' :: 0 <= k' < k + 1 ==> !Usable(fs, paths[k'], size) by {
            forall k' | 0 <= k' < k + 1 ensures !Usable(fs, paths[k'], size) {
              if k' > 0 { assert paths[k'] == paths[1..][k' - 1]; }
            }
          }
        }
      }
      f
  }

  /** The font get_font resolves for a template name and mode. */
  function ResolvedFont(name: Option<string>, wordByWordMode: bool, fs: FileSystem): Font
  {
    var t := RendererTemplate(name);
    FirstUsable(t.fontPaths, FontSize(t, wordByWordMode), fs)
  }

  method GetFont(name: Option<string>, wordByWordMode: bool, fs: FileSystem) returns (font: Font)
    ensures font == ResolvedFont(name, wordByWordMode, fs)
  {
    var template := RendererTemplate(name);
    var size := FontSize(template, wordByWordMode);
    font := FindUsableFont(template.fontPaths, size, fs);
  }

  /** get_font's search: the first candidate that exists and loads, else the
      built-in font. */
  method FindUsableFont(paths: seq<string>, size: int, fs: FileSystem) returns (font: Font)
    ensures font == FirstUsable(paths, size, fs)
  {
    var i := 0;
    while i < |paths|
      invariant 0 <= i <= |paths|
      invariant FirstUsable(paths, size, fs) == FirstUsable(paths[i..], size, fs)
    {
      assert paths[i..][1..] == paths[i + 1..];
      if Usable(fs, paths[i], size) {
        return TrueType(paths[i], size);
      }
      i := i + 1;
    }
    font := BuiltIn;
  }

  /** The first candidate path that exists; loading is not tried here. */
  function FirstExisting(paths: seq<string>, fs: FileSystem): (p: Option<string>)
    ensures p.None? <==> forall k :: 0 <= k < |paths| ==> !fs.pathExists(paths[k])
    ensures p.Some? ==> exists k :: (0 <= k < |paths| && paths[k] == p.value
                          && fs.pathExists(paths[k]) && forall k' :: 0 <= k' < k ==> !fs.pathExists(paths[k']))
  {
    if paths == [] then None
    else if fs.pathExists(paths[0]) then Some(paths[0])
    else
      var p := FirstExisting(paths[1..], fs);
      assert p.Some? ==> exists k :: (1 <= k < |paths| && paths[k] == p.value
                           && fs.pathExists(paths[k]) && forall k' :: 0 <= k' < k ==> !fs.pathExists(paths[k'])) by {
        if p.Some? {
          var k :| 0 <= k < |paths[1..]| && paths[1..][k] == p.value
            && fs.pathExists(paths[1..][k]) && forall k' :: 0 <= k' < k ==> !fs.pathExists(paths[1..][k']);
          assert forall k' :: 0 <= k' < k + 1 ==> !fs.pathExists(paths[k']) by {
            forall k' | 0 <= k' < k + 1 ensures !fs.pathExists(paths[k']) {
              if k' > 0 { assert paths[k'] == paths[1..][k' - 1]; }
            }
          }
        }
      }
      p
  }

  method FindExistingPath(paths: seq<string>, fs: FileSystem) returns (p: Option<string>)
    ensures p == FirstExisting(paths, fs)
  {
    p := None;
    for i := 0 to |paths|
      invariant FirstExisting(paths, fs) == FirstExisting(paths[i..], fs)
    {
      assert paths[i..][1..] == paths[i + 1..];
      if fs.pathExists(paths[i]) {
        p := Some(paths[i]);
        break;
      }
    }
  }

  /** int(x) on a real: truncation toward zero. */
  function Trunc(x: real): (n: int)
    ensures x >= 0.0 ==> n as real <= x < n as real + 1.0
    ensures x < 0.0 ==> n as real - 1.0 < x <= n as real
  {
    if x >= 0.0 then x.Floor else -((-x).Floor)
  }

  /** int(font_size * scale_factor), with the source's default factor 1.2. */
  function ScaledSize(t: Template): int
  {
    Trunc(t.fontSize as real * t.scaleFactor.GetOr(1.2))
  }

  /** The scale effect's font: the first existing candidate at the scaled
      size; the regular font when no candidate exists or it fails to load. */
  function ScaledFont(t: Template, regular: Font, fs: FileSystem): (f: Font)
    ensures f != regular ==>
      f.TrueType? && f.size == ScaledSize(t) && f.path in t.fontPaths && fs.pathExists(f.path) && fs.loads(f.path, f.size)
    ensures FirstExisting(t.fontPaths, fs).Some? && fs.loads(FirstExisting(t.fontPaths, fs).value, ScaledSize(t)) ==>
      f == TrueType(FirstExisting(t.fontPaths, fs).value, ScaledSize(t))
    ensures !(FirstExisting(t.fontPaths, fs).Some? && fs.loads(FirstExisting(t.fontPaths, fs).value, ScaledSize(t))) ==>
      f == regular
  {
    var p := FirstExisting(t.fontPaths, fs);
    if p.Some? && fs.loads(p.value, ScaledSize(t)) then TrueType(p.value, ScaledSize(t)) else regular
  }

  /** The scale effect's font loading, as the renderer does it. */
  method LoadScaledFont(t: Template, regular: Font, fs: FileSystem) returns (f: Font)
    ensures f == ScaledFont(t, regular, fs)
  {
    var size := ScaledSize(t);
    var path := FindExistingPath(t.fontPaths, fs);
    f := if path.Some? && fs.loads(path.value, size) then TrueType(path.value, size) else regular;
  }

  lemma ScaledSizesOfCatalogue()
    ensures ScaledSize(CAPTION_TEMPLATES[9].1) == 74
    ensures ScaledSize(CAPTION_TEMPLATES[11].1) == 80
  {
  }
}
