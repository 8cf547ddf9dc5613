/**
 * The caption template catalogue (CAPTION_TEMPLATES) and the rules that read
 * it: lookup with fallback, the font-size choice, the case transform, the
 * highlight palette, the upload handler's highlighting switch and the
 * template listing.
 */
module Templates {
  import opened Wrappers
  import opened Text

  datatype Color = Rgba(r: int, g: int, b: int, a: int)

  /** One catalogue entry. A key the source may leave out is an Option (None
      when absent or None); a missing boolean flag is false. */
  datatype Template = Template(
    name: string,
    fontPaths: seq<string>,
    fontSize: int,
    textColor: Color,
    highlightColor: Option<Color>,          // "highlight_color"
    highlightColors: Option<seq<Color>>,    // "highlight_colors"; None when the key is absent
    lineSpacing: int,
    strokeColor: Option<Color>,
    strokeWidth: int,
    shadowColor: Option<Color>,
    shadowOffset: Option<(int, int)>,
    uppercase: bool,
    titleCase: bool,
    wordByWord: bool,
    enhancedFontSize: Option<int>,
    scaleEffect: bool,
    scaleFactor: Option<real>,
    highlightBars: bool,
    barPadding: Option<int>)

  const WHITE := Rgba(255, 255, 255, 255)
  const BLACK := Rgba(0, 0, 0, 255)
  const SHADOW := Rgba(0, 0, 0, 128)

  /** The fallback font list shared by every styled template. */
  function StyledPaths(file: string): seq<string>
  {
    ["fonts/" + file, file, "fonts/arial.ttf", "C:/Windows/Fonts/arial.ttf"]
  }

  /** The shape most entries share: a palette, a black stroke and a
      semi-transparent black shadow offset by (4, 4). */
  function Styled(name: string, fontFile: string, size: int,
                  text: Color, palette: seq<Color>, spacing: int, strokeWidth: int): Template
  {
    Template(name, StyledPaths(fontFile), size, text, None, Some(palette), spacing,
             Some(BLACK), strokeWidth, Some(SHADOW), Some((4, 4)),
             false, false, false, None, false, None, false, None)
  }

  const DEFAULT_TEMPLATE := Template(
    "Default",
    ["arial.ttf", "C:/Windows/Fonts/arial.ttf", "C:/Windows/Fonts/calibri.ttf",
     "/System/Library/Fonts/Helvetica.ttc", "/usr/share/fonts/truetype/dejavu/DejaVuSans.ttf",
     "/usr/share/fonts/truetype/liberation/LiberationSans-Regular.ttf"],
    72, WHITE, None, None, 30, None, 0, None, None,
    false, false, false, None, false, None, false, None)

  const MRBEAST_TEMPLATE := Styled(
    "MrBeast Style",
    "Komikax.ttf", 65, WHITE,
    [Rgba(255, 255, 0, 255), Rgba(0, 255, 0, 255), Rgba(255, 0, 0, 255)], 30, 3)

  /** CAPTION_TEMPLATES, in the dictionary's insertion order. */
  const CAPTION_TEMPLATES: seq<(string, Template)> := [
    ("default", DEFAULT_TEMPLATE),
    ("MrBeast", MRBEAST_TEMPLATE),
    ("Bold Green", Styled(
      "Bold Green",
      "Uni Sans Heavy.otf", 65, WHITE, [Rgba(0, 255, 0, 255)], 40, 3)),
    ("Bold Sunshine", Styled(
      "Bold Sunshine",
      "Theboldfont.ttf", 65, WHITE, [Rgba(255, 255, 0, 255)], 40, 2)),
    ("Premium Orange", Styled(
      "Premium Orange",
      "Poppins-BoldItalic.ttf", 65, WHITE, [Rgba(235, 91, 0, 255)], 40, 3).(uppercase := true)),
    ("Minimal White", Styled(
      "Minimal White",
      "SpiegelSans.otf", 65, WHITE, [WHITE], 40, 3)),
    ("Orange Meme", Styled(
      "Orange Meme",
      "LuckiestGuy.ttf", 65, Rgba(255, 140, 0, 255), [Rgba(255, 140, 0, 255)], 40, 3).(uppercase := true)),
    ("Cinematic Quote", Styled(
      "Cinematic Quote",
      "Proxima Nova Alt Condensed Black Italic.otf", 65, WHITE, [Rgba(255, 255, 0, 255)], 40, 3).(titleCase := true)),
    ("Word by Word", Styled(
      "Word by Word",
      "Poppins-BlackItalic.ttf", 75, WHITE, [WHITE], 50, 3).(wordByWord := true, enhancedFontSize := Some(82))),
    ("esports_caption", Styled(
      "Esports Caption",
      "Exo2-Black.ttf", 65, WHITE, [Rgba(255, 69, 0, 255)], 40, 2)
      .(uppercase := true, scaleEffect := true, scaleFactor := Some(1.15))),
    ("explainer_pro", Styled(
      "Explainer Pro",
      "HelveticaRoundedLTStd-Bd.ttf", 65, WHITE, [Rgba(255, 140, 0, 230)], 40, 2)
      .(highlightBars := true, barPadding := Some(8))),
    ("Reaction Pop", Styled(
      "Reaction Pop",
      "Proxima Nova Alt Condensed Black.otf", 70, WHITE, [Rgba(255, 0, 0, 255)], 45, 3)
      .(shadowColor := None, shadowOffset := None, titleCase := true, scaleEffect := true, scaleFactor := Some(1.15)))
  ]

  /** The "description" of each entry, in catalogue order. It is kept apart
      from the entries because only the template listing reads it. */
  const CAPTION_DESCRIPTIONS: seq<string> := [
    "Simple white text with no effects",
    "Komikax font with cycling colors (Yellow\U{2192}Green\U{2192}Red), 3px stroke, and shadow",
    "Uni Sans Heavy font with bright green word highlighting and shadow",
    "Theboldfont with bright yellow word highlighting, 2px outline, and extra large spacing",
    "Poppins Bold Italic with vibrant orange highlighting, uppercase text, and dynamic spacing",
    "SpiegelSans with clean white highlighting, minimal styling, and professional spacing",
    "LuckiestGuy with uniform orange color, bold cartoon styling, and uppercase text",
    "Proxima Nova Alt Condensed Black Italic with bright yellow highlighting and title case",
    "Poppins Black Italic with word-by-word display, enhanced font size, and uniform white color",
    "Exo2-Black with vibrant red-orange highlighting, gaming-style effects, and uppercase text",
    "Helvetica Rounded with semi-transparent orange highlight bars behind important words",
    "Proxima Nova Alt Condensed Black with vibrant red highlighting and title case formatting"
  ]

  /** The template used when a caller names none. */
  const CURRENT_TEMPLATE := "MrBeast"

  function Keys(entries: seq<(string, Template)>): (ks: seq<string>)
    ensures |ks| == |entries|
    ensures forall i :: 0 <= i < |entries| ==> ks[i] == entries[i].0
  {
    if entries == [] then [] else [entries[0].0] + Keys(entries[1..])
  }

  /** dict.get(key): the first entry stored under the key, if any. */
  function Find(entries: seq<(string, Template)>, key: string): (r: Option<Template>)
    ensures r.None? <==> key !in Keys(entries)
    ensures r.Some? ==> exists i :: 0 <= i < |entries| && entries[i] == (key, r.value)
  {
    if entries == [] then None
    else if entries[0].0 == key then Some(entries[0].1)
    else
      assert Keys(entries) == [entries[0].0] + Keys(entries[1..]);
      var r := Find(entries[1..], key);
      assert r.Some? ==> exists i :: 0 <= i < |entries[1..]| && entries[1..][i] == (key, r.value);
      r
  }

  predicate IsKey(key: string)
  {
    key in Keys(CAPTION_TEMPLATES)
  }

  lemma CatalogKeysDistinct()
    ensures forall i, j :: 0 <= i < j < |CAPTION_TEMPLATES| ==> CAPTION_TEMPLATES[i].0 != CAPTION_TEMPLATES[j].0
  {
  }

  /** The renderer's and get_font's choice: the named template, CURRENT_TEMPLATE
      when none is named, the "default" entry when the name is unknown. */
  function RendererTemplate(name: Option<string>): Template
  {
    Find(CAPTION_TEMPLATES, name.GetOr(CURRENT_TEMPLATE)).GetOr(DEFAULT_TEMPLATE)
  }

  /** The upload handler's validation: an unknown name becomes "MrBeast". */
  function UploadTemplateKey(name: string): (key: string)
  {
    if IsKey(name) then name else "MrBeast"
  }

  /** The upload handler's selected template (its own fallback is MrBeast). */
  function UploadTemplate(name: string): Template
  {
    Find(CAPTION_TEMPLATES, UploadTemplateKey(name)).GetOr(MRBEAST_TEMPLATE)
  }

  /** The upload handler passes its validated key on to the renderer, so both
      read the same entry and the renderer's own fallback is never taken. */
  lemma UploadAndRendererAgree(name: string)
    ensures IsKey(UploadTemplateKey(name))
    ensures RendererTemplate(Some(UploadTemplateKey(name))) == UploadTemplate(name)
    ensures IsKey(name) ==> UploadTemplate(name) == Find(CAPTION_TEMPLATES, name).value
  {
    assert CAPTION_TEMPLATES[1].0 == "MrBeast";
    assert Keys(CAPTION_TEMPLATES)[1] == "MrBeast";
  }

  /** For an unknown name the two fallbacks differ: the renderer takes
      "default", the upload handler "MrBeast". */
  lemma FallbacksDiffer(name: string)
    requires !IsKey(name)
    ensures RendererTemplate(Some(name)) == DEFAULT_TEMPLATE
    ensures UploadTemplate(name) == MRBEAST_TEMPLATE
    ensures DEFAULT_TEMPLATE != MRBEAST_TEMPLATE
  {
    assert Find(CAPTION_TEMPLATES, "MrBeast") == Some(MRBEAST_TEMPLATE);
    assert Keys(CAPTION_TEMPLATES)[1] == "MrBeast";
  }

  /** The font size: the enhanced size only when word-by-word rendering is
      asked for and the template supports it. */
  function FontSize(t: Template, wordByWordMode: bool): (size: int)
    ensures wordByWordMode && t.wordByWord && t.enhancedFontSize.Some? ==> size == t.enhancedFontSize.value
    ensures !(wordByWordMode && t.wordByWord && t.enhancedFontSize.Some?) ==> size == t.fontSize
  {
    if wordByWordMode && t.wordByWord then t.enhancedFontSize.GetOr(t.fontSize) else t.fontSize
  }

  /** The case transform: uppercase wins over title case. */
  function ApplyCase(t: Template, s: string): string
  {
    if t.uppercase then Upper(s) else if t.titleCase then Title(s) else s
  }

  lemma ApplyCaseRules(t: Template, s: string)
    ensures t.uppercase ==> ApplyCase(t, s) == Upper(s)
    ensures !t.uppercase && t.titleCase ==> ApplyCase(t, s) == Title(s)
    ensures !t.uppercase && !t.titleCase ==> ApplyCase(t, s) == s
    ensures SameShape(ApplyCase(t, s), s)
    ensures |Split(ApplyCase(t, s))| == |Split(s)|
  {
    UpperShape(s);
    TitleShape(s, false);
    SplitCountByShape(ApplyCase(t, s), s);
  }

  /** The renderer's palette: "highlight_colors" when present, otherwise the
      single "highlight_color" when set, otherwise none. */
  function HighlightColors(t: Template): seq<Color>
  {
    if t.highlightColors.Some? then t.highlightColors.value
    else if t.highlightColor.Some? then [t.highlightColor.value]
    else []
  }

  /** The upload handler's switch between per-word and per-phrase frames. */
  predicate UseHighlighting(t: Template)
  {
    t.highlightColor.Some? || (t.highlightColors.Some? && |t.highlightColors.value| > 0)
  }

  /** A non-empty palette always turns the upload handler's highlighting on;
      the converse holds for every catalogue entry. */
  lemma HighlightingAgreesWithPalette(t: Template)
    ensures HighlightColors(t) != [] ==> UseHighlighting(t)
    ensures t in CatalogTemplates() ==> (UseHighlighting(t) <==> HighlightColors(t) != [])
  {
  }

  function CatalogTemplates(): set<Template>
  {
    set i | 0 <= i < |CAPTION_TEMPLATES| :: CAPTION_TEMPLATES[i].1
  }

  /** The only way the two disagree: an empty "highlight_colors" list next to a
      set "highlight_color". No catalogue entry has that shape. */
  lemma HighlightingWithoutPalette(t: Template)
    requires UseHighlighting(t) && HighlightColors(t) == []
    ensures t.highlightColors == Some([]) && t.highlightColor.Some?
  {
  }

  /** One entry of the template listing. */
  datatype TemplateInfo = TemplateInfo(
    id: string, name: string, description: string, fontSize: int,
    hasHighlighting: bool, hasStroke: bool, hasShadow: bool)

  function Info(key: string, t: Template, description: string): TemplateInfo
  {
    TemplateInfo(key, t.name, description, t.fontSize,
                 (t.highlightColors.Some? && t.highlightColors.value != []) || t.highlightColor.Some?,
                 t.strokeColor.Some?, t.shadowColor.Some?)
  }

  /** The listing of a catalogue: one entry per key, in catalogue order,
      each with the entry's name, description, size and effect flags. */
  method ListEntries(entries: seq<(string, Template)>, descriptions: seq<string>) returns (infos: seq<TemplateInfo>)
    requires |descriptions| == |entries|
    ensures |infos| == |entries|
    ensures forall i :: 0 <= i < |infos| ==>
      var (key, t) := entries[i];
      && infos[i].id == key && infos[i].name == t.name && infos[i].fontSize == t.fontSize
      && infos[i].description == descriptions[i]
      && (infos[i].hasHighlighting <==> UseHighlighting(t))
      && (infos[i].hasStroke <==> t.strokeColor.Some?)
      && (infos[i].hasShadow <==> t.shadowColor.Some?)
  {
    infos := [];
    for i := 0 to |entries|
      invariant |infos| == i
      invariant forall k :: 0 <= k < i ==> infos[k] == Info(entries[k].0, entries[k].1, descriptions[k])
    {
      var (key, t) := entries[i];
      infos := infos + [Info(key, t, descriptions[i])];
    }
  }

  /** get_templates: the listing of the whole catalogue and the current
      template's key, which is itself in the catalogue. */
  method ListTemplates() returns (infos: seq<TemplateInfo>, current: string)
    ensures |infos| == |CAPTION_TEMPLATES|
    ensures forall i :: 0 <= i < |infos| ==>
      var (key, t) := CAPTION_TEMPLATES[i];
      && infos[i].id == key && infos[i].name == t.name && infos[i].fontSize == t.fontSize
      && infos[i].description == CAPTION_DESCRIPTIONS[i]
      && (infos[i].hasHighlighting <==> UseHighlighting(t))
      && (infos[i].hasStroke <==> t.strokeColor.Some?)
      && (infos[i].hasShadow <==> t.shadowColor.Some?)
    ensures current == CURRENT_TEMPLATE && IsKey(current)
  {
    infos := ListEntries(CAPTION_TEMPLATES, CAPTION_DESCRIPTIONS);
    current := CURRENT_TEMPLATE;
    assert Keys(CAPTION_TEMPLATES)[1] == "MrBeast";
  }
}
