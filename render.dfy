/**
 * The caption renderer (render_caption_png_wrapped) as the ordered list of
 * drawing operations it issues: the text is case-transformed, wrapped into
 * lines, and each line is drawn centred, either whole or word by word with
 * one word highlighted (a coloured bar behind it, a palette colour, or a
 * palette colour in a larger font).
 */
module Render {
  import opened Wrappers
  import opened Text
  import opened Templates
  import opened Fonts
  import opened Wrapping
  import opened WrapFacts
  import opened Layout
  import opened Stroke

  /** The bar's corner radius. */
  const BAR_RADIUS: int := 8

  /** What the renderer reads from the template and its environment. */
  datatype Style = Style(t: Template, font: Font, palette: seq<Color>, effects: Effects,
                         fs: FileSystem, metrics: Metrics)

  /** The text after the template's case transform. */
  function CasedText(name: Option<string>, text: string): string
  {
    ApplyCase(RendererTemplate(name), text)
  }

  /** Word-by-word rendering applies to a single-word caption of a
      word-by-word template; it selects the enhanced font size. */
  predicate WordByWordCaption(name: Option<string>, text: string)
  {
    RendererTemplate(name).wordByWord && |Split(CasedText(name, text))| == 1
  }

  function StyleFor(name: Option<string>, text: string, fs: FileSystem, metrics: Metrics): Style
  {
    var t := RendererTemplate(name);
    Style(t, ResolvedFont(name, WordByWordCaption(name, text), fs), HighlightColors(t), EffectsOf(t), fs, metrics)
  }

  /** The palette colour of highlighted word h (Python's % with a positive
      divisor never gives a negative index, as Dafny's). */
  function PaletteColor(palette: seq<Color>, h: int): Color
    requires palette != []
  {
    palette[h % |palette|]
  }

  /** The bar behind a highlighted word whose box is w by h at (x, y): pad
      pixels beyond the box on every side. */
  function BarAround(x: int, y: int, w: int, h: int, pad: int, fill: Color): (op: Op)
    ensures op.Bar? && op.x2 - op.x1 == w + 2 * pad && op.y2 - op.y1 == h + 2 * pad
    ensures op.x1 + pad == x && op.y1 + pad == y && op.radius == BAR_RADIUS && op.fill == fill
  {
    Bar(x - pad, y - pad, x + w + pad, y + h + pad, BAR_RADIUS, fill)
  }

  /** The operations for word `word`, the index-th word of the text, drawn at
      (x, y) on a line of the word-by-word mode, h being the highlighted index. */
  function WordOps(st: Style, word: string, index: int, h: int, x: int, y: int): seq<Op>
    requires st.palette != []
  {
    var m, f, e := st.metrics, st.font, st.effects;
    if index != h then StrokePlan(Point(x, y), word, f, st.t.textColor, e)
    else if st.t.highlightBars then
      [BarAround(x, y, m.width(f, word), m.height(f, word), st.t.barPadding.GetOr(8), PaletteColor(st.palette, h))]
      + StrokePlan(Point(x, y), word, f, st.t.textColor, e)
    else if st.t.scaleEffect then
      var sf := ScaledFont(st.t, f, st.fs);
      var off := ScaledYOffset(m.height(sf, word), m.height(f, word));
      StrokePlan(Point(x, y - off), word, sf, PaletteColor(st.palette, h), e)
    else StrokePlan(Point(x, y), word, f, PaletteColor(st.palette, h), e)
  }

  /** How far the cursor moves after the word: the width of the word and a
      space, in the scaled font for a scaled highlighted word. */
  function Advance(st: Style, word: string, index: int, h: int): int
  {
    var f := if index == h && !st.t.highlightBars && st.t.scaleEffect then ScaledFont(st.t, st.font, st.fs)
             else st.font;
    st.metrics.width(f, word + " ")
  }

  /** The cursor before word n of a line that starts at x0. */
  function WordX(st: Style, ws: seq<string>, start: int, h: int, x0: int, n: nat): int
    requires n <= |ws|
  {
    if n == 0 then x0 else WordX(st, ws, start, h, x0, n - 1) + Advance(st, ws[n - 1], start + n - 1, h)
  }

  /** The operations for the first n words of a line drawn word by word. */
  function WordsPlan(st: Style, ws: seq<string>, start: int, h: int, x0: int, y: int, n: nat): seq<Op>
    requires st.palette != [] && n <= |ws|
  {
    if n == 0 then []
    else WordsPlan(st, ws, start, h, x0, y, n - 1)
         + WordOps(st, ws[n - 1], start + n - 1, h, WordX(st, ws, start, h, x0, n - 1), y)
  }

  /** One more word: its operations follow the earlier ones and the cursor
      moves by its advance. */
  lemma WordsPlanStep(st: Style, ws: seq<string>, start: int, h: int, x0: int, y: int, n: nat)
    requires st.palette != [] && n < |ws|
    ensures WordsPlan(st, ws, start, h, x0, y, n + 1)
         == WordsPlan(st, ws, start, h, x0, y, n) + WordOps(st, ws[n], start + n, h, WordX(st, ws, start, h, x0, n), y)
    ensures WordX(st, ws, start, h, x0, n + 1) == WordX(st, ws, start, h, x0, n) + Advance(st, ws[n], start + n, h)
  {
  }

  /** The line is drawn whole when there is no palette or no highlighted word. */
  predicate PlainMode(st: Style, highlight: Option<int>)
  {
    st.palette == [] || highlight.None?
  }

  /** The operations for line j, whose first word has index start, with the
      block's top at yStart. */
  function LineOps(st: Style, line: string, j: nat, start: int, highlight: Option<int>, yStart: int): seq<Op>
  {
    var x := XStart(Width(st.metrics, st.font, line));
    var y := LineY(yStart, j, Height(st.metrics, st.font, line), st.t.lineSpacing);
    if PlainMode(st, highlight) then StrokePlan(Point(x, y), line, st.font, st.t.textColor, st.effects)
    else
      var ws := Split(line);
      WordsPlan(st, ws, start, highlight.value, x, y, |ws|)
  }

  /** The index the renderer's search finds for line j: the first word mapped
      to it, or 0 when there is none. */
  ghost function StartIndex(m: seq<nat>, j: nat): nat
  {
    if j in m then FirstAt(m, j) else 0
  }

  /** The operations for the first n lines. */
  ghost function LinesPlan(st: Style, lines: seq<string>, m: seq<nat>, highlight: Option<int>,
                           yStart: int, n: nat): seq<Op>
    requires n <= |lines|
  {
    if n == 0 then []
    else LinesPlan(st, lines, m, highlight, yStart, n - 1)
         + LineOps(st, lines[n - 1], n - 1, StartIndex(m, n - 1), highlight, yStart)
  }

  lemma LinesPlanStep(st: Style, lines: seq<string>, m: seq<nat>, highlight: Option<int>, yStart: int, j: nat)
    requires j < |lines|
    ensures LinesPlan(st, lines, m, highlight, yStart, j + 1)
            == LinesPlan(st, lines, m, highlight, yStart, j) + LineOps(st, lines[j], j, StartIndex(m, j), highlight, yStart)
  {
  }

  /** The search for the first word of line j. */
  method LineStartIndex(mapping: seq<nat>, j: nat) returns (i: nat)
    ensures i == StartIndex(mapping, j)
  {
    i := 0;
    for k := 0 to |mapping|
      invariant forall f :: 0 <= f < k ==> Absent(mapping, j, f)
    {
      if mapping[k] == j {
        FirstAtUnique(mapping, j, k);
        return k;
      }
    }
    assert j !in mapping by {
      forall k | 0 <= k < |mapping| ensures mapping[k] != j {
        assert Absent(mapping, j, k);
      }
    }
  }

  /** The scale effect: the word in the scaled font, in the palette colour,
      raised so that its middle stays level with the line's. */
  method DrawScaled(st: Style, word: string, h: int, x: int, y: int)
    returns (ops: seq<Op>, advance: int)
    requires st.palette != [] && !st.t.highlightBars && st.t.scaleEffect
    ensures ops == WordOps(st, word, h, h, x, y)
    ensures advance == Advance(st, word, h, h)
  {
    var m, f := st.metrics, st.font;
    var sf := LoadScaledFont(st.t, f, st.fs);
    var off := ScaledYOffset(m.height(sf, word), m.height(f, word));
    ops := DrawTextWithStroke(Point(x, y - off), word, sf, PaletteColor(st.palette, h), st.effects);
    advance := m.width(sf, word + " ");
  }

  /** The highlighted word: a bar behind it, a scaled font, or the palette
      colour, as the template says. */
  method DrawHighlighted(st: Style, word: string, h: int, x: int, y: int)
    returns (ops: seq<Op>, advance: int)
    requires st.palette != []
    ensures ops == WordOps(st, word, h, h, x, y)
    ensures advance == Advance(st, word, h, h)
  {
    var m, f, e := st.metrics, st.font, st.effects;
    var color := PaletteColor(st.palette, h);
    if st.t.highlightBars {
      var pad := st.t.barPadding.GetOr(8);
      var w, wh := m.width(f, word), m.height(f, word);
      var drawn := DrawTextWithStroke(Point(x, y), word, f, st.t.textColor, e);
      ops := [BarAround(x, y, w, wh, pad, color)] + drawn;
      advance := m.width(f, word + " ");
    } else if st.t.scaleEffect {
      ops, advance := DrawScaled(st, word, h, x, y);
    } else {
      ops := DrawTextWithStroke(Point(x, y), word, f, color, e);
      advance := m.width(f, word + " ");
    }
  }

  /** One word of a highlighted line: its operations and the cursor's advance. */
  method DrawWord(st: Style, word: string, index: int, h: int, x: int, y: int)
    returns (ops: seq<Op>, advance: int)
    requires st.palette != []
    ensures ops == WordOps(st, word, index, h, x, y)
    ensures advance == Advance(st, word, index, h)
  {
    if index == h {
      ops, advance := DrawHighlighted(st, word, h, x, y);
    } else {
      ops := DrawTextWithStroke(Point(x, y), word, st.font, st.t.textColor, st.effects);
      advance := st.metrics.width(st.font, word + " ");
    }
  }

  /** The words of a highlighted line, the cursor advancing from x. */
  method DrawWords(st: Style, lineWords: seq<string>, start: int, h: int, x: int, y: int)
    returns (ops: seq<Op>)
    requires st.palette != []
    ensures ops == WordsPlan(st, lineWords, start, h, x, y, |lineWords|)
  {
    var currentX := x;
    ops := [];
    for p := 0 to |lineWords|
      invariant currentX == WordX(st, lineWords, start, h, x, p)
      invariant ops == WordsPlan(st, lineWords, start, h, x, y, p)
    {
      var drawn, advance := DrawWord(st, lineWords[p], start + p, h, currentX, y);
      WordsPlanStep(st, lineWords, start, h, x, y, p);
      ops := ops + drawn;
      currentX := currentX + advance;
    }
  }

  /** One line: whole, or word by word. */
  method DrawLine(st: Style, line: string, j: nat, start: int, highlight: Option<int>, yStart: int)
    returns (ops: seq<Op>)
    ensures ops == LineOps(st, line, j, start, highlight, yStart)
  {
    var w, lh := Width(st.metrics, st.font, line), Height(st.metrics, st.font, line);
    var x := XStart(w);
    var y := LineY(yStart, j, lh, st.t.lineSpacing);
    if st.palette == [] || highlight.None? {
      ops := DrawTextWithStroke(Point(x, y), line, st.font, st.t.textColor, st.effects);
    } else {
      ops := DrawWords(st, Split(line), start, highlight.value, x, y);
    }
  }

  /** The line loop: every line in order, each from its first word's index. */
  method DrawLines(st: Style, lines: seq<string>, mapping: seq<nat>, highlight: Option<int>, yStart: int)
    returns (ops: seq<Op>)
    ensures ops == LinesPlan(st, lines, mapping, highlight, yStart, |lines|)
  {
    ops := [];
    for j := 0 to |lines|
      invariant ops == LinesPlan(st, lines, mapping, highlight, yStart, j)
    {
      var start := LineStartIndex(mapping, j);
      var drawn := DrawLine(st, lines[j], j, start, highlight, yStart);
      LinesPlanStep(st, lines, mapping, highlight, yStart, j);
      ops := ops + drawn;
    }
  }

  /** render_caption_png_wrapped: the lines and word-to-line mapping of the
      wrap, and every drawing operation in order. */
  method RenderCaption(text: string, highlight: Option<int>, name: Option<string>, fs: FileSystem, metrics: Metrics)
    returns (lines: seq<string>, mapping: seq<nat>, ops: seq<Op>)
    ensures var st := StyleFor(name, text, fs, metrics);
      && LinePartition(Split(CasedText(name, text)), lines, mapping)
      && Greedy(Split(CasedText(name, text)), mapping, metrics, st.font)
      && ops == LinesPlan(st, lines, mapping, highlight,
                          YStart(TotalHeight(metrics, st.font, lines, st.t.lineSpacing)), |lines|)
  {
    var template := RendererTemplate(name);
    var cased := ApplyCase(template, text);
    var isWordByWord := template.wordByWord && |Split(cased)| == 1;
    var font := GetFont(name, isWordByWord, fs);
    var st := Style(template, font, HighlightColors(template), EffectsOf(template), fs, metrics);
    lines, mapping := WrapText(cased, metrics, font);
    ops := DrawLines(st, lines, mapping, highlight, YStart(TotalHeight(metrics, font, lines, template.lineSpacing)));
  }

  // ---------------------------------------------------------------------
  // What the drawing plan means

  /** How each word of a highlighted line is drawn: its text comes last, in
      the text colour unless it is the highlighted word; the highlighted word
      gets the palette colour h mod |palette|, or, with highlight bars, a bar
      in that colour behind text in the text colour. */
  lemma WordTreatment(st: Style, word: string, index: int, h: int, x: int, y: int)
    requires st.palette != []
    ensures var ops := WordOps(st, word, index, h, x, y);
      var last := ops[|ops| - 1];
      && last.Text? && last.text == word
      && (index != h ==> last == Text(Point(x, y), word, st.font, st.t.textColor))
      && (index == h && st.t.highlightBars ==>
            && ops[0] == BarAround(x, y, st.metrics.width(st.font, word), st.metrics.height(st.font, word),
                                   st.t.barPadding.GetOr(8), PaletteColor(st.palette, h))
            && last == Text(Point(x, y), word, st.font, st.t.textColor))
      && (index == h && !st.t.highlightBars ==> last.fill == PaletteColor(st.palette, h))
      && (index == h && !st.t.highlightBars && !st.t.scaleEffect ==>
            last == Text(Point(x, y), word, st.font, PaletteColor(st.palette, h)))
  {
    var e := st.effects;
    StrokePlanShape(Point(x, y), word, st.font, st.t.textColor, e);
    StrokePlanShape(Point(x, y), word, st.font, PaletteColor(st.palette, h), e);
    var sf := ScaledFont(st.t, st.font, st.fs);
    var off := ScaledYOffset(st.metrics.height(sf, word), st.metrics.height(st.font, word));
    StrokePlanShape(Point(x, y - off), word, sf, PaletteColor(st.palette, h), e);
  }

  /** The palette index is never taken modulo an empty palette: without a
      palette (or without a highlighted word) each line is drawn whole, in the
      text colour, centred, and no operation uses a palette colour. */
  lemma PlainLine(st: Style, line: string, j: nat, start: int, highlight: Option<int>, yStart: int)
    requires PlainMode(st, highlight)
    ensures var ops := LineOps(st, line, j, start, highlight, yStart);
      var x := XStart(Width(st.metrics, st.font, line));
      var y := LineY(yStart, j, Height(st.metrics, st.font, line), st.t.lineSpacing);
      && ops[|ops| - 1] == Text(Point(x, y), line, st.font, st.t.textColor)
      && forall k :: 0 <= k < |ops| ==> ops[k].Text? && ops[k].text == line
  {
    var x := XStart(Width(st.metrics, st.font, line));
    var y := LineY(yStart, j, Height(st.metrics, st.font, line), st.t.lineSpacing);
    StrokePlanShape(Point(x, y), line, st.font, st.t.textColor, st.effects);
    StrokePlanShadow(Point(x, y), line, st.font, st.t.textColor, st.effects);
    StrokePlanRing(Point(x, y), line, st.font, st.t.textColor, st.effects);
  }

  /** The index arithmetic of a highlighted line: position p of line j is the
      word StartIndex(m, j) + p of the text, and that index is the highlighted
      index h exactly when h is a word of line j at position p, so exactly
      the word words[h] is given the highlight treatment, whatever its line. */
  lemma HighlightedWord(words: seq<string>, lines: seq<string>, m: seq<nat>, j: nat, p: nat, h: int)
    requires AllTokens(words) && LinePartition(words, lines, m)
    requires j < |lines| && p < |Split(lines[j])|
    ensures StartIndex(m, j) + p < |words|
    ensures Split(lines[j])[p] == words[StartIndex(m, j) + p]
    ensures StartIndex(m, j) + p == h <==> (0 <= h < |words| && m[h] == j && p == h - FirstAt(m, j))
  {
    LineWords(words, lines, m, j);
    assert m[FirstAt(m, j)] == j;
    HighlightTarget(words, lines, m, j, p, h);
  }

  /** The cursor's advance in the regular font: the widths of word + " " of
      the words before it. */
  function RegularAdvance(metrics: Metrics, font: Font, ws: seq<string>, n: nat): int
    requires n <= |ws|
  {
    if n == 0 then 0 else RegularAdvance(metrics, font, ws, n - 1) + metrics.width(font, ws[n - 1] + " ")
  }

  /** Word n of a line starts at the line's left edge plus the widths of the
      earlier words, each with its trailing space, unless a scaled highlighted
      word comes earlier on the line. */
  lemma {:induction false} CursorPosition(st: Style, ws: seq<string>, start: int, h: int, x0: int, n: nat)
    requires n <= |ws|
    requires !(start <= h < start + n && st.t.scaleEffect && !st.t.highlightBars)
    ensures WordX(st, ws, start, h, x0, n) == x0 + RegularAdvance(st.metrics, st.font, ws, n)
  {
    if n > 0 {
      CursorPosition(st, ws, start, h, x0, n - 1);
    }
  }
}
