/**
 * The layout arithmetic of the caption renderer: the block of lines centred
 * vertically in a 300-pixel canvas, each line centred horizontally in the
 * video width, the highlight bar around a word, and the vertical offset that
 * centres a scaled word on its line.
 */
module Layout {
  import opened Fonts
  import opened Wrapping

  const CANVAS_HEIGHT: int := 300

  /** The measured height of a string in a font. */
  function Height(metrics: Metrics, font: Font, s: string): int
  {
    metrics.height(font, s)
  }

  /** The height of the line block: every line's height plus the line spacing. */
  function TotalHeight(metrics: Metrics, font: Font, lines: seq<string>, spacing: int): int
  {
    if lines == [] then 0
    else Height(metrics, font, lines[0]) + spacing + TotalHeight(metrics, font, lines[1..], spacing)
  }

  /** Floor division by two, as Python's // 2 (also for a negative room). */
  function Half(room: int): (half: int)
    ensures 2 * half <= room < 2 * half + 2
  {
    room / 2
  }

  /** The top of the block: the room left above it is the room below it, or
      one pixel less; it is negative when the block is taller than the canvas. */
  function YStart(total: int): (y: int)
    ensures y <= CANVAS_HEIGHT - total - y <= y + 1
    ensures total > CANVAS_HEIGHT ==> y < 0
  {
    Half(CANVAS_HEIGHT - total)
  }

  /** The left edge of a line of width w: the margins differ by at most one pixel. */
  function XStart(w: int): (x: int)
    ensures x <= VIDEO_WIDTH - w - x <= x + 1
  {
    Half(VIDEO_WIDTH - w)
  }

  /** The top of line j: the block's top plus j times the line's own height
      and spacing (not a running sum of the lines above). */
  function LineY(yStart: int, j: nat, h: int, spacing: int): int
  {
    yStart + j * (h + spacing)
  }

  /** When every line has the same height h the total is |lines| (h + spacing). */
  lemma {:induction false} UniformTotal(metrics: Metrics, font: Font, lines: seq<string>, spacing: int, h: int)
    requires forall k :: 0 <= k < |lines| ==> Height(metrics, font, lines[k]) == h
    ensures TotalHeight(metrics, font, lines, spacing) == |lines| * (h + spacing)
  {
    if lines != [] {
      UniformTotal(metrics, font, lines[1..], spacing, h);
    }
  }

  /** With one common line height, consecutive lines stack without gap or
      overlap, the last one ending one spacing above the block's bottom. */
  lemma UniformLines(metrics: Metrics, font: Font, lines: seq<string>, spacing: int, h: int, yStart: int)
    requires forall k :: 0 <= k < |lines| ==> Height(metrics, font, lines[k]) == h
    ensures forall j: nat :: j + 1 < |lines| ==>
              LineY(yStart, j + 1, h, spacing) == LineY(yStart, j, h, spacing) + h + spacing
    ensures |lines| > 0 ==>
              LineY(yStart, |lines| - 1, h, spacing) + h + spacing == yStart + TotalHeight(metrics, font, lines, spacing)
  {
    UniformTotal(metrics, font, lines, spacing, h);
  }

  /** The scale effect's vertical shift: the scaled word's middle is level
      with the regular word's middle, to within half a pixel. */
  function ScaledYOffset(scaledHeight: int, regularHeight: int): (offset: int)
    ensures 0 <= (scaledHeight - regularHeight) - 2 * offset <= 1
    ensures scaledHeight >= regularHeight ==> offset >= 0
  {
    Half(scaledHeight - regularHeight)
  }
}
