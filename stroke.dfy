/**
 * The outlined, shadowed text of the caption renderer (draw_text_with_stroke)
 * as the ordered list of drawing operations it issues: the shadow's outline
 * ring and fill, then the outline ring of the text, then the text itself.
 */
module Stroke {
  import opened Wrappers
  import opened Templates
  import opened Fonts

  datatype Point = Point(x: int, y: int)

  /** A drawing operation on the caption canvas: text at a position in a fill
      colour, or a rounded bar between two corners (the highlight bar). */
  datatype Op =
    | Text(at: Point, text: string, font: Font, fill: Color)
    | Bar(x1: int, y1: int, x2: int, y2: int, radius: int, fill: Color)

  /** The outline and shadow settings a template passes on. */
  datatype Effects = Effects(strokeColor: Option<Color>, strokeWidth: int,
                             shadowColor: Option<Color>, shadowOffset: Option<(int, int)>)
  {
    /** The outline is drawn when a colour is set and the width is positive. */
    predicate StrokeOn()
    {
      strokeColor.Some? && strokeWidth > 0
    }

    /** The shadow is drawn when both its colour and its offset are set. */
    predicate ShadowOn()
    {
      shadowColor.Some? && shadowOffset.Some?
    }
  }

  function EffectsOf(t: Template): Effects
  {
    Effects(t.strokeColor, t.strokeWidth, t.shadowColor, t.shadowOffset)
  }

  /** The offsets (dx, dy) of row dx with dy in [-w, -w + n), skipping the
      centre (0, 0), in increasing dy. */
  function RowPart(w: int, dx: int, n: nat): seq<(int, int)>
  {
    if n == 0 then []
    else RowPart(w, dx, n - 1) + (if dx != 0 || -w + n - 1 != 0 then [(dx, -w + n - 1)] else [])
  }

  /** The rows dx = -w .. -w + n - 1 of the square of side 2w + 1, row by row. */
  function Rows(w: nat, n: nat): seq<(int, int)>
  {
    if n == 0 then [] else Rows(w, n - 1) + RowPart(w, -(w as int) + n - 1, 2 * w + 1)
  }

  /** The outline ring of width w: every offset of the square [-w, w]² but the
      centre, in the order of the two nested loops. */
  function Ring(w: nat): seq<(int, int)>
  {
    Rows(w, 2 * w + 1)
  }

  /** Text drawn once at each offset from a position. */
  function Shifted(offsets: seq<(int, int)>, at: Point, text: string, font: Font, fill: Color): seq<Op>
  {
    seq(|offsets|, k requires 0 <= k < |offsets| =>
      Text(Point(at.x + offsets[k].0, at.y + offsets[k].1), text, font, fill))
  }

  function RingOps(at: Point, w: nat, text: string, font: Font, fill: Color): seq<Op>
  {
    Shifted(Ring(w), at, text, font, fill)
  }

  /** The shadow part: the shadow's own outline ring (in the shadow colour)
      and the shadow text, both at the shadow position. */
  function ShadowOps(at: Point, text: string, font: Font, e: Effects): seq<Op>
  {
    if e.ShadowOn() then
      var s := Point(at.x + e.shadowOffset.value.0, at.y + e.shadowOffset.value.1);
      (if e.StrokeOn() then RingOps(s, e.strokeWidth, text, font, e.shadowColor.value) else [])
      + [Text(s, text, font, e.shadowColor.value)]
    else []
  }

  /** Everything draw_text_with_stroke draws, in order. */
  function StrokePlan(at: Point, text: string, font: Font, fill: Color, e: Effects): seq<Op>
  {
    ShadowOps(at, text, font, e)
    + (if e.StrokeOn() then RingOps(at, e.strokeWidth, text, font, e.strokeColor.value) else [])
    + [Text(at, text, font, fill)]
  }

  lemma ShiftedSnoc(done: seq<(int, int)>, p: (int, int), at: Point, text: string, font: Font, fill: Color)
    ensures Shifted(done + [p], at, text, font, fill)
         == Shifted(done, at, text, font, fill) + [Text(Point(at.x + p.0, at.y + p.1), text, font, fill)]
  {
  }

  lemma ShiftedAppend(a: seq<(int, int)>, b: seq<(int, int)>, at: Point, text: string, font: Font, fill: Color)
    ensures Shifted(a + b, at, text, font, fill) == Shifted(a, at, text, font, fill) + Shifted(b, at, text, font, fill)
  {
  }

  /** The inner loop of the outline: text at every offset of row dx but the centre. */
  method DrawRow(at: Point, w: nat, dx: int, text: string, font: Font, fill: Color) returns (ops: seq<Op>)
    ensures ops == Shifted(RowPart(w, dx, 2 * w + 1), at, text, font, fill)
  {
    ops := [];
    for dy := -(w as int) to w + 1
      invariant ops == Shifted(RowPart(w, dx, dy + w), at, text, font, fill)
    {
      if dx != 0 || dy != 0 {
        ShiftedSnoc(RowPart(w, dx, dy + w), (dx, dy), at, text, font, fill);
        ops := ops + [Text(Point(at.x + dx, at.y + dy), text, font, fill)];
      }
    }
  }

  /** The two nested loops of the outline: text at every offset of the ring. */
  method DrawRing(at: Point, w: nat, text: string, font: Font, fill: Color) returns (ops: seq<Op>)
    ensures ops == RingOps(at, w, text, font, fill)
  {
    ops := [];
    for dx := -(w as int) to w + 1
      invariant ops == Shifted(Rows(w, dx + w), at, text, font, fill)
    {
      var row := DrawRow(at, w, dx, text, font, fill);
      ShiftedAppend(Rows(w, dx + w), RowPart(w, dx, 2 * w + 1), at, text, font, fill);
      ops := ops + row;
    }
  }

  method DrawTextWithStroke(at: Point, text: string, font: Font, fill: Color, e: Effects) returns (ops: seq<Op>)
    ensures ops == StrokePlan(at, text, font, fill, e)
  {
    ops := [];
    if e.shadowColor.Some? && e.shadowOffset.Some? {
      var s := Point(at.x + e.shadowOffset.value.0, at.y + e.shadowOffset.value.1);
      if e.strokeColor.Some? && e.strokeWidth > 0 {
        var ring := DrawRing(s, e.strokeWidth, text, font, e.shadowColor.value);
        ops := ops + ring;
      }
      ops := ops + [Text(s, text, font, e.shadowColor.value)];
    }
    assert ops == ShadowOps(at, text, font, e);
    if e.strokeColor.Some? && e.strokeWidth > 0 {
      var ring := DrawRing(at, e.strokeWidth, text, font, e.strokeColor.value);
      ops := ops + ring;
    }
    ops := ops + [Text(at, text, font, fill)];
  }

  /** Lexicographic order on offsets: dx first, then dy. */
  predicate Before(p: (int, int), q: (int, int))
  {
    p.0 < q.0 || (p.0 == q.0 && p.1 < q.1)
  }

  predicate StrictlyOrdered(s: seq<(int, int)>)
  {
    forall i, j :: 0 <= i < j < |s| ==> Before(s[i], s[j])
  }

  /** The offset is one the ring must cover: inside the square, not the centre. */
  predicate InRing(w: int, p: (int, int))
  {
    -w <= p.0 <= w && -w <= p.1 <= w && p != (0, 0)
  }

  lemma {:induction false} RowPartMember(w: int, dx: int, n: nat, p: (int, int))
    ensures p in RowPart(w, dx, n) <==> (p.0 == dx && -w <= p.1 < -w + n && p != (0, 0))
  {
    if n > 0 {
      RowPartMember(w, dx, n - 1, p);
    }
  }

  lemma RowPartMembers(w: int, dx: int, n: nat)
    ensures forall p :: p in RowPart(w, dx, n) <==> (p.0 == dx && -w <= p.1 < -w + n && p != (0, 0))
  {
    forall p ensures p in RowPart(w, dx, n) <==> (p.0 == dx && -w <= p.1 < -w + n && p != (0, 0)) {
      RowPartMember(w, dx, n, p);
    }
  }

  lemma {:induction false} RowPartOrdered(w: int, dx: int, n: nat)
    ensures StrictlyOrdered(RowPart(w, dx, n))
  {
    if n > 0 {
      RowPartOrdered(w, dx, n - 1);
      RowPartMembers(w, dx, n - 1);
      var a := RowPart(w, dx, n - 1);
      forall i | 0 <= i < |a| ensures Before(a[i], (dx, -w + n - 1)) {
        assert a[i] in a;
      }
    }
  }

  lemma {:induction false} RowPartSize(w: int, dx: int, n: nat)
    ensures |RowPart(w, dx, n)| == if dx == 0 && 0 <= w < n then n - 1 else n
  {
    if n > 0 {
      RowPartSize(w, dx, n - 1);
    }
  }

  lemma {:induction false} RowsMember(w: nat, n: nat, p: (int, int))
    ensures p in Rows(w, n) <==> (-(w as int) <= p.0 < -(w as int) + n && -(w as int) <= p.1 <= w && p != (0, 0))
  {
    if n > 0 {
      var dx := -(w as int) + n - 1;
      var a, b := Rows(w, n - 1), RowPart(w, dx, 2 * w + 1);
      assert Rows(w, n) == a + b;
      RowsMember(w, n - 1, p);
      RowPartMember(w, dx, 2 * w + 1, p);
      assert p in a + b <==> p in a || p in b;
    }
  }

  lemma RowsMembers(w: nat, n: nat)
    ensures forall p :: p in Rows(w, n) <==> (-(w as int) <= p.0 < -(w as int) + n && -(w as int) <= p.1 <= w && p != (0, 0))
  {
    forall p ensures p in Rows(w, n) <==> (-(w as int) <= p.0 < -(w as int) + n && -(w as int) <= p.1 <= w && p != (0, 0)) {
      RowsMember(w, n, p);
    }
  }

  /** Two strictly ordered sequences, every element of the first before every
      element of the second, concatenate to a strictly ordered one. */
  lemma OrderedConcat(a: seq<(int, int)>, b: seq<(int, int)>)
    requires StrictlyOrdered(a) && StrictlyOrdered(b)
    requires forall i, j :: 0 <= i < |a| && 0 <= j < |b| ==> Before(a[i], b[j])
    ensures StrictlyOrdered(a + b)
  {
    forall i, j | 0 <= i < j < |a + b| ensures Before((a + b)[i], (a + b)[j]) {
      if j < |a| {
        assert (a + b)[i] == a[i] && (a + b)[j] == a[j];
      } else if i >= |a| {
        assert (a + b)[i] == b[i - |a|] && (a + b)[j] == b[j - |a|];
      } else {
        assert (a + b)[i] == a[i] && (a + b)[j] == b[j - |a|];
      }
    }
  }

  lemma RowsLeftOf(w: nat, n: nat)
    ensures forall i :: 0 <= i < |Rows(w, n)| ==> Rows(w, n)[i].0 < -(w as int) + n
  {
    RowsMembers(w, n);
    forall i | 0 <= i < |Rows(w, n)| ensures Rows(w, n)[i].0 < -(w as int) + n {
      assert Rows(w, n)[i] in Rows(w, n);
    }
  }

  lemma RowPartColumn(w: int, dx: int, n: nat)
    ensures forall j :: 0 <= j < |RowPart(w, dx, n)| ==> RowPart(w, dx, n)[j].0 == dx
  {
    RowPartMembers(w, dx, n);
    forall j | 0 <= j < |RowPart(w, dx, n)| ensures RowPart(w, dx, n)[j].0 == dx {
      assert RowPart(w, dx, n)[j] in RowPart(w, dx, n);
    }
  }

  lemma {:induction false} RowsOrdered(w: nat, n: nat)
    ensures StrictlyOrdered(Rows(w, n))
  {
    if n > 0 {
      var dx := -(w as int) + n - 1;
      var a, b := Rows(w, n - 1), RowPart(w, dx, 2 * w + 1);
      RowsOrdered(w, n - 1);
      RowPartOrdered(w, dx, 2 * w + 1);
      RowsLeftOf(w, n - 1);
      RowPartColumn(w, dx, 2 * w + 1);
      OrderedConcat(a, b);
    }
  }

  lemma {:induction false} RowsSize(w: nat, n: nat)
    ensures |Rows(w, n)| == if w < n then n * (2 * w + 1) - 1 else n * (2 * w + 1)
  {
    if n > 0 {
      RowsSize(w, n - 1);
      RowPartSize(w, -(w as int) + n - 1, 2 * w + 1);
    }
  }

  /** The ring holds every offset of the square but the centre, each exactly
      once (the order is strict), (2w + 1)² - 1 of them. */
  lemma RingMembers(w: nat)
    ensures forall p :: p in Ring(w) <==> InRing(w, p)
  {
    RowsMembers(w, 2 * w + 1);
  }

  lemma RingExact(w: nat)
    ensures forall p :: p in Ring(w) <==> InRing(w, p)
    ensures StrictlyOrdered(Ring(w))
    ensures |Ring(w)| == (2 * w + 1) * (2 * w + 1) - 1
  {
    RingMembers(w);
    RowsOrdered(w, 2 * w + 1);
    RowsSize(w, 2 * w + 1);
  }

  /** Each offset the ring lists is one it must cover. */
  lemma RingOffsets(w: nat)
    ensures forall i :: 0 <= i < |Ring(w)| ==> InRing(w, Ring(w)[i])
  {
    RingMembers(w);
    forall i | 0 <= i < |Ring(w)| ensures InRing(w, Ring(w)[i]) {
      assert Ring(w)[i] in Ring(w);
    }
  }

  /** The number of operations of each part: a ring of (2w + 1)² - 1 texts
      when the outline is on, the shadow part (its ring and its fill) when the
      shadow is on, and exactly one final text at the position in the fill
      colour. */
  lemma StrokePlanShape(at: Point, text: string, font: Font, fill: Color, e: Effects)
    ensures var plan := StrokePlan(at, text, font, fill, e);
      var ring := if e.StrokeOn() then (2 * e.strokeWidth + 1) * (2 * e.strokeWidth + 1) - 1 else 0;
      && |ShadowOps(at, text, font, e)| == (if e.ShadowOn() then ring + 1 else 0)
      && |plan| == |ShadowOps(at, text, font, e)| + ring + 1
      && plan[|plan| - 1] == Text(at, text, font, fill)
  {
    if e.StrokeOn() {
      RingExact(e.strokeWidth);
    }
  }

  /** The shadow part comes first and is drawn entirely in the shadow colour,
      ending with the shadow text at the position moved by the shadow offset. */
  lemma StrokePlanShadow(at: Point, text: string, font: Font, fill: Color, e: Effects)
    ensures var plan := StrokePlan(at, text, font, fill, e);
      var shadow := |ShadowOps(at, text, font, e)|;
      && (e.ShadowOn() <==> shadow > 0)
      && (forall k :: 0 <= k < shadow ==>
            plan[k].Text? && plan[k].fill == e.shadowColor.value && plan[k].text == text && plan[k].font == font)
      && (shadow > 0 ==>
            plan[shadow - 1].at == Point(at.x + e.shadowOffset.value.0, at.y + e.shadowOffset.value.1))
  {
  }

  /** Before the shadow text come the shadow's outline texts, each at an
      offset of the ring from the shadow position and so never at it. */
  lemma StrokePlanShadowRing(at: Point, text: string, font: Font, fill: Color, e: Effects)
    requires e.ShadowOn()
    ensures var plan := StrokePlan(at, text, font, fill, e);
      var shadow := |ShadowOps(at, text, font, e)|;
      var s := Point(at.x + e.shadowOffset.value.0, at.y + e.shadowOffset.value.1);
      && (shadow > 1 ==> e.StrokeOn())
      && forall k :: 0 <= k < shadow - 1 ==>
           && InRing(e.strokeWidth, (plan[k].at.x - s.x, plan[k].at.y - s.y))
           && plan[k].at != s
  {
    var plan := StrokePlan(at, text, font, fill, e);
    var s := Point(at.x + e.shadowOffset.value.0, at.y + e.shadowOffset.value.1);
    if e.StrokeOn() {
      var w := e.strokeWidth;
      var ring := RingOps(s, w, text, font, e.shadowColor.value);
      var rest := [Text(s, text, font, e.shadowColor.value)]
                  + RingOps(at, w, text, font, e.strokeColor.value) + [Text(at, text, font, fill)];
      ShadowFirst(at, text, font, fill, e);
      RingOffsets(w);
      var r := Ring(w);
      forall k | 0 <= k < |ring|
        ensures InRing(w, (plan[k].at.x - s.x, plan[k].at.y - s.y))
      {
        FrontAt(ring, rest, k);
        assert plan[k] == Text(Point(s.x + r[k].0, s.y + r[k].1), text, font, e.shadowColor.value);
        assert (plan[k].at.x - s.x, plan[k].at.y - s.y) == r[k];
      }
    }
  }

  /** Between the shadow part and the final text come the outline texts, in
      the stroke colour, each at an offset of the ring and so never at the
      position itself. */
  lemma StrokePlanRing(at: Point, text: string, font: Font, fill: Color, e: Effects)
    ensures var plan := StrokePlan(at, text, font, fill, e);
      var shadow := |ShadowOps(at, text, font, e)|;
      && (shadow + 1 < |plan| ==> e.StrokeOn())
      && forall k :: shadow <= k < |plan| - 1 ==>
           && plan[k].Text? && plan[k].fill == e.strokeColor.value
           && plan[k].text == text && plan[k].font == font
           && InRing(e.strokeWidth, (plan[k].at.x - at.x, plan[k].at.y - at.y))
           && plan[k].at != at
  {
    var plan := StrokePlan(at, text, font, fill, e);
    var shadow := ShadowOps(at, text, font, e);
    if e.StrokeOn() {
      var w := e.strokeWidth;
      var ring := RingOps(at, w, text, font, e.strokeColor.value);
      assert plan == shadow + ring + [Text(at, text, font, fill)];
      RingOffsets(w);
      var r := Ring(w);
      forall k | |shadow| <= k < |plan| - 1
        ensures && plan[k].Text? && plan[k].fill == e.strokeColor.value
                && plan[k].text == text && plan[k].font == font
                && InRing(w, (plan[k].at.x - at.x, plan[k].at.y - at.y))
      {
        var i := k - |shadow|;
        MiddleAt(shadow, ring, [Text(at, text, font, fill)], k);
        assert plan[k] == Text(Point(at.x + r[i].0, at.y + r[i].1), text, font, e.strokeColor.value);
        assert (plan[k].at.x - at.x, plan[k].at.y - at.y) == r[i];
      }
    }
  }

  lemma FrontAt<T>(b: seq<T>, c: seq<T>, k: nat)
    requires k < |b|
    ensures (b + c)[k] == b[k]
  {
  }

  /** With shadow and outline both on, the plan opens with the shadow's ring. */
  lemma ShadowFirst(at: Point, text: string, font: Font, fill: Color, e: Effects)
    requires e.ShadowOn() && e.StrokeOn()
    ensures var s := Point(at.x + e.shadowOffset.value.0, at.y + e.shadowOffset.value.1);
      StrokePlan(at, text, font, fill, e)
      == RingOps(s, e.strokeWidth, text, font, e.shadowColor.value)
         + ([Text(s, text, font, e.shadowColor.value)]
            + RingOps(at, e.strokeWidth, text, font, e.strokeColor.value) + [Text(at, text, font, fill)])
  {
  }

  lemma MiddleAt<T>(a: seq<T>, b: seq<T>, c: seq<T>, k: nat)
    requires |a| <= k < |a| + |b|
    ensures (a + b + c)[k] == b[k - |a|]
  {
  }

  /** Every offset of the ring is drawn: for each offset of the square but
      the centre there is an outline operation at exactly that offset. */
  lemma RingCovers(at: Point, text: string, font: Font, fill: Color, e: Effects, p: (int, int))
    requires e.StrokeOn() && InRing(e.strokeWidth, p)
    ensures var plan := StrokePlan(at, text, font, fill, e);
      var shadow := |ShadowOps(at, text, font, e)|;
      exists k :: shadow <= k < |plan| - 1 && plan[k] == Text(Point(at.x + p.0, at.y + p.1), text, font, e.strokeColor.value)
  {
    RingMembers(e.strokeWidth);
    var r := Ring(e.strokeWidth);
    var i :| 0 <= i < |r| && r[i] == p;
    var shadow := ShadowOps(at, text, font, e);
    var ring := RingOps(at, e.strokeWidth, text, font, e.strokeColor.value);
    assert StrokePlan(at, text, font, fill, e) == shadow + ring + [Text(at, text, font, fill)];
    MiddleAt(shadow, ring, [Text(at, text, font, fill)], |shadow| + i);
  }
}
