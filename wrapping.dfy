/**
 * The greedy line wrapper of the caption renderer. The text is split into
 * words; a word joins the current line when the joined candidate measures at
 * most MAX_WIDTH, otherwise it starts a new line, and a word that does not
 * fit even on an empty line stays whole on a line of its own. Alongside the
 * lines the wrapper records, for every word, the index of its line.
 */
module Wrapping {
  import opened Text
  import opened Fonts

  const VIDEO_WIDTH: int := 1080
  /** int(VIDEO_WIDTH * 0.8) */
  const MAX_WIDTH: int := 864

  /** Word k is not on line j. */
  ghost predicate Absent(m: seq<nat>, j: nat, k: nat)
    requires k < |m|
  {
    m[k] != j
  }

  /** The first index at which the mapping holds line j; |m| when none does. */
  ghost function FirstAt(m: seq<nat>, j: nat): (i: nat)
    ensures i <= |m|
    ensures i < |m| ==> m[i] == j
    ensures forall k :: 0 <= k < i ==> Absent(m, j, k)
  {
    if j in m then
      FirstExists(m, j);
      var i :| 0 <= i < |m| && m[i] == j && forall k :: 0 <= k < i ==> Absent(m, j, k);
      i
    else
      assert forall k :: 0 <= k < |m| ==> Absent(m, j, k);
      |m|
  }

  /** A value that occurs in a sequence has a first occurrence. */
  lemma {:induction false} FirstExists(m: seq<nat>, j: nat)
    requires j in m
    ensures exists i :: 0 <= i < |m| && m[i] == j && forall k :: 0 <= k < i ==> Absent(m, j, k)
  {
    if m[0] != j {
      FirstExists(m[1..], j);
      var i :| 0 <= i < |m[1..]| && m[1..][i] == j && forall k :: 0 <= k < i ==> Absent(m[1..], j, k);
      assert forall k :: 0 <= k < i + 1 ==> Absent(m, j, k) by {
        forall k | 0 <= k < i + 1 ensures Absent(m, j, k) {
          if k > 0 { assert Absent(m[1..], j, k - 1); }
        }
      }
    } else {
      assert m[0] == j;
    }
  }

  /** The line of word k starts at or before k. */
  lemma FirstAtMin(m: seq<nat>, k: nat)
    requires k < |m|
    ensures FirstAt(m, m[k]) <= k
  {
    assert FirstAt(m, m[k]) > k ==> Absent(m, m[k], k);
  }

  /** The three properties of FirstAt determine it. */
  lemma FirstAtUnique(m: seq<nat>, j: nat, i: nat)
    requires i <= |m|
    requires i < |m| ==> m[i] == j
    requires forall k :: 0 <= k < i ==> Absent(m, j, k)
    ensures FirstAt(m, j) == i
  {
    var f := FirstAt(m, j);
    assert f < i ==> Absent(m, j, f);
    assert i < f ==> Absent(m, j, i);
  }

  /** The first word of the line holding word k. */
  ghost function LineStartOf(m: seq<nat>, k: nat): (a: nat)
    requires k < |m|
    ensures a <= k && m[a] == m[k]
  {
    FirstAtMin(m, k);
    FirstAt(m, m[k])
  }

  /** Word i is on the same line as word i - 1. */
  ghost predicate SameLine(m: seq<nat>, i: nat)
    requires 0 < i < |m|
  {
    m[i] == m[i - 1]
  }

  /** Word i starts the line after the line of word i - 1. */
  ghost predicate NextLine(m: seq<nat>, i: nat)
    requires 0 < i < |m|
  {
    m[i] == m[i - 1] + 1
  }

  /** The mapping runs from line 0 to line count - 1 in steps of 0 or 1. */
  ghost predicate Steps(m: seq<nat>, count: nat)
  {
    && (|m| == 0 <==> count == 0)
    && (|m| > 0 ==> m[0] == 0 && m[|m| - 1] == count - 1)
    && (forall i :: 0 < i < |m| ==> SameLine(m, i) || NextLine(m, i))
    && (forall i :: 0 <= i < |m| ==> m[i] < count)
  }

  /** Word i lies between the first words of lines j and j + 1. */
  ghost predicate InLine(m: seq<nat>, i: nat, j: nat)
  {
    FirstAt(m, j) <= i < FirstAt(m, j + 1)
  }

  /** Word i is on line j exactly when it lies between the first words of
      lines j and j + 1. */
  ghost predicate Segments(m: seq<nat>, count: nat)
  {
    forall i, j {:trigger InLine(m, i, j)} :: 0 <= i < |m| && 0 <= j < count ==>
      (m[i] == j <==> InLine(m, i, j))
  }

  /** Line j is its words joined by single spaces, and has at least one word. */
  ghost predicate LineTexts(words: seq<string>, lines: seq<string>, m: seq<nat>)
    requires |m| == |words|
  {
    forall j :: 0 <= j < |lines| ==> LineText(words, lines, m, j)
  }

  /** Line j is non-empty and is its words joined by single spaces. */
  ghost predicate LineText(words: seq<string>, lines: seq<string>, m: seq<nat>, j: nat)
    requires |m| == |words| && j < |lines|
  {
    FirstAt(m, j) < FirstAt(m, j + 1) && lines[j] == Join(words[FirstAt(m, j)..FirstAt(m, j + 1)])
  }

  /** lines and the mapping m split words into consecutive lines: the mapping
      has one entry per word, starts at line 0, never decreases, grows by at
      most one per word and ends at the last line; line j holds exactly the
      words mapped to j, joined by single spaces. */
  ghost predicate LinePartition(words: seq<string>, lines: seq<string>, m: seq<nat>)
  {
    && |m| == |words|
    && Steps(m, |lines|)
    && Segments(m, |lines|)
    && LineTexts(words, lines, m)
  }

  /** The width the wrapper compares with MAX_WIDTH. */
  function Width(metrics: Metrics, font: Font, s: string): int
  {
    metrics.width(font, s)
  }

  /** Words a up to b, joined, fit within MAX_WIDTH. */
  ghost predicate Fits(metrics: Metrics, font: Font, words: seq<string>, a: nat, b: nat)
    requires a <= b <= |words|
  {
    Width(metrics, font, Join(words[a..b])) <= MAX_WIDTH
  }

  /** The greedy rule: word i stays on its predecessor's line exactly when that
      line, extended by word i, measures at most MAX_WIDTH. */
  ghost predicate Greedy(words: seq<string>, m: seq<nat>, metrics: Metrics, font: Font)
  {
    && |m| == |words|
    && forall i {:trigger SameLine(m, i)} :: 0 < i < |m| ==>
         (SameLine(m, i) <==> Fits(metrics, font, words, LineStartOf(m, i - 1), i + 1))
  }

  function Repeat(v: nat, n: nat): (r: seq<nat>)
    ensures |r| == n && forall k :: 0 <= k < n ==> r[k] == v
  {
    if n == 0 then [] else Repeat(v, n - 1) + [v]
  }

  /** Appends the line index once for every word of the closed line. */
  method RecordLine(mapping: seq<nat>, lineIndex: nat, lineWords: seq<nat>) returns (m: seq<nat>)
    ensures m == mapping + Repeat(lineIndex, |lineWords|)
  {
    m := mapping;
    for k := 0 to |lineWords|
      invariant m == mapping + Repeat(lineIndex, k)
    {
      m := m + [lineIndex];
    }
  }

  /** The state of the wrap loop before word i: the first |mapping| words are
      wrapped into closed lines by the greedy rule, and the open line holds the
      words from |mapping| up to i, which all fit together and could not have
      joined the last closed line. */
  ghost predicate WrapState(words: seq<string>, i: nat, line: string, lines: seq<string>, mapping: seq<nat>,
                            metrics: Metrics, font: Font)
  {
    && |mapping| <= i <= |words|
    && (i == 0 ==> line == "" && lines == [])
    && (i > 0 ==> |mapping| < i && line == Join(words[|mapping|..i]))
    && LinePartition(words[..|mapping|], lines, mapping)
    && Greedy(words[..|mapping|], mapping, metrics, font)
    && (forall k :: |mapping| + 2 <= k <= i ==> Fits(metrics, font, words, |mapping|, k))
    && (0 < |mapping| < i ==> !Fits(metrics, font, words, LineStartOf(mapping, |mapping| - 1), |mapping| + 1))
  }

  /** The wrap loop of the caption renderer. */
  method WrapText(text: string, metrics: Metrics, font: Font) returns (lines: seq<string>, mapping: seq<nat>)
    ensures LinePartition(Split(text), lines, mapping)
    ensures Greedy(Split(text), mapping, metrics, font)
  {
    var words := Split(text);
    lines := [];
    var lineWords: seq<nat> := [];
    var line := "";
    mapping := [];
    var currentLineIndex: nat := 0;
    WrapStart(words, metrics, font);
    for wordIdx := 0 to |words|
      invariant currentLineIndex == |lines|
      invariant |lineWords| == wordIdx - |mapping|
      invariant WrapState(words, wordIdx, line, lines, mapping, metrics, font)
    {
      line, lineWords, lines, mapping, currentLineIndex :=
        WrapWord(words, wordIdx, line, lineWords, lines, mapping, currentLineIndex, metrics, font);
    }
    WrapFinish(words, line, lines, mapping, metrics, font);
    if line != "" {
      lines := lines + [line];
      mapping := RecordLine(mapping, currentLineIndex, lineWords);
    }
  }

  /** One pass of the wrap loop: word wordIdx joins the open line when the
      candidate fits, otherwise it closes the open line (if any) and opens the
      next one. */
  method WrapWord(words: seq<string>, wordIdx: nat, line: string, lineWords: seq<nat>,
                  lines: seq<string>, mapping: seq<nat>, currentLineIndex: nat, metrics: Metrics, font: Font)
    returns (line': string, lineWords': seq<nat>, lines': seq<string>, mapping': seq<nat>, currentLineIndex': nat)
    requires AllTokens(words) && wordIdx < |words|
    requires currentLineIndex == |lines| && |lineWords| == wordIdx - |mapping|
    requires WrapState(words, wordIdx, line, lines, mapping, metrics, font)
    ensures currentLineIndex' == |lines'| && |lineWords'| == wordIdx + 1 - |mapping'|
    ensures WrapState(words, wordIdx + 1, line', lines', mapping', metrics, font)
  {
    var word := words[wordIdx];
    var testLine := Strip(line + " " + word);
    WrapStep(words, wordIdx, line, lines, mapping, metrics, font);
    lines', mapping', currentLineIndex' := lines, mapping, currentLineIndex;
    if Width(metrics, font, testLine) <= MAX_WIDTH {
      line' := testLine;
      lineWords' := lineWords + [wordIdx];
    } else if line != "" {
      ghost var closed := mapping + Repeat(|lines|, wordIdx - |mapping|);
      lines' := lines + [line];
      mapping' := RecordLine(mapping, currentLineIndex, lineWords);
      assert mapping' == closed;
      currentLineIndex' := currentLineIndex + 1;
      lineWords' := [wordIdx];
      line' := word;
    } else {
      line' := word;
      lineWords' := lineWords + [wordIdx];
    }
  }

  lemma WrapStart(words: seq<string>, metrics: Metrics, font: Font)
    ensures WrapState(words, 0, "", [], [], metrics, font)
  {
    assert LineTexts(words[..0], [], []);
  }

  /** Each of the three branches of the loop body keeps the loop state: the
      candidate fits and becomes the open line; it does not fit and the open
      line is closed, word i opening the next; or it does not fit but the open
      line is empty, and word i becomes the open line regardless. */
  lemma WrapStep(words: seq<string>, i: nat, line: string, lines: seq<string>, mapping: seq<nat>,
                 metrics: Metrics, font: Font)
    requires AllTokens(words)
    requires i < |words|
    requires WrapState(words, i, line, lines, mapping, metrics, font)
    ensures var candidate := Strip(line + " " + words[i]);
      && (Width(metrics, font, candidate) <= MAX_WIDTH ==>
            WrapState(words, i + 1, candidate, lines, mapping, metrics, font))
      && (Width(metrics, font, candidate) > MAX_WIDTH && line != "" ==>
            WrapState(words, i + 1, words[i], lines + [line], mapping + Repeat(|lines|, i - |mapping|), metrics, font))
      && (Width(metrics, font, candidate) > MAX_WIDTH && line == "" ==>
            WrapState(words, i + 1, words[i], lines, mapping, metrics, font))
  {
    Candidate(words, |mapping|, i, line);
    if Width(metrics, font, Strip(line + " " + words[i])) <= MAX_WIDTH {
      StepJoin(words, i, line, lines, mapping, metrics, font);
    } else if line != "" {
      StepBreak(words, i, line, lines, mapping, metrics, font);
    } else {
      StepJoin(words, i, line, lines, mapping, metrics, font);
    }
  }

  /** The candidate the loop measures is the open line extended by word i; the
      open line is empty only before the first word. */
  lemma Candidate(words: seq<string>, s: nat, i: nat, line: string)
    requires AllTokens(words)
    requires s <= i < |words|
    requires i == 0 ==> line == ""
    requires i > 0 ==> s < i && line == Join(words[s..i])
    ensures Strip(line + " " + words[i]) == Join(words[s..i + 1])
    ensures line == "" <==> i == s
    ensures i == s ==> Join(words[s..i + 1]) == words[i]
  {
    CandidateIsJoin(words, s, i, line);
    if i > 0 {
      JoinOfTokens(words[s..i]);
    }
    JoinSingle(words, i);
  }

  /** The candidate line the wrapper measures is the join of the current
      line's words and the next word. */
  lemma CandidateIsJoin(words: seq<string>, s: nat, i: nat, line: string)
    requires AllTokens(words)
    requires s <= i < |words|
    requires i == 0 ==> line == ""
    requires i > 0 ==> s < i && line == Join(words[s..i])
    ensures Strip(line + " " + words[i]) == Join(words[s..i + 1])
  {
    var w := words[i];
    JoinOfTokens(words[s..i + 1]);
    if i == 0 {
      assert words[s..i + 1] == [w];
      assert ("" + " " + w)[1..] == w;
      StripTrimmed(w);
    } else {
      assert words[s..i + 1] == words[s..i] + [w];
      JoinSnoc(words[s..i], w);
      StripTrimmed(Join(words[s..i + 1]));
    }
  }

  /** Word i joins the open line: when the candidate fits, or when the open
      line is empty. */
  lemma StepJoin(words: seq<string>, i: nat, line: string, lines: seq<string>, mapping: seq<nat>,
                 metrics: Metrics, font: Font)
    requires i < |words|
    requires WrapState(words, i, line, lines, mapping, metrics, font)
    requires i == |mapping| || Fits(metrics, font, words, |mapping|, i + 1)
    ensures WrapState(words, i + 1, Join(words[|mapping|..i + 1]), lines, mapping, metrics, font)
  {
  }

  /** Word i does not fit: the open line is closed and word i opens the next. */
  lemma StepBreak(words: seq<string>, i: nat, line: string, lines: seq<string>, mapping: seq<nat>,
                  metrics: Metrics, font: Font)
    requires i < |words|
    requires WrapState(words, i, line, lines, mapping, metrics, font)
    requires |mapping| < i && !Fits(metrics, font, words, |mapping|, i + 1)
    ensures WrapState(words, i + 1, words[i], lines + [line], mapping + Repeat(|lines|, i - |mapping|), metrics, font)
  {
    var s, c := |mapping|, |lines|;
    var m' := mapping + Repeat(c, i - s);
    CloseLinePartition(words, lines, mapping, i);
    CloseLineGreedy(words, lines, mapping, i, metrics, font);
    PartitionCovers(words[..s], lines, mapping);
    NewLineStart(mapping, c, i - s);
    JoinSingle(words, i);
    BreakState(words, i, lines + [line], m', metrics, font);
  }

  /** The state right after a break: the closed lines cover words 0 .. i - 1
      and word i alone is on the open line. */
  lemma BreakState(words: seq<string>, i: nat, lines: seq<string>, m: seq<nat>, metrics: Metrics, font: Font)
    requires 0 < i < |words| && |m| == i
    requires LinePartition(words[..i], lines, m)
    requires Greedy(words[..i], m, metrics, font)
    requires !Fits(metrics, font, words, LineStartOf(m, i - 1), i + 1)
    requires Join(words[i..i + 1]) == words[i]
    ensures WrapState(words, i + 1, words[i], lines, m, metrics, font)
  {
  }

  lemma JoinSingle(words: seq<string>, i: nat)
    requires i < |words|
    ensures Join(words[i..i + 1]) == words[i]
  {
    assert words[i..i + 1] == [words[i]];
  }

  /** The line recorded last starts right after the earlier lines. */
  lemma NewLineStart(m: seq<nat>, c: nat, n: nat)
    requires n > 0 && Covers(m, c)
    ensures LineStartOf(m + Repeat(c, n), |m| + n - 1) == |m|
  {
    ExtendStarts(m, c, n, c);
    assert (m + Repeat(c, n))[|m| + n - 1] == c;
  }

  /** After the last word the open line, if any, is closed. */
  lemma WrapFinish(words: seq<string>, line: string, lines: seq<string>, mapping: seq<nat>,
                   metrics: Metrics, font: Font)
    requires AllTokens(words)
    requires WrapState(words, |words|, line, lines, mapping, metrics, font)
    ensures line == "" <==> words == []
    ensures line == "" ==> LinePartition(words, lines, mapping) && Greedy(words, mapping, metrics, font)
    ensures line != "" ==>
      var m' := mapping + Repeat(|lines|, |words| - |mapping|);
      LinePartition(words, lines + [line], m') && Greedy(words, m', metrics, font)
  {
    assert words[..|words|] == words;
    if words != [] {
      JoinOfTokens(words[|mapping|..]);
      CloseLinePartition(words, lines, mapping, |words|);
      CloseLineGreedy(words, lines, mapping, |words|, metrics, font);
    }
  }

  lemma FirstAtAppend(m: seq<nat>, t: seq<nat>, j: nat)
    ensures FirstAt(m, j) < |m| ==> FirstAt(m + t, j) == FirstAt(m, j)
    ensures FirstAt(m, j) == |m| ==> FirstAt(m + t, j) == |m| + FirstAt(t, j)
  {
    var f, g := FirstAt(m, j), FirstAt(t, j);
    if f < |m| {
      forall k | 0 <= k < f ensures Absent(m + t, j, k) {
        assert Absent(m, j, k);
      }
      FirstAtUnique(m + t, j, f);
    } else {
      forall k | 0 <= k < |m| + g ensures Absent(m + t, j, k) {
        if k < |m| {
          assert Absent(m, j, k);
        } else {
          assert Absent(t, j, k - |m|);
        }
      }
      FirstAtUnique(m + t, j, |m| + g);
    }
  }

  /** Every entry of m is below c and each of the lines 0 .. c - 1 occurs in m. */
  ghost predicate Covers(m: seq<nat>, c: nat)
  {
    && (forall i :: 0 <= i < |m| ==> m[i] < c)
    && (forall j :: 0 <= j < c ==> FirstAt(m, j) < |m|)
  }

  /** Line j of a partition: its bounds and its text. */
  lemma LineAt(words: seq<string>, lines: seq<string>, m: seq<nat>, j: nat)
    requires |m| == |words| && LineTexts(words, lines, m)
    requires j < |lines|
    ensures FirstAt(m, j) < FirstAt(m, j + 1)
    ensures lines[j] == Join(words[FirstAt(m, j)..FirstAt(m, j + 1)])
  {
    assert LineText(words, lines, m, j);
  }

  /** Every line of a partition has at least one word. */
  lemma PartitionCovers(words: seq<string>, lines: seq<string>, m: seq<nat>)
    requires LinePartition(words, lines, m)
    ensures Covers(m, |lines|)
  {
    forall j {:trigger FirstAt(m, j)} | 0 <= j < |lines| ensures FirstAt(m, j) < |m| {
      LineAt(words, lines, m, j);
    }
  }

  /** Where each line starts once a new line c of n words is recorded. */
  lemma ExtendStarts(m: seq<nat>, c: nat, n: nat, j: nat)
    requires n > 0 && Covers(m, c)
    requires j <= c + 1
    ensures j < c ==> FirstAt(m + Repeat(c, n), j) == FirstAt(m, j)
    ensures j == c ==> FirstAt(m, j) == |m| && FirstAt(m + Repeat(c, n), j) == |m|
    ensures j == c + 1 ==> FirstAt(m, j) == |m| && FirstAt(m + Repeat(c, n), j) == |m| + n
  {
    var r := Repeat(c, n);
    FirstAtAppend(m, r, j);
    if j == c {
      FirstAtMin(r, 0);
    }
  }

  /** Closing the open line (words |m| up to e) extends a partition of the
      first |m| words to one of the first e words. */
  lemma CloseLinePartition(words: seq<string>, lines: seq<string>, m: seq<nat>, e: nat)
    requires |m| < e <= |words|
    requires LinePartition(words[..|m|], lines, m)
    ensures LinePartition(words[..e], lines + [Join(words[|m|..e])], m + Repeat(|lines|, e - |m|))
  {
    var ls, m' := lines + [Join(words[|m|..e])], m + Repeat(|lines|, e - |m|);
    PartitionCovers(words[..|m|], lines, m);
    ExtendSteps(m, |lines|, e - |m|);
    ExtendSegments(m, |lines|, e - |m|);
    ExtendTexts(words, lines, m, e);
    assert |ls| == |lines| + 1 && |m'| == |words[..e]|;
  }

  /** Closing the open line keeps the greedy rule, given that the open line's
      words fit together and the first of them could not join the last
      closed line. */
  lemma CloseLineGreedy(words: seq<string>, lines: seq<string>, m: seq<nat>, e: nat, metrics: Metrics, font: Font)
    requires |m| < e <= |words|
    requires LinePartition(words[..|m|], lines, m)
    requires Greedy(words[..|m|], m, metrics, font)
    requires forall k :: |m| + 2 <= k <= e ==> Fits(metrics, font, words, |m|, k)
    requires 0 < |m| ==> !Fits(metrics, font, words, LineStartOf(m, |m| - 1), |m| + 1)
    ensures Greedy(words[..e], m + Repeat(|lines|, e - |m|), metrics, font)
  {
    PartitionCovers(words[..|m|], lines, m);
    ExtendGreedy(words, m, |lines|, e, metrics, font);
  }

  lemma ExtendSteps(m: seq<nat>, c: nat, n: nat)
    requires n > 0
    requires Steps(m, c)
    ensures Steps(m + Repeat(c, n), c + 1)
  {
    var m' := m + Repeat(c, n);
    forall i | 0 < i < |m'| ensures SameLine(m', i) || NextLine(m', i) {
      if i < |m| {
        assert SameLine(m, i) || NextLine(m, i);
      }
    }
  }

  lemma ExtendSegments(m: seq<nat>, c: nat, n: nat)
    requires n > 0
    requires Steps(m, c) && Segments(m, c) && Covers(m, c)
    ensures Segments(m + Repeat(c, n), c + 1)
  {
    var m' := m + Repeat(c, n);
    forall i, j {:trigger InLine(m', i, j)} | 0 <= i < |m'| && 0 <= j < c + 1
      ensures m'[i] == j <==> InLine(m', i, j)
    {
      ExtendSegment(m, c, n, i, j);
    }
  }

  lemma ExtendSegment(m: seq<nat>, c: nat, n: nat, i: nat, j: nat)
    requires n > 0
    requires Segments(m, c) && Covers(m, c)
    requires i < |m| + n && j <= c
    ensures (m + Repeat(c, n))[i] == j <==> InLine(m + Repeat(c, n), i, j)
  {
    var m' := m + Repeat(c, n);
    ExtendStarts(m, c, n, j);
    ExtendStarts(m, c, n, j + 1);
    if i < |m| {
      assert m'[i] == m[i];
      if j < c {
        assert InLine(m', i, j) == InLine(m, i, j);
        assert m[i] == j <==> InLine(m, i, j);
      }
    } else {
      assert m'[i] == c;
    }
  }

  lemma ExtendTexts(words: seq<string>, lines: seq<string>, m: seq<nat>, e: nat)
    requires |m| < e <= |words|
    requires LineTexts(words[..|m|], lines, m)
    requires Covers(m, |lines|)
    ensures LineTexts(words[..e], lines + [Join(words[|m|..e])], m + Repeat(|lines|, e - |m|))
  {
    var m', ls, ws := m + Repeat(|lines|, e - |m|), lines + [Join(words[|m|..e])], words[..e];
    forall j | 0 <= j < |ls| ensures LineText(ws, ls, m', j) {
      ExtendTextAt(words, lines, m, e, j);
    }
  }

  lemma ExtendTextAt(words: seq<string>, lines: seq<string>, m: seq<nat>, e: nat, j: nat)
    requires |m| < e <= |words|
    requires LineTexts(words[..|m|], lines, m)
    requires Covers(m, |lines|)
    requires j <= |lines|
    ensures LineText(words[..e], lines + [Join(words[|m|..e])], m + Repeat(|lines|, e - |m|), j)
  {
    var m' := m + Repeat(|lines|, e - |m|);
    ExtendStarts(m, |lines|, e - |m|, j);
    ExtendStarts(m, |lines|, e - |m|, j + 1);
    ExtendText(words, lines, m, m', e, j);
  }

  /** Line j of the extended partition: an old line keeps its bounds, the new
      line runs from |m| to e. */
  lemma ExtendText(words: seq<string>, lines: seq<string>, m: seq<nat>, m': seq<nat>, e: nat, j: nat)
    requires |m| < e <= |words| && |m'| == e
    requires LineTexts(words[..|m|], lines, m)
    requires j <= |lines|
    requires j < |lines| ==> FirstAt(m', j) == FirstAt(m, j) && FirstAt(m', j + 1) == FirstAt(m, j + 1)
    requires j == |lines| ==> FirstAt(m', j) == |m| && FirstAt(m', j + 1) == e
    ensures FirstAt(m', j) < FirstAt(m', j + 1)
    ensures (lines + [Join(words[|m|..e])])[j] == Join(words[..e][FirstAt(m', j)..FirstAt(m', j + 1)])
  {
    var s := |m|;
    if j < |lines| {
      LineAt(words[..s], lines, m, j);
      var a, b := FirstAt(m, j), FirstAt(m, j + 1);
      assert words[..s][a..b] == words[..e][a..b];
    } else {
      assert words[..e][s..e] == words[s..e];
    }
  }

  lemma ExtendGreedy(words: seq<string>, m: seq<nat>, c: nat, e: nat, metrics: Metrics, font: Font)
    requires |m| < e <= |words|
    requires Covers(m, c)
    requires |m| > 0 ==> m[|m| - 1] == c - 1
    requires Greedy(words[..|m|], m, metrics, font)
    requires forall k :: |m| + 2 <= k <= e ==> Fits(metrics, font, words, |m|, k)
    requires 0 < |m| ==> !Fits(metrics, font, words, LineStartOf(m, |m| - 1), |m| + 1)
    ensures Greedy(words[..e], m + Repeat(c, e - |m|), metrics, font)
  {
    var m' := m + Repeat(c, e - |m|);
    forall i {:trigger SameLine(m', i)} | 0 < i < e
      ensures SameLine(m', i) <==> Fits(metrics, font, words[..e], LineStartOf(m', i - 1), i + 1)
    {
      ExtendGreedyAt(words, m, c, e, metrics, font, i);
    }
  }

  /** Whether words a up to b fit does not depend on the words after b. */
  lemma FitsPrefix(metrics: Metrics, font: Font, words: seq<string>, e: nat, a: nat, b: nat)
    requires a <= b <= e <= |words|
    ensures Fits(metrics, font, words[..e], a, b) == Fits(metrics, font, words, a, b)
  {
    assert words[..e][a..b] == words[a..b];
  }

  lemma ExtendGreedyAt(words: seq<string>, m: seq<nat>, c: nat, e: nat, metrics: Metrics, font: Font, i: nat)
    requires |m| < e <= |words|
    requires Covers(m, c)
    requires |m| > 0 ==> m[|m| - 1] == c - 1
    requires Greedy(words[..|m|], m, metrics, font)
    requires forall k :: |m| + 2 <= k <= e ==> Fits(metrics, font, words, |m|, k)
    requires 0 < |m| ==> !Fits(metrics, font, words, LineStartOf(m, |m| - 1), |m| + 1)
    requires 0 < i < e
    ensures var m' := m + Repeat(c, e - |m|);
      SameLine(m', i) <==> Fits(metrics, font, words[..e], LineStartOf(m', i - 1), i + 1)
  {
    var s := |m|;
    if i < s {
      GreedyBefore(words, m, c, e, metrics, font, i);
    } else if i == s {
      var a := LineStartOf(m, s - 1);
      ExtendStarts(m, c, e - s, m[s - 1]);
      FitsPrefix(metrics, font, words, e, a, i + 1);
    } else {
      GreedyWithin(words, m, c, e, metrics, font, i);
    }
  }

  /** A word before the new line keeps its greedy decision. */
  lemma GreedyBefore(words: seq<string>, m: seq<nat>, c: nat, e: nat, metrics: Metrics, font: Font, i: nat)
    requires |m| < e <= |words|
    requires Covers(m, c)
    requires Greedy(words[..|m|], m, metrics, font)
    requires 0 < i < |m|
    ensures var m' := m + Repeat(c, e - |m|);
      SameLine(m', i) <==> Fits(metrics, font, words[..e], LineStartOf(m', i - 1), i + 1)
  {
    var s := |m|;
    var a := LineStartOf(m, i - 1);
    ExtendStarts(m, c, e - s, m[i - 1]);
    assert SameLine(m, i) <==> Fits(metrics, font, words[..s], a, i + 1);
    FitsPrefix(metrics, font, words, s, a, i + 1);
    FitsPrefix(metrics, font, words, e, a, i + 1);
  }

  /** A later word of the new line stays on it, since the line fits. */
  lemma GreedyWithin(words: seq<string>, m: seq<nat>, c: nat, e: nat, metrics: Metrics, font: Font, i: nat)
    requires |m| < e <= |words|
    requires Covers(m, c)
    requires forall k :: |m| + 2 <= k <= e ==> Fits(metrics, font, words, |m|, k)
    requires |m| < i < e
    ensures var m' := m + Repeat(c, e - |m|);
      SameLine(m', i) <==> Fits(metrics, font, words[..e], LineStartOf(m', i - 1), i + 1)
  {
    var s, m' := |m|, m + Repeat(c, e - |m|);
    ExtendStarts(m, c, e - s, c);
    assert m'[i - 1] == c && m'[i] == c;
    assert Fits(metrics, font, words, s, i + 1);
    FitsPrefix(metrics, font, words, e, s, i + 1);
  }
}
