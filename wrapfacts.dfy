/**
 * What the wrap loop's partition means for its users: the words of a line
 * are found again by splitting it, every word is reached from its line's
 * first index, lines of two or more words fit, and an overlong word is a
 * line of its own.
 */
module WrapFacts {
  import opened Text
  import opened Fonts
  import opened Wrapping

  /** Splitting line j gives back exactly the words mapped to it. */
  lemma LineWords(words: seq<string>, lines: seq<string>, m: seq<nat>, j: nat)
    requires AllTokens(words) && LinePartition(words, lines, m)
    requires j < |lines|
    ensures FirstAt(m, j) < FirstAt(m, j + 1) <= |words|
    ensures Split(lines[j]) == words[FirstAt(m, j)..FirstAt(m, j + 1)]
  {
    LineAt(words, lines, m, j);
    var ws := words[FirstAt(m, j)..FirstAt(m, j + 1)];
    assert AllTokens(ws) by {
      forall k | 0 <= k < |ws| ensures IsToken(ws[k]) {
        assert ws[k] == words[FirstAt(m, j) + k];
      }
    }
    SplitJoin(ws);
  }

  /** Position p of line j is the word FirstAt(m, j) + p, and that word is
      mapped to line j. */
  lemma LineIndex(words: seq<string>, lines: seq<string>, m: seq<nat>, j: nat, p: nat)
    requires LinePartition(words, lines, m)
    requires j < |lines| && FirstAt(m, j) + p < FirstAt(m, j + 1)
    ensures FirstAt(m, j) + p < |words| && m[FirstAt(m, j) + p] == j
  {
    assert InLine(m, FirstAt(m, j) + p, j);
  }

  /** The renderer's index arithmetic hits word h at exactly one place: at
      line j and position p when and only when h is mapped to line j and p is
      its distance from the line's first word. */
  lemma HighlightTarget(words: seq<string>, lines: seq<string>, m: seq<nat>, j: nat, p: nat, h: int)
    requires LinePartition(words, lines, m)
    requires j < |lines| && FirstAt(m, j) + p < FirstAt(m, j + 1)
    ensures FirstAt(m, j) + p == h <==> (0 <= h < |words| && m[h] == j && p == h - FirstAt(m, j))
  {
    LineIndex(words, lines, m, j, p);
  }

  /** Every word is reached: word h lies on line m[h], at position
      h - FirstAt(m, m[h]) of it. */
  lemma HighlightReached(words: seq<string>, lines: seq<string>, m: seq<nat>, h: nat)
    requires LinePartition(words, lines, m)
    requires h < |words|
    ensures m[h] < |lines|
    ensures FirstAt(m, m[h]) <= h < FirstAt(m, m[h] + 1)
  {
    assert m[h] == m[h] <==> InLine(m, h, m[h]);
  }

  /** A line holding two or more words measures at most MAX_WIDTH. */
  lemma MultiWordLinesFit(words: seq<string>, lines: seq<string>, m: seq<nat>,
                          metrics: Metrics, font: Font, j: nat)
    requires LinePartition(words, lines, m) && Greedy(words, m, metrics, font)
    requires j < |lines| && FirstAt(m, j) + 2 <= FirstAt(m, j + 1)
    ensures Width(metrics, font, lines[j]) <= MAX_WIDTH
  {
    var a, b := FirstAt(m, j), FirstAt(m, j + 1);
    LineAt(words, lines, m, j);
    LineIndex(words, lines, m, j, b - 1 - a);
    LineIndex(words, lines, m, j, b - 2 - a);
    assert SameLine(m, b - 1);
    assert LineStartOf(m, b - 2) == a;
    assert Fits(metrics, font, words, a, b);
  }

  /** A word wider than MAX_WIDTH is never split and is a line by itself,
      provided (as for any real font) no run of words containing it measures
      less than the word alone. */
  lemma OverlongAlone(words: seq<string>, lines: seq<string>, m: seq<nat>,
                      metrics: Metrics, font: Font, i: nat)
    requires LinePartition(words, lines, m) && Greedy(words, m, metrics, font)
    requires i < |words| && Width(metrics, font, words[i]) > MAX_WIDTH
    requires forall a, b :: 0 <= a <= i < b <= |words| ==>
               Width(metrics, font, words[i]) <= Width(metrics, font, Join(words[a..b]))
    ensures m[i] < |lines|
    ensures FirstAt(m, m[i]) == i && FirstAt(m, m[i] + 1) == i + 1
    ensures lines[m[i]] == words[i]
  {
    HighlightReached(words, lines, m, i);
    var j := m[i];
    var a, b := FirstAt(m, j), FirstAt(m, j + 1);
    LineAt(words, lines, m, j);
    if a + 2 <= b {
      MultiWordLinesFit(words, lines, m, metrics, font, j);
      assert false;
    }
    assert words[a..b] == [words[i]];
  }

  /** Where a word's line starts depends only on the mapping up to that word. */
  lemma PrefixStart(m: seq<nat>, m': seq<nat>, k: nat)
    requires k < |m| && k < |m'| && m[..k + 1] == m'[..k + 1]
    ensures LineStartOf(m, k) == LineStartOf(m', k)
  {
    var a := LineStartOf(m, k);
    assert m[a] == m[..k + 1][a] == m'[a];
    assert m[k] == m[..k + 1][k] == m'[k];
    forall f | 0 <= f < a ensures Absent(m', m'[k], f) {
      assert Absent(m, m[k], f) && m[f] == m[..k + 1][f] == m'[f];
    }
    FirstAtUnique(m', m'[k], a);
  }

  /** Two greedy partitions of the same words agree on every prefix. */
  lemma {:induction false} GreedyPrefix(words: seq<string>, lines: seq<string>, m: seq<nat>,
                                        lines': seq<string>, m': seq<nat>, metrics: Metrics, font: Font, i: nat)
    requires LinePartition(words, lines, m) && Greedy(words, m, metrics, font)
    requires LinePartition(words, lines', m') && Greedy(words, m', metrics, font)
    requires i <= |words|
    ensures m[..i] == m'[..i]
  {
    if i > 0 {
      GreedyPrefix(words, lines, m, lines', m', metrics, font, i - 1);
      var k := i - 1;
      if k > 0 {
        assert m[..k] == m'[..k];
        PrefixStart(m, m', k - 1);
        assert SameLine(m, k) <==> SameLine(m', k);
        assert m[k - 1] == m[..k][k - 1] == m'[k - 1];
      }
      assert m[..i] == m[..k] + [m[k]] && m'[..i] == m'[..k] + [m'[k]];
    }
  }

  /** The greedy rule determines the wrap: any two line partitions of the
      same words that both follow it are the same. */
  lemma GreedyUnique(words: seq<string>, lines: seq<string>, m: seq<nat>,
                     lines': seq<string>, m': seq<nat>, metrics: Metrics, font: Font)
    requires LinePartition(words, lines, m) && Greedy(words, m, metrics, font)
    requires LinePartition(words, lines', m') && Greedy(words, m', metrics, font)
    ensures m == m' && lines == lines'
  {
    GreedyPrefix(words, lines, m, lines', m', metrics, font, |words|);
    assert m == m[..|words|] && m' == m'[..|words|];
    assert |lines| == |lines'|;
    forall j | 0 <= j < |lines| ensures lines[j] == lines'[j] {
      LineAt(words, lines, m, j);
      LineAt(words, lines', m', j);
    }
  }

  /** The first line starts at word 0 and the line past the last starts at
      the end of the words. */
  lemma PartitionEnds(words: seq<string>, lines: seq<string>, m: seq<nat>)
    requires LinePartition(words, lines, m)
    ensures words != [] ==> FirstAt(m, 0) == 0
    ensures FirstAt(m, |lines|) == |words|
  {
    if words != [] {
      FirstAtUnique(m, 0, 0);
    }
  }

  /** The first n lines, joined, are the words before line n, joined. */
  lemma {:induction false} JoinLinesPrefix(words: seq<string>, lines: seq<string>, m: seq<nat>, n: nat)
    requires LinePartition(words, lines, m)
    requires 0 < n <= |lines|
    ensures 0 < FirstAt(m, n) <= |words|
    ensures Join(lines[..n]) == Join(words[..FirstAt(m, n)])
  {
    PartitionEnds(words, lines, m);
    LineAt(words, lines, m, n - 1);
    var a, b := FirstAt(m, n - 1), FirstAt(m, n);
    if n == 1 {
      assert lines[..1] == [lines[0]];
      assert words[0..b] == words[..b];
    } else {
      JoinLinesPrefix(words, lines, m, n - 1);
      assert lines[..n] == lines[..n - 1] + [lines[n - 1]];
      JoinSnoc(lines[..n - 1], lines[n - 1]);
      assert words[..b] == words[..a] + words[a..b];
      JoinConcat(words[..a], words[a..b]);
    }
  }

  /** The lines of a partition, joined by single spaces, split back into the
      words. */
  lemma RewrapWords(words: seq<string>, lines: seq<string>, m: seq<nat>)
    requires AllTokens(words) && LinePartition(words, lines, m)
    ensures Split(Join(lines)) == words
  {
    PartitionEnds(words, lines, m);
    if lines != [] {
      JoinLinesPrefix(words, lines, m, |lines|);
      assert lines[..|lines|] == lines && words[..|words|] == words;
    }
    SplitJoin(words);
  }

  /** Wrapping is idempotent: the greedy wrap of the joined lines of a greedy
      wrap is that same wrap, lines and mapping alike. */
  lemma RewrapIdempotent(words: seq<string>, lines: seq<string>, m: seq<nat>,
                         lines': seq<string>, m': seq<nat>, metrics: Metrics, font: Font)
    requires AllTokens(words) && LinePartition(words, lines, m) && Greedy(words, m, metrics, font)
    requires LinePartition(Split(Join(lines)), lines', m') && Greedy(Split(Join(lines)), m', metrics, font)
    ensures lines' == lines && m' == m
  {
    RewrapWords(words, lines, m);
    GreedyUnique(words, lines, m, lines', m', metrics, font);
  }
}
