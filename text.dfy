/**
 * The string primitives the caption engine relies on: Python's whitespace
 * test, str.split() with no argument, " ".join(...), str.strip(), and the
 * ASCII part of str.upper() and str.title().
 */
module Text {

  /** str.isspace() for one character: the characters Python's str.split()
      treats as separators. */
  predicate IsSpace(c: char)
  {
    || c == ' '
    || (9 <= c as int <= 13)          // \t \n \v \f \r
    || (0x1C <= c as int <= 0x1F)     // file, group, record and unit separators
    || c as int == 0x85 || c as int == 0xA0 || c as int == 0x1680
    || (0x2000 <= c as int <= 0x200A)
    || c as int == 0x2028 || c as int == 0x2029 || c as int == 0x202F
    || c as int == 0x205F || c as int == 0x3000
  }

  predicate NoSpace(w: string)
  {
    forall i :: 0 <= i < |w| ==> !IsSpace(w[i])
  }

  /** A token is what str.split() can return: non-empty and free of whitespace. */
  predicate IsToken(w: string)
  {
    w != [] && NoSpace(w)
  }

  predicate AllTokens(ws: seq<string>)
  {
    forall i :: 0 <= i < |ws| ==> IsToken(ws[i])
  }

  /** " ".join(ws) */
  function Join(ws: seq<string>): string
  {
    if ws == [] then ""
    else if |ws| == 1 then ws[0]
    else ws[0] + " " + Join(ws[1..])
  }

  /** Length of the leading run of non-whitespace characters of s. */
  function TokenEnd(s: string): (n: nat)
    ensures n <= |s|
    ensures forall i :: 0 <= i < n ==> !IsSpace(s[i])
    ensures n < |s| ==> IsSpace(s[n])
  {
    if s == [] || IsSpace(s[0]) then 0 else 1 + TokenEnd(s[1..])
  }

  /** str.split() with no argument: the maximal runs of non-whitespace
      characters, in order. */
  function Split(s: string): (ws: seq<string>)
    ensures AllTokens(ws)
    decreases |s|
  {
    if s == [] then []
    else if IsSpace(s[0]) then Split(s[1..])
    else
      var n := TokenEnd(s);
      [s[..n]] + Split(s[n..])
  }

  function StripLeft(s: string): string
  {
    if s != [] && IsSpace(s[0]) then StripLeft(s[1..]) else s
  }

  function StripRight(s: string): string
  {
    if s != [] && IsSpace(s[|s| - 1]) then StripRight(s[..|s| - 1]) else s
  }

  /** str.strip() with no argument. */
  function Strip(s: string): string
  {
    StripRight(StripLeft(s))
  }

  /** A string that neither starts nor ends with whitespace. */
  predicate Trimmed(s: string)
  {
    s == [] || (!IsSpace(s[0]) && !IsSpace(s[|s| - 1]))
  }

  lemma StripTrimmed(s: string)
    requires Trimmed(s)
    ensures Strip(s) == s
  {
  }

  /** The result of strip() never starts or ends with whitespace, and is a
      contiguous piece of its argument. */
  lemma {:induction false} StripResult(s: string)
    ensures Trimmed(Strip(s))
    ensures exists i, j :: 0 <= i <= j <= |s| && Strip(s) == s[i..j]
  {
    StripLeftResult(s);
    var l := StripLeft(s);
    var i :| 0 <= i <= |s| && l == s[i..];
    StripRightResult(l);
    var j :| 0 <= j <= |l| && StripRight(l) == l[..j];
    SliceOfSlice(s, i, j);
  }

  lemma SliceOfSlice(s: string, i: nat, j: nat)
    requires i + j <= |s|
    ensures s[i..][..j] == s[i..i + j]
  {
  }

  lemma {:induction false} StripLeftResult(s: string)
    ensures StripLeft(s) == [] || !IsSpace(StripLeft(s)[0])
    ensures StripRight(StripLeft(s)) == [] || !IsSpace(StripRight(StripLeft(s))[0])
    ensures exists i :: 0 <= i <= |s| && StripLeft(s) == s[i..]
    decreases |s|
  {
    if s != [] && IsSpace(s[0]) {
      StripLeftResult(s[1..]);
      var i :| 0 <= i <= |s[1..]| && StripLeft(s[1..]) == s[1..][i..];
      assert StripLeft(s) == s[i + 1..];
    } else {
      StripRightKeepsHead(s);
      assert StripLeft(s) == s[0..];
    }
  }

  lemma {:induction false} StripRightKeepsHead(s: string)
    requires s == [] || !IsSpace(s[0])
    ensures StripRight(s) == [] || StripRight(s)[0] == s[0]
    decreases |s|
  {
    if s != [] && IsSpace(s[|s| - 1]) {
      StripRightKeepsHead(s[..|s| - 1]);
    }
  }

  lemma {:induction false} StripRightResult(s: string)
    ensures StripRight(s) == [] || !IsSpace(StripRight(s)[|StripRight(s)| - 1])
    ensures exists j :: 0 <= j <= |s| && StripRight(s) == s[..j]
    decreases |s|
  {
    if s != [] && IsSpace(s[|s| - 1]) {
      var t := s[..|s| - 1];
      StripRightResult(t);
      var j :| 0 <= j <= |t| && StripRight(t) == t[..j];
      assert StripRight(s) == s[..j];
    } else {
      assert StripRight(s) == s[..|s|];
    }
  }

  lemma {:induction false} TokenEndOf(w: string, rest: string)
    requires NoSpace(w)
    requires rest == [] || IsSpace(rest[0])
    ensures TokenEnd(w + rest) == |w|
    decreases |w|
  {
    if w != [] {
      assert (w + rest)[1..] == w[1..] + rest;
      TokenEndOf(w[1..], rest);
    }
  }

  /** A token splits into itself. */
  lemma SplitToken(w: string)
    requires IsToken(w)
    ensures Split(w) == [w]
  {
    TokenEndOf(w, []);
    assert w + [] == w;
    assert w[..|w|] == w && w[|w|..] == [];
  }

  /** Splitting a space-joined list of tokens gives the tokens back. */
  lemma {:induction false} SplitJoin(ws: seq<string>)
    requires AllTokens(ws)
    ensures Split(Join(ws)) == ws
    decreases |ws|
  {
    if ws == [] {
    } else if |ws| == 1 {
      SplitToken(ws[0]);
    } else {
      SplitJoin(ws[1..]);
      SplitToken(ws[0]);
      SplitAtSpace(ws[0], ' ', Join(ws[1..]));
      assert ws[0] + " " + Join(ws[1..]) == ws[0] + [' '] + Join(ws[1..]);
      assert ws == [ws[0]] + ws[1..];
    }
  }

  /** A whitespace character after a run of text ends the run where the
      text alone would have ended it. */
  lemma {:induction false} TokenEndBeforeSpace(a: string, r: string)
    requires r != [] && IsSpace(r[0])
    ensures TokenEnd(a + r) == TokenEnd(a)
    decreases |a|
  {
    if a != [] && !IsSpace(a[0]) {
      assert (a + r)[1..] == a[1..] + r;
      TokenEndBeforeSpace(a[1..], r);
    }
  }

  /** Splitting at a whitespace character: the words of the two sides. */
  lemma {:induction false} SplitAtSpace(a: string, c: char, b: string)
    requires IsSpace(c)
    ensures Split(a + [c] + b) == Split(a) + Split(b)
    decreases |a|, 1
  {
    if a == [] {
      assert (a + [c] + b)[1..] == b;
    } else if IsSpace(a[0]) {
      SplitAtSpaceAfterSpace(a, c, b);
    } else {
      SplitAtSpaceAfterToken(a, c, b);
    }
  }

  lemma {:induction false} SplitAtSpaceAfterSpace(a: string, c: char, b: string)
    requires IsSpace(c) && a != [] && IsSpace(a[0])
    ensures Split(a + [c] + b) == Split(a) + Split(b)
    decreases |a|, 0
  {
    var s := a + [c] + b;
    assert s[1..] == a[1..] + [c] + b;
    SplitAtSpace(a[1..], c, b);
    assert Split(s) == Split(s[1..]);
  }

  lemma {:induction false} SplitAtSpaceAfterToken(a: string, c: char, b: string)
    requires IsSpace(c) && a != [] && !IsSpace(a[0])
    ensures Split(a + [c] + b) == Split(a) + Split(b)
    decreases |a|, 0
  {
    var n := TokenEnd(a);
    TokenEndBeforeSpace(a, [c] + b);
    CutAfter(a, c, b, n);
    SplitAtSpace(a[n..], c, b);
  }

  lemma CutAfter(a: string, c: char, b: string, n: nat)
    requires n <= |a|
    ensures (a + [c] + b)[..n] == a[..n]
    ensures (a + [c] + b)[n..] == a[n..] + [c] + b
    ensures a + [c] + b == a + ([c] + b)
  {
  }

  /** Leading and trailing whitespace does not change the words. */
  lemma {:induction false} SplitStripLeft(s: string)
    ensures Split(StripLeft(s)) == Split(s)
    decreases |s|
  {
    if s != [] && IsSpace(s[0]) {
      SplitStripLeft(s[1..]);
    }
  }

  lemma {:induction false} SplitStripRight(s: string)
    ensures Split(StripRight(s)) == Split(s)
    decreases |s|
  {
    if s != [] && IsSpace(s[|s| - 1]) {
      var t := s[..|s| - 1];
      SplitStripRight(t);
      SplitAtSpace(t, s[|s| - 1], []);
      assert s == t + [s[|s| - 1]] + [];
    }
  }

  lemma SplitStrip(s: string)
    ensures Split(Strip(s)) == Split(s)
  {
    SplitStripLeft(s);
    SplitStripRight(StripLeft(s));
  }

  /** A string that strips to a token splits into that one token. */
  lemma PaddedToken(s: string)
    requires IsToken(Strip(s))
    ensures Split(s) == [Strip(s)]
  {
    SplitStrip(s);
    SplitToken(Strip(s));
  }

  /** " ".join of strings that each strip to a token: splitting it gives the
      stripped strings, one per joined string. */
  lemma {:induction false} SplitJoinPadded(ss: seq<string>)
    requires forall i :: 0 <= i < |ss| ==> IsToken(Strip(ss[i]))
    ensures Split(Join(ss)) == seq(|ss|, i requires 0 <= i < |ss| => Strip(ss[i]))
    decreases |ss|
  {
    if ss == [] {
    } else if |ss| == 1 {
      PaddedToken(ss[0]);
    } else {
      SplitJoinPadded(ss[1..]);
      PaddedToken(ss[0]);
      SplitAtSpace(ss[0], ' ', Join(ss[1..]));
      assert ss[0] + " " + Join(ss[1..]) == ss[0] + [' '] + Join(ss[1..]);
    }
  }

  /** " ".join(a + [w]) == " ".join(a) + " " + w for a non-empty a. */
  lemma {:induction false} JoinSnoc(ws: seq<string>, w: string)
    requires ws != []
    ensures Join(ws + [w]) == Join(ws) + " " + w
    decreases |ws|
  {
    if |ws| == 1 {
      assert ws + [w] == [ws[0], w];
      assert [ws[0], w][1..] == [w];
    } else {
      assert (ws + [w])[1..] == ws[1..] + [w];
      JoinSnoc(ws[1..], w);
    }
  }

  /** Joining two non-empty lists: the two joins separated by one space. */
  lemma {:induction false} JoinConcat(a: seq<string>, b: seq<string>)
    requires a != [] && b != []
    ensures Join(a + b) == Join(a) + " " + Join(b)
    decreases |a|
  {
    if |a| == 1 {
      assert (a + b)[1..] == b;
    } else {
      assert (a + b)[1..] == a[1..] + b;
      JoinConcat(a[1..], b);
    }
  }

  /** The join of tokens is empty exactly when there are none, and it
      neither starts nor ends with whitespace. */
  lemma {:induction false} JoinOfTokens(ws: seq<string>)
    requires AllTokens(ws)
    ensures Join(ws) == [] <==> ws == []
    ensures ws != [] ==> Join(ws)[0] == ws[0][0]
    ensures Trimmed(Join(ws))
    decreases |ws|
  {
    if |ws| > 1 {
      JoinOfTokens(ws[1..]);
      var s := ws[0] + " " + Join(ws[1..]);
      assert s[0] == ws[0][0];
      assert s[|s| - 1] == Join(ws[1..])[|Join(ws[1..])| - 1];
    }
  }

  // ---------------------------------------------------------------------
  // Case transforms (ASCII letters only)

  predicate IsLower(c: char) { 'a' <= c <= 'z' }
  predicate IsUpper(c: char) { 'A' <= c <= 'Z' }
  predicate IsLetter(c: char) { IsLower(c) || IsUpper(c) }

  function UpperChar(c: char): char
  {
    if IsLower(c) then (c as int - 32) as char else c
  }

  function LowerChar(c: char): char
  {
    if IsUpper(c) then (c as int + 32) as char else c
  }

  /** str.upper() on ASCII letters. */
  function Upper(s: string): string
  {
    if s == [] then [] else [UpperChar(s[0])] + Upper(s[1..])
  }

  /** str.title() on ASCII letters: a letter that follows a letter is lowered,
      any other letter is raised; other characters are kept. */
  function Title(s: string): string
  {
    TitleAfter(s, false)
  }

  function TitleAfter(s: string, afterLetter: bool): string
  {
    if s == [] then []
    else
      var c := s[0];
      var d := if !IsLetter(c) then c else if afterLetter then LowerChar(c) else UpperChar(c);
      [d] + TitleAfter(s[1..], IsLetter(c))
  }

  /** Two strings of equal length with whitespace at the same positions. */
  predicate SameShape(r: string, s: string)
  {
    |r| == |s| && forall i :: 0 <= i < |s| ==> (IsSpace(r[i]) <==> IsSpace(s[i]))
  }

  lemma {:induction false} UpperShape(s: string)
    ensures SameShape(Upper(s), s)
    ensures forall i :: 0 <= i < |s| ==> !IsLower(Upper(s)[i])
    decreases |s|
  {
    if s != [] {
      UpperShape(s[1..]);
    }
  }

  lemma {:induction false} TitleShape(s: string, afterLetter: bool)
    ensures SameShape(TitleAfter(s, afterLetter), s)
    decreases |s|
  {
    if s != [] {
      TitleShape(s[1..], IsLetter(s[0]));
    }
  }

  /** Two strings of the same shape split into the same number of words, so a
      case transform never changes which position a word has. */
  lemma {:induction false} SplitCountByShape(r: string, s: string)
    requires SameShape(r, s)
    ensures |Split(r)| == |Split(s)|
    decreases |s|
  {
    if s == [] {
    } else if IsSpace(s[0]) {
      SplitCountByShape(r[1..], s[1..]);
    } else {
      var n := TokenEnd(s);
      TokenEndByShape(r, s);
      SplitCountByShape(r[n..], s[n..]);
    }
  }

  lemma {:induction false} TokenEndByShape(r: string, s: string)
    requires SameShape(r, s)
    ensures TokenEnd(r) == TokenEnd(s)
    decreases |s|
  {
    if s != [] && !IsSpace(s[0]) {
      TokenEndByShape(r[1..], s[1..]);
    }
  }
}
