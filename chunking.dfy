/**
 * The phrase chunker (chunk_words): the flattened transcription word stream
 * is cut greedily into phrases of WORDS_PER_PHRASE words; the last phrase
 * keeps the remainder.
 */
module Chunking {

  const WORDS_PER_PHRASE: nat := 6

  /** Concatenation of a list of lists, in order. */
  function Flatten<T>(xss: seq<seq<T>>): seq<T>
  {
    if xss == [] then [] else xss[0] + Flatten(xss[1..])
  }

  lemma {:induction false} FlattenSnoc<T>(xss: seq<seq<T>>, xs: seq<T>)
    ensures Flatten(xss + [xs]) == Flatten(xss) + xs
    decreases |xss|
  {
    if xss != [] {
      assert (xss + [xs])[1..] == xss[1..] + [xs];
      FlattenSnoc(xss[1..], xs);
    }
  }

  /** What chunk_words promises: no phrase is empty, concatenating the phrases
      gives the words back in order, every phrase but the last is full, and
      there are ceil(n / WORDS_PER_PHRASE) phrases. */
  ghost predicate IsChunking<T>(words: seq<T>, phrases: seq<seq<T>>)
  {
    && Flatten(phrases) == words
    && (forall p :: 0 <= p < |phrases| ==> 1 <= |phrases[p]| <= WORDS_PER_PHRASE)
    && (forall p :: 0 <= p < |phrases| - 1 ==> |phrases[p]| == WORDS_PER_PHRASE)
    && |phrases| == (|words| + WORDS_PER_PHRASE - 1) / WORDS_PER_PHRASE
  }

  method ChunkWords<T>(words: seq<T>) returns (phrases: seq<seq<T>>)
    ensures IsChunking(words, phrases)
  {
    phrases := [];
    var phrase: seq<T> := [];
    for i := 0 to |words|
      invariant Flatten(phrases) + phrase == words[..i]
      invariant forall p :: 0 <= p < |phrases| ==> |phrases[p]| == WORDS_PER_PHRASE
      invariant |phrase| < WORDS_PER_PHRASE
      invariant |phrases| == i / WORDS_PER_PHRASE && |phrase| == i % WORDS_PER_PHRASE
    {
      FlattenSnoc(phrases, phrase + [words[i]]);
      assert words[..i + 1] == words[..i] + [words[i]];
      phrase := phrase + [words[i]];
      if |phrase| == WORDS_PER_PHRASE {
        phrases := phrases + [phrase];
        phrase := [];
      }
    }
    assert words[..|words|] == words;
    if phrase != [] {
      FlattenSnoc(phrases, phrase);
      phrases := phrases + [phrase];
    }
  }

  /** Phrase p of a chunking is the slice of the words that starts at
      p * WORDS_PER_PHRASE. */
  lemma {:induction false} ChunkSlice<T>(words: seq<T>, phrases: seq<seq<T>>, p: nat)
    requires IsChunking(words, phrases)
    requires p < |phrases|
    ensures p * WORDS_PER_PHRASE < |words|
    ensures phrases[p] == words[p * WORDS_PER_PHRASE .. Min(p * WORDS_PER_PHRASE + WORDS_PER_PHRASE, |words|)]
  {
    FullPrefix(phrases, p);
    assert phrases == phrases[..p] + [phrases[p]] + phrases[p + 1..];
    FlattenAppend(phrases[..p] + [phrases[p]], phrases[p + 1..]);
    FlattenAppend(phrases[..p], [phrases[p]]);
    assert Flatten([phrases[p]]) == phrases[p] + Flatten([phrases[p]][1..]);
    var start := p * WORDS_PER_PHRASE;
    assert words == Flatten(phrases[..p]) + phrases[p] + Flatten(phrases[p + 1..]);
    if p < |phrases| - 1 {
      FullPrefix(phrases, p + 1);
      assert phrases[..p + 1] == phrases[..p] + [phrases[p]];
      FlattenSnoc(phrases[..p], phrases[p]);
      assert |Flatten(phrases[..p + 1])| == start + WORDS_PER_PHRASE;
      assert start + WORDS_PER_PHRASE <= |words|;
    } else {
      assert phrases[p + 1..] == [];
      assert |words| == start + |phrases[p]|;
    }
  }

  function Min(a: int, b: int): int { if a <= b then a else b }

  /** Word k of the stream sits in phrase k / 6 at position k % 6. */
  lemma ChunkPosition<T>(words: seq<T>, phrases: seq<seq<T>>, k: nat)
    requires IsChunking(words, phrases)
    requires k < |words|
    ensures k / WORDS_PER_PHRASE < |phrases|
    ensures k % WORDS_PER_PHRASE < |phrases[k / WORDS_PER_PHRASE]|
    ensures phrases[k / WORDS_PER_PHRASE][k % WORDS_PER_PHRASE] == words[k]
  {
    var p := k / WORDS_PER_PHRASE;
    assert p < |phrases|;
    ChunkSlice(words, phrases, p);
  }

  lemma {:induction false} FlattenAppend<T>(a: seq<seq<T>>, b: seq<seq<T>>)
    ensures Flatten(a + b) == Flatten(a) + Flatten(b)
    decreases |a|
  {
    if a == [] {
      assert a + b == b;
    } else {
      assert (a + b)[1..] == a[1..] + b;
      FlattenAppend(a[1..], b);
    }
  }

  /** The phrases before a non-last phrase hold p * WORDS_PER_PHRASE words. */
  lemma {:induction false} FullPrefix<T>(phrases: seq<seq<T>>, p: nat)
    requires p < |phrases|
    requires forall q :: 0 <= q < |phrases| - 1 ==> |phrases[q]| == WORDS_PER_PHRASE
    ensures |Flatten(phrases[..p])| == p * WORDS_PER_PHRASE
  {
    if p > 0 {
      FullPrefix(phrases, p - 1);
      assert phrases[..p] == phrases[..p - 1] + [phrases[p - 1]];
      FlattenSnoc(phrases[..p - 1], phrases[p - 1]);
    }
  }
}
