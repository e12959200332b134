/**
 * Choosing the word to guess (`targets` and `randomTarget` in src/Game.tsx).
 * Targets are the most common words that are also legal guesses; a round of
 * length n picks one of those of length n.
 */
module Targets {
  import opened Wrappers

  /** Only this many of the most common words may ever become a target. */
  const TargetPoolSize: nat := 20000

  /** JavaScript's `Array.prototype.filter`: the elements that pass, in order. */
  function Filter<T(==,!new)>(s: seq<T>, keep: T -> bool): (r: seq<T>)
    ensures |r| <= |s|
    ensures forall x :: x in r <==> x in s && keep(x)
  {
    if s == [] then []
    else if keep(s[0]) then [s[0]] + Filter(s[1..], keep)
    else Filter(s[1..], keep)
  }

  /** `a` can be obtained from `b` by deleting elements: the order of `a` is the order in `b`. */
  predicate IsSubsequence<T(==)>(a: seq<T>, b: seq<T>)
    decreases |b|
  {
    if a == [] then true
    else if b == [] then false
    else if a[0] == b[0] then IsSubsequence(a[1..], b[1..])
    else IsSubsequence(a, b[1..])
  }

  /** Skipping the first element of `a` keeps it a subsequence. */
  lemma {:induction false} SubsequenceTail<T>(a: seq<T>, b: seq<T>)
    requires a != [] && IsSubsequence(a, b)
    ensures IsSubsequence(a[1..], b)
    decreases |b|, 1
  {
    if a[0] != b[0] {
      SubsequenceTail(a, b[1..]);
    }
    SubsequenceOfTail(a[1..], b);
  }

  /** A subsequence of the tail of `b` is a subsequence of `b`. */
  lemma {:induction false} SubsequenceOfTail<T>(a: seq<T>, b: seq<T>)
    requires b != [] && IsSubsequence(a, b[1..])
    ensures IsSubsequence(a, b)
    decreases |b|, 0
  {
    if a != [] && a[0] == b[0] {
      SubsequenceTail(a, b[1..]);
    }
  }

  lemma {:induction false} SubsequenceTransitive<T>(a: seq<T>, b: seq<T>, c: seq<T>)
    requires IsSubsequence(a, b) && IsSubsequence(b, c)
    ensures IsSubsequence(a, c)
    decreases |c|
  {
    if a == [] {
    } else if b[0] == c[0] {
      if a[0] == b[0] {
        SubsequenceTransitive(a[1..], b[1..], c[1..]);
      } else {
        SubsequenceTransitive(a, b[1..], c[1..]);
        SubsequenceOfTail(a, c);
      }
    } else {
      SubsequenceTransitive(a, b, c[1..]);
      SubsequenceOfTail(a, c);
    }
  }

  lemma {:induction false} FilterIsSubsequence<T(!new)>(s: seq<T>, keep: T -> bool)
    ensures IsSubsequence(Filter(s, keep), s)
  {
    if s != [] {
      FilterIsSubsequence(s[1..], keep);
      if !keep(s[0]) {
        SubsequenceOfTail(Filter(s, keep), s);
      }
    }
  }

  /** `s.slice(0, k)` is a subsequence of `s`. */
  lemma {:induction false} PrefixIsSubsequence<T>(s: seq<T>, k: nat)
    requires k <= |s|
    ensures IsSubsequence(s[..k], s)
  {
    if k > 0 {
      PrefixIsSubsequence(s[1..], k - 1);
      assert s[..k][1..] == s[1..][..k - 1];
    }
  }

  /** The words at the head of the frequency list that may become targets. */
  function Pool(common: seq<string>): (r: seq<string>)
    ensures |r| == Min(|common|, TargetPoolSize) && r <= common
  {
    common[..Min(|common|, TargetPoolSize)]
  }

  /** `targets`: the pool restricted to legal guesses. */
  function Targets(common: seq<string>, dictionary: set<string>): (r: seq<string>)
    ensures forall w :: w in r <==> w in Pool(common) && w in dictionary
  {
    Filter(Pool(common), w => w in dictionary)
  }

  /** `eligible` inside `randomTarget(wordLength)`. */
  function Eligible(common: seq<string>, dictionary: set<string>, wordLength: nat): (r: seq<string>)
    ensures forall w :: w in r <==> w in Targets(common, dictionary) && |w| == wordLength
  {
    Filter(Targets(common, dictionary), w => |w| == wordLength)
  }

  /** A word is eligible exactly when it is in the pool, is a legal guess and has the length asked for. */
  lemma EligibleMembership(common: seq<string>, dictionary: set<string>, wordLength: nat, w: string)
    ensures w in Eligible(common, dictionary, wordLength)
        <==> w in Pool(common) && w in dictionary && |w| == wordLength
  {
  }

  /** The eligible words keep the frequency order of `common`. */
  lemma EligibleIsSubsequence(common: seq<string>, dictionary: set<string>, wordLength: nat)
    ensures IsSubsequence(Eligible(common, dictionary, wordLength), common)
  {
    var targets := Targets(common, dictionary);
    FilterIsSubsequence(targets, w => |w| == wordLength);
    FilterIsSubsequence(Pool(common), w => w in dictionary);
    PrefixIsSubsequence(common, Min(|common|, TargetPoolSize));
    SubsequenceTransitive(targets, Pool(common), common);
    SubsequenceTransitive(Eligible(common, dictionary, wordLength), targets, common);
  }

  /**
   * `pick` (src/util is not part of this model): the element at the index the
   * random generator yields, here the oracle `draw` reduced modulo the length;
   * an empty list gives `undefined`.
   */
  function Pick<T>(s: seq<T>, draw: nat): (r: Option<T>)
    ensures r.None? <==> s == []
    ensures r.Some? ==> r.value in s
  {
    if s == [] then None else Some(s[draw % |s|])
  }

  /** Every element is the outcome of some draw, so the oracle rules out no choice. */
  lemma PickReachesEvery<T>(s: seq<T>, i: nat)
    requires i < |s|
    ensures Pick(s, i) == Some(s[i])
  {
    assert i % |s| == i;
  }

  /** `randomTarget(wordLength)`: a draw among the eligible words. */
  function RandomTarget(common: seq<string>, dictionary: set<string>, wordLength: nat, draw: nat): (r: Option<string>)
    ensures r.None? <==> Eligible(common, dictionary, wordLength) == []
    ensures r.Some? ==> r.value in Eligible(common, dictionary, wordLength)
    ensures r.Some? ==> |r.value| == wordLength && r.value in dictionary && r.value in Pool(common)
  {
    Pick(Eligible(common, dictionary, wordLength), draw)
  }

  /** Every eligible word is the target for some draw. */
  lemma EveryEligibleWordCanBeDrawn(common: seq<string>, dictionary: set<string>, wordLength: nat, i: nat)
    requires i < |Eligible(common, dictionary, wordLength)|
    ensures RandomTarget(common, dictionary, wordLength, i) == Some(Eligible(common, dictionary, wordLength)[i])
  {
    PickReachesEvery(Eligible(common, dictionary, wordLength), i);
  }
}
