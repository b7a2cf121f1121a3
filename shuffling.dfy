/** `random.shuffle` as the error estimation of backend/core/bb84.py uses it:
    CPython's in-place Fisher-Yates pass, which visits i = n-1 down to 1 and
    swaps x[i] with x[j] for j = randbelow(i + 1). The draws are given as
    `picks`, with `picks[i]` the j drawn at step i (`picks[0]` is unused). */
module Shuffling {
  import opened Basics

  /** Every pick is a legal outcome of `randbelow(i + 1)`, for a list of length `n`. */
  predicate ValidPicks(picks: seq<nat>, n: nat)
  {
    |picks| >= n && forall i :: 0 <= i < |picks| ==> picks[i] <= i
  }

  /** `x[i], x[j] = x[j], x[i]` on a value. */
  function Swap<T>(s: seq<T>, i: nat, j: nat): (r: seq<T>)
    requires i < |s| && j < |s|
    ensures |r| == |s| && r[i] == s[j] && r[j] == s[i]
    ensures forall k :: 0 <= k < |s| && k != i && k != j ==> r[k] == s[k]
  {
    s[i := s[j]][j := s[i]]
  }

  /** The steps i, i-1, ..., 1 of the pass, applied to `s`. */
  function ShuffleSteps<T>(s: seq<T>, picks: seq<nat>, i: int): seq<T>
    requires ValidPicks(picks, |s|) && i < |s|
    decreases i
  {
    if i < 1 then s else ShuffleSteps(Swap(s, i, picks[i]), picks, i - 1)
  }

  /** The whole pass over `s`. */
  function Shuffled<T>(s: seq<T>, picks: seq<nat>): seq<T>
    requires ValidPicks(picks, |s|)
  {
    ShuffleSteps(s, picks, |s| - 1)
  }

  /** A swap rearranges the list: it keeps the same multiset of entries. */
  lemma SwapPermutes<T>(s: seq<T>, i: nat, j: nat)
    requires i < |s| && j < |s|
    ensures multiset(Swap(s, i, j)) == multiset(s)
  {
    if i != j {
      var r := Swap(s, i, j);
      assert r == s[i := s[j]][j := s[i]];
      calc {
        multiset(r);
        multiset(s[i := s[j]]) - multiset{s[i := s[j]][j]} + multiset{s[i]};
        multiset(s) - multiset{s[i]} + multiset{s[j]} - multiset{s[j]} + multiset{s[i]};
        multiset(s);
      }
    }
  }

  /** The pass is a permutation of its input, whatever the picks. */
  lemma {:induction false} ShuffleStepsPermutes<T>(s: seq<T>, picks: seq<nat>, i: int)
    requires ValidPicks(picks, |s|) && i < |s|
    ensures |ShuffleSteps(s, picks, i)| == |s|
    ensures multiset(ShuffleSteps(s, picks, i)) == multiset(s)
    decreases i
  {
    if i >= 1 {
      SwapPermutes(s, i, picks[i]);
      ShuffleStepsPermutes(Swap(s, i, picks[i]), picks, i - 1);
    }
  }

  /** A swap keeps a list of indices duplicate-free and within `[0, n)`. */
  lemma SwapKeepsIndexList(s: seq<int>, i: nat, j: nat, n: int)
    requires i < |s| && j < |s|
    requires Distinct(s) && AllBelow(s, n)
    ensures Distinct(Swap(s, i, j)) && AllBelow(Swap(s, i, j), n)
  {
    var r := Swap(s, i, j);
    forall a, b | 0 <= a < b < |r|
      ensures r[a] != r[b]
    {
      var a' := if a == i then j else if a == j then i else a;
      var b' := if b == i then j else if b == j then i else b;
      assert r[a] == s[a'] && r[b] == s[b'];
      assert a' != b';
      if a' < b' {
        assert s[a'] != s[b'];
      } else {
        assert s[b'] != s[a'];
      }
    }
  }

  /** Shuffling a duplicate-free list of indices below `n` gives another one;
      in particular a shuffled `list(range(n))` lists every index once. */
  lemma {:induction false} ShuffleKeepsIndexList(s: seq<int>, picks: seq<nat>, i: int, n: int)
    requires ValidPicks(picks, |s|) && i < |s|
    requires Distinct(s) && AllBelow(s, n)
    ensures |ShuffleSteps(s, picks, i)| == |s|
    ensures Distinct(ShuffleSteps(s, picks, i)) && AllBelow(ShuffleSteps(s, picks, i), n)
    decreases i
  {
    if i >= 1 {
      SwapKeepsIndexList(s, i, picks[i], n);
      ShuffleKeepsIndexList(Swap(s, i, picks[i]), picks, i - 1, n);
    }
  }

  /** `random.shuffle(x)`: permutes the array in place as `Shuffled` says. */
  method ShuffleInPlace(a: array<int>, picks: seq<nat>)
    requires ValidPicks(picks, a.Length)
    modifies a
    ensures a[..] == Shuffled(old(a[..]), picks)
    ensures multiset(a[..]) == multiset(old(a[..]))
  {
    ShuffleStepsPermutes(a[..], picks, a.Length - 1);
    var i := a.Length - 1;
    while i >= 1
      invariant -1 <= i < a.Length
      invariant a.Length == 0 ==> i == -1
      invariant a.Length > 0 ==> 0 <= i
      invariant ShuffleSteps(a[..], picks, i) == Shuffled(old(a[..]), picks)
    {
      var j := picks[i];
      a[i], a[j] := a[j], a[i];
      i := i - 1;
    }
  }
}
