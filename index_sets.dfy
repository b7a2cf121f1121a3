/** Index lists as the protocol uses them: `list(range(n))`, `sorted` of a
    duplicate-free list of indices, and picking the entries of a list at
    given indices. */
module IndexSets {
  import opened Basics

  /** `list(range(n))`. */
  function Range(n: nat): (r: seq<int>)
    ensures |r| == n
    ensures forall i :: 0 <= i < n ==> r[i] == i
    ensures Distinct(r) && AllBelow(r, n)
  {
    seq(n, i => i)
  }

  /** The elements of a list, as a set. */
  function Elements(s: seq<int>): (r: set<int>)
    ensures s == [] ==> r == {}
    ensures s != [] ==> s[0] in r
  {
    set x | x in s
  }

  /** The members of `c` that are valid indices into a list of length `n`. */
  function Below(n: nat, c: set<int>): set<int>
  {
    set i | 0 <= i < n && i in c
  }

  /** The members of `c` below `n`, in ascending order. Applied to the
      elements of a duplicate-free list of indices below `n`, this is what
      `sorted` returns for that list (see `AscendingUnique`). */
  function AscendingIn(n: nat, c: set<int>): seq<int>
  {
    if n == 0 then []
    else AscendingIn(n - 1, c) + (if n - 1 in c then [n - 1] else [])
  }

  /** `AscendingIn` is ascending, and holds exactly the members of `c` below `n`. */
  lemma {:induction false} AscendingInMembers(n: nat, c: set<int>)
    ensures StrictlyIncreasing(AscendingIn(n, c))
    ensures AllBelow(AscendingIn(n, c), n)
    ensures forall x :: x in AscendingIn(n, c) <==> 0 <= x < n && x in c
  {
    if n > 0 {
      AscendingInMembers(n - 1, c);
    }
  }

  /** It has one entry per member of `c` below `n`. */
  lemma {:induction false} AscendingInCard(n: nat, c: set<int>)
    ensures |AscendingIn(n, c)| == |Below(n, c)|
  {
    if n > 0 {
      AscendingInCard(n - 1, c);
      if n - 1 in c {
        assert Below(n, c) == Below(n - 1, c) + {n - 1};
        assert n - 1 !in Below(n - 1, c);
      } else {
        assert Below(n, c) == Below(n - 1, c);
      }
    }
  }

  /** A duplicate-free list has as many elements as entries. */
  lemma {:induction false} DistinctCard(s: seq<int>)
    requires Distinct(s)
    ensures |Elements(s)| == |s|
  {
    if s != [] {
      var init := s[..|s| - 1];
      DistinctCard(init);
      assert Elements(s) == Elements(init) + {s[|s| - 1]};
      assert s[|s| - 1] !in Elements(init);
    }
  }

  /** The last entry of an ascending list is its largest element. */
  lemma LastIsLargest(s: seq<int>)
    requires StrictlyIncreasing(s) && s != []
    ensures forall x :: x in Elements(s) ==> x <= s[|s| - 1]
  {
    forall x | x in Elements(s)
      ensures x <= s[|s| - 1]
    {
      var i :| 0 <= i < |s| && s[i] == x;
      assert i == |s| - 1 || s[i] < s[|s| - 1];
    }
  }

  /** Dropping the last entry of an ascending list removes its largest element. */
  lemma DropLast(s: seq<int>)
    requires StrictlyIncreasing(s) && s != []
    ensures StrictlyIncreasing(s[..|s| - 1])
    ensures Elements(s[..|s| - 1]) == Elements(s) - {s[|s| - 1]}
  {
    var init, last := s[..|s| - 1], s[|s| - 1];
    assert s == init + [last];
    assert last !in init by {
      forall i | 0 <= i < |init|
        ensures init[i] != last
      {
        assert s[i] < s[|s| - 1];
      }
    }
  }

  /** Two ascending lists with the same elements are equal. */
  lemma {:induction false} AscendingEqual(s: seq<int>, t: seq<int>)
    requires StrictlyIncreasing(s) && StrictlyIncreasing(t)
    requires Elements(s) == Elements(t)
    ensures s == t
    decreases |s|
  {
    if s != [] {
      var last := s[|s| - 1];
      assert last in Elements(t);
      LastIsLargest(s);
      LastIsLargest(t);
      assert t[|t| - 1] in Elements(s);
      assert t[|t| - 1] == last;
      DropLast(s);
      DropLast(t);
      AscendingEqual(s[..|s| - 1], t[..|t| - 1]);
      assert s == s[..|s| - 1] + [last] && t == t[..|t| - 1] + [last];
    }
  }

  /** `sorted` is determined by the elements: the ascending list of the
      elements of any list of indices below `n` is `AscendingIn`. */
  lemma AscendingUnique(s: seq<int>, n: nat)
    requires StrictlyIncreasing(s) && AllBelow(s, n)
    ensures s == AscendingIn(n, Elements(s))
  {
    AscendingInMembers(n, Elements(s));
    AscendingEqual(s, AscendingIn(n, Elements(s)));
  }

  /** The entries of `s` at the positions `idx`, in the order of `idx`. */
  function Select<T>(s: seq<T>, idx: seq<int>): (r: seq<T>)
    requires AllBelow(idx, |s|)
    ensures |r| == |idx|
    ensures forall k :: 0 <= k < |idx| ==> r[k] == s[idx[k]]
  {
    seq(|idx|, k requires 0 <= k < |idx| => s[idx[k]])
  }

  /** Selecting at two lists of positions one after the other. */
  lemma SelectAppend<T>(s: seq<T>, a: seq<int>, b: seq<int>)
    requires AllBelow(a, |s|) && AllBelow(b, |s|)
    ensures AllBelow(a + b, |s|)
    ensures Select(s, a + b) == Select(s, a) + Select(s, b)
  {
    assert forall k :: 0 <= k < |a + b| ==> (a + b)[k] == (if k < |a| then a[k] else b[k - |a|]);
  }
}
