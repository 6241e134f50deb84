/** Sequence helpers shared by the model: Python's range, sorted(set(...)), sorted(key=...) and row filters. */
module Seqs {

  function Elems<T>(s: seq<T>): set<T> {
    set x | x in s
  }

  ghost predicate StrictlyIncreasing(s: seq<int>) {
    forall i, j :: 0 <= i < j < |s| ==> s[i] < s[j]
  }

  ghost predicate Distinct<T>(s: seq<T>) {
    forall i, j :: 0 <= i < j < |s| ==> s[i] != s[j]
  }

  ghost predicate SortedBy<T>(s: seq<T>, key: T -> int) {
    forall i, j :: 0 <= i < j < |s| ==> key(s[i]) <= key(s[j])
  }

  /** Python's `range(lo, hi)`: empty when `hi <= lo`. */
  function Range(lo: int, hi: int): (r: seq<int>)
    ensures |r| == if lo <= hi then hi - lo else 0
    ensures forall i :: 0 <= i < |r| ==> r[i] == lo + i
    decreases hi - lo
  {
    if hi <= lo then [] else [lo] + Range(lo + 1, hi)
  }

  lemma RangeElems(lo: int, hi: int)
    ensures forall x :: x in Elems(Range(lo, hi)) <==> lo <= x < hi
  {
    var r := Range(lo, hi);
    forall x | lo <= x < hi
      ensures x in r
    {
      assert r[x - lo] == x;
    }
    forall x | x in r
      ensures lo <= x < hi
    {
      var i :| 0 <= i < |r| && r[i] == x;
    }
  }

  lemma ConsIncreasing(v: int, t: seq<int>)
    requires StrictlyIncreasing(t)
    requires t == [] || v < t[0]
    ensures StrictlyIncreasing([v] + t)
  {
    forall j | 0 <= j < |t|
      ensures v < t[j]
    {
      if j > 0 {
        assert t[0] < t[j];
      }
    }
  }

  /** Inserts `x` into a strictly increasing sequence, keeping it strictly increasing; a no-op when `x` is present. */
  function Insert(x: int, s: seq<int>): (r: seq<int>)
    requires StrictlyIncreasing(s)
    ensures StrictlyIncreasing(r)
    ensures Elems(r) == Elems(s) + {x}
    ensures r[0] == if s == [] || x < s[0] then x else s[0]
  {
    if s == [] then [x]
    else if x < s[0] then
      ConsIncreasing(x, s);
      [x] + s
    else if x == s[0] then s
    else
      var tail := Insert(x, s[1..]);
      ElemsCons(s[0], s[1..]);
      assert |s| > 1 ==> s[0] < s[1];
      ConsIncreasing(s[0], tail);
      ElemsCons(s[0], tail);
      [s[0]] + tail
  }

  lemma ElemsCons<T>(v: T, t: seq<T>)
    ensures Elems([v] + t) == {v} + Elems(t)
  {
    var r := [v] + t;
    forall y | y in Elems(r)
      ensures y in {v} + Elems(t)
    {
      var i :| 0 <= i < |r| && r[i] == y;
      if i > 0 {
        assert t[i - 1] == y;
      }
    }
    forall y | y in Elems(t)
      ensures y in Elems(r)
    {
      var i :| 0 <= i < |t| && t[i] == y;
      assert r[i + 1] == y;
    }
  }

  /** Python's `sorted(set(xs))` on integers. */
  function SortedSet(xs: seq<int>): (r: seq<int>)
    ensures StrictlyIncreasing(r)
    ensures Elems(r) == Elems(xs)
  {
    if xs == [] then []
    else
      assert Elems(xs) == {xs[0]} + Elems(xs[1..]);
      Insert(xs[0], SortedSet(xs[1..]))
  }

  /** The middle part of `a + b + c`, cut at `|a|` and `|a| + |b|`, is `b`. */
  lemma SliceOfBlock<T>(a: seq<T>, b: seq<T>, c: seq<T>, i: int, j: int)
    requires i == |a| && j == |a| + |b|
    ensures (a + b + c)[i .. j] == b
  {
  }

  lemma HeadInElems<T>(s: seq<T>)
    requires s != []
    ensures s[0] in Elems(s)
  {
  }

  /** A finite set of integers has exactly one strictly increasing enumeration. */
  lemma {:induction false} StrictlyIncreasingUnique(a: seq<int>, b: seq<int>)
    requires StrictlyIncreasing(a) && StrictlyIncreasing(b)
    requires Elems(a) == Elems(b)
    ensures a == b
    decreases |a|
  {
    if a == [] {
      if b != [] {
        HeadInElems(b);
        assert false;
      }
    } else {
      assert a[0] in Elems(b);
      assert b != [];
      assert b[0] in Elems(a);
      var i :| 0 <= i < |a| && a[i] == b[0];
      var j :| 0 <= j < |b| && b[j] == a[0];
      assert a[0] <= a[i];
      assert b[0] <= b[j];
      assert a[0] == b[0];
      assert Elems(a) == {a[0]} + Elems(a[1..]);
      assert Elems(b) == {b[0]} + Elems(b[1..]);
      assert a[0] !in Elems(a[1..]);
      assert b[0] !in Elems(b[1..]);
      StrictlyIncreasingUnique(a[1..], b[1..]);
      assert a == [a[0]] + a[1..];
      assert b == [b[0]] + b[1..];
    }
  }

  /** `sorted(set(xs))` depends only on the set of values in `xs`, not on their order or repetition. */
  lemma SortedSetOfSameElems(xs: seq<int>, ys: seq<int>)
    requires Elems(xs) == Elems(ys)
    ensures SortedSet(xs) == SortedSet(ys)
  {
    StrictlyIncreasingUnique(SortedSet(xs), SortedSet(ys));
  }

  lemma {:induction false} DistinctCard<T>(s: seq<T>)
    requires Distinct(s)
    ensures |Elems(s)| == |s|
    decreases |s|
  {
    if s != [] {
      assert Elems(s) == {s[0]} + Elems(s[1..]);
      assert s[0] !in Elems(s[1..]);
      DistinctCard(s[1..]);
    }
  }

  /** Stable insertion by key: `x` goes in front of the first element whose key is not smaller. */
  function InsertBy<T>(x: T, s: seq<T>, key: T -> int): (r: seq<T>)
    ensures |r| == |s| + 1
  {
    if s == [] then [x]
    else if key(x) <= key(s[0]) then [x] + s
    else [s[0]] + InsertBy(x, s[1..], key)
  }

  /** Insertion adds `x` to the elements, and keeps a sorted sequence sorted. */
  lemma {:induction false} InsertByFacts<T>(x: T, s: seq<T>, key: T -> int)
    ensures multiset(InsertBy(x, s, key)) == multiset(s) + multiset{x}
    ensures SortedBy(s, key) ==> SortedBy(InsertBy(x, s, key), key)
  {
    InsertByElems(x, s, key);
    if SortedBy(s, key) {
      InsertBySorted(x, s, key);
    }
  }

  /** Insertion adds exactly `x` to the elements. */
  lemma {:induction false} InsertByElems<T>(x: T, s: seq<T>, key: T -> int)
    ensures multiset(InsertBy(x, s, key)) == multiset(s) + multiset{x}
    decreases |s|
  {
    if s != [] {
      assert s == [s[0]] + s[1..];
      if key(x) > key(s[0]) {
        InsertByElems(x, s[1..], key);
      }
    }
  }

  /** Insertion keeps a sorted sequence sorted. */
  lemma {:induction false} InsertBySorted<T>(x: T, s: seq<T>, key: T -> int)
    requires SortedBy(s, key)
    ensures SortedBy(InsertBy(x, s, key), key)
    decreases |s|
  {
    if s != [] {
      assert s == [s[0]] + s[1..];
      if key(x) <= key(s[0]) {
        ConsSortedBy(x, s, key);
      } else {
        var tail := InsertBy(x, s[1..], key);
        InsertByElems(x, s[1..], key);
        InsertBySorted(x, s[1..], key);
        forall k | 0 <= k < |tail|
          ensures key(s[0]) <= key(tail[k])
        {
          assert tail[k] in multiset(tail);
          if tail[k] != x {
            assert tail[k] in multiset(s[1..]);
            var j :| 0 <= j < |s[1..]| && s[1..][j] == tail[k];
            assert s[j + 1] == tail[k];
          }
        }
        ConsSortedBy(s[0], tail, key);
      }
    }
  }

  lemma ConsSortedBy<T>(v: T, t: seq<T>, key: T -> int)
    requires SortedBy(t, key)
    requires t == [] || key(v) <= key(t[0])
    ensures SortedBy([v] + t, key)
  {
    var r := [v] + t;
    forall i, j | 0 <= i < j < |r|
      ensures key(r[i]) <= key(r[j])
    {
      if i == 0 {
        assert key(t[0]) <= key(t[j - 1]) || j == 1;
      } else {
        assert r[i] == t[i - 1] && r[j] == t[j - 1];
      }
    }
  }

  /** The rows of `xs` reordered by non-decreasing `key`, as `DataFrame.sort_values` leaves them. */
  function SortBy<T>(xs: seq<T>, key: T -> int): (r: seq<T>)
    ensures |r| == |xs|
  {
    if xs == [] then [] else InsertBy(xs[0], SortBy(xs[1..], key), key)
  }

  /** The sorted rows are in non-decreasing key order and are the input's rows. */
  lemma {:induction false} SortByFacts<T>(xs: seq<T>, key: T -> int)
    ensures SortedBy(SortBy(xs, key), key)
    ensures multiset(SortBy(xs, key)) == multiset(xs)
    decreases |xs|
  {
    if xs != [] {
      assert xs == [xs[0]] + xs[1..];
      SortByFacts(xs[1..], key);
      InsertByFacts(xs[0], SortBy(xs[1..], key), key);
    }
  }

  /** Every element of the sorted sequence stands somewhere in the original one. */
  lemma SortedMember<T>(xs: seq<T>, key: T -> int, i: int) returns (l: nat)
    requires 0 <= i < |SortBy(xs, key)|
    ensures l < |xs| && xs[l] == SortBy(xs, key)[i]
  {
    SortByFacts(xs, key);
    assert SortBy(xs, key)[i] in multiset(xs);
    l :| 0 <= l < |xs| && xs[l] == SortBy(xs, key)[i];
  }

  /** `a` is `b` with some elements left out, the rest in their original order. */
  ghost predicate IsSubsequence<T>(a: seq<T>, b: seq<T>)
    decreases |b|
  {
    if a == [] then true
    else if b == [] then false
    else if a[0] == b[0] then IsSubsequence(a[1..], b[1..])
    else IsSubsequence(a, b[1..])
  }

  /** The elements of `s` that satisfy `keep`, in order; the model of a boolean-mask row selection. */
  function Filter<T>(s: seq<T>, keep: T -> bool): (r: seq<T>)
    ensures forall x :: x in r ==> keep(x) && x in s
    ensures forall x :: x in s ==> multiset(r)[x] == if keep(x) then multiset(s)[x] else 0
    ensures IsSubsequence(r, s)
  {
    if s == [] then []
    else
      assert s == [s[0]] + s[1..];
      var tail := Filter(s[1..], keep);
      if keep(s[0]) then
        assert ([s[0]] + tail)[1..] == tail;
        [s[0]] + tail
      else tail
  }

  /** Concatenation of a sequence of sequences. */
  function Flatten<T>(ss: seq<seq<T>>): (r: seq<T>)
    ensures |r| == SumLengths(ss)
  {
    if ss == [] then [] else ss[0] + Flatten(ss[1..])
  }

  function SumLengths<T>(ss: seq<seq<T>>): nat {
    if ss == [] then 0 else |ss[0]| + SumLengths(ss[1..])
  }

  function Min(a: int, b: int): int {
    if a <= b then a else b
  }

  function Max(a: int, b: int): int {
    if a >= b then a else b
  }
}
