/**
 * The part of the `intervaltree` library that the coverage code relies on: a tree built from
 * half-open intervals, which refuses null intervals and holds each distinct interval once.
 * A tree is represented by its intervals in ascending (begin, end) order.
 */
module Intervals {
  import opened Wrappers
  import opened Seqs
  import opened Genes

  /** `Interval(begin, end)`: the half-open range `[begin, end)`. */
  datatype Interval = Interval(begin: int, end: int) {

    /** `is_null()`: the interval holds no point. */
    predicate IsNull() {
      begin >= end
    }
  }

  /** Strict lexicographic order on (begin, end). */
  predicate Before(a: Interval, b: Interval) {
    a.begin < b.begin || (a.begin == b.begin && a.end < b.end)
  }

  /** The representation of a tree: strictly ascending in (begin, end), so without duplicates. */
  ghost predicate Canonical(s: seq<Interval>) {
    forall i, j :: 0 <= i < j < |s| ==> Before(s[i], s[j])
  }

  lemma ConsCanonical(v: Interval, t: seq<Interval>)
    requires Canonical(t)
    requires t == [] || Before(v, t[0])
    ensures Canonical([v] + t)
  {
    forall j | 0 <= j < |t|
      ensures Before(v, t[j])
    {
      if j > 0 {
        assert Before(t[0], t[j]);
      }
    }
  }

  /** Adds one interval to a tree; adding an interval already there changes nothing. */
  function Add(x: Interval, s: seq<Interval>): (r: seq<Interval>)
    requires Canonical(s)
    ensures Canonical(r)
    ensures Elems(r) == Elems(s) + {x}
    ensures r[0] == if s == [] || Before(x, s[0]) then x else s[0]
  {
    if s == [] then [x]
    else if Before(x, s[0]) then
      ConsCanonical(x, s);
      [x] + s
    else if x == s[0] then s
    else
      var tail := Add(x, s[1..]);
      assert Elems(s) == {s[0]} + Elems(s[1..]);
      assert |s| > 1 ==> Before(s[0], s[1]);
      ConsCanonical(s[0], tail);
      assert Elems([s[0]] + tail) == {s[0]} + Elems(tail);
      [s[0]] + tail
  }

  /** The tree of a list of intervals, before null intervals are rejected. */
  function Insertions(ivs: seq<Interval>): (r: seq<Interval>)
    ensures Canonical(r)
    ensures Elems(r) == Elems(ivs)
  {
    if ivs == [] then []
    else
      assert Elems(ivs) == {ivs[0]} + Elems(ivs[1..]);
      Add(ivs[0], Insertions(ivs[1..]))
  }

  /** `IntervalTree(ivs)`: raises ValueError when one of the intervals is null. */
  function BuildTree(ivs: seq<Interval>): (r: Result<seq<Interval>>)
    ensures r.Success? <==> forall i :: 0 <= i < |ivs| ==> !ivs[i].IsNull()
    ensures r.Failure? ==> r.error == ValueError(NullInterval)
    ensures r.Success? ==> Canonical(r.value) && Elems(r.value) == Elems(ivs)
  {
    if exists i :: 0 <= i < |ivs| && ivs[i].IsNull() then Failure(ValueError(NullInterval))
    else Success(Insertions(ivs))
  }

  lemma {:induction false} CanonicalUnique(a: seq<Interval>, b: seq<Interval>)
    requires Canonical(a) && Canonical(b)
    requires Elems(a) == Elems(b)
    ensures a == b
    decreases |a|
  {
    if a == [] {
      if b != [] {
        HeadInElems(b);
        assert false;
      }
    } else {
      assert a[0] in Elems(b);
      assert b != [];
      assert b[0] in Elems(a);
      var i :| 0 <= i < |a| && a[i] == b[0];
      var j :| 0 <= j < |b| && b[j] == a[0];
      assert i == 0 || Before(a[0], a[i]);
      assert j == 0 || Before(b[0], b[j]);
      assert a[0] == b[0];
      assert Elems(a) == {a[0]} + Elems(a[1..]);
      assert Elems(b) == {b[0]} + Elems(b[1..]);
      assert a[0] !in Elems(a[1..]);
      assert b[0] !in Elems(b[1..]);
      CanonicalUnique(a[1..], b[1..]);
      assert a == [a[0]] + a[1..];
      assert b == [b[0]] + b[1..];
    }
  }

  /** A tree depends only on the set of intervals it is given, not on their order or repetition. */
  lemma BuildTreeOfSameElems(xs: seq<Interval>, ys: seq<Interval>)
    requires Elems(xs) == Elems(ys)
    ensures BuildTree(xs) == BuildTree(ys)
  {
    if BuildTree(xs).Success? {
      forall i | 0 <= i < |ys|
        ensures !ys[i].IsNull()
      {
        assert ys[i] in Elems(xs);
      }
      CanonicalUnique(BuildTree(xs).value, BuildTree(ys).value);
    } else {
      var i :| 0 <= i < |xs| && xs[i].IsNull();
      assert xs[i] in Elems(ys);
    }
  }

  /** The intervals of a transcript's exons, in exon order. */
  function ExonIntervals(exons: seq<Exon>): (r: seq<Interval>)
    ensures |r| == |exons|
    ensures forall k :: 0 <= k < |exons| ==> r[k] == Interval(exons[k].begin, exons[k].end)
  {
    if exons == [] then [] else [Interval(exons[0].begin, exons[0].end)] + ExonIntervals(exons[1..])
  }

  /** Distinct non-null exons give a tree with one interval per exon. */
  lemma TreeSizeOfDistinctExons(exons: seq<Exon>)
    requires Distinct(exons)
    requires forall k :: 0 <= k < |exons| ==> exons[k].begin < exons[k].end
    ensures BuildTree(ExonIntervals(exons)).Success?
    ensures |BuildTree(ExonIntervals(exons)).value| == |exons|
  {
    var ivs := ExonIntervals(exons);
    var t := BuildTree(ivs).value;
    assert Distinct(ivs) by {
      forall i, j | 0 <= i < j < |ivs|
        ensures ivs[i] != ivs[j]
      {
        assert exons[i] != exons[j];
      }
    }
    DistinctCard(ivs);
    assert Distinct(t) by {
      forall i, j | 0 <= i < j < |t|
        ensures t[i] != t[j]
      {
        assert Before(t[i], t[j]);
      }
    }
    DistinctCard(t);
  }
}
