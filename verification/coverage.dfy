/**
 * Coverage tables and the synthetic coverage generator that both the plotting code and the
 * data store use for the built-in fake sample.
 */
module Coverage {
  import opened Seqs
  import opened Intervals

  /** Maximal depth of the synthetic ramp (exclusive). */
  const FAKE_MAX_DEPTH: int := 50

  /** One row of a one-sample table: columns chrom, pos and the sample's depth. */
  datatype Row = Row(chrom: string, pos: int, depth: int)

  /** A one-sample table as the fake generator returns it; the depth column is named after the sample. */
  datatype SampleTable = SampleTable(sample: string, rows: seq<Row>)

  /** One row of a multi-sample table: chrom, pos and one depth per sample column. */
  datatype CovRow = CovRow(chrom: string, pos: int, depths: seq<int>)

  /** A coverage table with columns chrom, pos and one column per sample. */
  datatype CovTable = CovTable(samples: seq<string>, rows: seq<CovRow>)

  /** Every row holds one depth per sample column. */
  ghost predicate WellFormed(t: CovTable) {
    forall i :: 0 <= i < |t.rows| ==> |t.rows[i].depths| == |t.samples|
  }

  /** The one-sample table seen as a coverage table with a single sample column. */
  function AsCovTable(t: SampleTable): (r: CovTable)
    ensures WellFormed(r) && r.samples == [t.sample] && |r.rows| == |t.rows|
    ensures forall i :: 0 <= i < |r.rows| ==>
      r.rows[i].chrom == t.rows[i].chrom && r.rows[i].pos == t.rows[i].pos && r.rows[i].depths[0] == t.rows[i].depth
  {
    CovTable([t.sample], seq(|t.rows|, i requires 0 <= i < |t.rows| => CovRow(t.rows[i].chrom, t.rows[i].pos, [t.rows[i].depth])))
  }

  /** `x` lies in one of the padded windows of `tree`. */
  ghost predicate Covered(tree: seq<Interval>, pad: int, x: int) {
    exists k :: 0 <= k < |tree| && InPaddedWindow(x, tree[k], pad)
  }

  /** Some row of `rows` is at position `x`. */
  ghost predicate HasPos(rows: seq<Row>, x: int) {
    exists i :: 0 <= i < |rows| && rows[i].pos == x
  }

  /** `x` lies in the interval widened by `pad` on both sides, `[begin - pad, end + pad)`. */
  predicate InPaddedWindow(x: int, itv: Interval, pad: int) {
    itv.begin - pad <= x < itv.end + pad
  }

  /** `chain(*[padded_range(itv.begin, itv.end, pad) for itv in tree])`. */
  function PaddedPositions(tree: seq<Interval>, pad: int): (r: seq<int>)
    ensures forall x :: x in Elems(r) <==> Covered(tree, pad, x)
  {
    if tree == [] then []
    else
      var rest := PaddedPositions(tree[1..], pad);
      var here := Range(tree[0].begin - pad, tree[0].end + pad);
      RangeElems(tree[0].begin - pad, tree[0].end + pad);
      assert Elems(here + rest) == Elems(here) + Elems(rest);
      assert forall k :: 1 <= k < |tree| ==> tree[k] == tree[1..][k - 1];
      here + rest
  }

  /** `int(50.0 * i / n)` on integers. */
  function RampDepth(i: nat, n: nat): (d: int)
    requires i < n
    ensures 0 <= d < FAKE_MAX_DEPTH
  {
    assert FAKE_MAX_DEPTH * i < FAKE_MAX_DEPTH * n;
    DivBelow(FAKE_MAX_DEPTH * i, n, FAKE_MAX_DEPTH);
    FAKE_MAX_DEPTH * i / n
  }

  lemma DivBelow(a: nat, n: nat, c: nat)
    requires n > 0 && a < c * n
    ensures a / n < c
  {
  }

  lemma DivMonotone(a: nat, b: nat, n: nat)
    requires n > 0 && a <= b
    ensures a / n <= b / n
  {
    var qa, qb := a / n, b / n;
    assert n * qa <= a && b < n * qb + n;
    if qa > qb {
      MulStep(n, qb, qa);
      assert false;
    }
  }

  lemma {:induction false} MulStep(n: nat, x: int, y: int)
    requires x < y
    ensures n * x + n <= n * y
    decreases y - x
  {
    if y > x + 1 {
      MulStep(n, x, y - 1);
      assert n * (y - 1) + n == n * y;
    } else {
      assert n * (x + 1) == n * x + n;
    }
  }

  /**
   * The synthetic coverage of `sample` over `tree`: one row per distinct position of the
   * padded windows, in ascending order, with 0-based positions and depth rising from 0
   * towards 50 along the rows.
   */
  function FakeCoverage(sample: string, chrom: string, tree: seq<Interval>, pad: int): (r: SampleTable)
    ensures r.sample == sample
    ensures forall i :: 0 <= i < |r.rows| ==> r.rows[i].chrom == chrom
    ensures forall i, j :: 0 <= i < j < |r.rows| ==> r.rows[i].pos < r.rows[j].pos
    ensures forall x :: HasPos(r.rows, x) <==> Covered(tree, pad, x)
    ensures forall i :: 0 <= i < |r.rows| ==> r.rows[i].depth == FAKE_MAX_DEPTH * i / |r.rows|
  {
    var positions := SortedSet(PaddedPositions(tree, pad));
    var n := |positions|;
    var rows := seq(n, i requires 0 <= i < n => Row(chrom, positions[i], RampDepth(i, n)));
    forall x
      ensures HasPos(rows, x) <==> Covered(tree, pad, x)
    {
      if x in Elems(positions) {
        var i :| 0 <= i < n && positions[i] == x;
        assert rows[i].pos == x;
      }
      if HasPos(rows, x) {
        var i :| 0 <= i < n && rows[i].pos == x;
        assert positions[i] in Elems(positions);
      }
    }
    SampleTable(sample, rows)
  }

  /** The synthetic depth stays within `[0, 50)` and never decreases along the rows. */
  lemma FakeDepthRamp(sample: string, chrom: string, tree: seq<Interval>, pad: int)
    ensures var rows := FakeCoverage(sample, chrom, tree, pad).rows;
      && (forall i :: 0 <= i < |rows| ==> 0 <= rows[i].depth < FAKE_MAX_DEPTH)
      && (forall i, j :: 0 <= i <= j < |rows| ==> rows[i].depth <= rows[j].depth)
  {
    var rows := FakeCoverage(sample, chrom, tree, pad).rows;
    var n := |rows|;
    forall i | 0 <= i < n
      ensures 0 <= rows[i].depth < FAKE_MAX_DEPTH
    {
      DivBelow(FAKE_MAX_DEPTH * i, n, FAKE_MAX_DEPTH);
    }
    forall i, j | 0 <= i <= j < n
      ensures rows[i].depth <= rows[j].depth
    {
      DivMonotone(FAKE_MAX_DEPTH * i, FAKE_MAX_DEPTH * j, n);
    }
  }

  /** The synthetic coverage does not depend on the order in which the tree yields its intervals. */
  lemma FakeCoverageOrderIndependent(sample: string, chrom: string, t1: seq<Interval>, t2: seq<Interval>, pad: int)
    requires Elems(t1) == Elems(t2)
    ensures FakeCoverage(sample, chrom, t1, pad) == FakeCoverage(sample, chrom, t2, pad)
  {
    var p1 := PaddedPositions(t1, pad);
    var p2 := PaddedPositions(t2, pad);
    forall x | x in Elems(p1)
      ensures x in Elems(p2)
    {
      var k :| 0 <= k < |t1| && InPaddedWindow(x, t1[k], pad);
      assert t1[k] in Elems(t2);
      var k2 :| 0 <= k2 < |t2| && t2[k2] == t1[k];
      assert Covered(t2, pad, x);
    }
    forall x | x in Elems(p2)
      ensures x in Elems(p1)
    {
      var k :| 0 <= k < |t2| && InPaddedWindow(x, t2[k], pad);
      assert t2[k] in Elems(t1);
      var k1 :| 0 <= k1 < |t1| && t1[k1] == t2[k];
      assert Covered(t1, pad, x);
    }
    assert Elems(p1) == Elems(p2);
    SortedSetOfSameElems(p1, p2);
  }
}
