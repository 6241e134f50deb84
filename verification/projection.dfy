/**
 * The compact coordinate system of the projected plot: the genomic positions around the
 * exons are ranked in ascending order, transcripts and coverage rows are moved to those
 * ranks, and the seams between non-adjacent genomic stretches are reported.
 */
module Projection {
  import opened Wrappers
  import opened Seqs
  import opened Genes
  import opened Coverage

  /** `x` lies in the inclusive window `[begin - pad, end + pad]` around exon `e`. */
  predicate InWindow(x: int, e: Exon, pad: int) {
    e.begin - pad <= x <= e.end + pad
  }

  /** `x` lies in the window of one of the exons. */
  ghost predicate ExonsCover(exons: seq<Exon>, pad: int, x: int) {
    exists k :: 0 <= k < |exons| && InWindow(x, exons[k], pad)
  }

  /** The projection domain: `x` lies in the window of some exon of some transcript. */
  ghost predicate InDomain(txs: seq<Transcript>, pad: int, x: int) {
    exists t :: 0 <= t < |txs| && ExonsCover(txs[t].exons, pad, x)
  }

  /** `range(exon.begin - pad, exon.end + pad + 1)` for every exon, one after the other. */
  function ExonWindows(exons: seq<Exon>, pad: int): (r: seq<int>)
    ensures forall x :: x in Elems(r) <==> ExonsCover(exons, pad, x)
  {
    if exons == [] then []
    else
      var here := Range(exons[0].begin - pad, exons[0].end + pad + 1);
      var rest := ExonWindows(exons[1..], pad);
      RangeElems(exons[0].begin - pad, exons[0].end + pad + 1);
      assert Elems(here + rest) == Elems(here) + Elems(rest);
      assert forall k :: 1 <= k < |exons| ==> exons[k] == exons[1..][k - 1];
      here + rest
  }

  /** The windows of all exons of all transcripts. */
  function DomainWindows(txs: seq<Transcript>, pad: int): (r: seq<int>)
    ensures forall x :: x in Elems(r) <==> InDomain(txs, pad, x)
  {
    if txs == [] then []
    else
      var here := ExonWindows(txs[0].exons, pad);
      var rest := DomainWindows(txs[1..], pad);
      assert Elems(here + rest) == Elems(here) + Elems(rest);
      assert forall t :: 1 <= t < |txs| ==> txs[t] == txs[1..][t - 1];
      here + rest
  }

  /** `sorted(positions)`: the domain in ascending order, each position once. */
  function Positions(txs: seq<Transcript>, pad: int): (ps: seq<int>)
    ensures StrictlyIncreasing(ps)
    ensures forall x :: x in Elems(ps) <==> InDomain(txs, pad, x)
  {
    SortedSet(DomainWindows(txs, pad))
  }

  /**
   * `{g: p for p, g in enumerate(ps)}`: each position to its rank. The map is a strictly
   * monotone bijection from the positions onto `[0, |ps|)`.
   */
  function ProjectionMap(ps: seq<int>): (m: map<int, int>)
    requires StrictlyIncreasing(ps)
    ensures m.Keys == Elems(ps)
    ensures forall i :: 0 <= i < |ps| ==> m[ps[i]] == i
    ensures forall g :: g in m ==> 0 <= m[g] < |ps| && ps[m[g]] == g
    ensures forall g1, g2 :: g1 in m && g2 in m ==> (g1 < g2 <==> m[g1] < m[g2])
  {
    var m := map g | g in Elems(ps) :: IndexOf(ps, g);
    forall i | 0 <= i < |ps|
      ensures m[ps[i]] == i
    {
      assert ps[i] in Elems(ps);
      var j := IndexOf(ps, ps[i]);
      assert j == i;
    }
    m
  }

  /** The first index at which `g` occurs in `ps`. */
  function IndexOf(ps: seq<int>, g: int): (i: int)
    requires g in ps
    ensures 0 <= i < |ps| && ps[i] == g
  {
    if ps[0] == g then 0 else 1 + IndexOf(ps[1..], g)
  }

  /** Every rank in `[0, |ps|)` is taken by exactly one position. */
  lemma ProjectionOnto(ps: seq<int>)
    requires StrictlyIncreasing(ps)
    ensures forall p :: 0 <= p < |ps| <==> p in ProjectionMap(ps).Values
  {
    var m := ProjectionMap(ps);
    forall p | 0 <= p < |ps|
      ensures p in m.Values
    {
      assert m[ps[p]] == p;
    }
  }

  /** The rank of a position counts the positions below it. */
  lemma {:induction false} RankCountsBelow(ps: seq<int>, i: nat)
    requires StrictlyIncreasing(ps)
    requires i < |ps|
    ensures ProjectionMap(ps)[ps[i]] == |set y | y in Elems(ps) && y < ps[i]|
  {
    var below := set y | y in Elems(ps) && y < ps[i];
    var prefix := ps[..i];
    forall y | y in below
      ensures y in Elems(prefix)
    {
      var j :| 0 <= j < |ps| && ps[j] == y;
      assert prefix[j] == y;
    }
    assert below == Elems(prefix);
    assert Distinct(prefix);
    DistinctCard(prefix);
  }

  /** `projection.get(g)`. */
  function Project(ps: seq<int>, g: int): (r: Option<int>)
    requires StrictlyIncreasing(ps)
    ensures ProjectsTo(ps, g, r)
  {
    var m := ProjectionMap(ps);
    if g in m then Some(m[g]) else None
  }

  /** `o` is the rank of `g` among `ps` when `g` is one of them, and None otherwise. */
  ghost predicate ProjectsTo(ps: seq<int>, g: int, o: Option<int>) {
    && (o.Some? <==> g in Elems(ps))
    && (o.Some? ==> 0 <= o.value < |ps| && ps[o.value] == g)
  }

  /** With a non-negative padding, both ends of every exon that is not reversed lie in the domain. */
  lemma ExonEndsProjected(txs: seq<Transcript>, pad: int, t: nat, k: nat)
    requires pad >= 0
    requires t < |txs| && k < |txs[t].exons|
    requires txs[t].exons[k].begin <= txs[t].exons[k].end
    ensures Project(Positions(txs, pad), txs[t].exons[k].begin).Some?
    ensures Project(Positions(txs, pad), txs[t].exons[k].end).Some?
  {
    var e := txs[t].exons[k];
    assert InWindow(e.begin, e, pad) && InWindow(e.end, e, pad);
    assert ExonsCover(txs[t].exons, pad, e.begin) && ExonsCover(txs[t].exons, pad, e.end);
    assert InDomain(txs, pad, e.begin) && InDomain(txs, pad, e.end);
  }

  /** Ranks of a stretch of consecutive positions that all lie in the domain are consecutive too. */
  lemma {:induction false} RankOfStretch(ps: seq<int>, a: int, b: int)
    requires StrictlyIncreasing(ps)
    requires a <= b
    requires forall x :: a <= x <= b ==> x in Elems(ps)
    ensures a in Elems(ps) && b in Elems(ps)
    ensures ProjectionMap(ps)[b] - ProjectionMap(ps)[a] == b - a
    decreases b - a
  {
    var m := ProjectionMap(ps);
    if a < b {
      RankOfStretch(ps, a, b - 1);
      var i := m[b - 1];
      var j := m[b];
      assert i < j;
      assert i + 1 < |ps|;
      assert ps[i] == b - 1 && ps[j] == b;
      assert ps[i + 1] == b;
    }
  }

  /**
   * The projected plot draws an exon as a box from its projected begin of its genomic length;
   * with a non-negative padding that box ends at the projected exon end.
   */
  lemma ProjectedExonLength(txs: seq<Transcript>, pad: int, t: nat, k: nat)
    requires pad >= 0
    requires t < |txs| && k < |txs[t].exons|
    requires txs[t].exons[k].begin <= txs[t].exons[k].end
    ensures var ps := Positions(txs, pad);
      Project(ps, txs[t].exons[k].begin).Some? && Project(ps, txs[t].exons[k].end).Some? &&
      Project(ps, txs[t].exons[k].begin).value + txs[t].exons[k].Length() == Project(ps, txs[t].exons[k].end).value
  {
    var ps := Positions(txs, pad);
    var e := txs[t].exons[k];
    forall x | e.begin <= x <= e.end
      ensures x in Elems(ps)
    {
      assert InWindow(x, e, pad);
      assert ExonsCover(txs[t].exons, pad, x);
    }
    RankOfStretch(ps, e.begin, e.end);
  }

  /** The ranks `q` in `[p, |ps|)` whose position does not directly follow the one before. */
  function JumpsFrom(ps: seq<int>, p: nat): (r: seq<int>)
    requires p >= 1
    ensures forall i :: 0 <= i < |r| ==> p <= r[i] < |ps|
    ensures StrictlyIncreasing(r)
    ensures forall q :: q in Elems(r) <==> p <= q < |ps| && ps[q] != ps[q - 1] + 1
    decreases |ps| - p
  {
    if p >= |ps| then
      var none: seq<int> := [];
      assert Elems(none) == {};
      none
    else
      var rest := JumpsFrom(ps, p + 1);
      if ps[p] != ps[p - 1] + 1 then
        ConsIncreasing(p, rest);
        assert Elems([p] + rest) == {p} + Elems(rest);
        [p] + rest
      else rest
  }

  /** `jump_positions`: the ranks at which the plot draws a seam, in ascending order. */
  function JumpPositions(ps: seq<int>): (r: seq<int>)
    ensures forall i :: 0 <= i < |r| ==> 1 <= r[i] < |ps|
    ensures StrictlyIncreasing(r)
    ensures forall q :: q in Elems(r) <==> 1 <= q < |ps| && ps[q] != ps[q - 1] + 1
  {
    var r := JumpsFrom(ps, 1);
    forall q
      ensures q in Elems(r) <==> 1 <= q < |ps| && ps[q] != ps[q - 1] + 1
    {
      JumpsFromMember(ps, 1, q);
    }
    r
  }

  /** Membership in `JumpsFrom` for one rank `q`. */
  lemma JumpsFromMember(ps: seq<int>, p: nat, q: int)
    requires p >= 1
    ensures q in Elems(JumpsFrom(ps, p)) <==> p <= q < |ps| && ps[q] != ps[q - 1] + 1
  {
  }

  /** A seam is drawn at rank `p` exactly when the position just before `ps[p]` is outside the domain. */
  lemma JumpIffGap(ps: seq<int>, p: nat)
    requires StrictlyIncreasing(ps)
    requires 1 <= p < |ps|
    ensures p in Elems(JumpPositions(ps)) <==> ps[p] - 1 !in Elems(ps)
  {
    assert ps[p - 1] in Elems(ps);
    if ps[p] - 1 in Elems(ps) {
      var j :| 0 <= j < |ps| && ps[j] == ps[p] - 1;
      assert j <= p - 1;
      assert ps[j] <= ps[p - 1];
    }
  }

  /** Positions that begin a maximal stretch of consecutive positions. */
  function RunStarts(ps: seq<int>): set<int> {
    set i | 0 <= i < |ps| && ps[i] - 1 !in Elems(ps) :: ps[i]
  }

  /** The first position, then the position at every seam. */
  function SeamStarts(ps: seq<int>, js: seq<int>): (r: seq<int>)
    requires ps != []
    requires forall k :: 0 <= k < |js| ==> 0 <= js[k] < |ps|
    ensures |r| == |js| + 1 && r[0] == ps[0]
    ensures forall k :: 0 <= k < |js| ==> r[k + 1] == ps[js[k]]
  {
    [ps[0]] + seq(|js|, k requires 0 <= k < |js| => ps[js[k]])
  }

  lemma SeamStartsDistinct(ps: seq<int>)
    requires StrictlyIncreasing(ps) && ps != []
    ensures Distinct(SeamStarts(ps, JumpPositions(ps)))
  {
    var js := JumpPositions(ps);
    var starts := SeamStarts(ps, js);
    forall a, b | 0 <= a < b < |starts|
      ensures starts[a] != starts[b]
    {
      if a == 0 {
        assert starts[b] == ps[js[b - 1]];
        assert ps[0] < ps[js[b - 1]];
      } else {
        assert js[a - 1] < js[b - 1];
        assert starts[a] == ps[js[a - 1]] && starts[b] == ps[js[b - 1]];
      }
    }
  }

  lemma RunStartsAreSeamStarts(ps: seq<int>, x: int)
    requires StrictlyIncreasing(ps) && ps != []
    requires x in RunStarts(ps)
    ensures x in Elems(SeamStarts(ps, JumpPositions(ps)))
  {
    var js := JumpPositions(ps);
    var starts := SeamStarts(ps, js);
    var i :| 0 <= i < |ps| && ps[i] - 1 !in Elems(ps) && ps[i] == x;
    if i == 0 {
      assert starts[0] == x;
    } else {
      JumpIffGap(ps, i);
      assert i in Elems(js);
      var k :| 0 <= k < |js| && js[k] == i;
      assert starts[k + 1] == x;
    }
  }

  lemma SeamStartsAreRunStartsAt(ps: seq<int>, a: nat)
    requires StrictlyIncreasing(ps) && ps != []
    requires a < |SeamStarts(ps, JumpPositions(ps))|
    ensures SeamStarts(ps, JumpPositions(ps))[a] in RunStarts(ps)
  {
    var js := JumpPositions(ps);
    var starts := SeamStarts(ps, js);
    var i := if a == 0 then 0 else js[a - 1];
    assert starts[a] == ps[i];
    if a == 0 {
      assert ps[0] - 1 !in Elems(ps);
    } else {
      assert i in Elems(js);
      JumpIffGap(ps, i);
    }
    RunStartAt(ps, i);
  }

  lemma RunStartAt(ps: seq<int>, i: int)
    requires 0 <= i < |ps| && ps[i] - 1 !in Elems(ps)
    ensures ps[i] in RunStarts(ps)
  {
  }

  lemma SeamStartsAreRunStarts(ps: seq<int>)
    requires StrictlyIncreasing(ps) && ps != []
    ensures Elems(SeamStarts(ps, JumpPositions(ps))) == RunStarts(ps)
  {
    var starts := SeamStarts(ps, JumpPositions(ps));
    forall x | x in RunStarts(ps)
      ensures x in Elems(starts)
    {
      RunStartsAreSeamStarts(ps, x);
    }
    forall x | x in Elems(starts)
      ensures x in RunStarts(ps)
    {
      var a :| 0 <= a < |starts| && starts[a] == x;
      SeamStartsAreRunStartsAt(ps, a);
    }
  }

  /** The number of seams is one less than the number of maximal stretches of consecutive positions. */
  lemma JumpCount(ps: seq<int>)
    requires StrictlyIncreasing(ps)
    requires ps != []
    ensures |JumpPositions(ps)| == |RunStarts(ps)| - 1
  {
    var starts := SeamStarts(ps, JumpPositions(ps));
    SeamStartsDistinct(ps);
    SeamStartsAreRunStarts(ps);
    DistinctCard(starts);
  }

  /** No seam is drawn exactly when the positions form one unbroken range. */
  lemma JumpsEmptyIffContiguous(ps: seq<int>)
    requires StrictlyIncreasing(ps)
    requires ps != []
    ensures JumpPositions(ps) == [] <==> ps == Range(ps[0], ps[0] + |ps|)
  {
    var js := JumpPositions(ps);
    if js == [] {
      forall i | 1 <= i < |ps|
        ensures ps[i] == ps[i - 1] + 1
      {
        assert i !in Elems(js);
      }
      ConsecutiveIsRange(ps, |ps|);
    } else {
      var p := js[0];
      assert p in Elems(js);
      assert ps[p] != ps[p - 1] + 1;
    }
  }

  lemma {:induction false} ConsecutiveIsRange(ps: seq<int>, n: nat)
    requires ps != [] && n <= |ps|
    requires forall i :: 1 <= i < |ps| ==> ps[i] == ps[i - 1] + 1
    ensures forall i :: 0 <= i < n ==> ps[i] == ps[0] + i
    ensures n == |ps| ==> ps == Range(ps[0], ps[0] + |ps|)
  {
    if n > 0 {
      ConsecutiveIsRange(ps, n - 1);
      assert n - 1 == 0 || ps[n - 1] == ps[n - 2] + 1;
    }
  }

  /** Every seam sits at the rank of the widened begin of some exon. */
  lemma JumpAtWindowStart(txs: seq<Transcript>, pad: int, p: nat)
    requires p in Elems(JumpPositions(Positions(txs, pad)))
    ensures var ps := Positions(txs, pad);
      0 <= p < |ps| && exists t, k :: 0 <= t < |txs| && 0 <= k < |txs[t].exons| && ps[p] == txs[t].exons[k].begin - pad
  {
    var ps := Positions(txs, pad);
    var x := ps[p];
    JumpIffGap(ps, p);
    assert x in Elems(ps);
    var t :| 0 <= t < |txs| && ExonsCover(txs[t].exons, pad, x);
    var k :| 0 <= k < |txs[t].exons| && InWindow(x, txs[t].exons[k], pad);
    assert !InDomain(txs, pad, x - 1);
    assert !ExonsCover(txs[t].exons, pad, x - 1);
    assert !InWindow(x - 1, txs[t].exons[k], pad);
  }

  /** The coverage rows with `pos` moved to its rank; rows outside the domain are dropped. */
  function ProjectCoverage(rows: seq<CovRow>, ps: seq<int>): (r: seq<CovRow>)
    requires StrictlyIncreasing(ps)
    ensures |r| <= |rows|
    ensures forall i :: 0 <= i < |r| ==> 0 <= r[i].pos < |ps|
  {
    if rows == [] then []
    else
      var q := Project(ps, rows[0].pos).GetOr(-1);
      var rest := ProjectCoverage(rows[1..], ps);
      if q >= 0 then [rows[0].(pos := q)] + rest else rest
  }

  /** Rows on ranks moved back to genomic positions. */
  function Unproject(rows: seq<CovRow>, ps: seq<int>): (r: seq<CovRow>)
    requires forall i :: 0 <= i < |rows| ==> 0 <= rows[i].pos < |ps|
    ensures |r| == |rows|
    ensures forall i :: 0 <= i < |rows| ==> r[i] == rows[i].(pos := ps[rows[i].pos])
  {
    if rows == [] then [] else [rows[0].(pos := ps[rows[0].pos])] + Unproject(rows[1..], ps)
  }

  /** Projecting coverage keeps, in order, exactly the rows inside the domain, and only renames their positions. */
  lemma {:induction false} ProjectCoverageRoundTrip(rows: seq<CovRow>, ps: seq<int>)
    requires StrictlyIncreasing(ps)
    ensures Unproject(ProjectCoverage(rows, ps), ps) == Filter(rows, (x: CovRow) => x.pos in Elems(ps))
  {
    if rows != [] {
      ProjectCoverageRoundTrip(rows[1..], ps);
      assert rows == [rows[0]] + rows[1..];
    }
  }

  /** A row of the transcript table that the plot draws; absent coordinates stand for NaN. */
  datatype TxRow = TxRow(
    chrom: string,
    geneSymbol: string,
    txAccession: string,
    strand: string,
    begin: Option<int>,
    end: Option<int>,
    cdsBegin: Option<int>,
    cdsEnd: Option<int>,
    exonBegins: seq<Option<int>>,
    exonLengths: seq<int>)

  /** `[projection.get(x) for x in xs]`. */
  function ProjectAll(ps: seq<int>, xs: seq<int>): (r: seq<Option<int>>)
    requires StrictlyIncreasing(ps)
    ensures |r| == |xs| && forall i :: 0 <= i < |xs| ==> ProjectsTo(ps, xs[i], r[i])
  {
    if xs == [] then [] else [Project(ps, xs[0])] + ProjectAll(ps, xs[1..])
  }

  function ExonLengths(exons: seq<Exon>): (r: seq<int>)
    ensures |r| == |exons| && forall k :: 0 <= k < |exons| ==> r[k] == exons[k].Length()
  {
    if exons == [] then [] else [exons[0].Length()] + ExonLengths(exons[1..])
  }

  /**
   * `proj_transcripts`: one row per transcript with coordinates moved to ranks, exon lengths
   * kept genomic, and the name columns of the first transcript on every row.
   */
  function ProjectTranscripts(txs: seq<Transcript>, ps: seq<int>): (r: seq<TxRow>)
    requires StrictlyIncreasing(ps)
    ensures |r| == |txs|
    ensures forall i :: 0 <= i < |r| ==>
      && r[i].chrom == txs[0].chrom && r[i].strand == txs[0].strand
      && r[i].txAccession == txs[0].txAccession && r[i].geneSymbol == txs[0].geneSymbol
    ensures forall i :: 0 <= i < |r| ==>
      && ProjectsTo(ps, txs[i].txBegin, r[i].begin) && ProjectsTo(ps, txs[i].txEnd, r[i].end)
      && ProjectsTo(ps, txs[i].cdsBegin, r[i].cdsBegin) && ProjectsTo(ps, txs[i].cdsEnd, r[i].cdsEnd)
    ensures forall i :: 0 <= i < |r| ==>
      && |r[i].exonBegins| == |txs[i].exons| == |r[i].exonLengths|
      && forall k :: 0 <= k < |txs[i].exons| ==>
        ProjectsTo(ps, txs[i].exons[k].begin, r[i].exonBegins[k]) && r[i].exonLengths[k] == txs[i].exons[k].Length()
  {
    seq(|txs|, i requires 0 <= i < |txs| =>
      TxRow(
        chrom := txs[0].chrom,
        geneSymbol := txs[0].geneSymbol,
        txAccession := txs[0].txAccession,
        strand := txs[0].strand,
        begin := Project(ps, txs[i].txBegin),
        end := Project(ps, txs[i].txEnd),
        cdsBegin := Project(ps, txs[i].cdsBegin),
        cdsEnd := Project(ps, txs[i].cdsEnd),
        exonBegins := ProjectAll(ps, ExonBegins(txs[i].exons)),
        exonLengths := ExonLengths(txs[i].exons)))
  }
}
