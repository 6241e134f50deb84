/**
 * The data store: dataset lookup by id, per-exon coverage extraction from a pileup, and the
 * per-sample combination of coverage tables for one transcript. The alignment file's pileup
 * is an input, `pileup(path, chrom, lo, hi)`, standing for the columns pysam would yield.
 */
module Store {
  import opened Wrappers
  import opened Seqs
  import opened Genes
  import opened Intervals
  import opened Coverage
  import opened Data
  import Plot

  /** `load_data(id)`: the first dataset with identifier `id`; none makes the error message itself raise TypeError. */
  function FindDataset(datasets: seq<MetaData>, id: string): (r: Result<MetaData>)
    ensures r.Success? <==> exists i :: 0 <= i < |datasets| && datasets[i].id == id
    ensures r.Failure? ==> r.error == TypeError(UnknownDataset)
    ensures r.Success? ==> exists i :: (0 <= i < |datasets| && datasets[i] == r.value &&
      r.value.id == id && forall k :: 0 <= k < i ==> datasets[k].id != id)
  {
    if datasets == [] then Failure(TypeError(UnknownDataset))
    else if datasets[0].id == id then Success(datasets[0])
    else
      var r := FindDataset(datasets[1..], id);
      assert forall i :: 1 <= i < |datasets| ==> datasets[i] == datasets[1..][i - 1];
      r
  }

  /** The number of the exon at index `i` in ascending begin order: counted from the left on "+", from the right otherwise. */
  function ExonNumber(strand: string, n: int, i: int): int {
    if strand == "+" then i + 1 else n - i
  }

  /** The exon numbers of `m` exons of a transcript with `n` exons. */
  function ExonNumbers(strand: string, n: int, m: nat): (r: seq<int>)
    ensures |r| == m && forall i :: 0 <= i < m ==> r[i] == ExonNumber(strand, n, i)
  {
    seq(m, i requires 0 <= i < m => ExonNumber(strand, n, i))
  }

  /** When the tree has one interval per exon, the exon numbers are a permutation of `1..n`, whatever the strand. */
  lemma ExonNumbersPermutation(strand: string, n: nat)
    ensures Distinct(ExonNumbers(strand, n, n))
    ensures Elems(ExonNumbers(strand, n, n)) == Elems(Range(1, n + 1))
  {
    var r := ExonNumbers(strand, n, n);
    RangeElems(1, n + 1);
    forall x | 1 <= x <= n
      ensures x in Elems(r)
    {
      var i := if strand == "+" then x - 1 else n - x;
      assert r[i] == x;
    }
  }

  /** `align_col.reference_pos` and `align_col.get_num_aligned()` of one pileup column. */
  datatype PileupColumn = PileupColumn(pos: int, depth: int)

  /** A row of the real per-sample table: 1-based pos, exon number and the sample's depth. */
  datatype ExonRow = ExonRow(chrom: string, pos: int, exonNo: int, depth: int)

  /** The positions the columns report. */
  function PosSet(cols: seq<PileupColumn>): (r: set<int>)
    ensures forall i :: 0 <= i < |cols| ==> cols[i].pos in r
  {
    if cols == [] then {} else {cols[0].pos} + PosSet(cols[1..])
  }

  lemma PosSetCons(c: PileupColumn, rest: seq<PileupColumn>)
    ensures PosSet([c] + rest) == {c.pos} + PosSet(rest)
  {
    assert ([c] + rest)[1..] == rest;
  }

  /** A reported position is reported by some column. */
  lemma {:induction false} PosSetHas(cols: seq<PileupColumn>, p: int)
    requires p in PosSet(cols)
    ensures exists i :: 0 <= i < |cols| && cols[i].pos == p
  {
    if cols[0].pos != p {
      PosSetHas(cols[1..], p);
      var i :| 0 <= i < |cols[1..]| && cols[1..][i].pos == p;
      assert cols[i + 1].pos == p;
    }
  }

  /** The depth of the first column that reports position `p`. */
  function FirstDepth(cols: seq<PileupColumn>, p: int): (r: Option<int>)
    ensures r.Some? <==> p in PosSet(cols)
  {
    if cols == [] then None
    else if cols[0].pos == p then Some(cols[0].depth)
    else FirstDepth(cols[1..], p)
  }

  /** The depth found is the one the earliest column reporting `p` carries, as the scan's `seen` set keeps it. */
  lemma {:induction false} FirstDepthIsFirst(cols: seq<PileupColumn>, p: int)
    requires FirstDepth(cols, p).Some?
    ensures exists i :: (0 <= i < |cols| && cols[i] == PileupColumn(p, FirstDepth(cols, p).value) &&
      forall k :: 0 <= k < i ==> cols[k].pos != p)
  {
    if cols[0].pos != p {
      FirstDepthIsFirst(cols[1..], p);
      var d := FirstDepth(cols, p).value;
      var i :| 0 <= i < |cols[1..]| && cols[1..][i] == PileupColumn(p, d) &&
        forall k :: 0 <= k < i ==> cols[1..][k].pos != p;
      assert cols[i + 1] == PileupColumn(p, d);
      assert forall k :: 1 <= k < i + 1 ==> cols[k] == cols[1..][k - 1];
    }
  }

  /** The depth a position gets: the first reported one, 0 when no column reports it. */
  function DepthAt(cols: seq<PileupColumn>, p: int): int {
    FirstDepth(cols, p).GetOr(0)
  }

  /**
   * The loop over the pileup: keeps a column when its position lies in `[lo, hi)` and is not
   * in `seen` yet, then adds the position to `seen`.
   */
  function Scan(cols: seq<PileupColumn>, lo: int, hi: int, seen: set<int>): (r: seq<PileupColumn>)
    ensures forall i :: 0 <= i < |r| ==> lo <= r[i].pos < hi && r[i].pos !in seen
    ensures forall i, j :: 0 <= i < j < |r| ==> r[i].pos != r[j].pos
    ensures forall p :: p in PosSet(r) <==> lo <= p < hi && p !in seen && p in PosSet(cols)
    ensures forall i :: 0 <= i < |r| ==> FirstDepth(cols, r[i].pos) == Some(r[i].depth)
  {
    if cols == [] then []
    else
      var c := cols[0];
      if c.pos !in seen && lo <= c.pos < hi then
        var rest := Scan(cols[1..], lo, hi, seen + {c.pos});
        var r := [c] + rest;
        assert r[1..] == rest;
        r
      else
        Scan(cols[1..], lo, hi, seen)
  }

  /** The positions of `[lo, hi)` not in `seen`, in ascending order: the zero-depth fill. */
  function Fill(lo: int, hi: int, seen: set<int>): (r: seq<int>)
    ensures StrictlyIncreasing(r)
    ensures forall i :: 0 <= i < |r| ==> lo <= r[i] < hi
    ensures forall p :: p in Elems(r) <==> lo <= p < hi && p !in seen
    decreases hi - lo
  {
    if hi <= lo then []
    else
      var rest := Fill(lo + 1, hi, seen);
      if lo in seen then rest
      else
        ConsIncreasing(lo, rest);
        assert Elems([lo] + rest) == {lo} + Elems(rest);
        [lo] + rest
  }

  /** The rows of the columns the scan kept; positions become 1-based. */
  function ScannedRows(chrom: string, exonNo: int, scanned: seq<PileupColumn>): (r: seq<ExonRow>)
    ensures |r| == |scanned|
    ensures forall i :: 0 <= i < |r| ==> r[i] == ExonRow(chrom, scanned[i].pos + 1, exonNo, scanned[i].depth)
  {
    seq(|scanned|, i requires 0 <= i < |scanned| => ExonRow(chrom, scanned[i].pos + 1, exonNo, scanned[i].depth))
  }

  /** The zero-depth rows of the positions no column reported; positions become 1-based. */
  function ZeroRows(chrom: string, exonNo: int, zeros: seq<int>): (r: seq<ExonRow>)
    ensures |r| == |zeros|
    ensures forall i :: 0 <= i < |r| ==> r[i] == ExonRow(chrom, zeros[i] + 1, exonNo, 0)
  {
    seq(|zeros|, i requires 0 <= i < |zeros| => ExonRow(chrom, zeros[i] + 1, exonNo, 0))
  }

  /** Some row of `rows` is at position `q`. */
  ghost predicate HasRowAt(rows: seq<ExonRow>, q: int) {
    exists i :: 0 <= i < |rows| && rows[i].pos == q
  }

  /** What the scan of one window guarantees about the columns it keeps. */
  ghost predicate ScanOk(cols: seq<PileupColumn>, lo: int, hi: int, scanned: seq<PileupColumn>) {
    && (forall i :: 0 <= i < |scanned| ==> lo <= scanned[i].pos < hi)
    && (forall i, j :: 0 <= i < j < |scanned| ==> scanned[i].pos != scanned[j].pos)
    && (forall p :: p in PosSet(scanned) <==> lo <= p < hi && p in PosSet(cols))
    && (forall i :: 0 <= i < |scanned| ==> FirstDepth(cols, scanned[i].pos) == Some(scanned[i].depth))
  }

  /** What the zero fill of one window guarantees. */
  ghost predicate FillOk(lo: int, hi: int, seen: set<int>, zeros: seq<int>) {
    && StrictlyIncreasing(zeros)
    && (forall p :: p in Elems(zeros) <==> lo <= p < hi && p !in seen)
  }

  lemma AppendDistinct(a: seq<int>, zeros: seq<int>)
    requires Distinct(a) && StrictlyIncreasing(zeros)
    requires forall i :: 0 <= i < |zeros| ==> zeros[i] !in Elems(a)
    ensures Distinct(a + zeros)
  {
    var ps := a + zeros;
    forall i, j | 0 <= i < j < |ps|
      ensures ps[i] != ps[j]
    {
      if j < |a| {
        assert ps[i] == a[i] && ps[j] == a[j];
      } else if i >= |a| {
        assert zeros[i - |a|] < zeros[j - |a|];
      } else {
        assert ps[j] == zeros[j - |a|];
        assert ps[i] in Elems(a);
      }
    }
  }

  lemma RangeCard(lo: int, hi: int)
    ensures |Elems(Range(lo, hi))| == if lo <= hi then hi - lo else 0
  {
    var rg := Range(lo, hi);
    assert Distinct(rg) by {
      forall i, j | 0 <= i < j < |rg|
        ensures rg[i] != rg[j]
      {
      }
    }
    DistinctCard(rg);
  }

  /** Distinct window positions plus the fill of the rest of the window make up the whole window. */
  lemma DisjointFillCount(a: seq<int>, zeros: seq<int>, lo: int, hi: int)
    requires Distinct(a) && forall i :: 0 <= i < |a| ==> lo <= a[i] < hi
    requires StrictlyIncreasing(zeros)
    requires forall p :: p in Elems(zeros) <==> lo <= p < hi && p !in Elems(a)
    ensures |a| + |zeros| == if lo <= hi then hi - lo else 0
  {
    forall i | 0 <= i < |zeros|
      ensures zeros[i] !in Elems(a)
    {
      assert zeros[i] in Elems(zeros);
    }
    AppendDistinct(a, zeros);
    var ps := a + zeros;
    RangeElems(lo, hi);
    assert Elems(ps) == Elems(Range(lo, hi)) by {
      assert Elems(ps) == Elems(a) + Elems(zeros);
    }
    DistinctCard(ps);
    RangeCard(lo, hi);
  }

  lemma WindowRowsCount(cols: seq<PileupColumn>, lo: int, hi: int, scanned: seq<PileupColumn>, zeros: seq<int>)
    requires ScanOk(cols, lo, hi, scanned) && FillOk(lo, hi, PosSet(scanned), zeros)
    ensures |scanned| + |zeros| == if lo <= hi then hi - lo else 0
  {
    var a := seq(|scanned|, i requires 0 <= i < |scanned| => scanned[i].pos);
    assert Elems(a) == PosSet(scanned) by {
      forall p | p in PosSet(scanned)
        ensures p in Elems(a)
      {
        PosSetHas(scanned, p);
        var i :| 0 <= i < |scanned| && scanned[i].pos == p;
        assert a[i] == p;
      }
    }
    assert Distinct(a);
    DisjointFillCount(a, zeros, lo, hi);
  }

  lemma WindowRowsDistinct(chrom: string, exonNo: int, cols: seq<PileupColumn>, lo: int, hi: int,
                           scanned: seq<PileupColumn>, zeros: seq<int>)
    requires ScanOk(cols, lo, hi, scanned) && FillOk(lo, hi, PosSet(scanned), zeros)
    ensures var r := ScannedRows(chrom, exonNo, scanned) + ZeroRows(chrom, exonNo, zeros);
      forall i, j :: 0 <= i < j < |r| ==> r[i].pos != r[j].pos
  {
    var found := ScannedRows(chrom, exonNo, scanned);
    var r := found + ZeroRows(chrom, exonNo, zeros);
    forall i, j | 0 <= i < j < |r|
      ensures r[i].pos != r[j].pos
    {
      if j < |found| {
      } else if i >= |found| {
        assert zeros[i - |found|] < zeros[j - |found|];
      } else {
        assert zeros[j - |found|] in Elems(zeros);
        assert scanned[i].pos in PosSet(scanned);
      }
    }
  }

  lemma WindowRowsCover(chrom: string, exonNo: int, cols: seq<PileupColumn>, lo: int, hi: int,
                        scanned: seq<PileupColumn>, zeros: seq<int>)
    requires ScanOk(cols, lo, hi, scanned) && FillOk(lo, hi, PosSet(scanned), zeros)
    ensures var r := ScannedRows(chrom, exonNo, scanned) + ZeroRows(chrom, exonNo, zeros);
      forall p :: lo < p <= hi ==> HasRowAt(r, p)
  {
    var found := ScannedRows(chrom, exonNo, scanned);
    var r := found + ZeroRows(chrom, exonNo, zeros);
    forall q | lo < q <= hi
      ensures HasRowAt(r, q)
    {
      var p := q - 1;
      if p in PosSet(scanned) {
        PosSetHas(scanned, p);
        var i :| 0 <= i < |scanned| && scanned[i].pos == p;
        assert r[i].pos == q;
      } else {
        assert p in Elems(zeros);
        var k :| 0 <= k < |zeros| && zeros[k] == p;
        assert r[|found| + k].pos == q;
      }
    }
  }

  lemma WindowRowsDepth(chrom: string, exonNo: int, cols: seq<PileupColumn>, lo: int, hi: int,
                        scanned: seq<PileupColumn>, zeros: seq<int>)
    requires ScanOk(cols, lo, hi, scanned) && FillOk(lo, hi, PosSet(scanned), zeros)
    ensures var r := ScannedRows(chrom, exonNo, scanned) + ZeroRows(chrom, exonNo, zeros);
      forall i :: 0 <= i < |r| ==> r[i].depth == DepthAt(cols, r[i].pos - 1)
  {
    var found := ScannedRows(chrom, exonNo, scanned);
    var r := found + ZeroRows(chrom, exonNo, zeros);
    forall i | 0 <= i < |r|
      ensures r[i].depth == DepthAt(cols, r[i].pos - 1)
    {
      if i >= |found| {
        var p := zeros[i - |found|];
        assert p in Elems(zeros);
        assert p !in PosSet(cols);
      }
    }
  }

  /**
   * The rows of one exon window `[lo, hi)`: the pileup columns kept by the scan, then a zero
   * row for every position of the window no column reported; positions are emitted 1-based.
   */
  function WindowRows(chrom: string, exonNo: int, cols: seq<PileupColumn>, lo: int, hi: int): seq<ExonRow> {
    var scanned := Scan(cols, lo, hi, {});
    ScannedRows(chrom, exonNo, scanned) + ZeroRows(chrom, exonNo, Fill(lo, hi, PosSet(scanned)))
  }

  /** One window's rows form its table; see `WindowOk`. */
  lemma WindowRowsOk(chrom: string, exonNo: int, cols: seq<PileupColumn>, lo: int, hi: int)
    ensures WindowOk(WindowRows(chrom, exonNo, cols, lo, hi), chrom, exonNo, cols, lo, hi)
  {
    WindowFacts(chrom, exonNo, cols, lo, hi, WindowRows(chrom, exonNo, cols, lo, hi));
  }

  /**
   * The table of one window `[lo, hi)`: one row for every 1-based position of `(lo, hi]`, each
   * position once, the chromosome and exon number on every row, and at each row the depth
   * the pileup `cols` reports for it (0 when none does).
   */
  ghost predicate WindowOk(r: seq<ExonRow>, chrom: string, exonNo: int, cols: seq<PileupColumn>, lo: int, hi: int) {
    && |r| == (if lo <= hi then hi - lo else 0)
    && (forall i :: 0 <= i < |r| ==> r[i].chrom == chrom)
    && (forall i, j :: 0 <= i < j < |r| ==> r[i].pos != r[j].pos)
    && WindowTable(r, exonNo, cols, lo, hi)
  }

  /**
   * The table a window's scan and fill build. Each fact is proved in its own `by` block, so
   * that the scan's and the fill's invariants stay out of the other proofs.
   */
  lemma WindowFacts(chrom: string, exonNo: int, cols: seq<PileupColumn>, lo: int, hi: int, r: seq<ExonRow>)
    requires r == ScannedRows(chrom, exonNo, Scan(cols, lo, hi, {})) + ZeroRows(chrom, exonNo, Fill(lo, hi, PosSet(Scan(cols, lo, hi, {}))))
    ensures WindowOk(r, chrom, exonNo, cols, lo, hi)
  {
    var scanned := Scan(cols, lo, hi, {});
    var zeros := Fill(lo, hi, PosSet(scanned));
    assert |r| == (if lo <= hi then hi - lo else 0) by {
      ScanIsOk(cols, lo, hi, scanned);
      FillIsOk(lo, hi, PosSet(scanned), zeros);
      WindowRowsCount(cols, lo, hi, scanned, zeros);
    }
    assert forall i :: 0 <= i < |r| ==> r[i].chrom == chrom && r[i].exonNo == exonNo && lo < r[i].pos <= hi by {
      ScanIsOk(cols, lo, hi, scanned);
      FillIsOk(lo, hi, PosSet(scanned), zeros);
      WindowRowsBounds(chrom, exonNo, lo, hi, scanned, zeros, r);
    }
    assert forall i, j :: 0 <= i < j < |r| ==> r[i].pos != r[j].pos by {
      ScanIsOk(cols, lo, hi, scanned);
      FillIsOk(lo, hi, PosSet(scanned), zeros);
      WindowRowsDistinct(chrom, exonNo, cols, lo, hi, scanned, zeros);
    }
    assert forall p :: lo < p <= hi ==> HasRowAt(r, p) by {
      ScanIsOk(cols, lo, hi, scanned);
      FillIsOk(lo, hi, PosSet(scanned), zeros);
      WindowRowsCover(chrom, exonNo, cols, lo, hi, scanned, zeros);
    }
    assert forall i :: 0 <= i < |r| ==> r[i].depth == DepthAt(cols, r[i].pos - 1) by {
      ScanIsOk(cols, lo, hi, scanned);
      FillIsOk(lo, hi, PosSet(scanned), zeros);
      WindowRowsDepth(chrom, exonNo, cols, lo, hi, scanned, zeros);
    }
  }

  lemma ScanIsOk(cols: seq<PileupColumn>, lo: int, hi: int, scanned: seq<PileupColumn>)
    requires scanned == Scan(cols, lo, hi, {})
    ensures ScanOk(cols, lo, hi, scanned)
  {
  }

  lemma FillIsOk(lo: int, hi: int, seen: set<int>, zeros: seq<int>)
    requires zeros == Fill(lo, hi, seen)
    ensures FillOk(lo, hi, seen, zeros)
  {
  }

  lemma WindowRowsBounds(chrom: string, exonNo: int, lo: int, hi: int,
                         scanned: seq<PileupColumn>, zeros: seq<int>, r: seq<ExonRow>)
    requires forall i :: 0 <= i < |scanned| ==> lo <= scanned[i].pos < hi
    requires forall p :: p in Elems(zeros) ==> lo <= p < hi
    requires r == ScannedRows(chrom, exonNo, scanned) + ZeroRows(chrom, exonNo, zeros)
    ensures forall i :: 0 <= i < |r| ==> r[i].chrom == chrom && r[i].exonNo == exonNo && lo < r[i].pos <= hi
  {
    var found := ScannedRows(chrom, exonNo, scanned);
    forall i | 0 <= i < |r|
      ensures r[i].chrom == chrom && r[i].exonNo == exonNo && lo < r[i].pos <= hi
    {
      if i >= |found| {
        assert zeros[i - |found|] in Elems(zeros);
      }
    }
  }

  /** The number of positions of the interval widened by `pad` on both sides. */
  function WindowSize(itv: Interval, pad: int): nat {
    Max(0, itv.end - itv.begin + 2 * pad)
  }

  function TotalWindowSize(ws: seq<Interval>, pad: int): nat {
    if ws == [] then 0 else WindowSize(ws[0], pad) + TotalWindowSize(ws[1..], pad)
  }

  /** Row `x` lies in the padded window of some `ws[w]` and carries that window's exon number. */
  ghost predicate FromWindow(x: ExonRow, strand: string, n: int, ws: seq<Interval>, k: int, pad: int) {
    exists w :: 0 <= w < |ws| && x.exonNo == ExonNumber(strand, n, k + w) && ws[w].begin - pad < x.pos <= ws[w].end + pad
  }

  lemma FromLaterWindow(x: ExonRow, strand: string, n: int, ws: seq<Interval>, k: int, pad: int)
    requires ws != [] && FromWindow(x, strand, n, ws[1..], k + 1, pad)
    ensures FromWindow(x, strand, n, ws, k, pad)
  {
    var w :| 0 <= w < |ws[1..]| && x.exonNo == ExonNumber(strand, n, k + 1 + w) &&
      ws[1..][w].begin - pad < x.pos <= ws[1..][w].end + pad;
    assert ws[w + 1] == ws[1..][w];
  }

  /**
   * The rows of one exon window, as the loop body builds them: `block(e, lo, hi)` is the table
   * of the padded window `[lo, hi)` under exon number `e`, read from the alignment file at
   * `path`, where `pileup(path, chrom, lo, hi)` is that file's pileup of `[lo, hi)`.
   */
  function WindowBlock(chrom: string, pileup: (string, string, int, int) -> seq<PileupColumn>, path: string): (int, int, int) -> seq<ExonRow> {
    (e: int, lo: int, hi: int) => WindowRows(chrom, e, pileup(path, chrom, lo, hi), lo, hi)
  }

  /** Every block `block` builds is the table of its window; see `WindowOk`. */
  ghost predicate Windowed(block: (int, int, int) -> seq<ExonRow>, chrom: string,
                           pileup: (string, string, int, int) -> seq<PileupColumn>, path: string) {
    forall e, lo, hi {:trigger WindowOk(block(e, lo, hi), chrom, e, pileup(path, chrom, lo, hi), lo, hi)} ::
      WindowOk(block(e, lo, hi), chrom, e, pileup(path, chrom, lo, hi), lo, hi)
  }

  lemma {:induction false} WindowBlockOk(chrom: string, pileup: (string, string, int, int) -> seq<PileupColumn>, path: string)
    ensures Windowed(WindowBlock(chrom, pileup, path), chrom, pileup, path)
  {
    forall e, lo, hi
      ensures WindowOk(WindowBlock(chrom, pileup, path)(e, lo, hi), chrom, e, pileup(path, chrom, lo, hi), lo, hi)
    {
      WindowRowsOk(chrom, e, pileup(path, chrom, lo, hi), lo, hi);
    }
  }

  /**
   * The rows of every window, in the order of `ws`: the block of each window widened by `pad`;
   * `k` is the index of `ws[0]` in the sorted tree, `n` the transcript's exon count.
   */
  function GeneratedRows(strand: string, n: int, ws: seq<Interval>, k: nat, pad: int,
                         block: (int, int, int) -> seq<ExonRow>): seq<ExonRow>
    decreases |ws|
  {
    if ws == [] then []
    else block(ExonNumber(strand, n, k), ws[0].begin - pad, ws[0].end + pad) + GeneratedRows(strand, n, ws[1..], k + 1, pad, block)
  }

  /** The generated rows number the windows' sizes together, and each lies in some window and carries its exon number. */
  lemma {:induction false} GeneratedRowsShape(chrom: string, strand: string, n: int, ws: seq<Interval>, k: nat, pad: int,
                                              block: (int, int, int) -> seq<ExonRow>,
                                              pileup: (string, string, int, int) -> seq<PileupColumn>, path: string)
    requires Windowed(block, chrom, pileup, path)
    ensures var r := GeneratedRows(strand, n, ws, k, pad, block);
      && |r| == TotalWindowSize(ws, pad)
      && (forall i :: 0 <= i < |r| ==> r[i].chrom == chrom)
      && forall i :: 0 <= i < |r| ==> FromWindow(r[i], strand, n, ws, k, pad)
    decreases |ws|
  {
    if ws != [] {
      var lo, hi := ws[0].begin - pad, ws[0].end + pad;
      var here := block(ExonNumber(strand, n, k), lo, hi);
      assert WindowOk(here, chrom, ExonNumber(strand, n, k), pileup(path, chrom, lo, hi), lo, hi);
      GeneratedRowsShape(chrom, strand, n, ws[1..], k + 1, pad, block, pileup, path);
      FromWindowsAppend(chrom, here, GeneratedRows(strand, n, ws[1..], k + 1, pad, block), strand, n, ws, k, pad);
    }
  }

  /** The rows of `ws1 + ws2` are those of `ws1` followed by those of `ws2`, numbered on from `k + |ws1|`. */
  lemma {:induction false} GeneratedRowsAppend(strand: string, n: int, ws1: seq<Interval>, ws2: seq<Interval>, k: nat, pad: int,
                                               block: (int, int, int) -> seq<ExonRow>)
    ensures GeneratedRows(strand, n, ws1 + ws2, k, pad, block)
         == GeneratedRows(strand, n, ws1, k, pad, block) + GeneratedRows(strand, n, ws2, k + |ws1|, pad, block)
    decreases |ws1|
  {
    if ws1 == [] {
      assert ws1 + ws2 == ws2;
    } else {
      assert (ws1 + ws2)[1..] == ws1[1..] + ws2;
      GeneratedRowsAppend(strand, n, ws1[1..], ws2, k + 1, pad, block);
    }
  }

  /**
   * The rows of window `w` are one contiguous block: the rows of the windows before it, then
   * that window's own block, then the rows of the windows after it.
   */
  lemma {:induction false} GeneratedWindow(strand: string, n: int, ws: seq<Interval>, k: nat, pad: int,
                        block: (int, int, int) -> seq<ExonRow>, w: nat)
    requires w < |ws|
    ensures GeneratedRows(strand, n, ws, k, pad, block)
         == GeneratedRows(strand, n, ws[..w], k, pad, block)
          + block(ExonNumber(strand, n, k + w), ws[w].begin - pad, ws[w].end + pad)
          + GeneratedRows(strand, n, ws[w + 1..], k + w + 1, pad, block)
  {
    var after := [ws[w]] + ws[w + 1..];
    assert ws == ws[..w] + after;
    GeneratedRowsAppend(strand, n, ws[..w], after, k, pad, block);
    assert after[1..] == ws[w + 1..];
  }

  /** The sizes of the windows of `ws[..w + 1]` add up to those of `ws[..w]` and the size of `ws[w]`. */
  lemma {:induction false} TotalWindowSizeSnoc(ws: seq<Interval>, pad: int, w: nat)
    requires w < |ws|
    ensures TotalWindowSize(ws[..w + 1], pad) == TotalWindowSize(ws[..w], pad) + WindowSize(ws[w], pad)
    decreases w
  {
    if w > 0 {
      assert ws[..w + 1][1..] == ws[1..][..w];
      assert ws[..w][1..] == ws[1..][..w - 1];
      TotalWindowSizeSnoc(ws[1..], pad, w - 1);
    }
  }

  /**
   * The rows from `TotalWindowSize(ws[..w], pad)` to `TotalWindowSize(ws[..w + 1], pad)` are the
   * table of window `w`: its padded range, its exon number and its pileup.
   */
  lemma {:induction false} GeneratedWindowTable(chrom: string, strand: string, n: int, ws: seq<Interval>, k: nat, pad: int,
                             block: (int, int, int) -> seq<ExonRow>,
                             pileup: (string, string, int, int) -> seq<PileupColumn>, path: string, w: nat)
    requires Windowed(block, chrom, pileup, path) && w < |ws|
    ensures var r := GeneratedRows(strand, n, ws, k, pad, block);
      var lo, hi := ws[w].begin - pad, ws[w].end + pad;
      && TotalWindowSize(ws[..w], pad) <= TotalWindowSize(ws[..w + 1], pad) <= |r|
      && WindowOk(r[TotalWindowSize(ws[..w], pad) .. TotalWindowSize(ws[..w + 1], pad)], chrom,
                  ExonNumber(strand, n, k + w), pileup(path, chrom, lo, hi), lo, hi)
  {
    var lo, hi := ws[w].begin - pad, ws[w].end + pad;
    var before := GeneratedRows(strand, n, ws[..w], k, pad, block);
    var here := block(ExonNumber(strand, n, k + w), lo, hi);
    var after := GeneratedRows(strand, n, ws[w + 1..], k + w + 1, pad, block);
    GeneratedWindow(strand, n, ws, k, pad, block, w);
    GeneratedRowsShape(chrom, strand, n, ws[..w], k, pad, block, pileup, path);
    GeneratedRowsShape(chrom, strand, n, ws, k, pad, block, pileup, path);
    TotalWindowSizeSnoc(ws, pad, w);
    assert WindowOk(here, chrom, ExonNumber(strand, n, k + w), pileup(path, chrom, lo, hi), lo, hi);
    assert |here| == WindowSize(ws[w], pad);
    SliceOfBlock(before, here, after, TotalWindowSize(ws[..w], pad), TotalWindowSize(ws[..w + 1], pad));
  }

  /** The two exon numbers of different windows differ, on either strand. */
  lemma ExonNumberInjective(strand: string, n: int, i: int, j: int)
    requires i != j
    ensures ExonNumber(strand, n, i) != ExonNumber(strand, n, j)
  {
  }

  /**
   * Looking up a position of window `w` under that window's exon number in all the generated
   * rows finds the depth that window's pileup reports there (0 when none does).
   */
  lemma {:induction false} GeneratedDepth(chrom: string, strand: string, n: int, ws: seq<Interval>, k: nat, pad: int,
                       block: (int, int, int) -> seq<ExonRow>,
                       pileup: (string, string, int, int) -> seq<PileupColumn>, path: string, w: nat, p: int)
    requires Windowed(block, chrom, pileup, path)
    requires w < |ws| && ws[w].begin - pad < p <= ws[w].end + pad
    ensures DepthOf(GeneratedRows(strand, n, ws, k, pad, block), p, ExonNumber(strand, n, k + w))
         == DepthAt(pileup(path, chrom, ws[w].begin - pad, ws[w].end + pad), p - 1)
  {
    var lo, hi := ws[w].begin - pad, ws[w].end + pad;
    var e := ExonNumber(strand, n, k + w);
    var before := GeneratedRows(strand, n, ws[..w], k, pad, block);
    var here := block(e, lo, hi);
    var after := GeneratedRows(strand, n, ws[w + 1..], k + w + 1, pad, block);
    GeneratedWindow(strand, n, ws, k, pad, block, w);
    EarlierExonNumbers(chrom, strand, n, ws, k, pad, block, pileup, path, w);
    var i := BlockDepth(chrom, block, pileup, path, e, lo, hi, p);
    DepthOfMiddle(before, here, after, p, e, i);
    DepthOfSame(GeneratedRows(strand, n, ws, k, pad, block), before + here + after, p, e);
  }

  lemma DepthOfSame(r: seq<ExonRow>, s: seq<ExonRow>, p: int, e: int)
    requires r == s
    ensures DepthOf(r, p, e) == DepthOf(s, p, e)
  {
  }

  /** A block of a position `p` of its window holds a row at `p`, and the lookup finds the pileup's depth there. */
  lemma BlockDepth(chrom: string, block: (int, int, int) -> seq<ExonRow>,
                   pileup: (string, string, int, int) -> seq<PileupColumn>, path: string, e: int, lo: int, hi: int, p: int)
    returns (i: int)
    requires Windowed(block, chrom, pileup, path) && lo < p <= hi
    ensures 0 <= i < |block(e, lo, hi)| && block(e, lo, hi)[i].pos == p && block(e, lo, hi)[i].exonNo == e
    ensures DepthOf(block(e, lo, hi), p, e) == DepthAt(pileup(path, chrom, lo, hi), p - 1)
  {
    var here := block(e, lo, hi);
    assert WindowOk(here, chrom, e, pileup(path, chrom, lo, hi), lo, hi);
    DepthOfTable(here, e, pileup(path, chrom, lo, hi), lo, hi, p);
    assert HasRowAt(here, p);
    i :| 0 <= i < |here| && here[i].pos == p;
  }

  /** No row of the windows before `w` carries window `w`'s exon number. */
  lemma {:induction false} EarlierExonNumbers(chrom: string, strand: string, n: int, ws: seq<Interval>, k: nat, pad: int,
                                              block: (int, int, int) -> seq<ExonRow>,
                                              pileup: (string, string, int, int) -> seq<PileupColumn>, path: string, w: nat)
    requires Windowed(block, chrom, pileup, path) && w < |ws|
    ensures var before := GeneratedRows(strand, n, ws[..w], k, pad, block);
      forall i :: 0 <= i < |before| ==> before[i].exonNo != ExonNumber(strand, n, k + w)
  {
    var before := GeneratedRows(strand, n, ws[..w], k, pad, block);
    GeneratedRowsShape(chrom, strand, n, ws[..w], k, pad, block, pileup, path);
    forall i | 0 <= i < |before|
      ensures before[i].exonNo != ExonNumber(strand, n, k + w)
    {
      assert FromWindow(before[i], strand, n, ws[..w], k, pad);
      var j :| 0 <= j < |ws[..w]| && before[i].exonNo == ExonNumber(strand, n, k + j) && ws[..w][j].begin - pad < before[i].pos <= ws[..w][j].end + pad;
      ExonNumberInjective(strand, n, k + j, k + w);
    }
  }

  /** A key held by the middle part `b` of `a + b + c`, and by no row of `a`, is looked up in `b`. */
  lemma DepthOfMiddle(a: seq<ExonRow>, b: seq<ExonRow>, c: seq<ExonRow>, p: int, e: int, i: int)
    requires forall j :: 0 <= j < |a| ==> a[j].exonNo != e
    requires 0 <= i < |b| && b[i].pos == p && b[i].exonNo == e
    ensures DepthOf(a + b + c, p, e) == DepthOf(b, p, e)
  {
    assert a + b + c == a + (b + c);
    DepthOfSkip(a, b + c, p, e);
    DepthOfFound(b, c, p, e, i);
  }

  /** A key that `a` holds is looked up in `a`, whatever follows it. */
  lemma {:induction false} DepthOfFound(a: seq<ExonRow>, b: seq<ExonRow>, p: int, e: int, i: int)
    requires 0 <= i < |a| && a[i].pos == p && a[i].exonNo == e
    ensures DepthOf(a + b, p, e) == DepthOf(a, p, e)
  {
    assert (a + b)[0] == a[0];
    if !(a[0].pos == p && a[0].exonNo == e) {
      assert (a + b)[1..] == a[1..] + b;
      assert a[1..][i - 1] == a[i];
      DepthOfFound(a[1..], b, p, e, i - 1);
    }
  }

  /** Rows of another exon number are passed over by the lookup. */
  lemma {:induction false} DepthOfSkip(a: seq<ExonRow>, b: seq<ExonRow>, p: int, e: int)
    requires forall i :: 0 <= i < |a| ==> a[i].exonNo != e
    ensures DepthOf(a + b, p, e) == DepthOf(b, p, e)
  {
    if a == [] {
      assert a + b == b;
    } else {
      assert (a + b)[0] == a[0];
      assert (a + b)[1..] == a[1..] + b;
      DepthOfSkip(a[1..], b, p, e);
    }
  }

  /** Rows of the first window followed by rows of the later windows all come from some window of `ws`. */
  lemma FromWindowsAppend(chrom: string, here: seq<ExonRow>, rest: seq<ExonRow>, strand: string, n: int,
                          ws: seq<Interval>, k: int, pad: int)
    requires ws != []
    requires forall i :: 0 <= i < |here| ==>
      here[i].chrom == chrom && here[i].exonNo == ExonNumber(strand, n, k) && ws[0].begin - pad < here[i].pos <= ws[0].end + pad
    requires forall i :: 0 <= i < |rest| ==> rest[i].chrom == chrom && FromWindow(rest[i], strand, n, ws[1..], k + 1, pad)
    ensures forall i :: 0 <= i < |here + rest| ==> (here + rest)[i].chrom == chrom
    ensures forall i :: 0 <= i < |here + rest| ==> FromWindow((here + rest)[i], strand, n, ws, k, pad)
  {
    var r := here + rest;
    forall i | 0 <= i < |r|
      ensures r[i].chrom == chrom && FromWindow(r[i], strand, n, ws, k, pad)
    {
      if i < |here| {
        assert r[i] == here[i];
        assert ws[0].begin - pad < r[i].pos <= ws[0].end + pad;
      } else {
        assert r[i] == rest[i - |here|];
        FromLaterWindow(r[i], strand, n, ws, k, pad);
      }
    }
  }

  /** The begin of an interval, the sort key of the exon loop. */
  function BeginOf(itv: Interval): int {
    itv.begin
  }

  /** The sort key of `sort_values("pos")`. */
  function RowPos(x: ExonRow): int {
    x.pos
  }

  /** A per-sample coverage table: the synthetic one, or the real one with its rows in generation order. */
  datatype Table = FakeTable(fake: SampleTable) | ExonTable(sample: string, generated: seq<ExonRow>)

  /**
   * `store.load_coverage` past the fake-data short-circuit: the id must name a dataset, whose
   * pileup is scanned window by window over the tree's intervals in ascending begin order,
   * each window numbered by the transcript's strand.
   */
  function RealCoverage(datasets: seq<MetaData>, sampleId: string, chrom: string, tree: seq<Interval>,
                        tx: Transcript, pad: int, pileup: (string, string, int, int) -> seq<PileupColumn>): (r: Result<Table>)
    ensures r.Success? <==> exists i :: 0 <= i < |datasets| && datasets[i].id == sampleId
    ensures r.Failure? ==> r.error == ExcovisError(UnknownSample)
    ensures r.Success? ==>
      && r.value.ExonTable?
      && r.value.sample == FindDataset(datasets, sampleId).value.sample
      && |r.value.generated| == TotalWindowSize(SortBy(tree, BeginOf), pad)
      && (forall i :: 0 <= i < |r.value.generated| ==> r.value.generated[i].chrom == chrom)
      && forall i :: 0 <= i < |r.value.generated| ==>
           FromWindow(r.value.generated[i], tx.strand, |tx.exons|, SortBy(tree, BeginOf), 0, pad)
  {
    match FindDataset(datasets, sampleId)
    case Failure(_) => Failure(ExcovisError(UnknownSample))
    case Success(ds) =>
      WindowBlockOk(chrom, pileup, ds.path);
      GeneratedRowsShape(chrom, tx.strand, |tx.exons|, SortBy(tree, BeginOf), 0, pad, WindowBlock(chrom, pileup, ds.path), pileup, ds.path);
      Success(DatasetTable(ds, chrom, SortBy(tree, BeginOf), tx, pad, pileup))
  }

  /** The pileup columns that the alignment file at `path` yields for `[lo, hi)` of `chrom`. */
  function Columns(pileup: (string, string, int, int) -> seq<PileupColumn>, path: string, chrom: string, lo: int, hi: int): seq<PileupColumn> {
    pileup(path, chrom, lo, hi)
  }

  /** The table of the dataset `ds`, its windows `ws` in the order the loop visits them. */
  function DatasetTable(ds: MetaData, chrom: string, ws: seq<Interval>, tx: Transcript, pad: int,
                        pileup: (string, string, int, int) -> seq<PileupColumn>): Table {
    ExonTable(ds.sample, GeneratedRows(tx.strand, |tx.exons|, ws, 0, pad, WindowBlock(chrom, pileup, ds.path)))
  }

  /** `store.load_coverage`: the fake sample short-circuits to the synthetic generator; any other id is loaded from its dataset. */
  function LoadCoverage(datasets: seq<MetaData>, sampleId: string, chrom: string, tree: seq<Interval>,
                        tx: Transcript, pad: int, pileup: (string, string, int, int) -> seq<PileupColumn>): (r: Result<Table>)
    ensures sampleId != FAKE_DATA_ID ==>
      (r.Success? <==> exists i :: 0 <= i < |datasets| && datasets[i].id == sampleId)
    ensures r.Failure? ==> r.error == ExcovisError(UnknownSample)
    ensures r.Success? && sampleId != FAKE_DATA_ID ==>
      && r.value.ExonTable?
      && r.value.sample == FindDataset(datasets, sampleId).value.sample
      && |r.value.generated| == TotalWindowSize(SortBy(tree, BeginOf), pad)
      && (forall i :: 0 <= i < |r.value.generated| ==> r.value.generated[i].chrom == chrom)
      && forall i :: 0 <= i < |r.value.generated| ==>
           FromWindow(r.value.generated[i], tx.strand, |tx.exons|, SortBy(tree, BeginOf), 0, pad)
  {
    if sampleId == FAKE_DATA_ID then Success(FakeTable(FakeCoverage(sampleId, chrom, tree, pad)))
    else RealCoverage(datasets, sampleId, chrom, tree, tx, pad, pileup)
  }

  /** The fake sample short-circuits to the synthetic generator, whatever the datasets hold. */
  lemma LoadCoverageFake(datasets: seq<MetaData>, chrom: string, tree: seq<Interval>, tx: Transcript, pad: int,
                         pileup: (string, string, int, int) -> seq<PileupColumn>)
    ensures LoadCoverage(datasets, FAKE_DATA_ID, chrom, tree, tx, pad, pileup) == Success(FakeTable(FakeCoverage(FAKE_DATA_ID, chrom, tree, pad)))
  {
  }

  /**
   * The table `load_coverage` returns after `sort_values("pos")`: the generated rows in
   * non-decreasing position order (the order among equal positions is not fixed by the source).
   */
  lemma LoadCoverageSorted(datasets: seq<MetaData>, sampleId: string, chrom: string, tree: seq<Interval>,
                           tx: Transcript, pad: int, pileup: (string, string, int, int) -> seq<PileupColumn>)
    requires sampleId != FAKE_DATA_ID && exists i :: 0 <= i < |datasets| && datasets[i].id == sampleId
    ensures var t := LoadCoverage(datasets, sampleId, chrom, tree, tx, pad, pileup).value;
      var rows := SortBy(t.generated, RowPos);
      && SortedBy(rows, RowPos)
      && multiset(rows) == multiset(t.generated)
      && |rows| == TotalWindowSize(SortBy(tree, BeginOf), pad)
  {
    SortByFacts(LoadCoverage(datasets, sampleId, chrom, tree, tx, pad, pileup).value.generated, RowPos);
  }

  /** A known sample's real table is its dataset's table over the tree's intervals in ascending begin order. */
  lemma RealCoverageTable(datasets: seq<MetaData>, sampleId: string, chrom: string, tree: seq<Interval>,
                          tx: Transcript, pad: int, pileup: (string, string, int, int) -> seq<PileupColumn>)
    requires exists i :: 0 <= i < |datasets| && datasets[i].id == sampleId
    ensures RealCoverage(datasets, sampleId, chrom, tree, tx, pad, pileup)
      == Success(DatasetTable(FindDataset(datasets, sampleId).value, chrom, SortBy(tree, BeginOf), tx, pad, pileup))
  {
  }

  /**
   * The loop of `load_coverage` over the windows: in the dataset's table, the rows from
   * `TotalWindowSize(ws[..w], pad)` to `TotalWindowSize(ws[..w + 1], pad)` are window `w`'s
   * table, read from the dataset's own alignment file.
   */
  lemma DatasetWindow(ds: MetaData, chrom: string, ws: seq<Interval>, tx: Transcript, pad: int,
                      pileup: (string, string, int, int) -> seq<PileupColumn>, w: nat)
    requires w < |ws|
    ensures var t := DatasetTable(ds, chrom, ws, tx, pad, pileup);
      var lo, hi := ws[w].begin - pad, ws[w].end + pad;
      && TotalWindowSize(ws[..w], pad) + WindowSize(ws[w], pad) == TotalWindowSize(ws[..w + 1], pad) <= |t.generated|
      && WindowTable(t.generated[TotalWindowSize(ws[..w], pad) .. TotalWindowSize(ws[..w + 1], pad)],
                     ExonNumber(tx.strand, |tx.exons|, w), pileup(ds.path, chrom, lo, hi), lo, hi)
  {
    GeneratedWindowSlice(chrom, tx.strand, |tx.exons|, ws, pad, pileup, ds.path, w, DatasetTable(ds, chrom, ws, tx, pad, pileup).generated);
  }

  /** `GeneratedWindowTable` for the windows numbered from 0, stated of any sequence equal to their rows. */
  lemma GeneratedWindowSlice(chrom: string, strand: string, n: int, ws: seq<Interval>, pad: int,
                             pileup: (string, string, int, int) -> seq<PileupColumn>, path: string, w: nat, g: seq<ExonRow>)
    requires w < |ws| && g == GeneratedRows(strand, n, ws, 0, pad, WindowBlock(chrom, pileup, path))
    ensures var lo, hi := ws[w].begin - pad, ws[w].end + pad;
      && TotalWindowSize(ws[..w], pad) + WindowSize(ws[w], pad) == TotalWindowSize(ws[..w + 1], pad) <= |g|
      && WindowTable(g[TotalWindowSize(ws[..w], pad) .. TotalWindowSize(ws[..w + 1], pad)],
                     ExonNumber(strand, n, w), pileup(path, chrom, lo, hi), lo, hi)
  {
    WindowBlockOk(chrom, pileup, path);
    GeneratedWindowTable(chrom, strand, n, ws, 0, pad, WindowBlock(chrom, pileup, path), pileup, path, w);
    TotalWindowSizeSnoc(ws, pad, w);
    assert 0 + w == w;
  }

  /**
   * Looking a position of window `w` up under that window's exon number in the dataset's
   * table finds the depth the dataset's own pileup reports there (0 when none does).
   */
  lemma DatasetDepth(ds: MetaData, chrom: string, ws: seq<Interval>, tx: Transcript, pad: int,
                     pileup: (string, string, int, int) -> seq<PileupColumn>, w: nat, p: int)
    requires w < |ws| && ws[w].begin - pad < p <= ws[w].end + pad
    ensures DepthOf(DatasetTable(ds, chrom, ws, tx, pad, pileup).generated, p, ExonNumber(tx.strand, |tx.exons|, w))
         == DepthAt(Columns(pileup, ds.path, chrom, ws[w].begin - pad, ws[w].end + pad), p - 1)
  {
    WindowBlockOk(chrom, pileup, ds.path);
    GeneratedDepth(chrom, tx.strand, |tx.exons|, ws, 0, pad, WindowBlock(chrom, pileup, ds.path), pileup, ds.path, w, p);
    assert 0 + w == w;
  }

  /** `_load_fake_coverage` yields the same table as the plotting module's fake loader. */
  lemma FakeCoverageShared(datasets: seq<MetaData>, chrom: string, tree: seq<Interval>, tx: Transcript, pad: int,
                           pileup: (string, string, int, int) -> seq<PileupColumn>)
    ensures var plotted := Plot.LoadCoverage(FAKE_DATA_ID, chrom, tree, pad);
      plotted.Success? && LoadCoverage(datasets, FAKE_DATA_ID, chrom, tree, tx, pad, pileup) == Success(FakeTable(plotted.value))
  {
  }

  /** A row of the combined table: the key columns and one depth per sample. */
  datatype WideRow = WideRow(chrom: string, pos: int, exonNo: int, depths: seq<int>)

  /** The depth that `rows` reports for the key (pos, exon number): the first such row's, 0 without one. */
  function DepthOf(rows: seq<ExonRow>, pos: int, exonNo: int): (d: int)
    ensures (exists i :: 0 <= i < |rows| && rows[i].pos == pos && rows[i].exonNo == exonNo) ==>
      exists i :: 0 <= i < |rows| && rows[i].pos == pos && rows[i].exonNo == exonNo && rows[i].depth == d
  {
    if rows == [] then 0
    else if rows[0].pos == pos && rows[0].exonNo == exonNo then rows[0].depth
    else
      var d := DepthOf(rows[1..], pos, exonNo);
      assert forall i :: 1 <= i < |rows| ==> rows[i] == rows[1..][i - 1];
      d
  }

  /**
   * `pd.concat([...], axis="columns")` as written: the columns are aligned on the row
   * labels, so the depth of every sample is taken from ITS row with the same generation index
   * as the first sample's row, whatever position that row holds.
   */
  function CombineByLabel(tables: seq<seq<ExonRow>>): (r: seq<WideRow>)
    requires tables != []
    requires forall j :: 0 <= j < |tables| ==> |tables[j]| == |tables[0]|
    ensures |r| == |tables[0]|
    ensures forall l :: 0 <= l < |r| ==>
      && r[l].pos == tables[0][l].pos && r[l].exonNo == tables[0][l].exonNo
      && |r[l].depths| == |tables| && forall j :: 0 <= j < |tables| ==> r[l].depths[j] == tables[j][l].depth
  {
    seq(|tables[0]|, l requires 0 <= l < |tables[0]| =>
      WideRow(tables[0][l].chrom, tables[0][l].pos, tables[0][l].exonNo,
        seq(|tables|, j requires 0 <= j < |tables| => tables[j][l].depth)))
  }

  /** The combined row for the key columns of `x`, each sample's depth looked up by key. */
  function KeyedRow(tables: seq<seq<ExonRow>>, x: ExonRow): WideRow {
    WideRow(x.chrom, x.pos, x.exonNo, seq(|tables|, j requires 0 <= j < |tables| => DepthOf(tables[j], x.pos, x.exonNo)))
  }

  /** The corrected combination: every sample's depth is looked up by the row's (pos, exon number) key. */
  function CombineByKey(tables: seq<seq<ExonRow>>): (r: seq<WideRow>)
    requires tables != []
    ensures |r| == |tables[0]|
    ensures forall l :: 0 <= l < |r| ==>
      && r[l].chrom == tables[0][l].chrom && r[l].pos == tables[0][l].pos && r[l].exonNo == tables[0][l].exonNo
      && |r[l].depths| == |tables|
      && forall j :: 0 <= j < |tables| ==> r[l].depths[j] == DepthOf(tables[j], r[l].pos, r[l].exonNo)
  {
    seq(|tables[0]|, l requires 0 <= l < |tables[0]| => KeyedRow(tables, tables[0][l]))
  }

  /** In a table whose keys are unique, looking up the key of row `l` finds row `l`'s depth. */
  lemma {:induction false} DepthOfUniqueKey(t: seq<ExonRow>, l: int)
    requires 0 <= l < |t|
    requires forall a, b :: 0 <= a < b < |t| ==> t[a].pos != t[b].pos || t[a].exonNo != t[b].exonNo
    ensures DepthOf(t, t[l].pos, t[l].exonNo) == t[l].depth
  {
    if l > 0 {
      assert t[0].pos != t[l].pos || t[0].exonNo != t[l].exonNo;
      DepthOfUniqueKey(t[1..], l - 1);
    }
  }

  /**
   * When every table holds the same keys in the same row order, and the keys are unique,
   * aligning on labels and joining on keys give the same combined table.
   */
  lemma CombineAgreeOnSameKeys(tables: seq<seq<ExonRow>>)
    requires tables != []
    requires forall j :: 0 <= j < |tables| ==> |tables[j]| == |tables[0]|
    requires forall j, l :: 0 <= j < |tables| && 0 <= l < |tables[0]| ==>
      tables[j][l].pos == tables[0][l].pos && tables[j][l].exonNo == tables[0][l].exonNo
    requires forall a, b :: 0 <= a < b < |tables[0]| ==>
      tables[0][a].pos != tables[0][b].pos || tables[0][a].exonNo != tables[0][b].exonNo
    ensures CombineByLabel(tables) == CombineByKey(tables)
  {
    var byLabel, byKey := CombineByLabel(tables), CombineByKey(tables);
    forall l | 0 <= l < |byLabel|
      ensures byLabel[l] == byKey[l]
    {
      forall j | 0 <= j < |tables|
        ensures byLabel[l].depths[j] == byKey[l].depths[j]
      {
        var t := tables[j];
        forall a, b | 0 <= a < b < |t|
          ensures t[a].pos != t[b].pos || t[a].exonNo != t[b].exonNo
        {
          assert tables[0][a].pos != tables[0][b].pos || tables[0][a].exonNo != tables[0][b].exonNo;
        }
        DepthOfUniqueKey(t, l);
      }
    }
  }

  /**
   * What a window's table guarantees: the exon number on every row, a row at every 1-based
   * position of `(lo, hi]`, and at each row the depth the pileup `cols` reports there.
   */
  ghost predicate WindowTable(t: seq<ExonRow>, exonNo: int, cols: seq<PileupColumn>, lo: int, hi: int) {
    && (forall i :: 0 <= i < |t| ==> t[i].exonNo == exonNo && lo < t[i].pos <= hi)
    && (forall q :: lo < q <= hi ==> HasRowAt(t, q))
    && (forall i :: 0 <= i < |t| ==> t[i].depth == DepthAt(cols, t[i].pos - 1))
  }

  /** In a window's table, looking a key of the window up finds the depth the pileup gives it. */
  lemma DepthOfTable(t: seq<ExonRow>, exonNo: int, cols: seq<PileupColumn>, lo: int, hi: int, p: int)
    requires WindowTable(t, exonNo, cols, lo, hi) && lo < p <= hi
    ensures DepthOf(t, p, exonNo) == DepthAt(cols, p - 1)
  {
    assert HasRowAt(t, p);
    var i :| 0 <= i < |t| && t[i].pos == p;
    var d := DepthOf(t, p, exonNo);
    var k :| 0 <= k < |t| && t[k].pos == p && t[k].exonNo == exonNo && t[k].depth == d;
  }

  lemma WindowRowsIsWindowTable(chrom: string, exonNo: int, cols: seq<PileupColumn>, lo: int, hi: int)
    ensures WindowTable(WindowRows(chrom, exonNo, cols, lo, hi), exonNo, cols, lo, hi)
  {
    WindowRowsOk(chrom, exonNo, cols, lo, hi);
  }

  /** Table `j` is window `(lo, hi]`'s table over pileup `colss[j]`, for every sample `j`. */
  ghost predicate WindowTables(tables: seq<seq<ExonRow>>, exonNo: int, colss: seq<seq<PileupColumn>>, lo: int, hi: int) {
    && |tables| == |colss|
    && forall j {:trigger WindowTable(tables[j], exonNo, colss[j], lo, hi)} ::
         0 <= j < |tables| ==> WindowTable(tables[j], exonNo, colss[j], lo, hi)
  }

  /**
   * Combined by key, the depth of sample `j` at a row is the depth sample `j`'s own pileup
   * reports for that position, whatever order the samples' rows were generated in.
   */
  lemma CombineByKeyWindowDepth(tables: seq<seq<ExonRow>>, exonNo: int, colss: seq<seq<PileupColumn>>, lo: int, hi: int)
    requires tables != [] && WindowTables(tables, exonNo, colss, lo, hi)
    ensures var r := CombineByKey(tables);
      forall l, j :: 0 <= l < |r| && 0 <= j < |colss| ==> r[l].depths[j] == DepthAt(colss[j], r[l].pos - 1)
  {
    forall l, j | 0 <= l < |CombineByKey(tables)| && 0 <= j < |colss|
      ensures CombineByKey(tables)[l].depths[j] == DepthAt(colss[j], CombineByKey(tables)[l].pos - 1)
    {
      KeyedWindowDepth(tables, exonNo, colss, lo, hi, l, j);
    }
  }

  /** Row `l` of the by-key combination carries sample `j`'s pileup depth at the row's position. */
  lemma KeyedWindowDepth(tables: seq<seq<ExonRow>>, exonNo: int, colss: seq<seq<PileupColumn>>, lo: int, hi: int, l: int, j: int)
    requires tables != [] && WindowTables(tables, exonNo, colss, lo, hi)
    requires 0 <= j < |tables| && 0 <= l < |tables[0]|
    ensures CombineByKey(tables)[l].depths[j] == DepthAt(colss[j], CombineByKey(tables)[l].pos - 1)
  {
    assert WindowTable(tables[0], exonNo, colss[0], lo, hi);
    var x := tables[0][l];
    assert lo < x.pos <= hi && x.exonNo == exonNo;
    DepthOfTables(tables, exonNo, colss, lo, hi, j, x.pos);
  }

  /** `DepthOfTable` for sample `j` of a set of window tables. */
  lemma DepthOfTables(tables: seq<seq<ExonRow>>, exonNo: int, colss: seq<seq<PileupColumn>>, lo: int, hi: int, j: int, p: int)
    requires WindowTables(tables, exonNo, colss, lo, hi) && 0 <= j < |tables| && lo < p <= hi
    ensures DepthOf(tables[j], p, exonNo) == DepthAt(colss[j], p - 1)
  {
    assert WindowTable(tables[j], exonNo, colss[j], lo, hi);
    DepthOfTable(tables[j], exonNo, colss[j], lo, hi, p);
  }

  lemma WindowOfA()
    ensures WindowRows("1", 1, [PileupColumn(0, 5), PileupColumn(1, 7)], 0, 2) == [ExonRow("1", 1, 1, 5), ExonRow("1", 2, 1, 7)]
  {
    var cols := [PileupColumn(0, 5), PileupColumn(1, 7)];
    assert Scan(cols[1..][1..], 0, 2, {0, 1}) == [];
    assert Scan(cols[1..], 0, 2, {0}) == [PileupColumn(1, 7)];
    assert Scan(cols, 0, 2, {}) == cols;
    PosSetCons(cols[0], cols[1..]);
    PosSetCons(cols[1], []);
    assert PosSet(cols) == {0, 1};
    assert Fill(2, 2, {0, 1}) == [];
    assert Fill(1, 2, {0, 1}) == [];
    assert Fill(0, 2, {0, 1}) == [];
  }

  lemma WindowOfB()
    ensures WindowRows("1", 1, [PileupColumn(1, 9)], 0, 2) == [ExonRow("1", 2, 1, 9), ExonRow("1", 1, 1, 0)]
  {
    var cols := [PileupColumn(1, 9)];
    assert Scan(cols[1..], 0, 2, {1}) == [];
    assert Scan(cols, 0, 2, {}) == cols;
    PosSetCons(cols[0], []);
    assert PosSet(cols) == {1};
    assert Fill(2, 2, {1}) == [];
    assert Fill(1, 2, {1}) == [];
    assert Fill(0, 2, {1}) == [0];
  }

  /**
   * Two samples over the window `[0, 2)`: A reports positions 0 and 1, B only position 1.
   * B's rows are generated in the order (pos 2, depth 9), (pos 1, depth 0), so aligning on
   * labels gives B depth 9 at position 1, where B's own table has 0.
   */
  lemma CombineByLabelMisattributes()
    ensures var tA := WindowRows("1", 1, [PileupColumn(0, 5), PileupColumn(1, 7)], 0, 2);
      var tB := WindowRows("1", 1, [PileupColumn(1, 9)], 0, 2);
      && tA[0].pos == 1
      && CombineByLabel([tA, tB])[0].depths == [5, 9]
      && DepthOf(tB, 1, 1) == 0
      && CombineByKey([tA, tB])[0].depths == [5, 0]
  {
    WindowOfA();
    WindowOfB();
    CombineTwoTables([ExonRow("1", 1, 1, 5), ExonRow("1", 2, 1, 7)], [ExonRow("1", 2, 1, 9), ExonRow("1", 1, 1, 0)]);
  }

  /** The two example tables combined both ways. */
  lemma CombineTwoTables(tA: seq<ExonRow>, tB: seq<ExonRow>)
    requires tA == [ExonRow("1", 1, 1, 5), ExonRow("1", 2, 1, 7)]
    requires tB == [ExonRow("1", 2, 1, 9), ExonRow("1", 1, 1, 0)]
    ensures CombineByLabel([tA, tB])[0].depths == [5, 9]
    ensures DepthOf(tB, 1, 1) == 0
    ensures CombineByKey([tA, tB])[0].depths == [5, 0]
  {
    assert DepthOf(tB[1..][1..], 1, 1) == 0;
    assert DepthOf(tB[1..], 1, 1) == 0;
    assert DepthOf(tB, 1, 1) == 0;
    assert DepthOf(tA, 1, 1) == 5;
    var byLabel := CombineByLabel([tA, tB]);
    assert byLabel[0].depths[0] == 5 && byLabel[0].depths[1] == 9;
    var byKey := CombineByKey([tA, tB]);
    assert byKey[0].depths[0] == 5 && byKey[0].depths[1] == 0;
  }

  /** The real tables of all samples, or the first error. */
  function LoadAll(datasets: seq<MetaData>, samples: seq<string>, chrom: string, tree: seq<Interval>,
                   tx: Transcript, pad: int, pileup: (string, string, int, int) -> seq<PileupColumn>): (r: Result<seq<Table>>)
    ensures r.Success? <==> forall j :: 0 <= j < |samples| ==> LoadCoverage(datasets, samples[j], chrom, tree, tx, pad, pileup).Success?
    ensures r.Failure? ==> r.error == ExcovisError(UnknownSample)
    ensures r.Success? ==> |r.value| == |samples| && forall j :: 0 <= j < |samples| ==>
      LoadCoverage(datasets, samples[j], chrom, tree, tx, pad, pileup) == Success(r.value[j])
  {
    MapResult(samples, (s: string) => LoadCoverage(datasets, s, chrom, tree, tx, pad, pileup))
  }

  /**
   * `load_coverage_df` as written: `load_transcripts()` maps gene SYMBOLS to lists of
   * transcripts, so looking the accession up either raises KeyError or yields a list, whose
   * `.exons` raises AttributeError. The function never returns a table.
   */
  function LoadCoverageDfAsWritten(bySymbol: map<string, seq<Transcript>>, txAccession: string): (r: Result<seq<WideRow>>)
    ensures r.Failure?
    ensures txAccession !in bySymbol ==> r.error == KeyError(MissingKey)
    ensures txAccession in bySymbol ==> r.error == AttributeError(NoAttribute)
  {
    if txAccession !in bySymbol then Failure(KeyError(MissingKey)) else Failure(AttributeError(NoAttribute))
  }

  /** A transcript that the table holds still cannot be plotted by accession. */
  lemma AccessionLookupFails(lines: seq<seq<string>>, t: Transcript)
    requires LoadTranscripts(lines).Success?
    requires t in ParseAll(lines).value
    ensures LoadCoverageDfAsWritten(LoadTranscripts(lines).value, t.txAccession).Failure?
    ensures t.txAccession in AccessionIndex(ParseAll(lines).value)
  {
  }

  /** The real tables' rows, or None when one of them is a synthetic table. */
  function ExonTables(ds: seq<Table>): (r: Option<seq<seq<ExonRow>>>)
    ensures r.Some? <==> forall j :: 0 <= j < |ds| ==> ds[j].ExonTable?
    ensures r.Some? ==> |r.value| == |ds| && forall j :: 0 <= j < |ds| ==> r.value[j] == ds[j].generated
  {
    if ds == [] then Some([])
    else if ds[0].FakeTable? then None
    else
      match ExonTables(ds[1..])
      case None =>
        assert forall j :: 1 <= j < |ds| ==> ds[j] == ds[1..][j - 1];
        None
      case Some(rest) =>
        assert forall j :: 1 <= j < |ds| ==> ds[j] == ds[1..][j - 1];
        Some([ds[0].generated] + rest)
  }

  function PosOf(x: WideRow): int {
    x.pos
  }

  /**
   * The end of `load_coverage_df` with the combination by key: the first table must be a real
   * one (a synthetic table has no exon_no column, KeyError), and so must every other one (a
   * synthetic table has no fourth column, IndexError); no table at all leaves no first one.
   */
  function CombineTables(ds: seq<Table>): (r: Result<seq<WideRow>>)
    ensures ds == [] ==> r == Failure(IndexError(MissingField))
    ensures ds != [] && ds[0].FakeTable? ==> r == Failure(KeyError(MissingKey))
    ensures r.Success? <==> ds != [] && forall j :: 0 <= j < |ds| ==> ds[j].ExonTable?
    ensures r.Failure? ==> r.error in {IndexError(MissingField), KeyError(MissingKey)}
    ensures r.Success? ==> && SortedBy(r.value, PosOf)
                           && multiset(r.value) == multiset(CombineByKey(ExonTables(ds).value))
                           && forall i :: 0 <= i < |r.value| ==> |r.value[i].depths| == |ds|
  {
    if ds == [] then Failure(IndexError(MissingField))
    else if ds[0].FakeTable? then Failure(KeyError(MissingKey))
    else
      match ExonTables(ds)
      case None => Failure(IndexError(MissingField))
      case Some(tables) =>
        var combined := CombineByKey(tables);
        var sorted := SortBy(combined, PosOf);
        SortByFacts(combined, PosOf);
        forall i | 0 <= i < |sorted|
          ensures |sorted[i].depths| == |ds|
        {
          assert sorted[i] in multiset(combined);
        }
        Success(sorted)
  }

  /**
   * `load_coverage_df` with the lookup by accession and the combination by key corrected:
   * the transcript's tree, every sample's table, then one row per row of the first table with
   * every sample's depth at that key, sorted by position. The padding argument is unused, as
   * in the source.
   */
  function LoadCoverageDf(byAccession: map<string, Transcript>, exonPadding: int, txAccession: string, samples: seq<string>,
                          datasets: seq<MetaData>, maxPad: int, pileup: (string, string, int, int) -> seq<PileupColumn>): (r: Result<seq<WideRow>>)
    ensures txAccession !in byAccession ==> r == Failure(KeyError(MissingKey))
    ensures r.Success? ==> txAccession in byAccession && samples != []
    ensures r.Success? ==> BuildTree(ExonIntervals(byAccession[txAccession].exons)).Success?
    ensures r.Success? ==> forall j :: 0 <= j < |samples| ==> samples[j] != FAKE_DATA_ID
    ensures r.Success? ==> SortedBy(r.value, PosOf)
    ensures r.Success? ==> forall i :: 0 <= i < |r.value| ==> |r.value[i].depths| == |samples|
  {
    if txAccession !in byAccession then Failure(KeyError(MissingKey))
    else
      var tx := byAccession[txAccession];
      var tree :- BuildTree(ExonIntervals(tx.exons));
      var ds :- LoadAll(datasets, samples, tx.chrom, tree, tx, maxPad, pileup);
      var r := CombineTables(ds);
      assert r.Success? ==> forall j :: 0 <= j < |samples| ==> samples[j] != FAKE_DATA_ID by {
        if r.Success? {
          forall j | 0 <= j < |samples|
            ensures samples[j] != FAKE_DATA_ID
          {
            assert ds[j].ExonTable?;
          }
        }
      }
      r
  }

  /** The combined row `x` lies in the padded window `w` of `ws` and carries that window's exon number. */
  predicate InWindow(x: WideRow, tx: Transcript, ws: seq<Interval>, pad: int, w: int) {
    0 <= w < |ws| && x.exonNo == ExonNumber(tx.strand, |tx.exons|, w) && ws[w].begin - pad < x.pos <= ws[w].end + pad
  }

  /**
   * The combined row `x` lies in window `w` under its exon number, and its depth for sample
   * `j` is what the alignment file at `path` reports at the row's position in that window.
   */
  predicate WindowDepth(x: WideRow, j: int, tx: Transcript, chrom: string, ws: seq<Interval>, pad: int,
                        pileup: (string, string, int, int) -> seq<PileupColumn>, path: string, w: int) {
    && InWindow(x, tx, ws, pad, w)
    && 0 <= j < |x.depths|
    && x.depths[j] == DepthAt(Columns(pileup, path, chrom, ws[w].begin - pad, ws[w].end + pad), x.pos - 1)
  }

  /** Every loaded table, none of them synthetic, holds the rows of its sample's dataset. */
  lemma LoadedTables(datasets: seq<MetaData>, samples: seq<string>, chrom: string, tree: seq<Interval>,
                     tx: Transcript, pad: int, pileup: (string, string, int, int) -> seq<PileupColumn>,
                     ds: seq<Table>, tables: seq<seq<ExonRow>>)
    requires LoadAll(datasets, samples, chrom, tree, tx, pad, pileup) == Success(ds)
    requires ExonTables(ds) == Some(tables)
    ensures |tables| == |samples|
    ensures forall k :: 0 <= k < |samples| ==>
      && FindDataset(datasets, samples[k]).Success?
      && tables[k] == DatasetTable(FindDataset(datasets, samples[k]).value, chrom, SortBy(tree, BeginOf), tx, pad, pileup).generated
  {
    forall k | 0 <= k < |samples|
      ensures FindDataset(datasets, samples[k]).Success? &&
        tables[k] == DatasetTable(FindDataset(datasets, samples[k]).value, chrom, SortBy(tree, BeginOf), tx, pad, pileup).generated
    {
      assert LoadCoverage(datasets, samples[k], chrom, tree, tx, pad, pileup) == Success(ds[k]) && ds[k].ExonTable?;
      LoadedIsReal(datasets, samples[k], chrom, tree, tx, pad, pileup, ds[k]);
    }
  }

  /**
   * Row `l` of the by-key combination of tables that are the samples' datasets' tables lies
   * in the padded window of one exon, carries that exon's number, and holds as sample `j`'s
   * depth what sample `j`'s own alignment file reports at the row's position.
   */
  lemma CombinedRowDepth(datasets: seq<MetaData>, samples: seq<string>, chrom: string, ws: seq<Interval>,
                         tx: Transcript, pad: int, pileup: (string, string, int, int) -> seq<PileupColumn>,
                         tables: seq<seq<ExonRow>>, l: int, j: int)
    requires |tables| == |samples| && 0 <= j < |samples| && 0 <= l < |tables[0]|
    requires forall k :: 0 <= k < |samples| ==>
      && FindDataset(datasets, samples[k]).Success?
      && tables[k] == DatasetTable(FindDataset(datasets, samples[k]).value, chrom, ws, tx, pad, pileup).generated
    ensures exists w :: WindowDepth(CombineByKey(tables)[l], j, tx, chrom, ws, pad, pileup, FindDataset(datasets, samples[j]).value.path, w)
  {
    var w := DatasetRowWindow(FindDataset(datasets, samples[0]).value, chrom, ws, tx, pad, pileup, l);
    KeyedRowDepth(tables, l, j, FindDataset(datasets, samples[j]).value, chrom, ws, tx, pad, pileup, w);
  }

  /** Row `l` of a dataset's table lies in the padded window `w` and carries that window's exon number. */
  lemma DatasetRowWindow(found: MetaData, chrom: string, ws: seq<Interval>, tx: Transcript, pad: int,
                         pileup: (string, string, int, int) -> seq<PileupColumn>, l: int) returns (w: nat)
    requires 0 <= l < |DatasetTable(found, chrom, ws, tx, pad, pileup).generated|
    ensures var x := DatasetTable(found, chrom, ws, tx, pad, pileup).generated[l];
      w < |ws| && x.exonNo == ExonNumber(tx.strand, |tx.exons|, w) && ws[w].begin - pad < x.pos <= ws[w].end + pad
  {
    var g := DatasetTable(found, chrom, ws, tx, pad, pileup).generated;
    WindowBlockOk(chrom, pileup, found.path);
    GeneratedRowsShape(chrom, tx.strand, |tx.exons|, ws, 0, pad, WindowBlock(chrom, pileup, found.path), pileup, found.path);
    assert FromWindow(g[l], tx.strand, |tx.exons|, ws, 0, pad);
    w :| 0 <= w < |ws| && g[l].exonNo == ExonNumber(tx.strand, |tx.exons|, 0 + w) && ws[w].begin - pad < g[l].pos <= ws[w].end + pad;
  }

  /**
   * When sample `j`'s rows are its dataset's table and row `l` of the first table lies in
   * window `w` under that window's number, the by-key combination gives row `l` sample `j`'s
   * pileup depth at the row's position.
   */
  lemma KeyedRowDepth(tables: seq<seq<ExonRow>>, l: int, j: int, found: MetaData, chrom: string, ws: seq<Interval>,
                      tx: Transcript, pad: int, pileup: (string, string, int, int) -> seq<PileupColumn>, w: nat)
    requires 0 <= j < |tables| && 0 <= l < |tables[0]|
    requires tables[j] == DatasetTable(found, chrom, ws, tx, pad, pileup).generated
    requires w < |ws| && tables[0][l].exonNo == ExonNumber(tx.strand, |tx.exons|, w)
    requires ws[w].begin - pad < tables[0][l].pos <= ws[w].end + pad
    ensures WindowDepth(CombineByKey(tables)[l], j, tx, chrom, ws, pad, pileup, found.path, w)
  {
    DatasetDepth(found, chrom, ws, tx, pad, pileup, w, tables[0][l].pos);
  }

  /** A loaded table that is not the synthetic one is the table of the sample's dataset. */
  lemma LoadedIsReal(datasets: seq<MetaData>, s: string, chrom: string, tree: seq<Interval>,
                     tx: Transcript, pad: int, pileup: (string, string, int, int) -> seq<PileupColumn>, t: Table)
    requires LoadCoverage(datasets, s, chrom, tree, tx, pad, pileup) == Success(t) && t.ExonTable?
    ensures RealCoverage(datasets, s, chrom, tree, tx, pad, pileup) == Success(t)
    ensures FindDataset(datasets, s).Success?
    ensures t == DatasetTable(FindDataset(datasets, s).value, chrom, SortBy(tree, BeginOf), tx, pad, pileup)
  {
    RealCoverageTable(datasets, s, chrom, tree, tx, pad, pileup);
  }

  /** A sample id that `load_coverage` can load: the fake one, or one some dataset carries. */
  ghost predicate Loadable(datasets: seq<MetaData>, s: string) {
    s == FAKE_DATA_ID || exists i :: 0 <= i < |datasets| && datasets[i].id == s
  }

  /** Every exon of the list spans at least one base, so that the interval tree accepts it. */
  predicate ProperExons(exons: seq<Exon>) {
    forall k :: 0 <= k < |exons| ==> exons[k].begin < exons[k].end
  }

  /** The interval tree of a transcript's exons is built exactly when no exon is empty. */
  lemma ExonTreeBuilds(exons: seq<Exon>)
    ensures BuildTree(ExonIntervals(exons)).Success? <==> ProperExons(exons)
  {
    var ivs := ExonIntervals(exons);
    if ProperExons(exons) {
      forall k | 0 <= k < |ivs|
        ensures !ivs[k].IsNull()
      {
        assert exons[k].begin < exons[k].end;
      }
    } else {
      var k :| 0 <= k < |exons| && exons[k].begin >= exons[k].end;
      assert ivs[k].IsNull();
    }
  }

  /**
   * `load_coverage_df` returns a table exactly when the accession is known, every exon is
   * non-empty, and at least one sample is asked for, each a sample of some dataset other than
   * the fake one.
   */
  lemma LoadCoverageDfOutcome(byAccession: map<string, Transcript>, exonPadding: int, txAccession: string, samples: seq<string>,
                              datasets: seq<MetaData>, maxPad: int, pileup: (string, string, int, int) -> seq<PileupColumn>)
    ensures LoadCoverageDf(byAccession, exonPadding, txAccession, samples, datasets, maxPad, pileup).Success? <==>
      && txAccession in byAccession
      && ProperExons(byAccession[txAccession].exons)
      && samples != []
      && forall j :: 0 <= j < |samples| ==> samples[j] != FAKE_DATA_ID && Loadable(datasets, samples[j])
  {
    if txAccession in byAccession {
      var tx := byAccession[txAccession];
      ExonTreeBuilds(tx.exons);
      LoadCoverageDfErrors(byAccession, exonPadding, txAccession, samples, datasets, maxPad, pileup);
    }
  }

  /**
   * The error `load_coverage_df` raises for a known accession, in the order the source meets
   * them: an empty exon (ValueError from the interval tree), then a sample no dataset carries
   * (the store's own exception), then no sample at all (IndexError on `ds[0]`), a fake first
   * sample (KeyError on its missing exon_no column), or a fake later sample (IndexError on
   * its missing fourth column).
   */
  lemma LoadCoverageDfErrors(byAccession: map<string, Transcript>, exonPadding: int, txAccession: string, samples: seq<string>,
                             datasets: seq<MetaData>, maxPad: int, pileup: (string, string, int, int) -> seq<PileupColumn>)
    requires txAccession in byAccession
    ensures var r := LoadCoverageDf(byAccession, exonPadding, txAccession, samples, datasets, maxPad, pileup);
      && (!ProperExons(byAccession[txAccession].exons) ==> r == Failure(ValueError(NullInterval)))
      && (ProperExons(byAccession[txAccession].exons) && (exists j :: 0 <= j < |samples| && !Loadable(datasets, samples[j])) ==>
            r == Failure(ExcovisError(UnknownSample)))
      && (ProperExons(byAccession[txAccession].exons) && (forall j :: 0 <= j < |samples| ==> Loadable(datasets, samples[j])) ==>
            && (samples == [] ==> r == Failure(IndexError(MissingField)))
            && (samples != [] && samples[0] == FAKE_DATA_ID ==> r == Failure(KeyError(MissingKey)))
            && (samples != [] && samples[0] != FAKE_DATA_ID && (exists j :: 0 <= j < |samples| && samples[j] == FAKE_DATA_ID) ==>
                  r == Failure(IndexError(MissingField)))
            && ((samples != [] && forall j :: 0 <= j < |samples| ==> samples[j] != FAKE_DATA_ID) ==> r.Success?))
  {
    var tx := byAccession[txAccession];
    ExonTreeBuilds(tx.exons);
    if ProperExons(tx.exons) {
      var tree := BuildTree(ExonIntervals(tx.exons)).value;
      LoadAllOutcome(datasets, samples, tx.chrom, tree, tx, maxPad, pileup);
    }
  }

  /** All samples load exactly when each is loadable. */
  lemma LoadAllOutcome(datasets: seq<MetaData>, samples: seq<string>, chrom: string, tree: seq<Interval>,
                       tx: Transcript, pad: int, pileup: (string, string, int, int) -> seq<PileupColumn>)
    ensures var r := LoadAll(datasets, samples, chrom, tree, tx, pad, pileup);
      && (r.Success? <==> forall j :: 0 <= j < |samples| ==> Loadable(datasets, samples[j]))
      && (r.Success? ==> forall j :: 0 <= j < |samples| ==> (r.value[j].FakeTable? <==> samples[j] == FAKE_DATA_ID))
  {
    var r := LoadAll(datasets, samples, chrom, tree, tx, pad, pileup);
    forall j | 0 <= j < |samples|
      ensures LoadCoverage(datasets, samples[j], chrom, tree, tx, pad, pileup).Success? <==> Loadable(datasets, samples[j])
    {
      if samples[j] == FAKE_DATA_ID {
        LoadCoverageFake(datasets, chrom, tree, tx, pad, pileup);
      }
    }
    if r.Success? {
      forall j | 0 <= j < |samples|
        ensures r.value[j].FakeTable? <==> samples[j] == FAKE_DATA_ID
      {
        if samples[j] == FAKE_DATA_ID {
          LoadCoverageFake(datasets, chrom, tree, tx, pad, pileup);
        }
      }
    }
  }

  /**
   * In the table `load_coverage_df` returns, row `i` lies in the padded window of one exon,
   * carries that exon's number, and holds as sample `j`'s depth the depth that sample `j`'s
   * own alignment file reports at the row's position, whatever order the samples' rows were
   * generated in.
   */
  lemma LoadCoverageDfDepth(byAccession: map<string, Transcript>, exonPadding: int, txAccession: string, samples: seq<string>,
                            datasets: seq<MetaData>, maxPad: int, pileup: (string, string, int, int) -> seq<PileupColumn>, i: int, j: int)
    requires LoadCoverageDf(byAccession, exonPadding, txAccession, samples, datasets, maxPad, pileup).Success?
    requires 0 <= i < |LoadCoverageDf(byAccession, exonPadding, txAccession, samples, datasets, maxPad, pileup).value|
    requires 0 <= j < |samples|
    ensures exists w :: WindowDepth(LoadCoverageDf(byAccession, exonPadding, txAccession, samples, datasets, maxPad, pileup).value[i], j,
                                    byAccession[txAccession], byAccession[txAccession].chrom,
                                    SortBy(BuildTree(ExonIntervals(byAccession[txAccession].exons)).value, BeginOf), maxPad, pileup,
                                    FindDataset(datasets, samples[j]).value.path, w)
  {
    var tx := byAccession[txAccession];
    var tree := BuildTree(ExonIntervals(tx.exons)).value;
    var ds, tables := LoadCoverageDfTables(byAccession, exonPadding, txAccession, samples, datasets, maxPad, pileup);
    LoadedTables(datasets, samples, tx.chrom, tree, tx, maxPad, pileup, ds, tables);
    SortedRowDepth(datasets, samples, tx.chrom, SortBy(tree, BeginOf), tx, maxPad, pileup, tables, i, j);
  }

  /** `CombinedRowDepth` for the rows once sorted by position. */
  lemma SortedRowDepth(datasets: seq<MetaData>, samples: seq<string>, chrom: string, ws: seq<Interval>,
                       tx: Transcript, pad: int, pileup: (string, string, int, int) -> seq<PileupColumn>,
                       tables: seq<seq<ExonRow>>, i: int, j: int)
    requires |tables| == |samples| && tables != [] && 0 <= j < |samples|
    requires forall k :: 0 <= k < |samples| ==>
      && FindDataset(datasets, samples[k]).Success?
      && tables[k] == DatasetTable(FindDataset(datasets, samples[k]).value, chrom, ws, tx, pad, pileup).generated
    requires 0 <= i < |SortBy(CombineByKey(tables), PosOf)|
    ensures exists w :: WindowDepth(SortBy(CombineByKey(tables), PosOf)[i], j, tx, chrom, ws, pad, pileup,
                                    FindDataset(datasets, samples[j]).value.path, w)
  {
    var l := SortedMember(CombineByKey(tables), PosOf, i);
    CombinedRowDepth(datasets, samples, chrom, ws, tx, pad, pileup, tables, l, j);
    var w :| WindowDepth(CombineByKey(tables)[l], j, tx, chrom, ws, pad, pileup, FindDataset(datasets, samples[j]).value.path, w);
    assert WindowDepth(SortBy(CombineByKey(tables), PosOf)[i], j, tx, chrom, ws, pad, pileup, FindDataset(datasets, samples[j]).value.path, w);
  }

  /** The per-sample tables behind a table that `load_coverage_df` returns, and how it is built from them. */
  lemma LoadCoverageDfTables(byAccession: map<string, Transcript>, exonPadding: int, txAccession: string, samples: seq<string>,
                             datasets: seq<MetaData>, maxPad: int, pileup: (string, string, int, int) -> seq<PileupColumn>)
      returns (ds: seq<Table>, tables: seq<seq<ExonRow>>)
    requires LoadCoverageDf(byAccession, exonPadding, txAccession, samples, datasets, maxPad, pileup).Success?
    ensures var tx := byAccession[txAccession];
      LoadAll(datasets, samples, tx.chrom, BuildTree(ExonIntervals(tx.exons)).value, tx, maxPad, pileup) == Success(ds)
    ensures ExonTables(ds) == Some(tables) && tables != []
    ensures LoadCoverageDf(byAccession, exonPadding, txAccession, samples, datasets, maxPad, pileup).value == SortBy(CombineByKey(tables), PosOf)
  {
    var tx := byAccession[txAccession];
    var tree := BuildTree(ExonIntervals(tx.exons)).value;
    ds := LoadAll(datasets, samples, tx.chrom, tree, tx, maxPad, pileup).value;
    tables := ExonTables(ds).value;
  }
}
