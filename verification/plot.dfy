/**
 * The integer content of the coverage plot: the row filter, the quality levels and their
 * colour map, the clipping of CDS boxes to exon boxes, the CDS boundary lines, the x range,
 * the dispatch between the plain and the projected plot, and the fake-data coverage loader.
 * Drawing itself (figures, image clipping, RGBA colours) is not modelled.
 */
module Plot {
  import opened Wrappers
  import opened Seqs
  import opened Text
  import opened Genes
  import opened Intervals
  import opened Coverage
  import opened Projection
  import Data

  const MARGIN_X: int := 100
  /** Genomic padding around the transcripts, in bp. */
  const PADDING: int := 100
  /** Maximal coverage shown. */
  const MAX_COV: int := 50
  /** Minimal coverage for the level "warning"; below it the level is "fail". */
  const MIN_WARN: int := 10
  /** Minimal coverage for the level "OK"; below it the level is "warning". */
  const MIN_OK: int := 20

  /** Whether `pos_filtered` keeps a row. */
  predicate InPlotWindow(row: CovRow, chrom: string, begin: int, end: int) {
    row.chrom == chrom && begin - 1 <= row.pos < end
  }

  /** `pos_filtered`: the rows on `chrom` with `begin - 1 <= pos < end`, in their order. */
  function PosFiltered(rows: seq<CovRow>, chrom: string, begin: int, end: int): (r: seq<CovRow>)
    ensures forall x :: x in r ==> x in rows && InPlotWindow(x, chrom, begin, end)
    ensures forall x :: x in rows ==> multiset(r)[x] == if InPlotWindow(x, chrom, begin, end) then multiset(rows)[x] else 0
    ensures IsSubsequence(r, rows)
  {
    Filter(rows, (x: CovRow) => InPlotWindow(x, chrom, begin, end))
  }

  /** `val_to_qual`: 0 ("fail") below 10, 1 ("warning") below 20, 2 ("OK") from 20 on. */
  function ValToQual(x: int): (q: int)
    ensures 0 <= q <= 2
    ensures q == 0 <==> x < MIN_WARN
    ensures q == 2 <==> x >= MIN_OK
  {
    if x < MIN_WARN then 0 else if x < MIN_OK then 1 else 2
  }

  /** A higher coverage never gets a lower quality level. */
  lemma ValToQualMonotone(x: int, y: int)
    requires x <= y
    ensures ValToQual(x) <= ValToQual(y)
  {
  }

  /** The colour map entries, one per quality level. */
  datatype Colour = FailColour | WarnColour | OkColour {

    /** The quality level the colour stands for. */
    function Level(): int {
      match this
      case FailColour => 0
      case WarnColour => 1
      case OkColour => 2
    }
  }

  /** `build_qualmap`: one colour for each level that occurs, in ascending level order. */
  function BuildQualmap(quals: seq<int>): (r: seq<Colour>)
    ensures forall c: Colour :: c in r <==> c.Level() in quals
    ensures forall i, j :: 0 <= i < j < |r| ==> r[i].Level() < r[j].Level()
  {
    (if 0 in quals then [FailColour] else []) +
    (if 1 in quals then [WarnColour] else []) +
    (if 2 in quals then [OkColour] else [])
  }

  /** A drawn box: left edge and width. */
  datatype Box = Box(x: int, width: int)

  /**
   * A CDS bound as a row of the transcript table holds it. A missing value is NaN when its
   * column holds some number (pandas stores the column as floats), and None when the column
   * holds no number at all (pandas keeps the column's Python objects), as in a one-row table.
   */
  datatype Cell = Num(v: int) | NaN | Null

  /** The number a cell holds, if any. */
  function Present(c: Cell): Option<int> {
    if c.Num? then Some(c.v) else None
  }

  /** The cell of a possibly missing value; `noneColumn` says that the whole column lacks values. */
  function CellOf(o: Option<int>, noneColumn: bool): Cell {
    match o
    case Some(v) => Num(v)
    case None => if noneColumn then Null else NaN
  }

  /** No row has a CDS begin. */
  predicate NoCdsBegin(rows: seq<TxRow>) {
    forall i :: 0 <= i < |rows| ==> rows[i].cdsBegin.None?
  }

  /** No row has a CDS end. */
  predicate NoCdsEnd(rows: seq<TxRow>) {
    forall i :: 0 <= i < |rows| ==> rows[i].cdsEnd.None?
  }

  /** The CDS bounds of every row as cells of their columns. */
  function CdsColumn(rows: seq<TxRow>): (r: seq<(Cell, Cell)>)
    ensures |r| == |rows|
    ensures forall i :: 0 <= i < |rows| ==>
      r[i] == (CellOf(rows[i].cdsBegin, NoCdsBegin(rows)), CellOf(rows[i].cdsEnd, NoCdsEnd(rows)))
  {
    var nb := NoCdsBegin(rows);
    var ne := NoCdsEnd(rows);
    seq(|rows|, i requires 0 <= i < |rows| => (CellOf(rows[i].cdsBegin, nb), CellOf(rows[i].cdsEnd, ne)))
  }

  /**
   * The CDS box drawn over the exon box `[begin, begin + length)`. It is drawn when the CDS
   * touches the exon, and it covers their intersection. An absent (NaN) CDS bound fails every
   * comparison, so no box is drawn.
   */
  function CdsBox(begin: int, length: int, cdsBegin: Option<int>, cdsEnd: Option<int>): (r: Option<Box>)
    ensures r.Some? <==> cdsBegin.Some? && cdsEnd.Some? && cdsBegin.value <= begin + length && begin <= cdsEnd.value
    ensures r.Some? ==> r.value.x == Max(begin, cdsBegin.value)
    ensures r.Some? ==> r.value.x + r.value.width == Min(begin + length, cdsEnd.value)
  {
    if cdsBegin.Some? && cdsEnd.Some? && cdsBegin.value <= begin + length && begin <= cdsEnd.value then
      var offLeft := if begin >= cdsBegin.value then 0 else cdsBegin.value - begin;
      var offRight := if cdsEnd.value > begin + length then 0 else begin + length - cdsEnd.value;
      Some(Box(begin + offLeft, length - offLeft - offRight))
    else None
  }

  /**
   * `cds_begin <= begin + length and begin <= cds_end` on cells, left to right: NaN makes a
   * comparison false, None makes it raise TypeError, and the right comparison is reached
   * only when the left one holds. When nothing raises, the box is the one of the numbers.
   */
  function CdsBoxOf(begin: int, length: int, cb: Cell, ce: Cell): (r: Result<Option<Box>>)
    ensures r.Failure? <==> cb.Null? || (cb.Num? && cb.v <= begin + length && ce.Null?)
    ensures r.Failure? ==> r.error == TypeError(Undefined)
    ensures r.Success? ==> r.value == CdsBox(begin, length, Present(cb), Present(ce))
  {
    match cb
    case Null => Failure(TypeError(Undefined))
    case NaN => Success(None)
    case Num(b) =>
      if !(b <= begin + length) then Success(None)
      else
        match ce
        case Null => Failure(TypeError(Undefined))
        case NaN => Success(None)
        case Num(e) => Success(CdsBox(begin, length, Some(b), Some(e)))
  }

  /** For a well-formed exon and CDS, the CDS box has a non-negative width and lies inside the exon box and the CDS. */
  lemma CdsBoxWithinExon(begin: int, length: int, cdsBegin: int, cdsEnd: int)
    requires length >= 0 && cdsBegin <= cdsEnd
    requires cdsBegin <= begin + length && begin <= cdsEnd
    ensures var b := CdsBox(begin, length, Some(cdsBegin), Some(cdsEnd));
      && b.Some? && b.value.width >= 0
      && begin <= b.value.x && b.value.x + b.value.width <= begin + length
      && cdsBegin <= b.value.x && b.value.x + b.value.width <= cdsEnd
  {
  }

  /** `cds_begin != cds_end` on cells: None equals only None, NaN equals nothing, numbers compare by value. */
  predicate Differ(a: Cell, b: Cell) {
    match (a, b)
    case (Null, Null) => false
    case (Num(x), Num(y)) => x != y
    case _ => true
  }

  /** The `cds_vlines` of rows with the given CDS cells. */
  function VlinesOf(cells: seq<(Cell, Cell)>): set<Cell> {
    if cells == [] then {}
    else (if Differ(cells[0].0, cells[0].1) then {cells[0].0, cells[0].1} else {}) + VlinesOf(cells[1..])
  }

  /** A line is drawn exactly for a bound of a row whose bounds differ. */
  lemma {:induction false} VlinesMember(cells: seq<(Cell, Cell)>, v: Cell)
    ensures v in VlinesOf(cells) <==> exists i :: 0 <= i < |cells| && Differ(cells[i].0, cells[i].1) && (v == cells[i].0 || v == cells[i].1)
  {
    if cells != [] {
      VlinesMember(cells[1..], v);
      assert forall i :: 1 <= i < |cells| ==> cells[i] == cells[1..][i - 1];
      if v in VlinesOf(cells[1..]) {
        var i :| 0 <= i < |cells[1..]| && Differ(cells[1..][i].0, cells[1..][i].1) && (v == cells[1..][i].0 || v == cells[1..][i].1);
        assert cells[i + 1] == cells[1..][i];
      }
    }
  }

  /** `cds_vlines`: both CDS bounds of every transcript row whose bounds differ. */
  function CdsVlines(rows: seq<TxRow>): set<Cell> {
    VlinesOf(CdsColumn(rows))
  }

  /**
   * A None line, on which `axvline` raises TypeError, is among the CDS lines exactly when
   * there are rows, and one CDS column holds no value while the other holds some.
   */
  lemma {:induction false} NoneLineIff(rows: seq<TxRow>)
    ensures Null in CdsVlines(rows) <==> rows != [] && NoCdsBegin(rows) != NoCdsEnd(rows)
  {
    var cells := CdsColumn(rows);
    VlinesMember(cells, Null);
    if rows != [] && NoCdsBegin(rows) != NoCdsEnd(rows) {
      assert Differ(cells[0].0, cells[0].1);
      assert cells[0].0 == Null || cells[0].1 == Null;
    }
    if Null in CdsVlines(rows) {
      var i :| 0 <= i < |rows| && Differ(cells[i].0, cells[i].1) && (Null == cells[i].0 || Null == cells[i].1);
    }
  }

  /** `column.min()` with NaN for an absent value: the least present value, absent when none is. */
  function MinPresent(xs: seq<Option<int>>): (r: Option<int>)
    ensures r.None? <==> forall i :: 0 <= i < |xs| ==> xs[i].None?
    ensures r.Some? ==> (exists i :: 0 <= i < |xs| && xs[i] == r)
    ensures r.Some? ==> forall i :: 0 <= i < |xs| && xs[i].Some? ==> r.value <= xs[i].value
  {
    if xs == [] then None
    else
      var rest := MinPresent(xs[1..]);
      assert forall i :: 1 <= i < |xs| ==> xs[i] == xs[1..][i - 1];
      if xs[0].None? then rest
      else if rest.None? || xs[0].value <= rest.value then xs[0]
      else rest
  }

  /** `column.max()` with NaN for an absent value: the greatest present value, absent when none is. */
  function MaxPresent(xs: seq<Option<int>>): (r: Option<int>)
    ensures r.None? <==> forall i :: 0 <= i < |xs| ==> xs[i].None?
    ensures r.Some? ==> (exists i :: 0 <= i < |xs| && xs[i] == r)
    ensures r.Some? ==> forall i :: 0 <= i < |xs| && xs[i].Some? ==> xs[i].value <= r.value
  {
    if xs == [] then None
    else
      var rest := MaxPresent(xs[1..]);
      assert forall i :: 1 <= i < |xs| ==> xs[i] == xs[1..][i - 1];
      if xs[0].None? then rest
      else if rest.None? || xs[0].value >= rest.value then xs[0]
      else rest
  }

  /** Adds `d` to a present value; NaN stays NaN. */
  function Shift(o: Option<int>, d: int): Option<int> {
    match o
    case None => None
    case Some(v) => Some(v + d)
  }

  /** The x range of every axis: transcripts' least begin and greatest end, widened by 200 bp. */
  function XRange(rows: seq<TxRow>): (r: (Option<int>, Option<int>))
    ensures IsLowEnd(rows, r.0) && IsHighEnd(rows, r.1)
  {
    (LowEnd(rows), HighEnd(rows))
  }

  /** `lo` is present iff some begin is, lies 200 bp below every begin, and 200 bp below one of them. */
  ghost predicate IsLowEnd(rows: seq<TxRow>, lo: Option<int>) {
    && (lo.Some? <==> exists i :: 0 <= i < |rows| && rows[i].begin.Some?)
    && (lo.Some? ==> forall i :: 0 <= i < |rows| && rows[i].begin.Some? ==> lo.value + PADDING + MARGIN_X <= rows[i].begin.value)
    && (lo.Some? ==> BeginIs(rows, lo.value + PADDING + MARGIN_X))
  }

  /** `hi` is present iff some end is, lies 200 bp above every end, and 200 bp above one of them. */
  ghost predicate IsHighEnd(rows: seq<TxRow>, hi: Option<int>) {
    && (hi.Some? <==> exists i :: 0 <= i < |rows| && rows[i].end.Some?)
    && (hi.Some? ==> forall i :: 0 <= i < |rows| && rows[i].end.Some? ==> rows[i].end.value <= hi.value - PADDING - MARGIN_X)
    && (hi.Some? ==> EndIs(rows, hi.value - PADDING - MARGIN_X))
  }

  /** The lower end of the x range. */
  function LowEnd(rows: seq<TxRow>): (lo: Option<int>)
    ensures IsLowEnd(rows, lo)
  {
    var lo := Shift(MinPresent(BeginColumn(rows)), -PADDING - MARGIN_X);
    LeastBegin(rows, lo);
    lo
  }

  /** The upper end of the x range. */
  function HighEnd(rows: seq<TxRow>): (hi: Option<int>)
    ensures IsHighEnd(rows, hi)
  {
    var hi := Shift(MaxPresent(EndColumn(rows)), PADDING + MARGIN_X);
    GreatestEnd(rows, hi);
    hi
  }

  /** Some row begins at `v`. */
  ghost predicate BeginIs(rows: seq<TxRow>, v: int) {
    exists i :: 0 <= i < |rows| && rows[i].begin == Some(v)
  }

  /** Some row ends at `v`. */
  ghost predicate EndIs(rows: seq<TxRow>, v: int) {
    exists i :: 0 <= i < |rows| && rows[i].end == Some(v)
  }

  function BeginColumn(rows: seq<TxRow>): (r: seq<Option<int>>)
    ensures |r| == |rows| && forall i :: 0 <= i < |rows| ==> r[i] == rows[i].begin
  {
    seq(|rows|, i requires 0 <= i < |rows| => rows[i].begin)
  }

  function EndColumn(rows: seq<TxRow>): (r: seq<Option<int>>)
    ensures |r| == |rows| && forall i :: 0 <= i < |rows| ==> r[i] == rows[i].end
  {
    seq(|rows|, i requires 0 <= i < |rows| => rows[i].end)
  }

  lemma LeastBegin(rows: seq<TxRow>, lo: Option<int>)
    requires lo == Shift(MinPresent(BeginColumn(rows)), -PADDING - MARGIN_X)
    ensures lo.Some? <==> exists i :: 0 <= i < |rows| && rows[i].begin.Some?
    ensures lo.Some? ==> forall i :: 0 <= i < |rows| && rows[i].begin.Some? ==> lo.value + PADDING + MARGIN_X <= rows[i].begin.value
    ensures lo.Some? ==> BeginIs(rows, lo.value + PADDING + MARGIN_X)
  {
    var xs := BeginColumn(rows);
    var m := MinPresent(xs);
    if m.Some? {
      var i :| 0 <= i < |xs| && xs[i] == m;
      assert rows[i].begin == m;
    } else {
      assert forall i :: 0 <= i < |rows| ==> xs[i].None?;
    }
  }

  lemma GreatestEnd(rows: seq<TxRow>, hi: Option<int>)
    requires hi == Shift(MaxPresent(EndColumn(rows)), PADDING + MARGIN_X)
    ensures hi.Some? <==> exists i :: 0 <= i < |rows| && rows[i].end.Some?
    ensures hi.Some? ==> forall i :: 0 <= i < |rows| && rows[i].end.Some? ==> rows[i].end.value <= hi.value - PADDING - MARGIN_X
    ensures hi.Some? ==> EndIs(rows, hi.value - PADDING - MARGIN_X)
  {
    var xs := EndColumn(rows);
    var m := MaxPresent(xs);
    if m.Some? {
      var i :| 0 <= i < |xs| && xs[i] == m;
      assert rows[i].end == m;
    } else {
      assert forall i :: 0 <= i < |rows| ==> xs[i].None?;
    }
  }

  /** The rows drawn in the coverage panels; a NaN x range lets no row through. */
  function CoverageInRange(rows: seq<CovRow>, chrom: string, xr: (Option<int>, Option<int>)): (r: seq<CovRow>)
    ensures forall x :: x in r ==> x in rows && x.chrom == chrom
    ensures xr.0.None? || xr.1.None? ==> r == []
  {
    if xr.0.Some? && xr.1.Some? then PosFiltered(rows, chrom, xr.0.value, xr.1.value) else []
  }

  /** One coverage panel: the sample's depths, their quality levels and the colour map of those levels. */
  datatype Panel = Panel(sample: string, depths: seq<int>, levels: seq<int>, colours: seq<Colour>)

  /** The panel of one sample: its levels follow its depths, and its colour map holds one colour per level present. */
  function MakePanel(sample: string, depths: seq<int>): (p: Panel)
    ensures p.sample == sample && p.depths == depths && |p.levels| == |depths|
    ensures forall i :: 0 <= i < |depths| ==> p.levels[i] == ValToQual(depths[i])
    ensures forall c: Colour :: c in p.colours <==> exists i :: 0 <= i < |depths| && ValToQual(depths[i]) == c.Level()
  {
    var levels := seq(|depths|, i requires 0 <= i < |depths| => ValToQual(depths[i]));
    forall c: Colour
      ensures c.Level() in levels <==> exists i :: 0 <= i < |depths| && ValToQual(depths[i]) == c.Level()
    {
      if c.Level() in levels {
        var i :| 0 <= i < |levels| && levels[i] == c.Level();
      }
      if exists i :: 0 <= i < |depths| && ValToQual(depths[i]) == c.Level() {
        var i :| 0 <= i < |depths| && ValToQual(depths[i]) == c.Level();
        assert levels[i] == c.Level();
      }
    }
    Panel(sample, depths, levels, BuildQualmap(levels))
  }

  /** The depth column of sample `j`. */
  function Column(rows: seq<CovRow>, j: nat): (r: seq<int>)
    requires forall i :: 0 <= i < |rows| ==> j < |rows[i].depths|
    ensures |r| == |rows| && forall i :: 0 <= i < |rows| ==> r[i] == rows[i].depths[j]
  {
    seq(|rows|, i requires 0 <= i < |rows| => rows[i].depths[j])
  }

  /** An exon drawn on a transcript row: its box, and the CDS box over it when there is one. */
  datatype ExonBox = ExonBox(begin: int, length: int, cds: Option<Box>)

  /**
   * The exon boxes of a transcript row with CDS cells `cds`, for the pairs of
   * `zip(exon_begins, exon_lengths)`. An absent (None) exon begin makes `begin + length`
   * raise TypeError, and so does a None CDS bound that the comparison reaches.
   */
  function ExonBoxes(row: TxRow, cds: (Cell, Cell)): (r: Result<seq<ExonBox>>)
    ensures var n := Min(|row.exonBegins|, |row.exonLengths|);
      r.Success? <==> forall k :: 0 <= k < n ==>
        row.exonBegins[k].Some? && CdsBoxOf(row.exonBegins[k].value, row.exonLengths[k], cds.0, cds.1).Success?
    ensures r.Failure? ==> r.error == TypeError(Undefined)
    ensures r.Success? ==> |r.value| == Min(|row.exonBegins|, |row.exonLengths|)
    ensures r.Success? ==> forall k :: 0 <= k < |r.value| ==>
      && Some(r.value[k].begin) == row.exonBegins[k] && r.value[k].length == row.exonLengths[k]
      && r.value[k].cds == CdsBox(r.value[k].begin, r.value[k].length, Present(cds.0), Present(cds.1))
  {
    BoxesOf(row.exonBegins, row.exonLengths, cds.0, cds.1)
  }

  function BoxesOf(begins: seq<Option<int>>, lengths: seq<int>, cb: Cell, ce: Cell): (r: Result<seq<ExonBox>>)
    ensures r.Success? <==> forall k :: 0 <= k < Min(|begins|, |lengths|) ==>
      begins[k].Some? && CdsBoxOf(begins[k].value, lengths[k], cb, ce).Success?
    ensures r.Failure? ==> r.error == TypeError(Undefined)
    ensures r.Success? ==> |r.value| == Min(|begins|, |lengths|)
    ensures r.Success? ==> forall k :: 0 <= k < |r.value| ==>
      && Some(r.value[k].begin) == begins[k] && r.value[k].length == lengths[k]
      && r.value[k].cds == CdsBox(r.value[k].begin, r.value[k].length, Present(cb), Present(ce))
  {
    if begins == [] || lengths == [] then Success([])
    else if begins[0].None? then Failure(TypeError(Undefined))
    else
      var b := begins[0].value;
      var cds :- CdsBoxOf(b, lengths[0], cb, ce);
      var rest := BoxesOf(begins[1..], lengths[1..], cb, ce);
      assert forall k :: 1 <= k < |begins| ==> begins[k] == begins[1..][k - 1];
      assert forall k :: 1 <= k < |lengths| ==> lengths[k] == lengths[1..][k - 1];
      if rest.Failure? then rest
      else Success([ExonBox(b, lengths[0], cds)] + rest.value)
  }

  /** The boxes of every transcript row; the first row that raises makes the plot raise. */
  function AllExonBoxes(rows: seq<TxRow>): (r: Result<seq<seq<ExonBox>>>)
    ensures r.Success? <==> BoxesDrawn(rows)
    ensures r.Failure? ==> r.error == TypeError(Undefined)
    ensures r.Success? ==> |r.value| == |rows| && forall i :: 0 <= i < |rows| ==> Success(r.value[i]) == ExonBoxes(rows[i], CdsColumn(rows)[i])
  {
    RowBoxes(rows, CdsColumn(rows))
  }

  /** Every transcript row's exon boxes can be computed. */
  ghost predicate BoxesDrawn(rows: seq<TxRow>) {
    forall i :: 0 <= i < |rows| ==> ExonBoxes(rows[i], CdsColumn(rows)[i]).Success?
  }

  function RowBoxes(rows: seq<TxRow>, cells: seq<(Cell, Cell)>): (r: Result<seq<seq<ExonBox>>>)
    requires |cells| == |rows|
    ensures r.Success? <==> forall i :: 0 <= i < |rows| ==> ExonBoxes(rows[i], cells[i]).Success?
    ensures r.Failure? ==> r.error == TypeError(Undefined)
    ensures r.Success? ==> |r.value| == |rows| && forall i :: 0 <= i < |rows| ==> Success(r.value[i]) == ExonBoxes(rows[i], cells[i])
  {
    if rows == [] then Success([])
    else
      var first :- ExonBoxes(rows[0], cells[0]);
      var rest :- RowBoxes(rows[1..], cells[1..]);
      assert forall i :: 1 <= i < |rows| ==> rows[i] == rows[1..][i - 1] && cells[i] == cells[1..][i - 1];
      Success([first] + rest)
  }

  /**
   * The integer skeleton of the figure `_plot_for_gene` draws: the title, the chromosome and
   * strand taken from the first transcript row ("1" and "+" without rows), the x range, the
   * coverage rows shown, one panel per sample column, the CDS and seam lines, the exon boxes
   * of every transcript row and their labels.
   */
  datatype Figure = Figure(
    suptitle: string,
    chrom: string,
    strand: string,
    xRange: (Option<int>, Option<int>),
    coverage: seq<CovRow>,
    panels: seq<Panel>,
    cdsVlines: set<Cell>,
    sepVlines: seq<int>,
    exonBoxes: seq<seq<ExonBox>>,
    labels: seq<string>,
    projected: bool)

  /** The chromosome `_plot_for_gene` draws: the first row's, or "1" without rows. */
  function ChromOf(rows: seq<TxRow>): string {
    if rows == [] then "1" else rows[0].chrom
  }

  /** The coverage rows the sample panels draw. */
  function Shown(rows: seq<TxRow>, covs: CovTable): seq<CovRow> {
    CoverageInRange(covs.rows, ChromOf(rows), XRange(rows))
  }

  /** The x range is defined and some coverage row on the drawn chromosome lies inside it. */
  ghost predicate SomeRowShown(rows: seq<TxRow>, covs: CovTable) {
    && XRange(rows).0.Some? && XRange(rows).1.Some?
    && exists x :: x in covs.rows && InPlotWindow(x, ChromOf(rows), XRange(rows).0.value, XRange(rows).1.value)
  }

  /** The sample panels draw some row exactly when a coverage row on the chromosome lies in the x range. */
  lemma ShownIff(rows: seq<TxRow>, covs: CovTable)
    ensures Shown(rows, covs) != [] <==> SomeRowShown(rows, covs)
  {
    var r := Shown(rows, covs);
    if r != [] {
      assert r[0] in r;
    }
    if SomeRowShown(rows, covs) {
      var xr := XRange(rows);
      var x :| x in covs.rows && InPlotWindow(x, ChromOf(rows), xr.0.value, xr.1.value);
      assert multiset(r)[x] == multiset(covs.rows)[x] > 0;
    }
  }

  /** A coverage row on the chromosome between some row's own begin and end lies in the x range. */
  lemma {:induction false} RowInSpanShown(rows: seq<TxRow>, covs: CovTable, i: nat, x: CovRow)
    requires i < |rows| && rows[i].begin.Some? && rows[i].end.Some?
    requires x in covs.rows && x.chrom == ChromOf(rows) && rows[i].begin.value <= x.pos <= rows[i].end.value
    ensures SomeRowShown(rows, covs)
  {
    var xr := XRange(rows);
    assert xr.0.value + PADDING + MARGIN_X <= rows[i].begin.value;
    assert rows[i].end.value <= xr.1.value - PADDING - MARGIN_X;
    assert InPlotWindow(x, ChromOf(rows), xr.0.value, xr.1.value);
  }

  /**
   * `_plot_for_gene` over a transcript table and a coverage table. A NaN end of the x range
   * makes `set_xlim` raise ValueError before anything else can raise. Then the first sample
   * panel raises: IndexError when no coverage row lies in the range, since `fill_between`
   * over no points has no path to clip with, and TypeError on a None CDS line. Last, the
   * transcript panel raises TypeError on a box it cannot compute.
   */
  function DrawGene(rows: seq<TxRow>, covs: CovTable, sepVlines: seq<int>, projected: bool, suptitle: string): (r: Result<Figure>)
    requires WellFormed(covs)
    ensures r == Failure(ValueError(NanLimits)) <==> XRange(rows).0.None? || XRange(rows).1.None?
    ensures r == Failure(IndexError(NoPath)) <==>
      XRange(rows).0.Some? && XRange(rows).1.Some? && |covs.samples| > 0 && Shown(rows, covs) == []
    ensures r.Success? <==>
      && XRange(rows).0.Some? && XRange(rows).1.Some?
      && (|covs.samples| > 0 ==> Shown(rows, covs) != [])
      && !(|covs.samples| > 0 && Null in CdsVlines(rows))
      && BoxesDrawn(rows)
    ensures r.Failure? ==> r.error == ValueError(NanLimits) || r.error == IndexError(NoPath) || r.error == TypeError(Undefined)
    ensures r.Success? ==> r.value.chrom == ChromOf(rows)
    ensures r.Success? ==> r.value.strand == (if rows == [] then "+" else rows[0].strand)
    ensures r.Success? ==> r.value.xRange == XRange(rows)
    ensures r.Success? ==> forall x :: x in r.value.coverage ==> x in covs.rows && x.chrom == r.value.chrom
    ensures r.Success? && |covs.samples| > 0 ==> r.value.coverage != []
    ensures r.Success? ==> |r.value.panels| == |covs.samples| && forall j :: 0 <= j < |covs.samples| ==>
      r.value.panels[j].sample == covs.samples[j] && |r.value.panels[j].depths| == |r.value.coverage|
    ensures r.Success? ==> r.value.cdsVlines == CdsVlines(rows) && r.value.sepVlines == sepVlines
    ensures r.Success? ==> |r.value.exonBoxes| == |rows| && |r.value.labels| == |rows|
    ensures r.Success? ==> forall i :: 0 <= i < |rows| ==> r.value.labels[i] == rows[i].txAccession
  {
    var xr := XRange(rows);
    if xr.0.None? || xr.1.None? then Failure(ValueError(NanLimits))
    else if |covs.samples| > 0 && Shown(rows, covs) == [] then Failure(IndexError(NoPath))
    else if |covs.samples| > 0 && Null in CdsVlines(rows) then Failure(TypeError(Undefined))
    else
      var boxes :- AllExonBoxes(rows);
      Success(Compose(rows, covs, sepVlines, projected, suptitle, boxes))
  }

  /** The figure of `DrawGene` once every transcript row's exon boxes are known. */
  function Compose(rows: seq<TxRow>, covs: CovTable, sepVlines: seq<int>, projected: bool, suptitle: string,
                   boxes: seq<seq<ExonBox>>): (f: Figure)
    requires WellFormed(covs)
    ensures f.chrom == ChromOf(rows) && f.coverage == Shown(rows, covs)
    ensures f.strand == (if rows == [] then "+" else rows[0].strand)
    ensures f.xRange == XRange(rows)
    ensures forall x :: x in f.coverage ==> x in covs.rows && x.chrom == f.chrom
    ensures |f.panels| == |covs.samples| && forall j :: 0 <= j < |covs.samples| ==>
      f.panels[j].sample == covs.samples[j] && |f.panels[j].depths| == |f.coverage|
    ensures f.cdsVlines == CdsVlines(rows) && f.sepVlines == sepVlines
    ensures f.exonBoxes == boxes && |f.labels| == |rows|
    ensures forall i :: 0 <= i < |rows| ==> f.labels[i] == rows[i].txAccession
    ensures f.projected == projected && f.suptitle == suptitle
  {
    var chrom := ChromOf(rows);
    var strand := if rows == [] then "+" else rows[0].strand;
    var xr := XRange(rows);
    var shown := Shown(rows, covs);
    ShownRowsShape(covs, shown);
    var panels := Panels(covs.samples, shown);
    var labels := seq(|rows|, i requires 0 <= i < |rows| => rows[i].txAccession);
    Figure(suptitle, chrom, strand, xr, shown, panels, CdsVlines(rows), sepVlines, boxes, labels, projected)
  }

  /** One panel per sample, each holding that sample's column of the drawn rows. */
  function Panels(samples: seq<string>, shown: seq<CovRow>): (r: seq<Panel>)
    requires forall i :: 0 <= i < |shown| ==> |shown[i].depths| == |samples|
    ensures |r| == |samples| && forall j :: 0 <= j < |samples| ==> r[j].sample == samples[j] && |r[j].depths| == |shown|
  {
    seq(|samples|, j requires 0 <= j < |samples| => MakePanel(samples[j], Column(shown, j)))
  }

  /** Rows drawn from a well-formed table hold one depth per sample column. */
  lemma ShownRowsShape(covs: CovTable, shown: seq<CovRow>)
    requires WellFormed(covs) && forall x :: x in shown ==> x in covs.rows
    ensures forall i :: 0 <= i < |shown| ==> |shown[i].depths| == |covs.samples|
  {
    forall i | 0 <= i < |shown|
      ensures |shown[i].depths| == |covs.samples|
    {
      assert shown[i] in covs.rows;
    }
  }

  /** The transcript table of the plain plot: every transcript with its own genomic coordinates. */
  function TranscriptTable(txs: seq<Transcript>): (r: seq<TxRow>)
    ensures |r| == |txs|
    ensures forall i :: 0 <= i < |txs| ==>
      && r[i].chrom == txs[i].chrom && r[i].strand == txs[i].strand && r[i].txAccession == txs[i].txAccession
      && r[i].begin == Some(txs[i].txBegin) && r[i].end == Some(txs[i].txEnd)
      && r[i].cdsBegin == Some(txs[i].cdsBegin) && r[i].cdsEnd == Some(txs[i].cdsEnd)
      && |r[i].exonBegins| == |txs[i].exons| == |r[i].exonLengths|
      && forall k :: 0 <= k < |txs[i].exons| ==>
        r[i].exonBegins[k] == Some(txs[i].exons[k].begin) && r[i].exonLengths[k] == txs[i].exons[k].Length()
  {
    seq(|txs|, i requires 0 <= i < |txs| =>
      var bs := ExonBegins(txs[i].exons);
      TxRow(
        chrom := txs[i].chrom,
        geneSymbol := txs[i].geneSymbol,
        txAccession := txs[i].txAccession,
        strand := txs[i].strand,
        begin := Some(txs[i].txBegin),
        end := Some(txs[i].txEnd),
        cdsBegin := Some(txs[i].cdsBegin),
        cdsEnd := Some(txs[i].cdsEnd),
        exonBegins := seq(|bs|, k requires 0 <= k < |bs| => Some(bs[k])),
        exonLengths := ExonLengths(txs[i].exons)))
  }

  /** `"Coverage for gene %s"` and `"Coverage for gene %s with padding %d bp"`. */
  function Title(symbol: string, exonPadding: Option<int>): string {
    match exonPadding
    case None => "Coverage for gene " + symbol
    case Some(pad) => "Coverage for gene " + symbol + " with padding " + ShowInt(pad) + " bp"
  }

  /** `_plot_for_gene` on the transcripts in genomic coordinates. */
  function PlotPlain(txs: seq<Transcript>, symbol: string, covs: CovTable): Result<Figure>
    requires WellFormed(covs)
  {
    DrawGene(TranscriptTable(txs), covs, [], false, Title(symbol, None))
  }

  /**
   * Every coordinate of the plain table is present, so the plain plot draws iff there is a
   * transcript and, when there are samples, some coverage row lies in the x range. Without a
   * transcript the x range is NaN and `set_xlim` raises ValueError; with samples but no row
   * in range the first panel's `fill_between` has no path and raises IndexError.
   */
  lemma {:induction false} PlainPlotOutcome(txs: seq<Transcript>, symbol: string, covs: CovTable)
    requires WellFormed(covs)
    ensures PlotPlain(txs, symbol, covs).Success? <==>
      txs != [] && (|covs.samples| > 0 ==> SomeRowShown(TranscriptTable(txs), covs))
    ensures PlotPlain(txs, symbol, covs) == Failure(ValueError(NanLimits)) <==> txs == []
    ensures var r := PlotPlain(txs, symbol, covs);
      r.Failure? ==> r.error == ValueError(NanLimits) || r.error == IndexError(NoPath)
  {
    PlainSuccessIff(txs, symbol, covs);
    PlainNanIff(txs, symbol, covs);
    PlainFailureKinds(txs, symbol, covs);
  }

  /** The first clause of `PlainPlotOutcome`. */
  lemma {:induction false} PlainSuccessIff(txs: seq<Transcript>, symbol: string, covs: CovTable)
    requires WellFormed(covs)
    ensures PlotPlain(txs, symbol, covs).Success? <==>
      txs != [] && (|covs.samples| > 0 ==> SomeRowShown(TranscriptTable(txs), covs))
  {
    if txs != [] {
      PlainDrawable(txs);
      DrawnOrNoPath(TranscriptTable(txs), covs, [], false, Title(symbol, None));
    }
  }

  /** The second clause of `PlainPlotOutcome`. */
  lemma {:induction false} PlainNanIff(txs: seq<Transcript>, symbol: string, covs: CovTable)
    requires WellFormed(covs)
    ensures PlotPlain(txs, symbol, covs) == Failure(ValueError(NanLimits)) <==> txs == []
  {
    if txs != [] {
      PlainDrawable(txs);
    }
  }

  /** The third clause of `PlainPlotOutcome`. */
  lemma {:induction false} PlainFailureKinds(txs: seq<Transcript>, symbol: string, covs: CovTable)
    requires WellFormed(covs)
    ensures var r := PlotPlain(txs, symbol, covs);
      r.Failure? ==> r.error == ValueError(NanLimits) || r.error == IndexError(NoPath)
  {
    if txs != [] {
      PlainDrawable(txs);
      DrawnOrNoPath(TranscriptTable(txs), covs, [], false, Title(symbol, None));
    }
  }

  /** A coverage row on the first transcript's chromosome, between some transcript's begin and end, is drawn by the plain plot. */
  lemma {:induction false} PlainCoverageShown(txs: seq<Transcript>, covs: CovTable, t: nat, x: CovRow)
    requires t < |txs| && x in covs.rows && x.chrom == txs[0].chrom && txs[t].txBegin <= x.pos <= txs[t].txEnd
    ensures SomeRowShown(TranscriptTable(txs), covs)
  {
    var rows := TranscriptTable(txs);
    RowInSpanShown(rows, covs, t, x);
  }

  /** The plain table of at least one transcript has an x range, no None line, and all its boxes. */
  lemma {:induction false} PlainDrawable(txs: seq<Transcript>)
    requires txs != []
    ensures var rows := TranscriptTable(txs);
      XRange(rows).0.Some? && XRange(rows).1.Some? && Null !in CdsVlines(rows) && BoxesDrawn(rows)
  {
    var rows := TranscriptTable(txs);
    assert XRange(rows).0.Some? && XRange(rows).1.Some? by {
      PlainRange(txs, rows);
    }
    assert !NoCdsBegin(rows) && !NoCdsEnd(rows) by {
      assert rows[0].cdsBegin.Some? && rows[0].cdsEnd.Some?;
    }
    assert Null !in CdsVlines(rows) by {
      NoneLineIff(rows);
    }
    assert BoxesDrawn(rows) by {
      PlainCells(txs, rows);
      PlainBoxes(txs, rows);
    }
  }

  /**
   * The plain plot has no seams, is titled with the symbol alone, spans the transcripts'
   * own x range, and draws a line at both CDS bounds of every transcript whose bounds differ.
   */
  lemma {:induction false} PlainPlotFigure(txs: seq<Transcript>, symbol: string, covs: CovTable)
    requires WellFormed(covs)
    ensures var r := PlotPlain(txs, symbol, covs);
      r.Success? ==> && !r.value.projected && r.value.sepVlines == [] && r.value.suptitle == Title(symbol, None)
                     && r.value.xRange == XRange(TranscriptTable(txs))
                     && forall v :: v in r.value.cdsVlines <==> PlainVline(txs, v)
  {
    var rows := TranscriptTable(txs);
    if txs != [] {
      PlainCells(txs, rows);
      PlainVlines(txs, CdsColumn(rows));
    }
  }

  /** `v` is a CDS bound of a transcript whose CDS bounds differ. */
  ghost predicate PlainVline(txs: seq<Transcript>, v: Cell) {
    exists i :: 0 <= i < |txs| && txs[i].cdsBegin != txs[i].cdsEnd && (v == Num(txs[i].cdsBegin) || v == Num(txs[i].cdsEnd))
  }

  /** The plain table of at least one transcript has an x range. */
  lemma {:induction false} PlainRange(txs: seq<Transcript>, rows: seq<TxRow>)
    requires rows == TranscriptTable(txs) && txs != []
    ensures XRange(rows).0.Some? && XRange(rows).1.Some?
  {
    assert rows[0].begin.Some? && rows[0].end.Some?;
  }

  /** Every CDS cell of the plain table holds the transcript's own bound. */
  lemma {:induction false} PlainCells(txs: seq<Transcript>, rows: seq<TxRow>)
    requires rows == TranscriptTable(txs)
    ensures forall i :: 0 <= i < |rows| ==> CdsColumn(rows)[i] == (Num(txs[i].cdsBegin), Num(txs[i].cdsEnd))
  {
    if txs != [] {
      assert rows[0].cdsBegin.Some? && rows[0].cdsEnd.Some?;
    }
  }

  /** Every row of the plain table gets its boxes. */
  lemma {:induction false} PlainBoxes(txs: seq<Transcript>, rows: seq<TxRow>)
    requires rows == TranscriptTable(txs)
    requires forall i :: 0 <= i < |rows| ==> CdsColumn(rows)[i] == (Num(txs[i].cdsBegin), Num(txs[i].cdsEnd))
    ensures BoxesDrawn(rows)
  {
    var cells := CdsColumn(rows);
    forall i | 0 <= i < |rows|
      ensures ExonBoxes(rows[i], cells[i]).Success?
    {
      NumCellsBoxes(rows[i], cells[i]);
    }
  }

  /** With number cells nothing compares to None, so a row's boxes exist iff every exon begin is present. */
  lemma {:induction false} NumCellsBoxes(row: TxRow, cds: (Cell, Cell))
    requires cds.0.Num? && cds.1.Num?
    ensures ExonBoxes(row, cds).Success? <==>
      forall k :: 0 <= k < Min(|row.exonBegins|, |row.exonLengths|) ==> row.exonBegins[k].Some?
  {
  }

  /** The lines of number cells taken from the transcripts' own CDS bounds. */
  lemma {:induction false} PlainVlines(txs: seq<Transcript>, cells: seq<(Cell, Cell)>)
    requires |cells| == |txs|
    requires forall i :: 0 <= i < |txs| ==> cells[i] == (Num(txs[i].cdsBegin), Num(txs[i].cdsEnd))
    ensures forall v :: v in VlinesOf(cells) <==> PlainVline(txs, v)
  {
    forall v
      ensures v in VlinesOf(cells) <==> PlainVline(txs, v)
    {
      VlinesMember(cells, v);
      if v in VlinesOf(cells) {
        var i :| 0 <= i < |cells| && Differ(cells[i].0, cells[i].1) && (v == cells[i].0 || v == cells[i].1);
        assert txs[i].cdsBegin != txs[i].cdsEnd;
      }
    }
  }

  /** The projection domain as a set: the positions of the padded exon windows of all transcripts. */
  ghost function Domain(txs: seq<Transcript>, pad: int): (d: set<int>)
    ensures forall x :: x in d <==> InDomain(txs, pad, x)
  {
    Elems(Positions(txs, pad))
  }

  /** Some transcript's begin lies in `dom`. */
  ghost predicate SomeBeginIn(txs: seq<Transcript>, dom: set<int>) {
    exists t :: 0 <= t < |txs| && txs[t].txBegin in dom
  }

  /** Some transcript's end lies in `dom`. */
  ghost predicate SomeEndIn(txs: seq<Transcript>, dom: set<int>) {
    exists t :: 0 <= t < |txs| && txs[t].txEnd in dom
  }

  /** Some transcript's CDS begin lies in `dom`. */
  ghost predicate SomeCdsBeginIn(txs: seq<Transcript>, dom: set<int>) {
    exists t :: 0 <= t < |txs| && txs[t].cdsBegin in dom
  }

  /** Some transcript's CDS end lies in `dom`. */
  ghost predicate SomeCdsEndIn(txs: seq<Transcript>, dom: set<int>) {
    exists t :: 0 <= t < |txs| && txs[t].cdsEnd in dom
  }

  /** Every exon begin lies in `dom`. */
  ghost predicate ExonBeginsIn(txs: seq<Transcript>, dom: set<int>) {
    forall t, k :: 0 <= t < |txs| && 0 <= k < |txs[t].exons| ==> txs[t].exons[k].begin in dom
  }

  /** Some CDS begin lies in `dom` exactly when some CDS end does. */
  ghost predicate CdsLinesAgree(txs: seq<Transcript>, dom: set<int>) {
    SomeCdsBeginIn(txs, dom) <==> SomeCdsEndIn(txs, dom)
  }

  /** Every CDS bound lies in `dom`. */
  ghost predicate CdsBoundsIn(txs: seq<Transcript>, dom: set<int>) {
    forall t :: 0 <= t < |txs| ==> txs[t].cdsBegin in dom && txs[t].cdsEnd in dom
  }

  /**
   * `_plot_for_gene_projected`: transcripts and coverage moved to ranks of the padded exon
   * windows, with a seam line at every gap.
   */
  function PlotProjected(txs: seq<Transcript>, symbol: string, covs: CovTable, pad: int): Result<Figure>
    requires WellFormed(covs)
  {
    var ps := Positions(txs, pad);
    DrawGene(ProjectTranscripts(txs, ps), ProjectedCovs(covs, txs, pad), JumpPositions(ps), true, Title(symbol, Some(pad)))
  }

  /**
   * The projected plot raises ValueError exactly when no transcript begin or no transcript
   * end lies in the domain (its x range is then NaN). It raises IndexError only with samples
   * and no coverage row inside a projected transcript span; any other failure is a TypeError.
   */
  lemma {:induction false} ProjectedPlotRange(txs: seq<Transcript>, symbol: string, covs: CovTable, pad: int)
    requires WellFormed(covs)
    ensures var r := PlotProjected(txs, symbol, covs, pad);
      r == Failure(ValueError(NanLimits)) <==> !SomeBeginIn(txs, Domain(txs, pad)) || !SomeEndIn(txs, Domain(txs, pad))
    ensures var r := PlotProjected(txs, symbol, covs, pad);
      r.Failure? ==> r.error == ValueError(NanLimits) || r.error == IndexError(NoPath) || r.error == TypeError(Undefined)
    ensures PlotProjected(txs, symbol, covs, pad) == Failure(IndexError(NoPath)) ==>
      |covs.samples| > 0 && !CoverageInSpan(txs, covs, pad)
  {
    ProjectedNanRange(txs, symbol, covs, pad);
    ProjectedFailureKinds(txs, symbol, covs, pad);
    ProjectedNoPath(txs, symbol, covs, pad);
  }

  /** The projected x range is NaN, and `set_xlim` raises, iff no begin or no end lies in the domain. */
  lemma {:induction false} ProjectedNanRange(txs: seq<Transcript>, symbol: string, covs: CovTable, pad: int)
    requires WellFormed(covs)
    ensures var r := PlotProjected(txs, symbol, covs, pad);
      r == Failure(ValueError(NanLimits)) <==> !SomeBeginIn(txs, Domain(txs, pad)) || !SomeEndIn(txs, Domain(txs, pad))
  {
    ProjectedRange(txs, Domain(txs, pad), ProjectedTable(txs, pad));
  }

  /** The projected plot raises only ValueError, IndexError or TypeError. */
  lemma {:induction false} ProjectedFailureKinds(txs: seq<Transcript>, symbol: string, covs: CovTable, pad: int)
    requires WellFormed(covs)
    ensures var r := PlotProjected(txs, symbol, covs, pad);
      r.Failure? ==> r.error == ValueError(NanLimits) || r.error == IndexError(NoPath) || r.error == TypeError(Undefined)
  {
  }

  /** The projected plot raises IndexError only with samples and no coverage row inside a projected transcript span. */
  lemma {:induction false} ProjectedNoPath(txs: seq<Transcript>, symbol: string, covs: CovTable, pad: int)
    requires WellFormed(covs)
    ensures PlotProjected(txs, symbol, covs, pad) == Failure(IndexError(NoPath)) ==>
      |covs.samples| > 0 && !CoverageInSpan(txs, covs, pad)
  {
    SpanShown(txs, covs, pad);
  }

  /** The coverage table the projected plot draws from. */
  function ProjectedCovs(covs: CovTable, txs: seq<Transcript>, pad: int): (r: CovTable)
    requires WellFormed(covs)
    ensures WellFormed(r) && r.samples == covs.samples
  {
    var ps := Positions(txs, pad);
    ProjectCoverageShape(covs, ps);
    CovTable(covs.samples, ProjectCoverage(covs.rows, ps))
  }

  /**
   * Some coverage row on the first transcript's chromosome lies at a domain position between
   * the begin and the end of a transcript whose begin and end both lie in the domain.
   */
  ghost predicate CoverageInSpan(txs: seq<Transcript>, covs: CovTable, pad: int) {
    exists x, t {:trigger InSpan(txs, pad, t, x)} :: x in covs.rows && 0 <= t < |txs| && InSpan(txs, pad, t, x)
  }

  /** `x` lies on the first transcript's chromosome, in the domain, within transcript `t`'s projected span. */
  ghost predicate InSpan(txs: seq<Transcript>, pad: int, t: nat, x: CovRow)
    requires t < |txs|
  {
    && x.chrom == txs[0].chrom && x.pos in Domain(txs, pad)
    && txs[t].txBegin in Domain(txs, pad) && txs[t].txEnd in Domain(txs, pad)
    && txs[t].txBegin <= x.pos <= txs[t].txEnd
  }

  /** A coverage row inside a projected transcript span is drawn by the projected plot. */
  lemma {:induction false} SpanShown(txs: seq<Transcript>, covs: CovTable, pad: int)
    requires WellFormed(covs)
    ensures CoverageInSpan(txs, covs, pad) ==> SomeRowShown(ProjectedTable(txs, pad), ProjectedCovs(covs, txs, pad))
  {
    if CoverageInSpan(txs, covs, pad) {
      var x, t :| x in covs.rows && 0 <= t < |txs| && InSpan(txs, pad, t, x);
      SpanRowShown(txs, covs, pad, t, x);
    }
  }

  /** The projected plot draws a coverage row inside transcript `t`'s projected span. */
  lemma {:induction false} SpanRowShown(txs: seq<Transcript>, covs: CovTable, pad: int, t: nat, x: CovRow)
    requires WellFormed(covs) && x in covs.rows && t < |txs| && InSpan(txs, pad, t, x)
    ensures SomeRowShown(ProjectedTable(txs, pad), ProjectedCovs(covs, txs, pad))
  {
    var ps := Positions(txs, pad);
    var m := ProjectionMap(ps);
    var rows := ProjectedTable(txs, pad);
    var pcovs := ProjectedCovs(covs, txs, pad);
    assert x.pos in m && txs[t].txBegin in m && txs[t].txEnd in m;
    var y := x.(pos := m[x.pos]);
    assert y in pcovs.rows by {
      CoverageProjects(covs.rows, ps, x);
    }
    assert rows[t].begin == Some(m[txs[t].txBegin]) && rows[t].end == Some(m[txs[t].txEnd]) by {
      ProjectedBounds(txs, pad, t);
    }
    RowInSpanShown(rows, pcovs, t, y);
  }

  /** Row `t` of the projected table holds the ranks of its transcript's begin and end, when both lie in the domain. */
  lemma {:induction false} ProjectedBounds(txs: seq<Transcript>, pad: int, t: nat)
    requires t < |txs| && txs[t].txBegin in Domain(txs, pad) && txs[t].txEnd in Domain(txs, pad)
    ensures var m := ProjectionMap(Positions(txs, pad));
      && txs[t].txBegin in m && txs[t].txEnd in m
      && ProjectedTable(txs, pad)[t].begin == Some(m[txs[t].txBegin])
      && ProjectedTable(txs, pad)[t].end == Some(m[txs[t].txEnd])
  {
    var ps := Positions(txs, pad);
    assert ProjectedTable(txs, pad) == ProjectTranscripts(txs, ps);
  }

  /** A coverage row at a domain position reappears, moved to its rank, in the projected coverage. */
  lemma {:induction false} CoverageProjects(rows: seq<CovRow>, ps: seq<int>, x: CovRow)
    requires StrictlyIncreasing(ps) && x in rows && x.pos in Elems(ps)
    ensures x.pos in ProjectionMap(ps) && x.(pos := ProjectionMap(ps)[x.pos]) in ProjectCoverage(rows, ps)
  {
    if rows[0] != x {
      CoverageProjects(rows[1..], ps, x);
    }
  }

  /** The projected transcript table. */
  function ProjectedTable(txs: seq<Transcript>, pad: int): (rows: seq<TxRow>)
    ensures RowsProject(Domain(txs, pad), txs, rows)
  {
    var ps := Positions(txs, pad);
    var rows := ProjectTranscripts(txs, ps);
    ProjectedRows(txs, ps, rows);
    rows
  }

  /** A drawn projected plot has every exon begin in the domain, else `begin + length` raises TypeError. */
  lemma {:induction false} ProjectedExonsNeed(txs: seq<Transcript>, symbol: string, covs: CovTable, pad: int)
    requires WellFormed(covs)
    ensures PlotProjected(txs, symbol, covs, pad).Success? ==> ExonBeginsIn(txs, Domain(txs, pad))
  {
    if PlotProjected(txs, symbol, covs, pad).Success? {
      DrawnNeeds(txs, Domain(txs, pad), ProjectedTable(txs, pad), |covs.samples| > 0);
    }
  }

  /** A drawn projected plot with samples has CDS begins and CDS ends in the domain alike, else a None line reaches `axvline`. */
  lemma {:induction false} ProjectedLinesNeed(txs: seq<Transcript>, symbol: string, covs: CovTable, pad: int)
    requires WellFormed(covs)
    ensures PlotProjected(txs, symbol, covs, pad).Success? && |covs.samples| > 0 ==> CdsLinesAgree(txs, Domain(txs, pad))
  {
    if PlotProjected(txs, symbol, covs, pad).Success? {
      DrawnNeeds(txs, Domain(txs, pad), ProjectedTable(txs, pad), |covs.samples| > 0);
    }
  }

  /** A drawn projected plot with an exon has some CDS begin in the domain, else the box comparison meets None. */
  lemma {:induction false} ProjectedCdsNeed(txs: seq<Transcript>, symbol: string, covs: CovTable, pad: int)
    requires WellFormed(covs)
    ensures PlotProjected(txs, symbol, covs, pad).Success? && (exists t :: 0 <= t < |txs| && txs[t].exons != []) ==>
      SomeCdsBeginIn(txs, Domain(txs, pad))
  {
    if PlotProjected(txs, symbol, covs, pad).Success? {
      DrawnNeeds(txs, Domain(txs, pad), ProjectedTable(txs, pad), |covs.samples| > 0);
    }
  }

  /** What drawing a projected table needs of the transcripts, given its x range, its lines and its boxes. */
  lemma {:induction false} DrawnNeeds(txs: seq<Transcript>, dom: set<int>, rows: seq<TxRow>, samples: bool)
    requires RowsProject(dom, txs, rows)
    requires XRange(rows).0.Some? && !(samples && Null in CdsVlines(rows)) && BoxesDrawn(rows)
    ensures ExonBeginsIn(txs, dom)
    ensures samples ==> CdsLinesAgree(txs, dom)
    ensures (exists t :: 0 <= t < |txs| && txs[t].exons != []) ==> SomeCdsBeginIn(txs, dom)
  {
    assert rows != [];
    ProjectedCdsColumns(txs, dom, rows);
    NoneLineIff(rows);
    ProjectedBoxesNeed(txs, dom, rows);
  }

  /** A drawn projected plot is titled with the padding, seams at the jump ranks, and shows coverage at ranks of the domain. */
  lemma {:induction false} ProjectedPlotFigure(txs: seq<Transcript>, symbol: string, covs: CovTable, pad: int)
    requires WellFormed(covs)
    ensures var r := PlotProjected(txs, symbol, covs, pad);
      r.Success? ==> && r.value.projected && r.value.suptitle == Title(symbol, Some(pad))
                     && r.value.sepVlines == JumpPositions(Positions(txs, pad))
                     && forall x :: x in r.value.coverage ==> 0 <= x.pos < |Positions(txs, pad)|
  {
    var ps := Positions(txs, pad);
    var r := PlotProjected(txs, symbol, covs, pad);
    ProjectedCoverageRanks(ProjectCoverage(covs.rows, ps), ps, if r.Success? then r.value.coverage else []);
  }

  /** How a projected row stands to the domain: a coordinate is present iff it lies in `dom`. */
  ghost predicate RowProjects(dom: set<int>, tx: Transcript, row: TxRow) {
    && (row.begin.Some? <==> tx.txBegin in dom)
    && (row.end.Some? <==> tx.txEnd in dom)
    && (row.cdsBegin.Some? <==> tx.cdsBegin in dom)
    && (row.cdsEnd.Some? <==> tx.cdsEnd in dom)
    && |row.exonBegins| == |tx.exons| == |row.exonLengths|
    && forall k :: 0 <= k < |tx.exons| ==> (row.exonBegins[k].Some? <==> tx.exons[k].begin in dom)
  }

  /** Every row of `rows` is the projection of the transcript at its index. */
  ghost predicate RowsProject(dom: set<int>, txs: seq<Transcript>, rows: seq<TxRow>) {
    |rows| == |txs| && forall i :: 0 <= i < |rows| ==> RowProjects(dom, txs[i], rows[i])
  }

  lemma {:induction false} ProjectedRows(txs: seq<Transcript>, ps: seq<int>, rows: seq<TxRow>)
    requires StrictlyIncreasing(ps) && rows == ProjectTranscripts(txs, ps)
    ensures RowsProject(Elems(ps), txs, rows)
  {
    forall i | 0 <= i < |rows|
      ensures RowProjects(Elems(ps), txs[i], rows[i])
    {
      forall k | 0 <= k < |txs[i].exons|
        ensures rows[i].exonBegins[k].Some? <==> txs[i].exons[k].begin in Elems(ps)
      {
        assert ProjectsTo(ps, txs[i].exons[k].begin, rows[i].exonBegins[k]);
      }
    }
  }

  /** The projected x range exists exactly when some transcript begin, and some transcript end, lies in the domain. */
  lemma {:induction false} ProjectedRange(txs: seq<Transcript>, dom: set<int>, rows: seq<TxRow>)
    requires RowsProject(dom, txs, rows)
    ensures XRange(rows).0.Some? <==> SomeBeginIn(txs, dom)
    ensures XRange(rows).1.Some? <==> SomeEndIn(txs, dom)
  {
    if XRange(rows).0.Some? {
      var i :| 0 <= i < |rows| && rows[i].begin.Some?;
      assert RowProjects(dom, txs[i], rows[i]);
    }
    if SomeBeginIn(txs, dom) {
      var t :| 0 <= t < |txs| && txs[t].txBegin in dom;
      assert RowProjects(dom, txs[t], rows[t]);
    }
    if XRange(rows).1.Some? {
      var i :| 0 <= i < |rows| && rows[i].end.Some?;
      assert RowProjects(dom, txs[i], rows[i]);
    }
    if SomeEndIn(txs, dom) {
      var t :| 0 <= t < |txs| && txs[t].txEnd in dom;
      assert RowProjects(dom, txs[t], rows[t]);
    }
  }

  /** A projected CDS column holds no value exactly when no transcript's bound lies in the domain. */
  lemma {:induction false} ProjectedCdsColumns(txs: seq<Transcript>, dom: set<int>, rows: seq<TxRow>)
    requires RowsProject(dom, txs, rows)
    ensures NoCdsBegin(rows) <==> !SomeCdsBeginIn(txs, dom)
    ensures NoCdsEnd(rows) <==> !SomeCdsEndIn(txs, dom)
  {
    if SomeCdsBeginIn(txs, dom) {
      var t :| 0 <= t < |txs| && txs[t].cdsBegin in dom;
      assert RowProjects(dom, txs[t], rows[t]);
    }
    if !NoCdsBegin(rows) {
      var i :| 0 <= i < |rows| && rows[i].cdsBegin.Some?;
      assert RowProjects(dom, txs[i], rows[i]);
    }
    if SomeCdsEndIn(txs, dom) {
      var t :| 0 <= t < |txs| && txs[t].cdsEnd in dom;
      assert RowProjects(dom, txs[t], rows[t]);
    }
    if !NoCdsEnd(rows) {
      var i :| 0 <= i < |rows| && rows[i].cdsEnd.Some?;
      assert RowProjects(dom, txs[i], rows[i]);
    }
  }

  /** When every projected row gets its boxes, every exon begin lies in the domain, and some CDS begin does if there is an exon. */
  lemma {:induction false} ProjectedBoxesNeed(txs: seq<Transcript>, dom: set<int>, rows: seq<TxRow>)
    requires RowsProject(dom, txs, rows)
    requires BoxesDrawn(rows)
    ensures ExonBeginsIn(txs, dom)
    ensures (exists t :: 0 <= t < |txs| && txs[t].exons != []) ==> !NoCdsBegin(rows)
  {
    var cells := CdsColumn(rows);
    forall t, k | 0 <= t < |txs| && 0 <= k < |txs[t].exons|
      ensures txs[t].exons[k].begin in dom
    {
      assert RowProjects(dom, txs[t], rows[t]);
      assert ExonBoxes(rows[t], cells[t]).Success?;
    }
    if exists t :: 0 <= t < |txs| && txs[t].exons != [] {
      var t :| 0 <= t < |txs| && txs[t].exons != [];
      assert RowProjects(dom, txs[t], rows[t]);
      assert ExonBoxes(rows[t], cells[t]).Success?;
      assert CdsBoxOf(rows[t].exonBegins[0].value, rows[t].exonLengths[0], cells[t].0, cells[t].1).Success?;
      assert !cells[t].0.Null?;
    }
  }

  /** Rows drawn from the projected coverage sit at ranks of the domain. */
  lemma ProjectedCoverageRanks(projected: seq<CovRow>, ps: seq<int>, shown: seq<CovRow>)
    requires forall i :: 0 <= i < |projected| ==> 0 <= projected[i].pos < |ps|
    requires forall x :: x in shown ==> x in projected
    ensures forall x :: x in shown ==> 0 <= x.pos < |ps|
  {
  }

  /** `plot_for_gene`: the plain plot without a padding, the projected plot with one. */
  function PlotForGene(txs: seq<Transcript>, symbol: string, covs: CovTable, exonPadding: Option<int>): Result<Figure>
    requires WellFormed(covs)
  {
    match exonPadding
    case None => PlotPlain(txs, symbol, covs)
    case Some(pad) => PlotProjected(txs, symbol, covs, pad)
  }

  /**
   * Without transcripts either branch raises ValueError. Without a padding the plot draws iff
   * there is a transcript and, with samples, some coverage row in its x range. IndexError
   * needs samples, and only the projected plot can raise TypeError.
   */
  lemma {:induction false} PlotForGeneOutcome(txs: seq<Transcript>, symbol: string, covs: CovTable, exonPadding: Option<int>)
    requires WellFormed(covs)
    ensures txs == [] ==> PlotForGene(txs, symbol, covs, exonPadding) == Failure(ValueError(NanLimits))
    ensures exonPadding.None? ==> (PlotForGene(txs, symbol, covs, exonPadding).Success? <==>
      txs != [] && (|covs.samples| > 0 ==> SomeRowShown(TranscriptTable(txs), covs)))
    ensures var r := PlotForGene(txs, symbol, covs, exonPadding);
      r.Failure? ==> || r.error == ValueError(NanLimits)
                     || (|covs.samples| > 0 && r.error == IndexError(NoPath))
                     || (exonPadding.Some? && r.error == TypeError(Undefined))
  {
    PlotForGeneEmpty(txs, symbol, covs, exonPadding);
    PlotForGenePlain(txs, symbol, covs, exonPadding);
    PlotForGeneFailures(txs, symbol, covs, exonPadding);
  }

  /** Without transcripts, either branch raises ValueError on the undefined x range. */
  lemma {:induction false} PlotForGeneEmpty(txs: seq<Transcript>, symbol: string, covs: CovTable, exonPadding: Option<int>)
    requires WellFormed(covs)
    ensures txs == [] ==> PlotForGene(txs, symbol, covs, exonPadding) == Failure(ValueError(NanLimits))
  {
    match exonPadding
    case None =>
      PlainPlotOutcome(txs, symbol, covs);
    case Some(pad) =>
      ProjectedNanRange(txs, symbol, covs, pad);
      if txs == [] {
        assert !SomeBeginIn(txs, Domain(txs, pad));
      }
  }

  /** Without a padding the plot is drawn iff there is a transcript and, with samples, a coverage row to draw. */
  lemma {:induction false} PlotForGenePlain(txs: seq<Transcript>, symbol: string, covs: CovTable, exonPadding: Option<int>)
    requires WellFormed(covs)
    ensures exonPadding.None? ==> (PlotForGene(txs, symbol, covs, exonPadding).Success? <==>
      txs != [] && (|covs.samples| > 0 ==> SomeRowShown(TranscriptTable(txs), covs)))
  {
    if exonPadding.None? {
      PlainPlotOutcome(txs, symbol, covs);
    }
  }

  /** Every failure is ValueError, IndexError with samples, or TypeError from the projected branch. */
  lemma {:induction false} PlotForGeneFailures(txs: seq<Transcript>, symbol: string, covs: CovTable, exonPadding: Option<int>)
    requires WellFormed(covs)
    ensures var r := PlotForGene(txs, symbol, covs, exonPadding);
      r.Failure? ==> || r.error == ValueError(NanLimits)
                     || (|covs.samples| > 0 && r.error == IndexError(NoPath))
                     || (exonPadding.Some? && r.error == TypeError(Undefined))
  {
    match exonPadding
    case None =>
      PlainPlotOutcome(txs, symbol, covs);
    case Some(pad) =>
      ProjectedFailureKinds(txs, symbol, covs, pad);
      ProjectedNoPath(txs, symbol, covs, pad);
  }

  /**
   * A coverage table with samples but no rows leaves every sample panel empty: the plot
   * raises ValueError on an undefined x range and IndexError otherwise, so a plain plot of a
   * transcript raises IndexError.
   */
  lemma {:induction false} EmptyCoverageRaises(txs: seq<Transcript>, symbol: string, covs: CovTable, exonPadding: Option<int>)
    requires WellFormed(covs) && covs.samples != [] && covs.rows == []
    ensures var r := PlotForGene(txs, symbol, covs, exonPadding);
      r.Failure? && (r.error == ValueError(NanLimits) || r.error == IndexError(NoPath))
    ensures exonPadding.None? && txs != [] ==> PlotForGene(txs, symbol, covs, exonPadding) == Failure(IndexError(NoPath))
  {
    match exonPadding
    case None =>
      EmptyCoverageDraws(TranscriptTable(txs), covs, [], false, Title(symbol, None));
      if txs != [] {
        PlainDrawable(txs);
      }
    case Some(pad) =>
      EmptyCoverageProjected(txs, symbol, covs, pad);
  }

  /** The projected half of `EmptyCoverageRaises`: no coverage row projects from an empty table. */
  lemma {:induction false} EmptyCoverageProjected(txs: seq<Transcript>, symbol: string, covs: CovTable, pad: int)
    requires WellFormed(covs) && covs.samples != [] && covs.rows == []
    ensures var r := PlotProjected(txs, symbol, covs, pad);
      r.Failure? && (r.error == ValueError(NanLimits) || r.error == IndexError(NoPath))
  {
    var pcovs := ProjectedCovs(covs, txs, pad);
    assert pcovs.rows == [];
    ProjectedDrawn(txs, symbol, covs, pad);
    EmptyCoverageDraws(ProjectedTable(txs, pad), pcovs, JumpPositions(Positions(txs, pad)), true, Title(symbol, Some(pad)));
  }

  /** With samples but no coverage rows, `DrawGene` fails on the x range or on the first panel's missing path. */
  lemma {:induction false} EmptyCoverageDraws(rows: seq<TxRow>, covs: CovTable, sepVlines: seq<int>, projected: bool, suptitle: string)
    requires WellFormed(covs) && covs.samples != [] && covs.rows == []
    ensures var r := DrawGene(rows, covs, sepVlines, projected, suptitle);
      r.Failure? && (r.error == ValueError(NanLimits) || r.error == IndexError(NoPath))
    ensures XRange(rows).0.Some? && XRange(rows).1.Some? ==> DrawGene(rows, covs, sepVlines, projected, suptitle) == Failure(IndexError(NoPath))
  {
    assert Shown(rows, covs) == [];
  }

  /** A drawn gene plot carries the padding in its title, is projected iff a padding is given, and has no seams without one. */
  lemma {:induction false} PlotForGeneFigure(txs: seq<Transcript>, symbol: string, covs: CovTable, exonPadding: Option<int>)
    requires WellFormed(covs)
    ensures var r := PlotForGene(txs, symbol, covs, exonPadding);
      r.Success? ==> r.value.suptitle == Title(symbol, exonPadding) && r.value.projected == exonPadding.Some?
    ensures var r := PlotForGene(txs, symbol, covs, exonPadding);
      r.Success? && exonPadding.None? ==> r.value.sepVlines == []
  {
    match exonPadding
    case None =>
      PlainPlotFigure(txs, symbol, covs);
    case Some(pad) =>
      ProjectedPlotFigure(txs, symbol, covs, pad);
  }

  lemma ProjectCoverageShape(covs: CovTable, ps: seq<int>)
    requires StrictlyIncreasing(ps) && WellFormed(covs)
    ensures WellFormed(CovTable(covs.samples, ProjectCoverage(covs.rows, ps)))
  {
    ProjectCoverageRoundTrip(covs.rows, ps);
    var r := ProjectCoverage(covs.rows, ps);
    var f := Filter(covs.rows, (x: CovRow) => x.pos in Elems(ps));
    forall i | 0 <= i < |r|
      ensures |r[i].depths| == |covs.samples|
    {
      assert Unproject(r, ps)[i].depths == r[i].depths;
      assert f[i] in f;
    }
  }

  /** When every CDS bound lies in the domain, the projected rows' boxes all exist iff every exon begin does. */
  lemma {:induction false} ProjectedBoxesIff(txs: seq<Transcript>, dom: set<int>, rows: seq<TxRow>)
    requires RowsProject(dom, txs, rows) && CdsBoundsIn(txs, dom)
    ensures BoxesDrawn(rows) <==> ExonBeginsIn(txs, dom)
  {
    var cells := CdsColumn(rows);
    if BoxesDrawn(rows) {
      ProjectedBoxesNeed(txs, dom, rows);
    }
    if ExonBeginsIn(txs, dom) {
      forall i | 0 <= i < |rows|
        ensures ExonBoxes(rows[i], cells[i]).Success?
      {
        assert RowProjects(dom, txs[i], rows[i]);
        assert cells[i].0.Num? && cells[i].1.Num?;
        NumCellsBoxes(rows[i], cells[i]);
      }
    }
  }

  /** Some transcript begin and some transcript end, every exon begin and every CDS bound lie in `dom`. */
  ghost predicate BoundsIn(txs: seq<Transcript>, dom: set<int>) {
    SomeBeginIn(txs, dom) && SomeEndIn(txs, dom) && ExonBeginsIn(txs, dom) && CdsBoundsIn(txs, dom)
  }

  /**
   * When transcript bounds, CDS bounds and exon begins all lie in the domain, the projected
   * plot draws if there are no samples, or some coverage row lies in a projected transcript span.
   */
  lemma {:induction false} ProjectedPlotDraws(txs: seq<Transcript>, symbol: string, covs: CovTable, pad: int)
    requires WellFormed(covs) && BoundsIn(txs, Domain(txs, pad))
    ensures |covs.samples| == 0 || CoverageInSpan(txs, covs, pad) ==> PlotProjected(txs, symbol, covs, pad).Success?
  {
    SpanShown(txs, covs, pad);
    ProjectedDrawable(txs, symbol, covs, pad);
  }

  /** When transcript bounds, CDS bounds and exon begins all lie in the domain, the projected plot can only raise IndexError. */
  lemma {:induction false} ProjectedFailsNoPath(txs: seq<Transcript>, symbol: string, covs: CovTable, pad: int)
    requires WellFormed(covs) && BoundsIn(txs, Domain(txs, pad))
    ensures var r := PlotProjected(txs, symbol, covs, pad);
      r.Failure? ==> r == Failure(IndexError(NoPath))
  {
    ProjectedDrawn(txs, symbol, covs, pad);
    DrawnWhen(txs, Domain(txs, pad), ProjectedTable(txs, pad));
    DrawnOrNoPath(ProjectedTable(txs, pad), ProjectedCovs(covs, txs, pad), JumpPositions(Positions(txs, pad)), true, Title(symbol, Some(pad)));
  }

  /** With bounds in the domain, the projected plot draws when, with samples, some projected coverage row is shown. */
  lemma {:induction false} ProjectedDrawable(txs: seq<Transcript>, symbol: string, covs: CovTable, pad: int)
    requires WellFormed(covs) && BoundsIn(txs, Domain(txs, pad))
    ensures var r := PlotProjected(txs, symbol, covs, pad);
      (|covs.samples| > 0 ==> SomeRowShown(ProjectedTable(txs, pad), ProjectedCovs(covs, txs, pad))) ==> r.Success?
  {
    ProjectedDrawn(txs, symbol, covs, pad);
    DrawnWhen(txs, Domain(txs, pad), ProjectedTable(txs, pad));
    DrawnOrNoPath(ProjectedTable(txs, pad), ProjectedCovs(covs, txs, pad), JumpPositions(Positions(txs, pad)), true, Title(symbol, Some(pad)));
  }

  /** The projected plot draws the projected table over the projected coverage. */
  lemma {:induction false} ProjectedDrawn(txs: seq<Transcript>, symbol: string, covs: CovTable, pad: int)
    requires WellFormed(covs)
    ensures PlotProjected(txs, symbol, covs, pad) ==
      DrawGene(ProjectedTable(txs, pad), ProjectedCovs(covs, txs, pad), JumpPositions(Positions(txs, pad)), true, Title(symbol, Some(pad)))
  {
  }

  /** With its x range, its lines and its boxes in order, a table draws unless a sample panel has no row, which raises IndexError. */
  lemma {:induction false} DrawnOrNoPath(rows: seq<TxRow>, covs: CovTable, sepVlines: seq<int>, projected: bool, suptitle: string)
    requires WellFormed(covs)
    requires XRange(rows).0.Some? && XRange(rows).1.Some? && Null !in CdsVlines(rows) && BoxesDrawn(rows)
    ensures var r := DrawGene(rows, covs, sepVlines, projected, suptitle);
      r.Success? <==> (|covs.samples| > 0 ==> SomeRowShown(rows, covs))
    ensures var r := DrawGene(rows, covs, sepVlines, projected, suptitle);
      r.Failure? ==> r == Failure(IndexError(NoPath))
  {
    ShownIff(rows, covs);
  }

  /** A projected table whose every bound lies in the domain has an x range, no None line, and all its boxes. */
  lemma {:induction false} DrawnWhen(txs: seq<Transcript>, dom: set<int>, rows: seq<TxRow>)
    requires RowsProject(dom, txs, rows)
    requires BoundsIn(txs, dom)
    ensures XRange(rows).0.Some? && XRange(rows).1.Some? && Null !in CdsVlines(rows) && BoxesDrawn(rows)
  {
    ProjectedRange(txs, dom, rows);
    ProjectedCdsColumns(txs, dom, rows);
    NoneLineIff(rows);
    ProjectedBoxesIff(txs, dom, rows);
  }

  /** `x` lies within (the closed range of) one of the exons. */
  ghost predicate OnExon(x: int, exons: seq<Exon>) {
    exists k :: 0 <= k < |exons| && exons[k].begin <= x <= exons[k].end
  }

  /** The transcript's own bounds and CDS bounds each lie on one of its exons, and no exon is reversed. */
  ghost predicate CoordsOnExons(tx: Transcript) {
    && OnExon(tx.txBegin, tx.exons) && OnExon(tx.txEnd, tx.exons)
    && OnExon(tx.cdsBegin, tx.exons) && OnExon(tx.cdsEnd, tx.exons)
    && forall k :: 0 <= k < |tx.exons| ==> tx.exons[k].begin <= tx.exons[k].end
  }

  lemma {:induction false} OnExonInDomain(txs: seq<Transcript>, pad: int, t: nat, x: int)
    requires pad >= 0 && t < |txs| && OnExon(x, txs[t].exons)
    ensures x in Domain(txs, pad)
  {
    var k :| 0 <= k < |txs[t].exons| && txs[t].exons[k].begin <= x <= txs[t].exons[k].end;
    assert InWindow(x, txs[t].exons[k], pad);
    assert ExonsCover(txs[t].exons, pad, x);
  }

  /**
   * With a non-negative padding, the projected plot of at least one transcript whose bounds
   * and CDS bounds lie on its exons draws whenever there are no samples, or some coverage row
   * on the chromosome lies on an exon within a transcript's span.
   */
  lemma {:induction false} ProjectedPlotSucceeds(txs: seq<Transcript>, symbol: string, covs: CovTable, pad: int)
    requires WellFormed(covs)
    requires pad >= 0 && txs != []
    requires forall t :: 0 <= t < |txs| ==> CoordsOnExons(txs[t])
    ensures |covs.samples| == 0 || CoverageOnExons(txs, covs) ==> PlotProjected(txs, symbol, covs, pad).Success?
  {
    OnExonsInSpan(txs, covs, pad);
    ProjectedOnExonsDraws(txs, symbol, covs, pad);
  }

  /** The projected plot of transcripts whose coordinates lie on their exons draws without samples or with a coverage row in a span. */
  lemma {:induction false} ProjectedOnExonsDraws(txs: seq<Transcript>, symbol: string, covs: CovTable, pad: int)
    requires WellFormed(covs)
    requires pad >= 0 && txs != []
    requires forall t :: 0 <= t < |txs| ==> CoordsOnExons(txs[t])
    ensures |covs.samples| == 0 || CoverageInSpan(txs, covs, pad) ==> PlotProjected(txs, symbol, covs, pad).Success?
  {
    if |covs.samples| == 0 || CoverageInSpan(txs, covs, pad) {
      ExonCoordsBounds(txs, pad);
      ProjectedPlotDraws(txs, symbol, covs, pad);
    }
  }

  /** With a non-negative padding, transcripts whose coordinates lie on their exons have all their bounds in the domain. */
  lemma {:induction false} ExonCoordsBounds(txs: seq<Transcript>, pad: int)
    requires pad >= 0 && txs != [] && forall t :: 0 <= t < |txs| ==> CoordsOnExons(txs[t])
    ensures BoundsIn(txs, Domain(txs, pad))
  {
    CoordsInDomain(txs, pad);
    AllTranscriptsIn(txs, Domain(txs, pad));
  }

  /** With a non-negative padding, a coverage row on an exon within its transcript's span lies in that span's domain. */
  lemma {:induction false} OnExonsInSpan(txs: seq<Transcript>, covs: CovTable, pad: int)
    requires pad >= 0 && forall t :: 0 <= t < |txs| ==> CoordsOnExons(txs[t])
    ensures CoverageOnExons(txs, covs) ==> CoverageInSpan(txs, covs, pad)
  {
    if CoverageOnExons(txs, covs) {
      var x, t :| x in covs.rows && 0 <= t < |txs| && OnExonInSpanOf(txs, t, x);
      OnExonInSpan(txs, pad, t, x);
    }
  }

  /** Some coverage row on the first transcript's chromosome lies on an exon of a transcript, between that transcript's begin and end. */
  ghost predicate CoverageOnExons(txs: seq<Transcript>, covs: CovTable) {
    exists x, t {:trigger OnExonInSpanOf(txs, t, x)} :: x in covs.rows && 0 <= t < |txs| && OnExonInSpanOf(txs, t, x)
  }

  /** `x` lies on the first transcript's chromosome, on an exon of transcript `t`, between its begin and end. */
  ghost predicate OnExonInSpanOf(txs: seq<Transcript>, t: nat, x: CovRow)
    requires t < |txs|
  {
    x.chrom == txs[0].chrom && OnExon(x.pos, txs[t].exons) && txs[t].txBegin <= x.pos <= txs[t].txEnd
  }

  /** With a non-negative padding, row `x` on an exon of transcript `t`, within its span, lies in that span's domain. */
  lemma {:induction false} OnExonInSpan(txs: seq<Transcript>, pad: int, t: nat, x: CovRow)
    requires pad >= 0 && t < |txs| && CoordsOnExons(txs[t])
    requires x.chrom == txs[0].chrom && OnExon(x.pos, txs[t].exons) && txs[t].txBegin <= x.pos <= txs[t].txEnd
    ensures InSpan(txs, pad, t, x)
  {
    OnExonInDomain(txs, pad, t, x.pos);
    OnExonInDomain(txs, pad, t, txs[t].txBegin);
    OnExonInDomain(txs, pad, t, txs[t].txEnd);
  }

  /** The transcript's bounds, CDS bounds and exon begins all lie in `dom`. */
  ghost predicate TranscriptIn(tx: Transcript, dom: set<int>) {
    && tx.txBegin in dom && tx.txEnd in dom && tx.cdsBegin in dom && tx.cdsEnd in dom
    && forall k :: 0 <= k < |tx.exons| ==> tx.exons[k].begin in dom
  }

  lemma {:induction false} AllTranscriptsIn(txs: seq<Transcript>, dom: set<int>)
    requires txs != [] && forall t :: 0 <= t < |txs| ==> TranscriptIn(txs[t], dom)
    ensures BoundsIn(txs, dom)
  {
    assert TranscriptIn(txs[0], dom);
    forall t, k | 0 <= t < |txs| && 0 <= k < |txs[t].exons|
      ensures txs[t].exons[k].begin in dom
    {
      assert TranscriptIn(txs[t], dom);
    }
  }

  /** Coordinates on the exons lie in the domain of a non-negative padding. */
  lemma {:induction false} CoordsInDomain(txs: seq<Transcript>, pad: int)
    requires pad >= 0
    requires forall t :: 0 <= t < |txs| ==> CoordsOnExons(txs[t])
    ensures forall t :: 0 <= t < |txs| ==> TranscriptIn(txs[t], Domain(txs, pad))
  {
    forall t | 0 <= t < |txs|
      ensures TranscriptIn(txs[t], Domain(txs, pad))
    {
      TranscriptInDomain(txs, pad, t);
    }
  }

  lemma {:induction false} TranscriptInDomain(txs: seq<Transcript>, pad: int, t: nat)
    requires pad >= 0 && t < |txs| && CoordsOnExons(txs[t])
    ensures TranscriptIn(txs[t], Domain(txs, pad))
  {
    var tx := txs[t];
    OnExonInDomain(txs, pad, t, tx.txBegin);
    OnExonInDomain(txs, pad, t, tx.txEnd);
    OnExonInDomain(txs, pad, t, tx.cdsBegin);
    OnExonInDomain(txs, pad, t, tx.cdsEnd);
    forall k | 0 <= k < |tx.exons|
      ensures tx.exons[k].begin in Domain(txs, pad)
    {
      assert tx.exons[k].begin <= tx.exons[k].end;
      OnExonInDomain(txs, pad, t, tx.exons[k].begin);
    }
  }

  /**
   * The one-transcript table `render_plot` passes: when the CDS begin falls outside the
   * domain it is None, and the first exon's CDS comparison raises TypeError, unless the
   * sample panels raise IndexError first for want of a coverage row to draw.
   */
  lemma {:induction false} UnprojectedCdsBeginRaises(txs: seq<Transcript>, symbol: string, covs: CovTable, pad: int)
    requires WellFormed(covs)
    requires |txs| == 1 && txs[0].exons != []
    requires txs[0].txBegin in Domain(txs, pad) && txs[0].txEnd in Domain(txs, pad)
    requires txs[0].cdsBegin !in Domain(txs, pad)
    ensures |covs.samples| == 0 || CoverageInSpan(txs, covs, pad) ==>
      PlotProjected(txs, symbol, covs, pad) == Failure(TypeError(Undefined))
    ensures PlotProjected(txs, symbol, covs, pad) in {Failure(TypeError(Undefined)), Failure(IndexError(NoPath))}
  {
    SingleTranscriptIn(txs, Domain(txs, pad));
    ProjectedPlotRange(txs, symbol, covs, pad);
    ProjectedCdsNeed(txs, symbol, covs, pad);
  }

  lemma {:induction false} SingleTranscriptIn(txs: seq<Transcript>, dom: set<int>)
    requires |txs| == 1 && txs[0].exons != []
    requires txs[0].txBegin in dom && txs[0].txEnd in dom && txs[0].cdsBegin !in dom
    ensures SomeBeginIn(txs, dom) && SomeEndIn(txs, dom) && !SomeCdsBeginIn(txs, dom)
    ensures exists t :: 0 <= t < |txs| && txs[t].exons != []
  {
    assert txs[0].exons != [];
  }

  /**
   * `plot.load_coverage`: the synthetic coverage for the fake sample over the intervals of
   * `tree` widened by `maxPad`; any other sample raises.
   */
  function LoadCoverage(sample: string, chrom: string, tree: seq<Interval>, maxPad: int): (r: Result<SampleTable>)
    ensures r.Success? <==> sample == Data.FAKE_DATA_ID
    ensures r.Failure? ==> r.error == ExcovisError(NotImplemented)
    ensures r.Success? ==> r.value == FakeCoverage(sample, chrom, tree, maxPad)
  {
    if sample == Data.FAKE_DATA_ID then Success(FakeCoverage(sample, chrom, tree, maxPad))
    else Failure(ExcovisError(NotImplemented))
  }
}
