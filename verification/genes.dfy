/** Exons, transcripts and the parser of the UCSC ncbiRefSeq (genePred) table. */
module Genes {
  import opened Wrappers
  import opened Seqs
  import opened Text

  /** An exon: 0-based `begin`, exclusive `end`. */
  datatype Exon = Exon(begin: int, end: int) {
    function Length(): int {
      end - begin
    }
  }

  /** A transcript with its exons in ascending genomic order, whatever the strand. */
  datatype Transcript = Transcript(
    geneSymbol: string,
    txAccession: string,
    strand: string,
    chrom: string,
    txBegin: int,
    txEnd: int,
    cdsBegin: int,
    cdsEnd: int,
    exons: seq<Exon>)

  /** `list(map(int, ss))`: every piece must be a decimal literal. */
  function ParseInts(ss: seq<string>): (r: Result<seq<int>>)
    ensures r.Success? <==> forall i :: 0 <= i < |ss| ==> IsDecimal(ss[i])
    ensures r.Success? ==> |r.value| == |ss| && forall i :: 0 <= i < |ss| ==> ParseInt(ss[i]) == Success(r.value[i])
    ensures r.Failure? ==> r.error == ValueError(BadInt)
  {
    if ss == [] then Success([])
    else
      var x :- ParseInt(ss[0]);
      var xs :- ParseInts(ss[1..]);
      assert forall i :: 1 <= i < |ss| ==> ss[i] == ss[1..][i - 1];
      Success([x] + xs)
  }

  /** A comma-terminated number list (`"100,200,"`): split on commas and drop the last, empty, piece. */
  function ParseExonList(field: string): (r: Result<seq<int>>)
    ensures PiecesParsed(Split(field, ','), r)
    ensures r.Failure? ==> r.error == ValueError(BadInt)
  {
    var pieces := Split(field, ',');
    ParseAllButLast(pieces);
    ParseInts(pieces[..|pieces| - 1])
  }

  /**
   * `r` parses every piece but the last: it succeeds iff each of them is a decimal integer,
   * and then holds one value per such piece, that piece's `int()`.
   */
  ghost predicate PiecesParsed(pieces: seq<string>, r: Result<seq<int>>) {
    && (r.Success? <==> forall i :: 0 <= i < |pieces| - 1 ==> IsDecimal(pieces[i]))
    && (r.Success? ==> |r.value| == |pieces| - 1)
    && (r.Success? ==> forall i :: 0 <= i < |r.value| ==> ParseInt(pieces[i]) == Success(r.value[i]))
  }

  lemma ParseAllButLast(pieces: seq<string>)
    requires |pieces| >= 1
    ensures PiecesParsed(pieces, ParseInts(pieces[..|pieces| - 1]))
  {
    var kept := pieces[..|pieces| - 1];
    assert forall i :: 0 <= i < |kept| ==> kept[i] == pieces[i];
  }

  function ShowInts(xs: seq<int>): (r: seq<string>)
    ensures |r| == |xs| && forall i :: 0 <= i < |xs| ==> r[i] == ShowInt(xs[i])
  {
    if xs == [] then [] else [ShowInt(xs[0])] + ShowInts(xs[1..])
  }

  /** How the table writes a number list: every number followed by a comma. */
  function ShowExonList(xs: seq<int>): string {
    if xs == [] then "" else ShowInt(xs[0]) + [','] + ShowExonList(xs[1..])
  }

  lemma {:induction false} SplitShowExonList(xs: seq<int>)
    ensures Split(ShowExonList(xs), ',') == ShowInts(xs) + [""]
  {
    if xs != [] {
      SplitShowExonList(xs[1..]);
      SplitFirstPiece(ShowInt(xs[0]), ',', ShowExonList(xs[1..]));
    }
  }

  lemma {:induction false} ParseShowInts(xs: seq<int>)
    ensures ParseInts(ShowInts(xs)) == Success(xs)
  {
    if xs != [] {
      ParseShowInt(xs[0]);
      ParseShowInts(xs[1..]);
      assert ShowInts(xs)[1..] == ShowInts(xs[1..]);
      assert xs == [xs[0]] + xs[1..];
    }
  }

  /** A written number list parses back to the same numbers. */
  lemma ExonListRoundTrip(xs: seq<int>)
    ensures ParseExonList(ShowExonList(xs)) == Success(xs)
  {
    SplitShowExonList(xs);
    var pieces := Split(ShowExonList(xs), ',');
    assert pieces[..|pieces| - 1] == ShowInts(xs);
    ParseShowInts(xs);
  }

  /** `zip(begins, ends)` into exons: as many as the shorter list, paired by position. */
  function ZipExons(begins: seq<int>, ends: seq<int>): (r: seq<Exon>)
    ensures |r| == Min(|begins|, |ends|)
    ensures forall k :: 0 <= k < |r| ==> r[k] == Exon(begins[k], ends[k])
  {
    if begins == [] || ends == [] then []
    else [Exon(begins[0], ends[0])] + ZipExons(begins[1..], ends[1..])
  }

  /** Parses one already tab-split line of the table, raising where the source's indexing or `int()` would. */
  function ParseTranscript(arr: seq<string>): (r: Result<Transcript>)
    ensures r.Success? <==>
      && |arr| >= 13
      && ParseExonList(arr[9]).Success? && ParseExonList(arr[10]).Success?
      && IsDecimal(arr[4]) && IsDecimal(arr[5]) && IsDecimal(arr[6]) && IsDecimal(arr[7])
    ensures |arr| <= 9 ==> r == Failure(IndexError(MissingField))
    ensures r.Failure? ==> r.error == IndexError(MissingField) || r.error == ValueError(BadInt)
    ensures r.Success? ==>
      && r.value.geneSymbol == arr[12]
      && r.value.txAccession == arr[1]
      && r.value.strand == arr[3]
      && r.value.chrom == DropPrefix(arr[2], 3)
      && Success(r.value.txBegin) == ParseInt(arr[4])
      && Success(r.value.txEnd) == ParseInt(arr[5])
      && Success(r.value.cdsBegin) == ParseInt(arr[6])
      && Success(r.value.cdsEnd) == ParseInt(arr[7])
      && |r.value.exons| == Min(|ParseExonList(arr[9]).value|, |ParseExonList(arr[10]).value|)
      && forall k :: 0 <= k < |r.value.exons| ==>
           r.value.exons[k] == Exon(ParseExonList(arr[9]).value[k], ParseExonList(arr[10]).value[k])
  {
    if |arr| <= 9 then Failure(IndexError(MissingField))
    else
    var begins :- ParseExonList(arr[9]);
    :- Need(|arr| > 10, IndexError(MissingField));
    var ends :- ParseExonList(arr[10]);
    :- Need(|arr| > 12, IndexError(MissingField));
    var txBegin :- ParseInt(arr[4]);
    var txEnd :- ParseInt(arr[5]);
    var cdsBegin :- ParseInt(arr[6]);
    var cdsEnd :- ParseInt(arr[7]);
    Success(Transcript(
      geneSymbol := arr[12],
      txAccession := arr[1],
      strand := arr[3],
      chrom := DropPrefix(arr[2], 3),
      txBegin := txBegin,
      txEnd := txEnd,
      cdsBegin := cdsBegin,
      cdsEnd := cdsEnd,
      exons := ZipExons(begins, ends)))
  }

  function ExonBegins(exons: seq<Exon>): (r: seq<int>)
    ensures |r| == |exons| && forall k :: 0 <= k < |exons| ==> r[k] == exons[k].begin
  {
    if exons == [] then [] else [exons[0].begin] + ExonBegins(exons[1..])
  }

  function ExonEnds(exons: seq<Exon>): (r: seq<int>)
    ensures |r| == |exons| && forall k :: 0 <= k < |exons| ==> r[k] == exons[k].end
  {
    if exons == [] then [] else [exons[0].end] + ExonEnds(exons[1..])
  }

  /**
   * The table line a transcript is read from, as the table writes it: `bin`, the accession,
   * `"chr"` and the chromosome, strand, four coordinates, exon count, both exon lists,
   * `score`, the gene symbol and any trailing columns.
   */
  function GenePredFields(tx: Transcript, bin: string, score: string, trailing: seq<string>): (r: seq<string>)
    ensures |r| == 13 + |trailing|
  {
    Line(bin, tx.txAccession, "chr" + tx.chrom, tx.strand,
      ShowInt(tx.txBegin), ShowInt(tx.txEnd), ShowInt(tx.cdsBegin), ShowInt(tx.cdsEnd),
      ShowInt(|tx.exons|), ShowExonList(ExonBegins(tx.exons)), ShowExonList(ExonEnds(tx.exons)),
      score, tx.geneSymbol) + trailing
  }

  /** The thirteen named columns of a table line, in table order. */
  function Line(bin: string, name: string, chrom: string, strand: string, txStart: string, txEnd: string,
                cdsStart: string, cdsEnd: string, exonCount: string, exonStarts: string, exonEnds: string,
                score: string, name2: string): (r: seq<string>)
    ensures |r| == 13
    ensures r[0] == bin && r[1] == name && r[2] == chrom && r[3] == strand
    ensures r[4] == txStart && r[5] == txEnd && r[6] == cdsStart && r[7] == cdsEnd
    ensures r[8] == exonCount && r[9] == exonStarts && r[10] == exonEnds && r[11] == score && r[12] == name2
  {
    [bin, name, chrom, strand, txStart, txEnd, cdsStart, cdsEnd, exonCount, exonStarts, exonEnds, score, name2]
  }

  lemma {:induction false} ZipBeginsEnds(exons: seq<Exon>)
    ensures ZipExons(ExonBegins(exons), ExonEnds(exons)) == exons
  {
    var z := ZipExons(ExonBegins(exons), ExonEnds(exons));
    assert |z| == |exons|;
    forall k | 0 <= k < |exons|
      ensures z[k] == exons[k]
    {
    }
  }

  /** The fields of the table line `arr` parse to the parts of `tx`. */
  ghost predicate FieldsOf(arr: seq<string>, tx: Transcript) {
    && |arr| >= 13
    && arr[1] == tx.txAccession && arr[3] == tx.strand && arr[12] == tx.geneSymbol
    && DropPrefix(arr[2], 3) == tx.chrom
    && ParseExonList(arr[9]) == Success(ExonBegins(tx.exons))
    && ParseExonList(arr[10]) == Success(ExonEnds(tx.exons))
    && ParseInt(arr[4]) == Success(tx.txBegin) && ParseInt(arr[5]) == Success(tx.txEnd)
    && ParseInt(arr[6]) == Success(tx.cdsBegin) && ParseInt(arr[7]) == Success(tx.cdsEnd)
  }

  /** The fields of `arr` are the parts of `tx` as the table writes them. */
  ghost predicate WrittenAs(arr: seq<string>, tx: Transcript) {
    && |arr| >= 13
    && arr[1] == tx.txAccession && arr[2] == "chr" + tx.chrom && arr[3] == tx.strand
    && arr[4] == ShowInt(tx.txBegin) && arr[5] == ShowInt(tx.txEnd)
    && arr[6] == ShowInt(tx.cdsBegin) && arr[7] == ShowInt(tx.cdsEnd)
    && arr[9] == ShowExonList(ExonBegins(tx.exons)) && arr[10] == ShowExonList(ExonEnds(tx.exons))
    && arr[12] == tx.geneSymbol
  }

  /** Where each part of the transcript sits in its written table line. */
  lemma GenePredLayout(tx: Transcript, bin: string, score: string, trailing: seq<string>)
    ensures WrittenAs(GenePredFields(tx, bin, score, trailing), tx)
  {
    var arr := GenePredFields(tx, bin, score, trailing);
    var head := arr[..13];
    assert forall k :: 0 <= k < 13 ==> arr[k] == head[k];
  }

  /** Every field written from a part of the transcript parses back to that part. */
  lemma WrittenFieldsParse(arr: seq<string>, tx: Transcript)
    requires WrittenAs(arr, tx)
    ensures FieldsOf(arr, tx)
  {
    ExonListRoundTrip(ExonBegins(tx.exons));
    ExonListRoundTrip(ExonEnds(tx.exons));
    ParseShowInt(tx.txBegin);
    ParseShowInt(tx.txEnd);
    ParseShowInt(tx.cdsBegin);
    ParseShowInt(tx.cdsEnd);
    assert DropPrefix("chr" + tx.chrom, 3) == tx.chrom;
  }

  /** A line whose fields parse to the parts of `tx` is parsed to `tx`. */
  lemma ParseTranscriptOfFields(arr: seq<string>, tx: Transcript)
    requires FieldsOf(arr, tx)
    ensures ParseTranscript(arr) == Success(tx)
  {
    var r := ParseTranscript(arr);
    assert r.Success?;
    var v := r.value;
    var begins, ends := ExonBegins(tx.exons), ExonEnds(tx.exons);
    assert v.exons == tx.exons by {
      assert |v.exons| == |tx.exons|;
      forall k | 0 <= k < |tx.exons|
        ensures v.exons[k] == tx.exons[k]
      {
        assert v.exons[k] == Exon(begins[k], ends[k]);
      }
    }
  }

  /** Every transcript survives being written as a table line and parsed back. */
  lemma TranscriptRoundTrip(tx: Transcript, bin: string, score: string, trailing: seq<string>)
    ensures ParseTranscript(GenePredFields(tx, bin, score, trailing)) == Success(tx)
  {
    GenePredLayout(tx, bin, score, trailing);
    WrittenFieldsParse(GenePredFields(tx, bin, score, trailing), tx);
    ParseTranscriptOfFields(GenePredFields(tx, bin, score, trailing), tx);
  }

  /** The transcripts of `txs` whose gene symbol is `symbol`, in their order in `txs`. */
  function WithSymbol(txs: seq<Transcript>, symbol: string): (r: seq<Transcript>)
    ensures forall t :: t in r ==> t in txs && t.geneSymbol == symbol
    ensures forall t :: t in txs ==> multiset(r)[t] == if t.geneSymbol == symbol then multiset(txs)[t] else 0
    ensures IsSubsequence(r, txs)
  {
    if txs == [] then []
    else
      assert txs == [txs[0]] + txs[1..];
      var tail := WithSymbol(txs[1..], symbol);
      if txs[0].geneSymbol == symbol then
        assert ([txs[0]] + tail)[1..] == tail;
        [txs[0]] + tail
      else tail
  }

  function Symbols(txs: seq<Transcript>): set<string> {
    set t | t in txs :: t.geneSymbol
  }

  lemma WithSymbolAbsent(txs: seq<Transcript>, symbol: string)
    requires symbol !in Symbols(txs)
    ensures WithSymbol(txs, symbol) == []
  {
    var r := WithSymbol(txs, symbol);
    if r != [] {
      HeadInElems(r);
      assert false;
    }
  }

  lemma GroupStep(t: Transcript, rest: seq<Transcript>, m: map<string, seq<Transcript>>)
    requires m.Keys == Symbols(rest)
    requires forall k :: k in m ==> m[k] == WithSymbol(rest, k)
    ensures var m' := m[t.geneSymbol := [t] + (if t.geneSymbol in m then m[t.geneSymbol] else [])];
      && m'.Keys == Symbols([t] + rest)
      && forall k :: k in m' ==> m'[k] == WithSymbol([t] + rest, k)
  {
    var m' := m[t.geneSymbol := [t] + (if t.geneSymbol in m then m[t.geneSymbol] else [])];
    SymbolsCons(t, rest);
    forall k | k in m'
      ensures m'[k] == WithSymbol([t] + rest, k)
    {
      WithSymbolCons(t, rest, k);
      if k == t.geneSymbol && t.geneSymbol !in m {
        WithSymbolAbsent(rest, k);
      }
    }
  }

  lemma WithSymbolCons(t: Transcript, rest: seq<Transcript>, k: string)
    ensures WithSymbol([t] + rest, k) == (if t.geneSymbol == k then [t] else []) + WithSymbol(rest, k)
  {
    assert ([t] + rest)[1..] == rest;
  }

  lemma SymbolsCons(t: Transcript, rest: seq<Transcript>)
    ensures Symbols([t] + rest) == {t.geneSymbol} + Symbols(rest)
  {
    var txs := [t] + rest;
    forall k | k in Symbols(txs)
      ensures k in {t.geneSymbol} + Symbols(rest)
    {
      var u :| u in txs && u.geneSymbol == k;
      if u != t {
        assert u in rest;
      }
    }
    forall k | k in Symbols(rest)
      ensures k in Symbols(txs)
    {
      var u :| u in rest && u.geneSymbol == k;
      assert u in txs;
    }
  }

  /** `result.setdefault(tx.gene_symbol, []).append(tx)` over the lines of the table. */
  function GroupBySymbol(txs: seq<Transcript>): (m: map<string, seq<Transcript>>)
    ensures m.Keys == Symbols(txs)
    ensures forall k :: k in m ==> m[k] == WithSymbol(txs, k)
  {
    if txs == [] then map[]
    else
      var rest := GroupBySymbol(txs[1..]);
      var t := txs[0];
      GroupStep(t, txs[1..], rest);
      assert txs == [t] + txs[1..];
      rest[t.geneSymbol := [t] + (if t.geneSymbol in rest then rest[t.geneSymbol] else [])]
  }

  /** Parses every line; the first line that fails makes the whole load fail. */
  function ParseAll(lines: seq<seq<string>>): (r: Result<seq<Transcript>>)
    ensures r.Success? <==> forall i :: 0 <= i < |lines| ==> ParseTranscript(lines[i]).Success?
    ensures r.Success? ==> |r.value| == |lines| && forall i :: 0 <= i < |lines| ==> ParseTranscript(lines[i]) == Success(r.value[i])
  {
    MapResult(lines, ParseTranscript)
  }

  /** `load_transcripts` on the already-split lines of the table: gene symbol to its transcripts in file order. */
  function LoadTranscripts(lines: seq<seq<string>>): (r: Result<map<string, seq<Transcript>>>)
    ensures r.Success? <==> forall i :: 0 <= i < |lines| ==> ParseTranscript(lines[i]).Success?
    ensures r.Success? ==> r.value.Keys == Symbols(ParseAll(lines).value)
    ensures r.Success? ==> forall k :: k in r.value ==> r.value[k] == WithSymbol(ParseAll(lines).value, k)
  {
    var txs :- ParseAll(lines);
    Success(GroupBySymbol(txs))
  }

  /** Accession to transcript; of two transcripts sharing an accession the later one is kept. */
  function AccessionIndex(txs: seq<Transcript>): (m: map<string, Transcript>)
    ensures m.Keys == set t | t in txs :: t.txAccession
    ensures forall a :: a in m ==> m[a] in txs && m[a].txAccession == a
  {
    if txs == [] then map[]
    else
      var rest := AccessionIndex(txs[1..]);
      assert txs == [txs[0]] + txs[1..];
      if txs[0].txAccession in rest then rest else rest[txs[0].txAccession := txs[0]]
  }

  /** No transcript after position `j` shares the accession of transcript `j`. */
  ghost predicate LastOfAccession(txs: seq<Transcript>, j: nat)
    requires j < |txs|
  {
    forall k :: j < k < |txs| ==> txs[k].txAccession != txs[j].txAccession
  }

  /** Each accession maps to the last transcript that carries it. */
  lemma {:induction false} AccessionIndexKeepsLast(txs: seq<Transcript>, j: nat)
    requires j < |txs| && LastOfAccession(txs, j)
    ensures var m := AccessionIndex(txs);
      txs[j].txAccession in m && m[txs[j].txAccession] == txs[j]
  {
    var rest := AccessionIndex(txs[1..]);
    if j == 0 {
      assert txs[0].txAccession !in rest;
    } else {
      assert LastOfAccession(txs[1..], j - 1) by {
        forall k | j - 1 < k < |txs[1..]|
          ensures txs[1..][k].txAccession != txs[1..][j - 1].txAccession
        {
          assert txs[1..][k] == txs[k + 1];
        }
      }
      AccessionIndexKeepsLast(txs[1..], j - 1);
      assert txs[1..][j - 1] == txs[j];
    }
  }
}
