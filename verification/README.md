# excovis coverage core in Dafny

excovis plots the sequencing coverage of one gene's exons for a set of samples. This model
covers the parts of it that compute something:

- parsing the transcript table;
- building interval trees over the exons;
- extracting per-exon coverage from an alignment pileup, plus the synthetic generator for the
  built-in fake sample;
- combining per-sample tables;
- projecting genomic coordinates onto the compact plotted axis, including the seams between
  exon windows;
- the integer decisions of the plotting code (quality levels, colour levels, CDS boxes and CDS
  lines, the x range, the row filter and the dispatch between the plain and projected plots);
- dataset metadata: netloc redaction, scheme checks, read-group and sample-name selection, and
  dataset lookup by id.

Modules follow the source files:

- `Genes`: `genes.py`.
- `Data`: `data.py`.
- `Store`: `store.py`.
- `Plot`: `plot.py`.
- `Projection`: the projection part of `plot.py`.
- `Coverage`: the synthetic generator, which `plot.py` and `store.py` share.
- `Intervals`: the interval-tree behaviour the code relies on.
- `Text`, `Seqs` and `Wrappers`: Python's `split`/`int()`, sequence helpers, and the
  `Option`/`Result` types.

Every Python exception the code can raise becomes a `Failure` that carries the exception class
and a reason. The exceptions raised inside the functions that stand for I/O are the exception:
those functions are total here (see "## Left out").

A pandas table is modelled as a sequence of row datatypes. A missing value (None/NaN) is an
`Option`. Functions that stand for I/O are parameters:

- the pileup of an alignment file;
- the read groups in a BAM header;
- the sha256 digest;
- the sample-name post-processing.

The settings value `MAX_EXON_PADDING` is also a parameter.

The fake path (`_load_fake_coverage` and `plot.load_coverage`) emits 0-based positions and no
`exon_no` column (`Coverage.FakeCoverage`), so the corrected `Store.LoadCoverageDf` fails
whenever a sample is the fake one.

## Headline contracts

Most rows of the table below are steps toward a few contracts per operation. The contracts
that state each operation's behaviour are these:

- Transcript lines (`genes.py`): `Genes.ParseTranscript`, with `Genes.TranscriptRoundTrip` as its inverse.
- `load_transcripts`: `Genes.LoadTranscripts` and `Genes.GroupBySymbol`.
- Lookup by accession: `Genes.AccessionIndex` and `Genes.AccessionIndexKeepsLast`.
- `str.split` and `int()`: `Text.SplitJoin` and `Text.ParseShowInt`.
- Netloc redaction: `Data.RedactedNetlocRoundTrip` and `Data.RedactionHidesPassword`.
- `make_fs`, sample names and dataset records: `Data.MakeFs`, `Data.SampleNameFromFileName` and `Data.LoadData`.
- The exon interval tree: `Intervals.BuildTree`.
- The synthetic coverage: `Coverage.FakeCoverage` and `Coverage.FakeCoverageOrderIndependent`.
- The projected axis: `Projection.ProjectionOnto`, `Projection.JumpIffGap`, `Projection.ProjectCoverageRoundTrip` and `Projection.ProjectTranscripts`.
- Coverage filtering and quality levels: `Plot.PosFiltered`, `Plot.ValToQual` and `Plot.BuildQualmap`.
- CDS boxes and lines: `Plot.CdsBox`, `Plot.AllExonBoxes` and `Plot.NoneLineIff`.
- `_plot_for_gene`: `Plot.DrawGene`.
- `plot_for_gene`: `Plot.PlotForGeneOutcome`, `Plot.PlainPlotOutcome`, `Plot.ProjectedPlotRange`, `Plot.ProjectedPlotSucceeds` and `Plot.PlotForGeneFigure`.
- `plot.load_coverage`: `Plot.LoadCoverage`.
- Dataset lookup and exon numbering: `Store.FindDataset` and `Store.ExonNumbersPermutation`.
- Per-window rows: `Store.WindowRowsOk` and `Store.GeneratedWindowTable`.
- `store.load_coverage`: `Store.LoadCoverage` and `Store.RealCoverageTable`.
- Combining samples: `Store.CombineByLabelMisattributes` (as written) and `Store.CombineByKey` (corrected).
- `load_coverage_df`: `Store.LoadCoverageDfOutcome`, `Store.LoadCoverageDfErrors` and `Store.LoadCoverageDfDepth`.

## Model

| member | source | states |
|---|---|---|
| Genes.ParseInts | excovis/genes.py:63-64 | `map(int, ...)` succeeds iff every piece is a decimal integer; otherwise ValueError; each value is that piece's `int()` |
| Genes.ParseExonList | excovis/genes.py:63-64 | succeeds iff every comma-split piece but the last is a decimal integer, otherwise ValueError; value i is piece i's `int()`, one per piece but the last |
| Genes.ExonListRoundTrip | excovis/genes.py:63-64 | parsing a comma-terminated list of integers gives the integers back |
| Genes.ZipExons | excovis/genes.py:74 | `zip(begins, ends)`: as many exons as the shorter list, exon k is `(begins[k], ends[k])` |
| Genes.ParseTranscript | excovis/genes.py:62-75 | succeeds iff the line has at least 13 fields, both exon lists parse and fields 4-7 are integers; a line of at most 9 fields raises IndexError; every failure is IndexError or ValueError; field mapping: accession 1, chrom 2 without its first three characters, strand 3, tx 4/5, CDS 6/7, symbol 12 |
| Genes.ZipBeginsEnds | excovis/genes.py:74 | zipping the begins and ends of a transcript's exons rebuilds the exons |
| Genes.TranscriptRoundTrip | excovis/genes.py:62-75 | a transcript written as a genePred line (with `chr` prefix and comma-terminated exon lists) parses back to itself |
| Genes.WrittenFieldsParse | excovis/genes.py:63-73 | fields laid out as a genePred line read back field by field: the integers, both exon lists and the chrom without its `chr` prefix |
| Genes.ParseTranscriptOfFields | excovis/genes.py:62-75 | a line whose fields each read back as the transcript's parses to exactly that transcript |
| Genes.WithSymbol | excovis/genes.py:76 | the transcripts of one symbol: a subsequence of the file's transcripts (file order kept) holding every transcript with that symbol as often as the file does, and no other |
| Genes.WithSymbolAbsent | excovis/genes.py:76 | a symbol never seen has no transcripts |
| Genes.GroupStep | excovis/genes.py:76 | `setdefault(symbol, []).append(t)` keeps the grouping invariant: keys are the symbols seen, each value their transcripts in order |
| Genes.GroupBySymbol | excovis/genes.py:76 | the grouped map's keys are exactly the symbols seen, and each value lists that symbol's transcripts in file order |
| Genes.ParseAll | excovis/genes.py:61-75 | every line parses or the load fails; the i-th transcript is the i-th line's |
| Wrappers.MapResult | excovis/store.py:125 | a list comprehension whose calls may raise: it succeeds iff every call does, the i-th value is the i-th call's, and a failure is the exception of the first call that raises |
| Genes.LoadTranscripts | excovis/genes.py:53-77 | `load_transcripts` succeeds iff every line parses; keys are the symbols, values the per-symbol lists in file order |
| Genes.AccessionIndex | excovis/genes.py:65-76 | the accession-keyed view of the transcripts: keys are exactly the accessions, each value a transcript with that accession |
| Genes.AccessionIndexKeepsLast | excovis/genes.py:65-76 | of several transcripts sharing an accession, the index keeps the last one in file order |
| Text.Split | excovis/genes.py:62-64 | Python `str.split(sep)`: at least one piece, no piece holds the separator, joining the pieces gives the input back |
| Text.SplitJoin | excovis/genes.py:62-64 | splitting the join of separator-free pieces gives the pieces back |
| Text.ParseInt | excovis/genes.py:63-73 | `int()` succeeds iff the text is an optionally signed run of decimal digits; otherwise ValueError |
| Text.ParseShowInt | excovis/genes.py:63-73 | `int(str(n)) == n` for every integer |
| Text.DigitsOfShowNat | excovis/genes.py:63-73 | the decimal digits of a natural number read back as that number |
| Text.DropPrefix | excovis/genes.py:69 | `s[3:]`: the input without its first k characters, empty when shorter |
| Text.DropSuffix | excovis/data.py:91 | `path[:-len(".bam")]`: a prefix of the input k characters shorter, empty when shorter |
| Text.Basename | excovis/data.py:91 | `basename`: a slash-free suffix of the path, preceded by a slash unless it is the whole path |
| Data.FakeData | excovis/data.py:73-75 | the fake record has id `builtin-fake-data` and sample "fake" |
| Data.RedactedNetloc | excovis/data.py:37-49 | without a username or password the netloc is the hostname (or empty); a username comes first; a hostname comes last |
| Data.RedactionHidesPassword | excovis/data.py:42-44 | the netloc depends only on whether a password is present, never on its text |
| Data.AtSignIff | excovis/data.py:45-48 | "@" occurs iff a hostname is present and a username or password contributed text before it |
| Data.RedactedNetlocRoundTrip | excovis/data.py:39-49 | reading the rebuilt netloc with urllib's rules gives back the username, the placeholder as password, and the hostname |
| Data.MakeFs | excovis/data.py:57-70 | succeeds iff the scheme is "file"; otherwise ValueError; opens the URL's path |
| Data.SampleNameFromFileName | excovis/data.py:91 | without an SM tag the sample name is the file name without ".bam" |
| Data.BasenameAfterSlash | excovis/data.py:91 | the basename of `dir + "/" + name` is `name` |
| Data.LoadData | excovis/data.py:83-93 | non-"file" schemes and read-group counts other than one raise, and only these; the id is the path's digest, and the sample is the processed SM tag or file name |
| Intervals.Add | excovis/store.py:124 | adding an interval keeps the tree ordered and duplicate-free and adds exactly that interval |
| Intervals.Insertions | excovis/store.py:124 | the tree holds exactly the given intervals, ordered and without duplicates |
| Intervals.BuildTree | excovis/store.py:124 | `IntervalTree(...)` raises ValueError iff some interval is null; otherwise the tree holds exactly the given intervals |
| Intervals.CanonicalUnique | excovis/store.py:124 | two ordered duplicate-free trees with the same intervals are equal |
| Intervals.BuildTreeOfSameElems | excovis/store.py:124 | the tree depends only on the set of intervals given, not on their order or repetition |
| Intervals.ExonIntervals | excovis/store.py:124 | one interval `[begin, end)` per exon, in exon order |
| Intervals.TreeSizeOfDistinctExons | excovis/store.py:124 | distinct non-null exons give a tree with one interval per exon |
| Coverage.PaddedPositions | excovis/plot.py:304-313 | the chained padded ranges hold exactly the positions of some window `[begin-pad, end+pad)` |
| Coverage.RampDepth | excovis/plot.py:314-318 | `int(50*i/n)` lies in `[0, 50)` |
| Coverage.DivMonotone | excovis/plot.py:314-318 | integer division by a positive number is monotone |
| Coverage.FakeCoverage | excovis/plot.py:300-322 | one row per distinct padded position, strictly increasing 0-based positions, chrom on every row, exactly the covered positions, depth `50*i/n` at rank i |
| Coverage.FakeDepthRamp | excovis/plot.py:314-318 | the synthetic depth stays in `[0, 50)` and never decreases along the rows |
| Coverage.FakeCoverageOrderIndependent | excovis/plot.py:310-313 | the synthetic table does not depend on the tree's iteration order |
| Coverage.AsCovTable | excovis/plot.py:315-321 | a one-sample table is a coverage table with one depth column |
| Projection.ExonWindows | excovis/plot.py:218-219 | positions of one transcript: exactly those in some inclusive window `[begin-pad, end+pad]` |
| Projection.DomainWindows | excovis/plot.py:216-219 | positions of all transcripts: exactly the union of the inclusive windows |
| Projection.Positions | excovis/plot.py:216-220 | `sorted(positions)`: strictly increasing, exactly the projection domain |
| Projection.ProjectionMap | excovis/plot.py:220 | the projection's keys are the domain, `ps[i] -> i`, every value lies in `[0, N)` and maps back, and `g1 < g2` iff their ranks are |
| Projection.ProjectionOnto | excovis/plot.py:220 | the projection is onto `[0, N)` |
| Projection.RankCountsBelow | excovis/plot.py:220 | a position's rank is the number of domain positions below it |
| Projection.Project | excovis/plot.py:252-253 | `projection.get(x)`: the rank when x is in the domain, None otherwise |
| Projection.ExonEndsProjected | excovis/plot.py:218-219 | with non-negative padding, every exon begin and end is in the domain and projects to a value |
| Projection.RankOfStretch | excovis/plot.py:220 | across a gap-free stretch of the domain, ranks grow exactly as positions do |
| Projection.ProjectedExonLength | excovis/plot.py:233-262 | projected exon begin plus exon length equals projected exon end, so genomic lengths fit the projected axis |
| Projection.JumpsFrom | excovis/plot.py:270-275 | the jumps from rank p on: strictly increasing ranks in `[p, N)`, exactly those whose position does not follow the previous one |
| Projection.JumpPositions | excovis/plot.py:270-275 | jump ranks are strictly increasing in `[1, N)` and are exactly the ranks q with `ps[q] != ps[q-1] + 1` |
| Projection.JumpIffGap | excovis/plot.py:270-275 | rank p is a jump iff the position just below `ps[p]` is outside the domain |
| Projection.SeamStartsAreRunStarts | excovis/plot.py:270-275 | the first position plus the positions at the jumps are exactly the starts of the maximal contiguous runs |
| Projection.JumpCount | excovis/plot.py:270-275 | the number of jumps is the number of maximal contiguous runs minus one |
| Projection.JumpsEmptyIffContiguous | excovis/plot.py:270-275 | there is no jump iff the domain is one contiguous range |
| Projection.JumpAtWindowStart | excovis/plot.py:216-275 | every jump lands on the start `begin - pad` of some exon window |
| Projection.ProjectCoverage | excovis/plot.py:264-267 | rows outside the domain are dropped, and the kept positions are ranks in `[0, N)` |
| Projection.Unproject | excovis/plot.py:220 | mapping ranks back through the sorted positions, with the other columns unchanged |
| Projection.ProjectCoverageRoundTrip | excovis/plot.py:264-267 | un-projecting the projected coverage gives exactly the rows whose position is in the domain, in order |
| Projection.ProjectAll | excovis/plot.py:255-256 | `[projection.get(x) for x in xs]`, element-wise |
| Projection.ExonLengths | excovis/genes.py:25-26 | `exon.length()` is `end - begin`, per exon |
| Projection.ProjectTranscripts | excovis/plot.py:222-262 | one row per transcript; name columns come from the first transcript; coordinates are the projections of the transcript's own; exon lengths stay genomic |
| Plot.PosFiltered | excovis/plot.py:44-45 | keeps exactly the rows with matching chrom and `begin-1 <= pos < end`, in order and with their multiplicities |
| Plot.ValToQual | excovis/plot.py:48-55 | level 0 iff below 10, level 2 iff at least 20, level 1 in between |
| Plot.ValToQualMonotone | excovis/plot.py:48-55 | the level never decreases as the value grows |
| Plot.BuildQualmap | excovis/plot.py:58-67 | a colour appears iff its level is among the qualities, in ascending level order (fail, warn, ok) |
| Plot.CdsBox | excovis/plot.py:196-209 | a CDS box exists iff both CDS bounds are present and `cds_begin <= begin+length` and `begin <= cds_end`; it spans `[max(begin, cds_begin), min(begin+length, cds_end)]` |
| Plot.CdsBoxWithinExon | excovis/plot.py:198-204 | a drawn CDS box has non-negative width and lies within the exon box |
| Plot.CdsColumn | excovis/plot.py:93-98 | the CDS cells of each row: a present bound is a number; a missing one is None when its whole column is missing (an object column, as in the one-row table), NaN otherwise |
| Plot.VlinesMember | excovis/plot.py:93-99 | a value is a CDS line iff it is a bound of some row whose two CDS cells differ, with None equal only to None and NaN equal to nothing |
| Plot.NoneLineIff | excovis/plot.py:93-99 | a None CDS line, on which `axvline` raises TypeError, occurs iff there are rows and exactly one of the two CDS columns is missing throughout |
| Plot.PlainVlines | excovis/plot.py:93-99 | for plain transcripts the CDS lines are exactly the bounds of the transcripts whose CDS begin differs from their CDS end |
| Plot.MinPresent | excovis/plot.py:81 | pandas `min()` skipping missing values: None iff all are missing, else an attained lower bound |
| Plot.MaxPresent | excovis/plot.py:82 | pandas `max()` skipping missing values: None iff all are missing, else an attained upper bound |
| Plot.LowEnd | excovis/plot.py:81 | the lower x bound exists iff some begin is present, lies `PADDING + MARGIN_X` below every present begin, and that margin is attained |
| Plot.HighEnd | excovis/plot.py:82 | the upper x bound exists iff some end is present, lies `PADDING + MARGIN_X` above every present end, and that margin is attained |
| Plot.XRange | excovis/plot.py:81-82 | the x range lies `PADDING + MARGIN_X` outside the smallest begin and the largest end, which are attained |
| Plot.CoverageInRange | excovis/plot.py:84 | the plotted coverage rows come from the table and carry the transcript's chrom; with an undefined range no row qualifies |
| Plot.MakePanel | excovis/plot.py:102-127 | one level per depth, `val_to_qual` of it, and the panel's colours are exactly those of the levels present |
| Plot.Column | excovis/plot.py:106 | the depth column of one sample, row by row |
| Plot.ExonBoxes | excovis/plot.py:186-209 | one box per zipped (begin, length) pair with its clipped CDS box; raises TypeError iff some zipped begin is missing or a CDS comparison meets None |
| Plot.BoxesOf | excovis/plot.py:186-209 | the exon boxes of one row; TypeError iff a zipped begin is missing, or a None CDS begin is compared, or a None CDS end is reached after `cds_begin <= begin + length` held; NaN only suppresses the CDS box |
| Plot.AllExonBoxes | excovis/plot.py:163-209 | the boxes of every transcript row, each row with its own CDS cells; it fails, with TypeError, iff some row's boxes do |
| Plot.DrawGene | excovis/plot.py:70-211 | `_plot_for_gene`: ValueError iff the x range is undefined (`set_xlim` on NaN); otherwise IndexError iff there are samples and no coverage row lies in the range (`fill_between` over no points has no `_paths[0]`); otherwise TypeError iff there are samples and a None CDS line, or some row's boxes fail; success carries chrom "1" and strand "+" without rows, else the first row's, the x range, the filtered coverage (non-empty when there are samples), one panel per sample, the CDS and seam lines and one label and box list per row |
| Plot.ShownIff | excovis/plot.py:84-86 | the coverage rows kept for the plot are non-empty iff some row of the table has the first transcript's chrom and lies in the x range |
| Plot.RowInSpanShown | excovis/plot.py:81-86 | a coverage row on the first row's chrom between some row's begin and end lies in the x range, so the panels have points to fill |
| Plot.DrawnOrNoPath | excovis/plot.py:81-135 | rows with an x range, no None line and drawable boxes are drawn iff, with samples, some coverage row lies in the range; otherwise the failure is the IndexError of the empty fill |
| Plot.EmptyCoverageDraws | excovis/plot.py:81-124 | with samples and an empty coverage table the plot raises ValueError (undefined range) or IndexError (no path), and IndexError whenever the range is defined |
| Plot.TranscriptTable | excovis/plot.py:290-295 | the transcript rows the plain branch draws, with every coordinate present |
| Plot.PlainRange | excovis/plot.py:81-82 | the plain table of at least one transcript has both x bounds |
| Plot.PlainPlotOutcome | excovis/plot.py:290-295 | the plain branch draws iff there is a transcript and, with samples, some coverage row lies in the x range; with no transcript the x range is NaN and `set_xlim` raises ValueError, and that is the only ValueError; every other failure is the IndexError of an empty fill |
| Plot.PlainSuccessIff | excovis/plot.py:290-295 | the success iff of `Plot.PlainPlotOutcome` |
| Plot.PlainNanIff | excovis/plot.py:290-295 | the plain branch raises ValueError iff there are no transcripts |
| Plot.PlainFailureKinds | excovis/plot.py:290-295 | the plain branch raises only ValueError or the IndexError of an empty fill |
| Plot.PlainCoverageShown | excovis/plot.py:81-86 | a coverage row on the first transcript's chrom between some transcript's begin and end is shown by the plain plot |
| Plot.PlainPlotFigure | excovis/plot.py:290-295 | a drawn plain plot is unprojected, has no seam lines, is titled "Coverage for gene <symbol>", has the table's x range, and its CDS lines are the bounds of the transcripts whose CDS begin differs from its end |
| Plot.ProjectedRange | excovis/plot.py:258-259 | the projected rows have a lower x bound iff some transcript begin lies in the domain, and an upper one iff some transcript end does |
| Plot.ProjectedPlotRange | excovis/plot.py:214-287 | the projected plot raises ValueError iff no transcript begin or no transcript end lies in the domain; every other failure is IndexError or TypeError; IndexError (no path) only with samples and no coverage row inside a transcript's span in the domain |
| Plot.ProjectedNanRange | excovis/plot.py:258-259 | the ValueError iff of `Plot.ProjectedPlotRange` |
| Plot.ProjectedFailureKinds | excovis/plot.py:214-287 | the projected plot raises only ValueError, the IndexError of an empty fill, or TypeError |
| Plot.ProjectedNoPath | excovis/plot.py:116-124 | the projected plot's IndexError needs samples and no coverage row on the chrom, in the domain, inside a transcript whose begin and end are in the domain |
| Plot.SpanShown | excovis/plot.py:81-86 | a coverage row in the domain inside a transcript whose begin and end project is kept by the projected plot |
| Plot.SpanRowShown | excovis/plot.py:81-86 | the same for a given transcript and row |
| Plot.CoverageProjects | excovis/plot.py:264-267 | a coverage row at a domain position appears, moved to its rank, among the projected rows |
| Plot.ProjectedBounds | excovis/plot.py:258-259 | a transcript begin and end in the domain become their ranks in the projected row |
| Plot.ProjectedExonsNeed | excovis/plot.py:262 | a drawn projected plot has every exon begin in the domain |
| Plot.ProjectedCdsNeed | excovis/plot.py:260 | a drawn projected plot of transcripts with exons has some CDS begin in the domain |
| Plot.ProjectedLinesNeed | excovis/plot.py:260-261 | a drawn projected plot with samples has some CDS begin in the domain iff it has some CDS end there |
| Plot.ProjectedBoxesNeed | excovis/plot.py:258-262 | when the projected rows' boxes can all be drawn, every exon begin lies in the domain, and with exons some row has a CDS begin |
| Plot.DrawnNeeds | excovis/plot.py:258-287 | what drawing the projected rows needs: every exon begin in the domain, agreeing CDS lines when there are samples, and a CDS begin in the domain when there are exons |
| Plot.DrawnWhen | excovis/plot.py:258-287 | a begin and an end in the domain, every exon begin and every CDS bound in it give a defined x range, no None line and drawable boxes |
| Plot.ProjectedPlotDraws | excovis/plot.py:214-287 | the projected plot is drawn when some begin and some end, every exon begin and every CDS bound lie in the domain, and either there are no samples or some coverage row in the domain lies inside a transcript's span |
| Plot.ProjectedFailsNoPath | excovis/plot.py:116-124 | under the same bounds, the only way the projected plot can fail is the IndexError of an empty fill |
| Plot.ProjectedDrawable | excovis/plot.py:214-287 | under the same bounds, the projected plot is drawn when, with samples, some projected coverage row lies in the projected range |
| Plot.ProjectedDrawn | excovis/plot.py:264-287 | the projected plot draws the projected transcript rows with the projected coverage, the jump ranks as seams and the padded title |
| Plot.ProjectedPlotFigure | excovis/plot.py:264-287 | a drawn projected plot is marked projected, titled with the padding, has the jump ranks as seam lines, and shows only coverage positions that are ranks in `[0, N)` |
| Plot.ProjectedCoverageRanks | excovis/plot.py:264-267 | coverage rows taken from the projected ones have rank positions |
| Plot.ShownRowsShape | excovis/plot.py:84-86 | the coverage rows the plot keeps have one depth per sample |
| Plot.UnprojectedCdsBeginRaises | excovis/plot.py:116-262 | a one-transcript table with exons whose begin and end project but whose CDS begin does not: it raises IndexError (empty fill) or TypeError, and TypeError at the first CDS comparison whenever there are no samples or some coverage row lies in the span |
| Plot.PlotForGeneOutcome | excovis/plot.py:290-297 | no transcripts always raise ValueError; without padding the plot is drawn iff there are transcripts and, with samples, some coverage row lies in the x range; every failure is ValueError, IndexError with samples, or TypeError in the projected branch only |
| Plot.PlotForGeneEmpty | excovis/plot.py:290-297 | no transcripts raise ValueError in both branches |
| Plot.PlotForGenePlain | excovis/plot.py:290-295 | the plain branch's success iff |
| Plot.PlotForGeneFailures | excovis/plot.py:290-297 | the failure kinds of `Plot.PlotForGeneOutcome` |
| Plot.EmptyCoverageRaises | excovis/plot.py:116-124 | samples with no coverage rows make every gene plot fail with ValueError or IndexError, and the plain plot of some transcript with IndexError |
| Plot.EmptyCoverageProjected | excovis/plot.py:116-124 | the projected half of `Plot.EmptyCoverageRaises` |
| Plot.PlotForGeneFigure | excovis/plot.py:290-297 | the figure is projected iff a padding is given, its title names the padding when there is one, and the plain one has no seam lines |
| Plot.ProjectCoverageShape | excovis/plot.py:264-267 | projecting keeps one depth per sample on every row |
| Plot.ProjectedBoxesIff | excovis/plot.py:258-262 | with every CDS bound in the domain, the projected rows' boxes all exist iff every exon begin projects |
| Plot.ProjectedPlotSucceeds | excovis/plot.py:214-287 | with at least one transcript, non-negative padding, non-inverted exons, and transcript and CDS bounds on the exons, the projected plot is drawn whenever there are no samples or some coverage row on the chrom lies on an exon inside its transcript's span |
| Plot.ProjectedOnExonsDraws | excovis/plot.py:214-287 | under the same conditions, the projected plot is drawn when there are no samples or some coverage row in the domain lies inside a transcript's span |
| Plot.ExonCoordsBounds | excovis/plot.py:258-262 | bounds on the exons and non-negative padding put some begin, some end, every exon begin and every CDS bound in the domain |
| Plot.OnExonsInSpan | excovis/plot.py:226-262 | a coverage row on an exon inside its transcript's span lies in the domain, as do that transcript's begin and end |
| Plot.OnExonInSpan | excovis/plot.py:226-262 | the same for a given transcript and row |
| Plot.LoadCoverage | excovis/plot.py:300-322 | the fake sample gives the synthetic table; any other sample raises |
| Store.FindDataset | excovis/store.py:47-52 | the first record whose id matches; with none, the error message itself raises TypeError |
| Store.ExonNumbers | excovis/store.py:93-97 | the i-th window in begin order is exon `i+1` on "+" and `len(exons)-i` otherwise |
| Store.ExonNumbersPermutation | excovis/store.py:93-97 | with one window per exon the exon numbers are a permutation of `1..n` on either strand |
| Store.PosSet | excovis/store.py:99-100 | every column's position is among the reported ones |
| Store.FirstDepth | excovis/store.py:99-110 | a depth is found for a position iff some column reports it |
| Store.FirstDepthIsFirst | excovis/store.py:99-110 | the depth found is that of the earliest column reporting the position |
| Store.Scan | excovis/store.py:98-110 | kept columns are in the window, not seen before, pairwise distinct in position, exactly the reported in-window positions, each with its first reported depth |
| Store.Fill | excovis/store.py:111-113 | the zero fill is the ascending list of exactly the window positions not seen |
| Store.DisjointFillCount | excovis/store.py:98-115 | distinct scanned positions plus the fill of the rest make up the window, so their counts add to its size |
| Store.WindowRowsOk | excovis/store.py:98-115 | one window `[lo, hi)` gives `hi-lo` rows (none when negative) with the chrom and the exon number, pairwise distinct positions, every 1-based position of `(lo, hi]`, and at each the pileup's first reported depth or 0 |
| Store.GeneratedRowsShape | excovis/store.py:93-115 | the rows of all windows: `Σ max(0, end-begin+2*pad)` of them, the chrom on each, each in some window and carrying that window's exon number |
| Store.GeneratedRowsAppend | excovis/store.py:93-115 | the rows of two runs of windows are the first run's rows followed by the second's, with the exon numbering continuing |
| Store.GeneratedWindow | excovis/store.py:93-115 | window w's rows sit between the rows of the windows before it and those after it |
| Store.GeneratedWindowTable | excovis/store.py:93-115 | the slice of the rows that the earlier windows' sizes locate is window w's own table, with its exon number and pileup |
| Store.GeneratedDepth | excovis/store.py:93-115 | in all windows' rows, the depth at a position of window w with w's exon number is what the pileup reports there |
| Store.LoadCoverage | excovis/store.py:73-118 | a non-fake id: an unknown one raises ExcovisError; a known one gives the sample's rows over the windows in ascending begin order, with the total row count and the chrom |
| Store.LoadCoverageFake | excovis/store.py:76-77 | the fake id short-circuits to the synthetic table, whatever the datasets |
| Store.RealCoverage | excovis/store.py:79-118 | a dataset id: it succeeds iff some dataset has it, else ExcovisError; the table has that dataset's sample, the total row count, the chrom, and every row in some window with its exon number |
| Store.RealCoverageTable | excovis/store.py:79-117 | a known id gives exactly the table generated from the first matching dataset's file over the windows in ascending begin order |
| Store.DatasetWindow | excovis/store.py:93-115 | in a dataset's table, the rows of window w are the slice after the earlier windows' rows, and they form that window's table with its exon number and the dataset's pileup |
| Store.DatasetDepth | excovis/store.py:93-115 | in a dataset's table, the depth at a position of window w with w's exon number is what the dataset's pileup reports there |
| Store.LoadedIsReal | excovis/store.py:73-118 | a real table `load_coverage` returns is the one generated from the id's dataset |
| Store.LoadCoverageSorted | excovis/store.py:116-117 | after `sort_values("pos")` the rows are a permutation of the generated ones in non-decreasing position order |
| Store.FakeCoverageShared | excovis/store.py:55-70 | the store's fake table equals the plotting module's |
| Store.DepthOf | excovis/store.py:126-129 | when a table holds a key, the depth found is the depth of a row with that key |
| Store.CombineByLabel | excovis/store.py:126-129 | as written: the first table's key columns, and each sample's depth taken from its row with the same generation index |
| Store.CombineByLabelMisattributes | excovis/store.py:98-129 | a two-sample example in which aligning on labels gives sample B depth 9 at a position where B's own table has 0 |
| Store.CombineByKey | excovis/store.py:126-129 | corrected: the first table's key columns and, for each sample, its depth at the row's (pos, exon number) key |
| Store.DepthOfUniqueKey | excovis/store.py:126-129 | with unique keys, looking up row l's key finds row l's depth |
| Store.CombineAgreeOnSameKeys | excovis/store.py:126-129 | when all tables list the same unique keys in the same order, the as-written and corrected combinations agree |
| Store.DepthOfTable | excovis/store.py:98-115 | in a window's table, the depth at any key of the window is what the pileup reports there |
| Store.WindowRowsIsWindowTable | excovis/store.py:98-115 | every generated window table has its exon number, all window positions, and pileup depths |
| Store.CombineByKeyWindowDepth | excovis/store.py:98-129 | combined by key, each sample's depth at each row is that sample's own pileup depth at the position |
| Store.KeyedWindowDepth | excovis/store.py:98-129 | for one row and one sample of window tables, the depth combined by key is that sample's pileup depth at the row's position |
| Store.LoadAll | excovis/store.py:125 | all samples load or the first failure is raised; table j is sample j's |
| Store.LoadAllOutcome | excovis/store.py:125 | loading succeeds iff every sample is the fake id or a known dataset id; table j is synthetic iff sample j is the fake id |
| Store.LoadedTables | excovis/store.py:125 | the loaded real tables are one per sample, each the table of its own sample's dataset |
| Store.LoadCoverageDfAsWritten | excovis/store.py:123 | as written: indexing the symbol-keyed map by accession raises KeyError, or AttributeError when the key exists (the value is a list) |
| Store.AccessionLookupFails | excovis/store.py:123 | a transcript that the table holds still cannot be looked up by its accession |
| Store.ExonTables | excovis/store.py:126-129 | the real tables' rows, or nothing when some table is synthetic |
| Store.CombineTables | excovis/store.py:126-130 | no table gives IndexError and a synthetic first one KeyError; it succeeds iff all are real; the result is the by-key combination sorted by position, with one depth per sample |
| Store.CombinedRowDepth | excovis/store.py:126-129 | row l of the by-key combination lies in some window w with w's exon number, and its depth for sample j is sample j's pileup depth at the row's position |
| Store.KeyedRowDepth | excovis/store.py:126-129 | the same for a row whose key is known to lie in window w |
| Store.SortedRowDepth | excovis/store.py:126-130 | sorting the combination by position keeps that on every row |
| Store.LoadCoverageDf | excovis/store.py:121-131 | corrected `load_coverage_df`: an unknown accession raises KeyError; success needs samples, none of them fake; rows sorted by position with one depth per sample |
| Store.ExonTreeBuilds | excovis/store.py:124 | the exon tree builds iff every exon has begin < end |
| Store.LoadCoverageDfTables | excovis/store.py:121-130 | a successful `load_coverage_df` is the position-sorted by-key combination of the loaded real tables |
| Store.LoadCoverageDfOutcome | excovis/store.py:121-131 | it succeeds iff the accession is known, every exon is non-null, there are samples, and every sample is a known dataset id other than the fake one |
| Store.LoadCoverageDfErrors | excovis/store.py:121-131 | which exception: a null exon ValueError; an unknown sample ExcovisError; no samples IndexError; a fake first sample KeyError (no `exon_no`); a fake later sample IndexError (no fourth column); otherwise success |
| Store.LoadCoverageDfDepth | excovis/store.py:121-131 | every row of the result lies in some exon window with that window's exon number, and its depth for each sample is that sample's pileup depth at the row's position |
| Seqs.SortByFacts | excovis/store.py:116-117 | `sort_values("pos")` as modelled: the result is ordered by the key and is a permutation of the input |

## Left out

- Matplotlib drawing in `_plot_for_gene`: figure geometry, imshow, clip paths, float heights and RGBA values. The model keeps the integer decisions (levels, boxes, lines, range, labels) in a `Figure` record.
- Panels: the model takes the first failure of a sample panel with no coverage points to be the IndexError on `paths._paths[0]` (plot.py:116-124), and treats `imshow` over the empty array, whose extent is then NaN, as not raising.
- `render_plot` (`plot.py:325-345`): it chains `DataFrame.join(on=...)`, which is pandas join semantics. It also hands `plot_for_gene` a list of `Transcript` objects, and the plain branch then reads DataFrame attributes (`.empty`, `.chrom.iloc`) from that list. `Plot.PlotPlain` models the plain branch over the table of those transcripts instead.
- pysam: the pileup and the header's read groups are inputs (`pileup(path, chrom, lo, hi)`, `readGroups`). The pileup is taken not to raise. pysam raises ValueError for a window start `itv.begin - pad` below 0 (store.py:99), which an exon beginning within `MAX_EXON_PADDING` of the chromosome start gives, and for a contig missing from the header. In those cases `Store.LoadCoverage` and `Store.LoadCoverageDf` succeed where the program raises.
- gzip reading of the transcript table: the model starts from already-split lines.
- `load_all_data`: its file-system globbing and OSFS access are I/O. The dataset list is an input of `Store.FindDataset` and `Store.LoadCoverage`.
- sha256 ids and `strip_sample`: passed in as functions. Their regex and settings module are not part of this model.
- The memoizing cache: it does not change results.
- `Text.ParseInt`: whitespace, underscores and non-ASCII digits, which Python's `int()` also accepts, are not modelled.
- `Store.LoadCoverageSorted`: `sort_values` is not stable. The model fixes one order among equal positions, and the contract states only the ordering and the permutation.
- `Intervals.BuildTree`: the tree's iteration order is a set order in the library. The model orders by (begin, end), and `Coverage.FakeCoverageOrderIndependent` shows the synthetic table does not depend on that order. In the real table, store.py:93 sorts by `begin` alone over that set order, so exons with the same begin are numbered in an order the library leaves open; the model numbers them by (begin, end), by choice.
- The float in `int(50.0*i/n)`: modelled as the integer `50*i/n`, which is exact for every realistic n.
- `Store.CombineByLabel`: requires all tables to have the same length, because generated tables over one tree always do. pandas would fill missing labels with NaN.
- `Store.CombineByKey`: takes the first row with a key and 0 when a key is missing. pandas would produce one row per match, or NaN.
- `Store.DatasetWindow`: states each window's size, exon number, positions and pileup depths in a dataset's table, but not that the window's positions are distinct. `Store.GeneratedWindowTable` states that for the generated rows.
- `Store.LoadCoverageDfDepth`: states where each result row comes from and which depth it carries. It does not state that every window position appears in the result, although the first sample's table holds all of them.
- `Store.CombineByKeyWindowDepth`: covers tables of one window only. `Store.LoadCoverageDfDepth` covers the tables `load_coverage_df` actually combines, over all windows.
- Logging and the `print` in `render_plot`.

## Findings

| source | as written | input that shows it | evidently intended | confidence | as-written member | corrected member |
|---|---|---|---|---|---|---|
| excovis/store.py:123 | `genes.load_transcripts()[tx_accession]` indexes a map keyed by gene symbol, and then reads `.chrom` and `.exons` from the value, which is a list | any accession, e.g. "NM_000001.1" for a transcript of gene "GENE1": KeyError; if an accession equals a symbol, AttributeError on the list | look the transcript up by accession | not executed | Store.LoadCoverageDfAsWritten, Store.AccessionLookupFails | Store.LoadCoverageDf (via Genes.AccessionIndex) |
| excovis/store.py:126-129 | `pd.concat(..., axis="columns")` aligns the per-sample depth columns on index labels. The labels are generation indices, which the in-place sort keeps, so samples whose pileups report different positions are paired row by row at different positions | window `[0, 2)`, pad 0, exon 1: sample A reports (0,5),(1,7); sample B reports (1,9). B's rows are generated as pos 2 then pos 1, so the row at pos 1 gets B's depth 9 while B's depth at pos 1 is 0 | join the samples on the (chrom, pos, exon_no) key | not executed | Store.CombineByLabel, Store.CombineByLabelMisattributes | Store.CombineByKey, Store.CombineByKeyWindowDepth, Store.LoadCoverageDfDepth |
