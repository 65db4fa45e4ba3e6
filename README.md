# pypblat core, modelled in Dafny

pypblat aligns sequencing reads against transposable-element references
with pblat. It then apportions each read among the references it maps to
best. This project models the three sequential parts of that pipeline and
proves properties of them.

- **Read apportionment** (`pypblat/pypblat.py`).
  - A per-query accumulator keeps the best score and the list of targets
    tied at that score (`TranscriptionExpressionValues.update`).
  - Saving the accumulator credits every tied target in a per-worker map of
    four counters (`save`, `TranscriptionExpressResults`).
  - The worker's loop cuts the stream of alignments into runs of equal
    query names (`read_named_pipe`).
  - The per-worker maps are summed key by key (`merge_results`).
- **Reference window statistics** (`pypblat/te_stats.py`).
  - Every read-length window of every reference record is paired with the
    record's identifier.
  - The pairs are stable-sorted by window text and grouped by window.
  - Windows are counted per identifier and classified as unique (one
    identifier only) or non-unique.
- **PSLX rows** (`pypblat/pslx_reader.py`).
  - A tab-split row becomes a 23-field `PslxLine`: 18 typed scalars, three
    integer lists and two string lists.
  - The reader stops at the first empty row.

Modules, one per file:

- `Errors`: the Python exceptions the code raises, and a `Result` type.
- `Sums`, `Seqs`: sums over finite maps, and small sequence facts.
- `Tallies`: `TranscriptionExpressResults` as the value type `Tally`, and
  `merge_results`.
- `Accumulator`: `TranscriptionExpressionValues` as the class
  `QueryAccumulator`.
- `Worker`: the lifted fold of `read_named_pipe` over `(q_name, t_name,
  match)` triples.
- `FoldFacts`: what the fold computes.
- `Pslx`: the row decoder. `PslxStream`: the reader as a class over rows.
  The reader keeps its row decoder as a constant, which the constructor
  sets to `DecodeLine`; the proofs about the order of iteration hold for
  any decoder, and `Pipe.ReadNamedPipe` takes a reader built that way.
- `Pipe`: the reader and the fold together.
- `TeStats`, `TeFacts`: the window statistics.

## Model

| member | source | states |
|---|---|---|
| Tallies.UniqueOverTotal | pypblat/pypblat.py:96-100 | the fraction is 0 when nothing was credited; otherwise fraction times total equals the unique reads. For non-negative counters it lies in [0, 1], is 0 exactly when no read is unique, and is 1 exactly when every credited read is unique |
| Tallies.Tally.TotalSize | pypblat/pypblat.py:96-97 | for non-negative counters, total_size bounds both the unique and the non-unique reads, and is 0 exactly when neither kind was credited |
| Tallies.FreshTally | pypblat/pypblat.py:90-94 | a new TranscriptionExpressResults has non-negative counters, total_size 0 and unique_over_total 0, and adding it to a tally changes nothing |
| Tallies.Merge | pypblat/pypblat.py:188-199 | merge_results fails with TypeError on an empty list (reduce has no initial value); otherwise it returns MergeSpec: the union of the input keys, each mapped to the key-wise sum of the inputs holding it |
| Tallies.AddInto | pypblat/pypblat.py:193-197 | the inner loop adds every counter of one worker's map into the merge map |
| Tallies.KeyUnionMember | pypblat/pypblat.py:189 | a key is in the union exactly when some input map holds it |
| Tallies.SumAtAbsent | pypblat/pypblat.py:190-197 | a key no input holds sums to a zero tally |
| Tallies.MergeAppend | pypblat/pypblat.py:192-197 | merging one more map adds it key-wise to the merge of the others |
| Tallies.MergeTotal | pypblat/pypblat.py:188-199 | merging preserves each counter's grand total over all inputs |
| Tallies.MergeNonNegative | pypblat/pypblat.py:188-199 | merging maps of non-negative tallies gives non-negative tallies, so each merged unique_over_total lies in [0, 1] |
| Tallies.TotalAddMaps | pypblat/pypblat.py:192-197 | a key-wise sum of two maps has the sum of their totals, counter by counter |
| Tallies.MergeSingleton | pypblat/pypblat.py:188-199 | one worker's map merges to itself |
| Tallies.MergeTwice | pypblat/pypblat.py:188-199 | a map merged with itself is its key-wise double |
| Tallies.MergeTwoWorkers | pypblat/pypblat.py:188-199 | two maps with one unique read of T1 each merge to two unique reads of T1 |
| Accumulator.QueryAccumulator.constructor | pypblat/pypblat.py:103-106 | a new accumulator has best score 0, no targets and no history |
| Accumulator.QueryAccumulator.Update | pypblat/pypblat.py:108-113 | a strictly better score replaces the targets with the new one and raises the best score; an equal score appends the target, repeats included; a lower score changes nothing; the class invariant ties the fields to the hit history |
| Accumulator.QueryAccumulator.Save | pypblat/pypblat.py:115-131 | save returns SaveSpec of the current targets: Err(ZeroDivisionError) on no targets, otherwise every occurrence credited and one random read added |
| Accumulator.BestScoreIsMaximum | pypblat/pypblat.py:105-111 | the best score bounds every hit's score and is 0 or the score of some hit |
| Accumulator.TargetsAtMember | pypblat/pypblat.py:109-113 | a target is tied at score s exactly when it has a hit with score s |
| Accumulator.UpdateStep | pypblat/pypblat.py:108-113 | how one more hit moves the best score and the tied targets, for the three cases of the comparison |
| Accumulator.NoTiedTargets | pypblat/pypblat.py:105-113 | the tied list is empty exactly when every score is below 0, the initial best score |
| Accumulator.AllNegativeFails | pypblat/pypblat.py:116 | saving a query whose scores are all negative fails with ZeroDivisionError |
| Accumulator.TiedExample | pypblat/pypblat.py:108-113 | hits T1:5, T2:10, T3:10 leave T2 and T3 tied |
| Accumulator.SaveKeys | pypblat/pypblat.py:119-123 | after save the keys are the old keys plus every target |
| Accumulator.SaveOthers | pypblat/pypblat.py:118-131 | a key that is not a target keeps its tally |
| Accumulator.SaveTarget | pypblat/pypblat.py:116-131 | a target occurring n times among k gains n unique reads if k = 1, else n non-unique reads; it gains n/k split reads, and one random read exactly when it is the picked target |
| Accumulator.CreditAllAt | pypblat/pypblat.py:118-129 | the loop credits each target once per occurrence in the list |
| Accumulator.SaveTotals | pypblat/pypblat.py:116-131 | one save adds exactly 1 to the split total and 1 to the random total; it adds 1 unique read when k = 1, and k non-unique reads otherwise |
| Accumulator.SaveNonNegative | pypblat/pypblat.py:116-131 | a save only adds to counters: from non-negative tallies it builds non-negative tallies whose unique_over_total lies in [0, 1] |
| Accumulator.SingleTargetSave | pypblat/pypblat.py:116-131 | a single tied target gains one unique, one random and one whole split read |
| Accumulator.SaveExample | pypblat/pypblat.py:116-131 | two tied targets each get one non-unique read and half a split read; the pick gets the random read |
| Worker.RunsPartition | pypblat/pypblat.py:164-169 | the runs join back to the records; each run has one query name; neighbouring runs have different names |
| Worker.FoldRecords | pypblat/pypblat.py:158-171 | the loop's result equals FoldSpec: every closed run saved in order, the g-th with the g-th random pick; a failed save is the result. The open accumulator is returned with its targets |
| Worker.FoldStream | pypblat/pypblat.py:158-173 | the worker as written: Err(StopIteration) on no records, otherwise FoldSpec |
| Worker.FoldStreamSavingLast | pypblat/pypblat.py:158-173 | the worker with the last accumulator also saved before the map is handed on |
| Worker.EarlyError | pypblat/pypblat.py:167-168 | a save failing within the first i records is the fold's result, whatever follows |
| FoldFacts.SaveRunsFails | pypblat/pypblat.py:167-168 | saving runs fails exactly when one run has only negative scores, and then with ZeroDivisionError |
| FoldFacts.FoldFails | pypblat/pypblat.py:158-173 | the fold fails exactly when a closed run has only negative scores; the last run's scores never matter |
| FoldFacts.FoldTotals | pypblat/pypblat.py:158-173 | the fold as written adds (number of query runs - 1) to the split total and to the random total |
| FoldFacts.SavingLastTotals | pypblat/pypblat.py:158-173 | saving the last accumulator adds one split read and one random read per query run |
| FoldFacts.FoldNonNegative | pypblat/pypblat.py:154-173 | every tally the fold hands on, as written or saving the last query, has non-negative counters |
| FoldFacts.RunsOneQuery | pypblat/pypblat.py:164-171 | records of a single query name form one run |
| FoldFacts.OneQueryEmpty | pypblat/pypblat.py:158-173 | a worker that sees one query name hands on an empty map |
| FoldFacts.LastQueryDropped | pypblat/pypblat.py:158-173 | one alignment R1/T1/10: the fold as written yields an empty map, and the saving fold credits T1 |
| Pslx.ParseInt | pypblat/pslx_reader.py:38-39 | int() succeeds exactly on a run of decimal digits, bare or after one '+' or '-', so text such as "12.5", "1a2" or "+-5" is refused; a negative value only comes after a leading minus; every failure is ValueError |
| Pslx.ParseSigned | pypblat/pslx_reader.py:38-39 | a digit run, bare or after '+', reads as its decimal value (leading zeros included), and after '-' as its negation |
| Pslx.ParseExamples | pypblat/pslx_reader.py:38-39 | "007" and "+7" read as 7 and "-0" as 0; "12.5", "1a2", "+-5", "", "-" and "7-" are refused |
| Pslx.AsStrList | pypblat/pslx_reader.py:35-36 | as_list(str, s) returns only non-empty, comma-free pieces, and nothing for the empty string |
| Pslx.AsIntListPieces | pypblat/pslx_reader.py:35-36 | as_list(int, s) succeeds exactly when int() accepts every non-empty piece between commas, and then gives their values in order; otherwise it fails with ValueError |
| Pslx.TypesColumns | pypblat/pslx_reader.py:7-32 | types has 18 entries, str exactly at columns 8, 9 and 13 (strand, q_name, t_name), and they agree with the types of PslxLine's scalar fields |
| Pslx.AssembleScalars | pypblat/pslx_reader.py:7-30 | the positional constructor puts the 18 scalars and the 5 lists into the fields in declaration order |
| Pslx.DecodeLine | pypblat/pslx_reader.py:54-59 | the decoding __next__ does on a non-empty row never fails with StopIteration; DecodeOk, DecodeFields and DecodeErrors state what it yields and how it fails |
| Pslx.ParseShow | pypblat/pslx_reader.py:38-39 | int() reads back the decimal text of every integer |
| Pslx.ParseAllOk | pypblat/pslx_reader.py:36 | the int list parses exactly when every piece parses, piece by piece; otherwise it fails with ValueError |
| Pslx.PiecesShape | pypblat/pslx_reader.py:36 | as_list keeps only non-empty, comma-free pieces |
| Pslx.PiecesConcat | pypblat/pslx_reader.py:36 | the pieces of s + "," + t are those of s followed by those of t, so doubled and trailing commas add nothing |
| Pslx.PiecesEmpty | pypblat/pslx_reader.py:36 | the empty string gives no pieces |
| Pslx.NonEmptyKeeps | pypblat/pslx_reader.py:36 | the filter keeps exactly the non-empty pieces |
| Pslx.SplitJoin | pypblat/pslx_reader.py:36 | splitting a join of separator-free parts gives back the parts |
| Pslx.AsStrListJoin | pypblat/pslx_reader.py:36 | as_list(str, ",".join(xs)) == xs for non-empty, comma-free xs |
| Pslx.AsIntListJoin | pypblat/pslx_reader.py:36 | as_list(int, ...) reads back the comma-joined text of any int list |
| Pslx.Cast | pypblat/pslx_reader.py:32-39 | a str column stays as it is; an int column is a value exactly when int() accepts it; the only failure is ValueError |
| Pslx.CastFromOk | pypblat/pslx_reader.py:54 | the scalar casts succeed exactly when every column is within the 18 types and casts; each cast value is the cast of its column; failures are IndexError or ValueError |
| Pslx.CastFromExtra | pypblat/pslx_reader.py:54 | a 19th scalar column indexes past types: IndexError |
| Pslx.DecodeOk | pypblat/pslx_reader.py:32-59 | a row decodes exactly when it has 23 columns, its int columns parse and its three int lists parse |
| Pslx.ShortRow | pypblat/pslx_reader.py:55 | a row of fewer than 5 columns fails with IndexError at line[-5] |
| Pslx.MissingColumns | pypblat/pslx_reader.py:54-59 | 5 to 22 columns that cast leave constructor arguments missing: TypeError |
| Pslx.ExtraColumns | pypblat/pslx_reader.py:54 | more than 23 columns whose first 18 cast fail with IndexError |
| Pslx.DecodeErrors | pypblat/pslx_reader.py:38-59 | decoding fails only with IndexError, ValueError or TypeError |
| Pslx.DecodeFields | pypblat/pslx_reader.py:32-59 | scalar k of a decoded row is column k cast by types[k]; the five lists are the last five columns through as_list, in order |
| Pslx.AlignmentFields | pypblat/pslx_reader.py:7-21 | match is int() of column 0; q_name is column 9; t_name is column 13 |
| Pslx.DecodeEncode | pypblat/pslx_reader.py:32-59 | any record whose string lists hold non-empty, comma-free entries decodes from its written row, whatever block_count and the list lengths are |
| PslxStream.PslxReader.constructor | pypblat/pslx_reader.py:43-45 | a new reader is before its first row and decodes rows with DecodeLine |
| PslxStream.PslxReader.Next | pypblat/pslx_reader.py:50-59 | __next__ at the end or on an empty row raises StopIteration; otherwise it returns the decoded row; it advances by one row, also past a row that fails to decode |
| PslxStream.PslxReader.ReadAll | pypblat/pslx_reader.py:47-59 | iterating the reader yields the decoded rows up to the first empty row, the end, or the first bad row, plus the exception that ends it (RecordsSpec of the rows left); the reader is left just past the row that stopped it, or at the end |
| PslxStream.RecordsFrom | pypblat/pslx_reader.py:50-59 | the converse of RecordsShape: lines that __next__ gives one per row, ended by an exception, are what iterating those rows yields |
| PslxStream.RecordsShape | pypblat/pslx_reader.py:50-59 | record i is what __next__ gives for row i; the exception is what it gives for the row after the last record |
| PslxStream.RecordsStopAtEmpty | pypblat/pslx_reader.py:52-53 | an empty row ends the iteration, whatever rows follow it |
| PslxStream.RecordsBadRow | pypblat/pslx_reader.py:50-59 | a row that does not decode, after rows that do, ends the iteration with its error |
| PslxStream.RecordsEncode | pypblat/pslx_reader.py:50-59 | reading back the rows written for encodable records yields those records, then StopIteration |
| Pipe.ReadNamedPipe | pypblat/pypblat.py:154-173 | the worker over a reader returns PipeSpec of the reader's rows |
| Pipe.PipeOk | pypblat/pypblat.py:158-173 | a worker finishes only when its pipe ends normally; the result is then the fold of every decoded record |
| Pipe.PipeEncoded | pypblat/pypblat.py:155-173 | a pipe of well-formed rows is folded as if the records had been handed over directly |
| Pipe.PipeBadRow | pypblat/pypblat.py:164 | a bad row after good rows ends the worker with the decoding error, unless a save inside the loop has failed first; the save after the loop is never reached |
| Pipe.RaisedIgnoresLastSave | pypblat/pypblat.py:164-173 | a pipe that raises ends the worker with the same error whether or not the last query would be saved after the loop |
| Pipe.PipeNonNegative | pypblat/pypblat.py:154-173 | every tally a worker puts on the queue has non-negative counters |
| Pipe.MergedSharesBounded | pypblat/pypblat.py:188-199 | the unique_over_total of every target merged from the workers' results lies in [0, 1] |
| TeStats.Windowed | pypblat/te_stats.py:7-16 | windowed yields Windows(s, n): for n >= 1, the slices s[i..i+n] in order (none when s is shorter); for n = 0, the empty window, then each element alone |
| TeStats.WindowsSlide | pypblat/te_stats.py:14-16 | each window is the previous one shifted by one element |
| TeStats.LexTotal | pypblat/te_stats.py:34 | any two window texts are ordered one way or the other |
| TeStats.LexAntisym | pypblat/te_stats.py:34 | texts ordered both ways are equal |
| TeStats.LexTrans | pypblat/te_stats.py:34 | the text order is transitive |
| TeStats.SortSorted | pypblat/te_stats.py:34 | the sort returns its input sorted by window and rearranged |
| TeStats.SortGroup | pypblat/te_stats.py:34 | the sort is stable: the identifiers of each window keep their order |
| TeStats.SortCount | pypblat/te_stats.py:34 | the sort keeps how often each identifier occurs |
| TeStats.GroupEnd | pypblat/te_stats.py:36 | groupby's run from i ends at the first pair with another window |
| TeStats.CountRun | pypblat/te_stats.py:39-40 | counting the identifiers of one group gives the counts of the pairs seen so far plus the group |
| TeStats.MakeReferenceStatistics | pypblat/te_stats.py:27-50 | the three dictionaries equal CountsSpec, UniqueSpec and NonUniqueSpec of the generated pairs |
| TeStats.GroupEmpty | pypblat/te_stats.py:36-38 | a window has an empty group exactly when no pair carries it |
| TeStats.CountZero | pypblat/te_stats.py:39-40 | an identifier counts zero exactly when no pair carries it |
| TeStats.SpecsOfSorted | pypblat/te_stats.py:34-49 | sorting changes none of the three dictionaries |
| TeStats.ReferenceStatistics.constructor | pypblat/te_stats.py:19-24 | a new ReferenceStatistics has three empty dictionaries |
| TeFacts.CountsPerId | pypblat/te_stats.py:31-40 | an identifier's count is the number of windows of the records carrying it |
| TeFacts.NoWindowsOfId | pypblat/te_stats.py:31-33 | an identifier has no window exactly when all its records are shorter than read_len |
| TeFacts.CountedIds | pypblat/te_stats.py:29-49 | an identifier is a key of theoretical_counts exactly when one of its records is at least read_len long; its value is its number of windows |
| TeFacts.CountsSum | pypblat/te_stats.py:31-40 | the counts add up to the number of windows generated |
| TeFacts.WindowsPartition | pypblat/te_stats.py:36-47 | unique and non-unique keys are disjoint, and together they are every distinct window |
| TeFacts.GroupIds | pypblat/te_stats.py:36-38 | a window's identifier list names exactly the identifiers paired with it |
| TeFacts.GroupSize | pypblat/te_stats.py:36-38 | a window's identifier list is as long as the number of times the window was generated |
| TeFacts.UniqueMeaning | pypblat/te_stats.py:43-47 | a window is unique exactly when one identifier, and no other, is paired with it |
| TeFacts.GroupOrder | pypblat/te_stats.py:31-34 | a window's identifiers come in record order |
| TeFacts.SingleRecord | pypblat/te_stats.py:43-47 | a single record yields no non-unique windows |
| TeFacts.FiveWindows | pypblat/te_stats.py:27-50 | "AAAACCCC" as R1 with read length 4: five unique windows, theoretical_counts = {R1: 5}, no non-unique window |

## Left out

- FIFOs, file opening, `queue.put`, process fan-out, `make_fifos`,
  `rm_files`, `run_pblat` and `write_output`: these are I/O and
  concurrency. The pblat C library call is foreign code. The click command
  line and packaging are not modelled.
- `Bio.SeqIO` parsing: the records are given as (id, sequence) pairs,
  `SeqRecord(id, sequence)`.
- The csv module's quoting rules: a row is given already tab-split, as a
  sequence of strings.
- `int()` accepts a sign and ASCII decimal digits only. Surrounding
  whitespace, underscores between digits and non-ASCII Unicode decimal
  digits, which Python also accepts, are not modelled.
- `split_reads` and `unique_over_total` are floats in the source. They
  are exact reals here, so rounding is not modelled.
- `random.choice` is a caller-supplied natural number. Save picks
  `targets[pick % len(targets)]`; when a worker has fewer picks than
  saves, the missing ones are 0.
- `read_len` is a natural number. A negative `read_len` makes `islice`
  raise; that is not modelled.
- The PSLX field `match` is named `matches`, because `match` is a Dafny
  keyword.
- Pipe.ReadNamedPipe reads every record before folding, while the source
  folds each record as it is read. The result is the same, because
  reading a row has no effect that the fold can see. PipeSpec keeps the
  source's order of exceptions: a failed save comes before a bad row
  further down the pipe, and the save of the last query after the loop
  happens only when the loop ended normally.
- `make_reference_statistics` compares windows exactly as generated,
  with no upper-casing, and derives no per-identifier count of unique
  windows; the model does the same.

## Findings

| source | as written | input that shows it | evidently intended | confidence | as-written member | corrected member |
|---|---|---|---|---|---|---|
| pypblat/pypblat.py:164-173 | after the loop the open accumulator is dropped; `queue.put` hands on the map without saving the last query | a pipe with one alignment, query R1, target T1, score 10: the worker hands on an empty map | save the last accumulator before `queue.put`, so that every query counts one read | not executed | FoldFacts.LastQueryDropped | Worker.FoldStreamSavingLast |
