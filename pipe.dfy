/** read_named_pipe end to end: the rows of one pipe are decoded by the
    PSLX reader and the decoded records are folded by query. The reader is
    lazy, so an error that the fold meets comes before any decoding error
    further down the pipe. */
module Pipe {
  import opened Errors
  import opened Pslx
  import opened PslxStream
  import opened Tallies
  import opened Worker
  import opened FoldFacts

  /** (record.match, record.q_name, record.t_name), as the fold reads them. */
  function AlignmentOf(l: PslxLine): Alignment
  {
    Alignment(l.qName, l.tName, l.matches)
  }

  function AlignmentsOf(ls: seq<PslxLine>): (als: seq<Alignment>)
    ensures |als| == |ls|
  {
    seq(|ls|, i requires 0 <= i < |ls| => AlignmentOf(ls[i]))
  }

  /** The fold of the decoded records: as written (the open accumulator is
      dropped at the end) or, with saveLast, saving it as evidently meant. */
  function FoldWith(als: seq<Alignment>, picks: seq<nat>, saveLast: bool): Result<TallyMap<string>>
  {
    if saveLast then FoldSpecSavingLast(als, picks) else FoldSpec(als, picks)
  }

  /** What one worker puts on the queue, or the exception that stops it:
      the first next(reader) raising ends the worker with that exception;
      a failing save inside the loop ends it before any later row is read;
      a row that does not decode ends it once every record before it is
      folded, so the save after the loop never runs; the first empty row,
      or the end of the pipe, ends the loop normally, and only then is the
      open accumulator saved (with saveLast). */
  function PipeSpec(rows: seq<seq<string>>, picks: seq<nat>, saveLast: bool): Result<TallyMap<string>>
  {
    var rd := RecordsSpec(rows);
    if rd.lines == [] then Err(rd.end)
    else if rd.end == StopIteration then FoldWith(AlignmentsOf(rd.lines), picks, saveLast)
    else
      var closed := FoldSpec(AlignmentsOf(rd.lines), picks);
      if closed.Err? then closed else Err(rd.end)
  }

  /** read_named_pipe over a reader: every record is pulled from the
      reader, then folded. */
  method ReadNamedPipe(reader: PslxReader, picks: seq<nat>, saveLast: bool) returns (r: Result<TallyMap<string>>)
    requires reader.Valid() && reader.decode == DecodeLine
    modifies reader
    ensures r == PipeSpec(old(reader.rows[reader.pos..]), picks, saveLast)
  {
    RecordsIsWith(reader.rows[reader.pos..]);
    var lines, end := reader.ReadAll();
    if lines == [] {
      return Err(end);
    }
    if saveLast && end == StopIteration {
      r := FoldStreamSavingLast(AlignmentsOf(lines), picks);
    } else {
      r := FoldStream(AlignmentsOf(lines), picks);
      if r.Ok? && end != StopIteration {
        r := Err(end);
      }
    }
  }

  /** A worker finishes only when its pipe ends normally, and then it puts
      the fold of every record it decoded on the queue. */
  lemma PipeOk(rows: seq<seq<string>>, picks: seq<nat>, saveLast: bool)
    requires PipeSpec(rows, picks, saveLast).Ok?
    ensures RecordsSpec(rows).end == StopIteration
    ensures PipeSpec(rows, picks, saveLast) == FoldWith(AlignmentsOf(RecordsSpec(rows).lines), picks, saveLast)
    ensures forall i :: 0 <= i < |RecordsSpec(rows).lines| ==> NextSpec(rows, i) == Ok(RecordsSpec(rows).lines[i])
  {
    RecordsShape(rows);
  }

  /** A pipe that carries well-formed records, one per row, is folded as
      if the records had been handed over directly. */
  lemma PipeEncoded(ls: seq<PslxLine>, picks: seq<nat>, saveLast: bool)
    requires forall i :: 0 <= i < |ls| ==> Encodable(ls[i])
    ensures PipeSpec(EncodeAll(ls), picks, saveLast) == FoldWith(AlignmentsOf(ls), picks, saveLast)
  {
    RecordsEncode(ls);
  }

  /** A row that does not decode, after rows that do, ends the worker
      with the decoding error unless a save inside the loop has failed
      first; the save after the loop is never reached. */
  lemma PipeBadRow(rows: seq<seq<string>>, bad: seq<string>, more: seq<seq<string>>, picks: seq<nat>, saveLast: bool)
    requires |RecordsSpec(rows).lines| == |rows|
    requires bad != [] && DecodeLine(bad).Err?
    requires rows != [] && FoldSpec(AlignmentsOf(RecordsSpec(rows).lines), picks).Ok?
    ensures PipeSpec(rows + [bad] + more, picks, saveLast) == Err(DecodeLine(bad).error)
  {
    var all := rows + [bad] + more;
    var lines := RecordsSpec(rows).lines;
    RecordsBadRow(rows, bad, more);
    PipeStoppedBy(all, picks, saveLast, lines, DecodeLine(bad).error);
  }

  /** A fold that succeeds over records the reader stopped handing out
      with an error other than StopIteration ends with that error. */
  lemma PipeStoppedBy(rows: seq<seq<string>>, picks: seq<nat>, saveLast: bool, lines: seq<PslxLine>, e: Error)
    requires RecordsSpec(rows) == Read(lines, e) && e != StopIteration
    requires lines != [] && FoldSpec(AlignmentsOf(lines), picks).Ok?
    ensures PipeSpec(rows, picks, saveLast) == Err(e)
  {
  }

  /** A pipe that ends with an exception raises it, or a loop save's error,
      whether or not the open accumulator would have been saved after the
      loop. */
  lemma RaisedIgnoresLastSave(rows: seq<seq<string>>, picks: seq<nat>)
    requires RecordsSpec(rows).end != StopIteration
    ensures PipeSpec(rows, picks, true) == PipeSpec(rows, picks, false)
    ensures PipeSpec(rows, picks, true).Err?
  {
  }

  /** Every tally a worker puts on the queue has non-negative counters. */
  lemma PipeNonNegative(rows: seq<seq<string>>, picks: seq<nat>, saveLast: bool)
    requires PipeSpec(rows, picks, saveLast).Ok?
    ensures AllNonNegative(PipeSpec(rows, picks, saveLast).value)
  {
    PipeOk(rows, picks, saveLast);
    FoldNonNegative(AlignmentsOf(RecordsSpec(rows).lines), picks);
  }

  /** merge_results over what the workers put on the queue: every merged
      target's unique_over_total lies in [0, 1]. */
  lemma MergedSharesBounded(pipes: seq<seq<seq<string>>>, picks: seq<seq<nat>>, saveLast: bool, results: seq<TallyMap<string>>)
    requires |pipes| == |picks| == |results|
    requires forall j :: 0 <= j < |pipes| ==> PipeSpec(pipes[j], picks[j], saveLast) == Ok(results[j])
    ensures forall k :: k in MergeSpec(results) ==> 0.0 <= UniqueOverTotal(MergeSpec(results)[k]) <= 1.0
  {
    forall j | 0 <= j < |results| ensures AllNonNegative(results[j]) {
      PipeNonNegative(pipes[j], picks[j], saveLast);
    }
    MergeNonNegative(results);
  }
}
