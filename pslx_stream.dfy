/** The PSLX reader: rows handed out one at a time, decoded, until the
    rows run out or one is empty. */
module PslxStream {
  import opened Errors
  import opened Seqs
  import opened Pslx

  /** What iterating the reader yields: the decoded lines, then the
      exception that ended the iteration (StopIteration when it ran out
      or met an empty row, a decoding error otherwise). */
  datatype Read = Read(lines: seq<PslxLine>, end: Error)

  /** Iterating over tab-split rows: each non-empty row is decoded in
      order, and the first empty row, the end of the rows or the first
      row that does not decode ends it. */
  function RecordsSpec(rows: seq<seq<string>>): (r: Read)
    ensures |r.lines| <= |rows|
  {
    if rows == [] || rows[0] == [] then Read([], StopIteration)
    else match DecodeLine(rows[0])
      case Err(e) => Read([], e)
      case Ok(l) => var rest := RecordsSpec(rows[1..]); Read([l] + rest.lines, rest.end)
  }

  /** One call of __next__ on the rows from `pos` on. */
  function NextSpec(rows: seq<seq<string>>, pos: nat): Result<PslxLine>
  {
    if pos >= |rows| || rows[pos] == [] then Err(StopIteration) else DecodeLine(rows[pos])
  }

  /** PslxReader over the rows of a stream already split at tabs. */
  class PslxReader {
    const rows: seq<seq<string>>
    /** How a row becomes a line. The constructor sets it to DecodeLine
        (PslxLine's casts and constructor); the reader's own proofs hold
        for any decoder, and NextIsWith and RecordsIsWith turn them into
        statements about DecodeLine. */
    const decode: seq<string> -> Result<PslxLine>
    /** How many rows the csv reader has handed out. */
    var pos: nat

    predicate Valid()
      reads this
    {
      pos <= |rows|
    }

    constructor (rows: seq<seq<string>>)
      ensures this.rows == rows && decode == DecodeLine && pos == 0 && Valid()
    {
      this.rows := rows;
      decode := DecodeLine;
      pos := 0;
    }

    /** __next__: take the next row; the end of the rows or an empty row
        is a StopIteration, anything else is decoded. A row is used up
        even when it fails to decode. */
    method Next() returns (r: Result<PslxLine>)
      requires Valid()
      modifies this
      ensures Valid()
      ensures r == NextWith(rows, old(pos), decode)
      ensures pos == if old(pos) < |rows| then old(pos) + 1 else old(pos)
    {
      if pos == |rows| {
        return Err(StopIteration);
      }
      var line := rows[pos];
      pos := pos + 1;
      if line == [] {
        return Err(StopIteration);
      }
      r := decode(line);
    }

    /** Iterating the reader to its end: every line it yields, and the
        exception that stops it. The reader keeps the rows after the one
        that stopped it. */
    method ReadAll() returns (lines: seq<PslxLine>, end: Error)
      requires Valid()
      modifies this
      ensures Valid()
      ensures Read(lines, end) == RecordsWith(old(rows[pos..]), decode)
      ensures pos == if old(pos) + |lines| < |rows| then old(pos) + |lines| + 1 else |rows|
    {
      ghost var start := pos;
      lines := [];
      end := StopIteration;
      var done := false;
      while !done
        invariant Valid() && start <= pos && start + |lines| <= |rows|
        invariant forall k :: 0 <= k < |lines| ==> NextWith(rows, start + k, decode) == Ok(lines[k])
        invariant !done ==> pos == start + |lines|
        invariant done ==> NextWith(rows, start + |lines|, decode) == Err(end)
        invariant done ==> pos == if start + |lines| < |rows| then start + |lines| + 1 else |rows|
        decreases |rows| - pos, if done then 0 else 1
      {
        var r := Next();
        if r.Ok? {
          lines := lines + [r.value];
        } else {
          end := r.error;
          done := true;
        }
      }
      RecordsWithFrom(rows, decode, start, lines, end);
    }
  }

  function Prepend(acc: seq<PslxLine>, rd: Read): Read
  {
    Read(acc + rd.lines, rd.end)
  }

  /** One step of the iteration: a line read is the head of what is left,
      an exception ends it. */
  lemma RecordsStep(rows: seq<seq<string>>, pos: nat)
    requires pos <= |rows|
    ensures NextSpec(rows, pos).Ok? ==>
      pos < |rows| && RecordsSpec(rows[pos..]) == Prepend([NextSpec(rows, pos).value], RecordsSpec(rows[pos + 1..]))
    ensures NextSpec(rows, pos).Err? ==> RecordsSpec(rows[pos..]) == Read([], NextSpec(rows, pos).error)
  {
    if pos < |rows| {
      assert rows[pos..][1..] == rows[pos + 1..];
    }
  }

  /** Iteration with any row decoder in place of DecodeLine: the proofs
      about the order of iteration do not depend on how a row decodes. */
  function RecordsWith(rows: seq<seq<string>>, decode: seq<string> -> Result<PslxLine>): Read
  {
    if rows == [] || rows[0] == [] then Read([], StopIteration)
    else match decode(rows[0])
      case Err(e) => Read([], e)
      case Ok(l) => var rest := RecordsWith(rows[1..], decode); Read([l] + rest.lines, rest.end)
  }

  function NextWith(rows: seq<seq<string>>, pos: nat, decode: seq<string> -> Result<PslxLine>): Result<PslxLine>
  {
    if pos >= |rows| || rows[pos] == [] then Err(StopIteration) else decode(rows[pos])
  }

  /** With DecodeLine as the decoder, RecordsWith is RecordsSpec. */
  lemma {:induction false} RecordsIsWith(rows: seq<seq<string>>)
    ensures RecordsSpec(rows) == RecordsWith(rows, DecodeLine)
    decreases |rows|
  {
    if rows != [] && rows[0] != [] {
      RecordsIsWith(rows[1..]);
    }
  }

  /** With DecodeLine as the decoder, NextWith is NextSpec. */
  lemma NextIsWith(rows: seq<seq<string>>, pos: nat)
    ensures NextSpec(rows, pos) == NextWith(rows, pos, DecodeLine)
  {
  }

  /** Lines that the decoder gives one per row from row `start` on, ended
      by an exception, are what iterating those rows yields. */
  lemma {:induction false} RecordsWithFrom(rows: seq<seq<string>>, decode: seq<string> -> Result<PslxLine>,
                                           start: nat, lines: seq<PslxLine>, end: Error)
    requires start + |lines| <= |rows|
    requires forall k :: 0 <= k < |lines| ==> NextWith(rows, start + k, decode) == Ok(lines[k])
    requires NextWith(rows, start + |lines|, decode) == Err(end)
    ensures RecordsWith(rows[start..], decode) == Read(lines, end)
    decreases |lines|
  {
    if lines != [] {
      assert rows[start..][1..] == rows[start + 1..];
      assert NextWith(rows, start, decode) == Ok(lines[0]);
      forall k | 0 <= k < |lines[1..]|
        ensures NextWith(rows, start + 1 + k, decode) == Ok(lines[1..][k])
      {
        assert NextWith(rows, start + (k + 1), decode) == Ok(lines[k + 1]);
      }
      RecordsWithFrom(rows, decode, start + 1, lines[1..], end);
      HeadTail(lines);
    }
  }

  /** The converse of RecordsShape, from row `start` on: lines that
      __next__ gives one per row, ended by an exception, are what
      iterating the rows from `start` yields. */
  lemma RecordsFrom(rows: seq<seq<string>>, start: nat, lines: seq<PslxLine>, end: Error)
    requires start + |lines| <= |rows|
    requires forall k :: 0 <= k < |lines| ==> NextSpec(rows, start + k) == Ok(lines[k])
    requires NextSpec(rows, start + |lines|) == Err(end)
    ensures RecordsSpec(rows[start..]) == Read(lines, end)
  {
    RecordsIsWith(rows[start..]);
    forall j | start <= j <= start + |lines|
      ensures NextWith(rows, j, DecodeLine) == NextSpec(rows, j)
    {
      NextIsWith(rows, j);
    }
    RecordsWithFrom(rows, DecodeLine, start, lines, end);
  }

  lemma NextShift(rows: seq<seq<string>>, i: nat)
    requires rows != []
    ensures NextSpec(rows, i + 1) == NextSpec(rows[1..], i)
  {
  }

  /** Line i of the iteration is what __next__ gives for row i, and the
      exception that ends it is what __next__ gives for the row after the
      last line. */
  lemma {:induction false} RecordsShape(rows: seq<seq<string>>)
    ensures forall i :: 0 <= i < |RecordsSpec(rows).lines| ==> NextSpec(rows, i) == Ok(RecordsSpec(rows).lines[i])
    ensures NextSpec(rows, |RecordsSpec(rows).lines|) == Err(RecordsSpec(rows).end)
    decreases |rows|
  {
    RecordsStep(rows, 0);
    assert rows[0..] == rows;
    if NextSpec(rows, 0).Ok? {
      var rest := RecordsSpec(rows[1..]);
      RecordsShape(rows[1..]);
      var r := RecordsSpec(rows);
      assert r.lines == [NextSpec(rows, 0).value] + rest.lines;
      forall i | 0 <= i < |r.lines|
        ensures NextSpec(rows, i) == Ok(r.lines[i])
      {
        if i > 0 {
          NextShift(rows, i - 1);
        }
      }
      NextShift(rows, |rest.lines|);
    }
  }

  /** The iteration is over at the first empty row: whatever follows it
      is never read. */
  lemma {:induction false} RecordsStopAtEmpty(rows: seq<seq<string>>, more: seq<seq<string>>)
    ensures RecordsSpec(rows + [[]] + more) == RecordsSpec(rows)
    decreases |rows|
  {
    var all := rows + [[]] + more;
    if rows == [] {
      assert all[0] == [];
    } else {
      assert all[0] == rows[0];
      assert all[1..] == rows[1..] + [[]] + more;
      RecordsStopAtEmpty(rows[1..], more);
    }
  }

  /** Once every row has decoded, a row that does not decode ends the
      reading with its error, whatever follows it. */
  lemma {:induction false} RecordsBadRow(rows: seq<seq<string>>, bad: seq<string>, more: seq<seq<string>>)
    requires |RecordsSpec(rows).lines| == |rows|
    requires bad != [] && DecodeLine(bad).Err?
    ensures RecordsSpec(rows + [bad] + more) == Read(RecordsSpec(rows).lines, DecodeLine(bad).error)
    decreases |rows|
  {
    var all := rows + [bad] + more;
    if rows == [] {
      assert all[0] == bad;
    } else {
      TailOfAppend(rows, [bad]);
      TailOfAppend(rows + [bad], more);
      RecordsBadRow(rows[1..], bad, more);
    }
  }

  /** The rows a writer puts out for the lines, one per line. */
  function EncodeAll(ls: seq<PslxLine>): (rows: seq<seq<string>>)
    ensures |rows| == |ls|
  {
    if ls == [] then [] else [Encode(ls[0])] + EncodeAll(ls[1..])
  }

  /** Reading back the rows written for encodable lines yields those lines
      and stops at the end of the rows. */
  lemma {:induction false} RecordsEncode(ls: seq<PslxLine>)
    requires forall i :: 0 <= i < |ls| ==> Encodable(ls[i])
    ensures RecordsSpec(EncodeAll(ls)) == Read(ls, StopIteration)
    decreases |ls|
  {
    if ls != [] {
      var rows := EncodeAll(ls);
      assert rows[0] == Encode(ls[0]) && rows[1..] == EncodeAll(ls[1..]);
      assert forall i :: 1 <= i < |ls| ==> ls[1..][i - 1] == ls[i];
      RecordsEncode(ls[1..]);
      DecodeEncode(ls[0]);
      assert |Encode(ls[0])| == 23;
      HeadTail(ls);
    }
  }
}
