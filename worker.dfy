/** The grouping fold of one worker (read_named_pipe): alignments arrive
    grouped by query name; each maximal run of equal query names is fed to
    one accumulator, and when the query name changes the finished
    accumulator is saved into the worker's tally map. The records are given
    as a sequence of (query name, target name, score) triples, already read. */
module Worker {
  import opened Errors
  import opened Seqs
  import opened Tallies
  import opened Accumulator

  /** The three fields of a PSLX record that the fold reads. */
  datatype Alignment = Alignment(qName: string, tName: string, score: int)

  /** The hits an accumulator sees for a run of alignments. */
  function HitsOf(run: seq<Alignment>): (h: seq<Hit>)
    ensures |h| == |run|
  {
    if run == [] then [] else HitsOf(run[..|run| - 1]) + [Hit(run[|run| - 1].tName, run[|run| - 1].score)]
  }

  lemma HitsOfAppend(run: seq<Alignment>, x: Alignment)
    ensures HitsOf(run + [x]) == HitsOf(run) + [Hit(x.tName, x.score)]
  {
    PrefixOfAppend(run, x);
  }

  lemma HitsOfSingle(x: Alignment)
    ensures HitsOf([x]) == [Hit(x.tName, x.score)]
    ensures HitsOf([x]) == [] + [Hit(x.tName, x.score)]
  {
    HitsOfAppend([], x);
    assert [] + [x] == [x];
  }

  /** The records cut into maximal runs of consecutive equal query names. */
  function Runs(rs: seq<Alignment>): (runs: seq<seq<Alignment>>)
    ensures rs == [] <==> runs == []
  {
    if rs == [] then []
    else
      var p := Runs(rs[..|rs| - 1]);
      var x := rs[|rs| - 1];
      if p != [] && p[|p| - 1] != [] && p[|p| - 1][0].qName == x.qName then p[..|p| - 1] + [p[|p| - 1] + [x]]
      else p + [[x]]
  }

  /** The runs whose accumulator has been replaced, and so saved. */
  function Done(rs: seq<Alignment>): seq<seq<Alignment>>
    requires rs != []
  {
    Runs(rs)[..|Runs(rs)| - 1]
  }

  /** The run whose accumulator is still open. */
  function Current(rs: seq<Alignment>): seq<Alignment>
    requires rs != []
  {
    Runs(rs)[|Runs(rs)| - 1]
  }

  lemma RunsSplit(rs: seq<Alignment>)
    requires rs != []
    ensures Runs(rs) == Done(rs) + [Current(rs)]
  {
  }

  lemma RunsFirst(x: Alignment)
    ensures Runs([x]) == [[x]]
  {
    assert [x][..0] == [];
  }

  /** A record with the open run's query name joins that run. */
  lemma RunsExtend(rs: seq<Alignment>, x: Alignment)
    requires rs != [] && Current(rs) != [] && Current(rs)[0].qName == x.qName
    ensures Done(rs + [x]) == Done(rs) && Current(rs + [x]) == Current(rs) + [x]
  {
    PrefixOfAppend(rs, x);
    var p := Runs(rs);
    assert Runs(rs + [x]) == p[..|p| - 1] + [p[|p| - 1] + [x]];
  }

  /** A record with another query name closes the open run and opens a new one. */
  lemma RunsBreak(rs: seq<Alignment>, x: Alignment)
    requires rs != [] && (Current(rs) == [] || Current(rs)[0].qName != x.qName)
    ensures Done(rs + [x]) == Runs(rs) && Current(rs + [x]) == [x]
  {
    PrefixOfAppend(rs, x);
    assert Runs(rs + [x]) == Runs(rs) + [[x]];
  }

  /** Every run is non-empty. */
  lemma {:induction false} RunsNonEmpty(rs: seq<Alignment>)
    ensures forall j :: 0 <= j < |Runs(rs)| ==> Runs(rs)[j] != []
  {
    if rs != [] {
      var p := rs[..|rs| - 1];
      var x := rs[|rs| - 1];
      RunsNonEmpty(p);
      assert rs == p + [x];
      if p == [] {
        RunsFirst(x);
      } else if Current(p)[0].qName == x.qName {
        RunsExtend(p, x);
        RunsSplit(p);
        RunsSplit(rs);
      } else {
        RunsBreak(p, x);
        RunsSplit(rs);
      }
    }
  }

  /** The runs joined back together. */
  function Flatten(runs: seq<seq<Alignment>>): seq<Alignment>
  {
    if runs == [] then [] else Flatten(runs[..|runs| - 1]) + runs[|runs| - 1]
  }

  /** A non-empty run of one query name. */
  predicate SameQuery(run: seq<Alignment>)
  {
    run != [] && forall k :: 0 <= k < |run| ==> run[k].qName == run[0].qName
  }

  /** Runs of one query name each, where neighbours have different names. */
  predicate Maximal(runs: seq<seq<Alignment>>)
  {
    (forall j :: 0 <= j < |runs| ==> SameQuery(runs[j]))
    && forall j :: 0 <= j < |runs| - 1 ==> runs[j][0].qName != runs[j + 1][0].qName
  }

  lemma FlattenAppend(runs: seq<seq<Alignment>>, run: seq<Alignment>)
    ensures Flatten(runs + [run]) == Flatten(runs) + run
  {
    PrefixOfAppend(runs, run);
  }

  lemma MaximalExtend(done: seq<seq<Alignment>>, cur: seq<Alignment>, x: Alignment)
    requires Maximal(done + [cur]) && cur != [] && cur[0].qName == x.qName
    ensures Maximal(done + [cur + [x]])
  {
    var before := done + [cur];
    var after := done + [cur + [x]];
    assert forall j :: 0 <= j < |done| ==> after[j] == before[j];
    assert after[|done|] == cur + [x];
    assert SameQuery(before[|done|]);
  }

  lemma MaximalBreak(runs: seq<seq<Alignment>>, x: Alignment)
    requires Maximal(runs) && (runs == [] || runs[|runs| - 1][0].qName != x.qName)
    ensures Maximal(runs + [[x]])
  {
    var after := runs + [[x]];
    assert forall j :: 0 <= j < |runs| ==> after[j] == runs[j];
    assert SameQuery(after[|runs|]);
  }

  /** Runs cuts the records into maximal runs of query names: joined back
      together they are the records, each run carries one query name, and
      neighbouring runs carry different ones. */
  lemma {:induction false} RunsPartition(rs: seq<Alignment>)
    ensures Flatten(Runs(rs)) == rs
    ensures Maximal(Runs(rs))
  {
    if rs != [] {
      var p := rs[..|rs| - 1];
      var x := rs[|rs| - 1];
      RunsPartition(p);
      assert rs == p + [x];
      if p == [] {
        RunsFirst(x);
        FlattenAppend([], [x]);
        MaximalBreak([], x);
      } else {
        RunsSplit(p);
        RunsNonEmpty(p);
        FlattenAppend(Done(p), Current(p));
        if Current(p)[0].qName == x.qName {
          RunsExtend(p, x);
          RunsSplit(rs);
          FlattenAppend(Done(p), Current(p) + [x]);
          MaximalExtend(Done(p), Current(p), x);
        } else {
          RunsBreak(p, x);
          RunsSplit(rs);
          FlattenAppend(Runs(p), [x]);
          MaximalBreak(Runs(p), x);
        }
      }
    }
  }

  /** The random choice of the `g`-th save: `picks[g]`, or 0 past the end. */
  function PickAt(picks: seq<nat>, g: nat): nat
  {
    if g < |picks| then picks[g] else 0
  }

  /** The saves of the runs in order, the `g`-th with the `g`-th random
      choice; the first save that divides by zero ends the fold. */
  function SaveRuns(d: TallyMap<string>, runs: seq<seq<Alignment>>, picks: seq<nat>): Result<TallyMap<string>>
  {
    if runs == [] then Ok(d)
    else
      var before :- SaveRuns(d, runs[..|runs| - 1], picks);
      SaveSpec(before, TiedTargets(HitsOf(runs[|runs| - 1])), PickAt(picks, |runs| - 1))
  }

  /** What the worker puts on the queue: no record at all stops the
      iteration; otherwise every run but the last is saved. */
  function FoldSpec(records: seq<Alignment>, picks: seq<nat>): Result<TallyMap<string>>
  {
    if records == [] then Err(StopIteration) else SaveRuns(map[], Done(records), picks)
  }

  lemma SaveRunsAppend(d: TallyMap<string>, runs: seq<seq<Alignment>>, run: seq<Alignment>, picks: seq<nat>)
    ensures SaveRuns(d, runs + [run], picks)
         == match SaveRuns(d, runs, picks)
            case Err(e) => Err(e)
            case Ok(before) => SaveSpec(before, TiedTargets(HitsOf(run)), PickAt(picks, |runs|))
  {
    PrefixOfAppend(runs, run);
  }

  /** Once a save has failed, later runs do not matter. */
  lemma {:induction false} SaveRunsErr(d: TallyMap<string>, runs: seq<seq<Alignment>>, more: seq<seq<Alignment>>, picks: seq<nat>)
    requires SaveRuns(d, runs, picks).Err?
    ensures SaveRuns(d, runs + more, picks) == SaveRuns(d, runs, picks)
    decreases |more|
  {
    if more == [] {
      AppendEmpty(runs);
    } else {
      var m := more[..|more| - 1];
      SaveRunsErr(d, runs, m, picks);
      AppendLast(runs, more);
      SaveRunsAppend(d, runs + m, more[|more| - 1], picks);
    }
  }

  /** The closed runs of a prefix of the records are a prefix of the closed runs of all. */
  lemma {:induction false} DonePrefix(rs: seq<Alignment>, i: nat)
    requires 1 <= i <= |rs|
    ensures exists more :: Done(rs[..i]) + more == Done(rs)
    decreases |rs| - i
  {
    if i == |rs| {
      PrefixAll(rs);
      assert Done(rs[..i]) + [] == Done(rs);
    } else {
      DonePrefix(rs, i + 1);
      var more :| Done(rs[..i + 1]) + more == Done(rs);
      TakeNext(rs, i);
      RunsNonEmpty(rs[..i]);
      RunsSplit(rs[..i]);
      if Current(rs[..i])[0].qName == rs[i].qName {
        RunsExtend(rs[..i], rs[i]);
        assert Done(rs[..i]) + more == Done(rs);
      } else {
        RunsBreak(rs[..i], rs[i]);
        AppendAssoc(Done(rs[..i]), [Current(rs[..i])], more);
        assert Done(rs[..i]) + ([Current(rs[..i])] + more) == Done(rs);
      }
    }
  }

  /** A save that fails within the first `i` records is the fold's result. */
  lemma EarlyError(rs: seq<Alignment>, i: nat, picks: seq<nat>)
    requires 1 <= i <= |rs|
    requires SaveRuns(map[], Done(rs[..i]), picks).Err?
    ensures FoldSpec(rs, picks) == SaveRuns(map[], Done(rs[..i]), picks)
  {
    DonePrefix(rs, i);
    var more :| Done(rs[..i]) + more == Done(rs);
    SaveRunsErr(map[], Done(rs[..i]), more, picks);
  }

  /** The state of the fold after the first `i` records: the closed runs,
      the open run, and the tally map the closed runs were saved into. */
  ghost predicate Folded(records: seq<Alignment>, i: nat, done: seq<seq<Alignment>>, cur: seq<Alignment>,
                         expressions: TallyMap<string>, picks: seq<nat>)
  {
    1 <= i <= |records| && done == Done(records[..i]) && cur == Current(records[..i]) && cur != []
    && SaveRuns(map[], done, picks) == Ok(expressions)
  }

  lemma FoldStart(records: seq<Alignment>, picks: seq<nat>)
    requires records != []
    ensures Folded(records, 1, [], [records[0]], map[], picks)
    ensures HitsOf([records[0]]) == [Hit(records[0].tName, records[0].score)]
  {
    RunsFirst(records[0]);
    assert records[..1] == [records[0]];
    HitsOfSingle(records[0]);
  }

  /** A record of the open query joins the open run. */
  lemma FoldExtend(records: seq<Alignment>, i: nat, done: seq<seq<Alignment>>, cur: seq<Alignment>,
                   expressions: TallyMap<string>, picks: seq<nat>)
    requires i < |records| && Folded(records, i, done, cur, expressions, picks)
    requires cur[0].qName == records[i].qName
    ensures Folded(records, i + 1, done, cur + [records[i]], expressions, picks)
    ensures HitsOf(cur + [records[i]]) == HitsOf(cur) + [Hit(records[i].tName, records[i].score)]
  {
    TakeNext(records, i);
    RunsExtend(records[..i], records[i]);
    HitsOfAppend(cur, records[i]);
  }

  /** A record of another query saves the open run: a failed save is the
      fold's result, a successful one opens a run with this record. */
  lemma FoldBreak(records: seq<Alignment>, i: nat, done: seq<seq<Alignment>>, cur: seq<Alignment>,
                  expressions: TallyMap<string>, picks: seq<nat>)
    requires i < |records| && Folded(records, i, done, cur, expressions, picks)
    requires cur[0].qName != records[i].qName
    ensures var res := SaveSpec(expressions, TiedTargets(HitsOf(cur)), PickAt(picks, |done|));
      (res.Err? ==> FoldSpec(records, picks) == res)
      && (res.Ok? ==> Folded(records, i + 1, done + [cur], [records[i]], res.value, picks))
    ensures HitsOf([records[i]]) == [] + [Hit(records[i].tName, records[i].score)]
  {
    TakeNext(records, i);
    RunsSplit(records[..i]);
    RunsBreak(records[..i], records[i]);
    HitsOfSingle(records[i]);
    SaveRunsAppend(map[], done, cur, picks);
    if SaveSpec(expressions, TiedTargets(HitsOf(cur)), PickAt(picks, |done|)).Err? {
      EarlyError(records, i + 1, picks);
    }
  }

  lemma FoldEnd(records: seq<Alignment>, done: seq<seq<Alignment>>, cur: seq<Alignment>,
                expressions: TallyMap<string>, picks: seq<nat>)
    requires Folded(records, |records|, done, cur, expressions, picks)
    ensures FoldSpec(records, picks) == Ok(expressions)
  {
    PrefixAll(records);
  }

  /** The first record opens the first accumulator. */
  method OpenQuery(records: seq<Alignment>, picks: seq<nat>) returns (working: QueryAccumulator)
    requires records != []
    ensures Folded(records, 1, [], [records[0]], map[], picks)
    ensures fresh(working) && working.Valid() && working.qName == records[0].qName
    ensures working.history == HitsOf([records[0]])
  {
    working := new QueryAccumulator(records[0].qName);
    working.Update(records[0].tName, records[0].score);
    FoldStart(records, picks);
  }

  /** A record with a new query name: the open accumulator is saved into
      the tally map and a fresh accumulator, opened for the new name, takes
      the record. */
  method CloseQuery(records: seq<Alignment>, i: nat, ghost done: seq<seq<Alignment>>, ghost cur: seq<Alignment>,
                    working: QueryAccumulator, expressions: TallyMap<string>, picks: seq<nat>, saved: nat)
    returns (res: Result<TallyMap<string>>, next: QueryAccumulator)
    requires i < |records| && Folded(records, i, done, cur, expressions, picks) && saved == |done|
    requires working.Valid() && working.history == HitsOf(cur)
    requires cur[0].qName != records[i].qName
    ensures res.Err? ==> res == FoldSpec(records, picks)
    ensures res.Ok? ==> Folded(records, i + 1, done + [cur], [records[i]], res.value, picks)
    ensures fresh(next) && next.Valid() && next.qName == records[i].qName
    ensures next.history == HitsOf([records[i]])
  {
    res := working.Save(expressions, PickAt(picks, saved));
    FoldBreak(records, i, done, cur, expressions, picks);
    next := new QueryAccumulator(records[i].qName);
    next.Update(records[i].tName, records[i].score);
  }

  /** A record of the open query updates the open accumulator. */
  method ExtendQuery(records: seq<Alignment>, i: nat, ghost done: seq<seq<Alignment>>, ghost cur: seq<Alignment>,
                     working: QueryAccumulator, expressions: TallyMap<string>, picks: seq<nat>)
    requires i < |records| && Folded(records, i, done, cur, expressions, picks)
    requires working.Valid() && working.history == HitsOf(cur)
    requires cur[0].qName == records[i].qName
    modifies working
    ensures Folded(records, i + 1, done, cur + [records[i]], expressions, picks)
    ensures working.Valid()
    ensures working.history == HitsOf(cur + [records[i]])
  {
    FoldExtend(records, i, done, cur, expressions, picks);
    working.Update(records[i].tName, records[i].score);
  }

  /** One record of the pipe: a new query name saves the open accumulator
      and opens a fresh one; the record then updates the open accumulator. */
  method Feed(records: seq<Alignment>, i: nat, ghost done: seq<seq<Alignment>>, ghost cur: seq<Alignment>,
              working: QueryAccumulator, expressions: TallyMap<string>, picks: seq<nat>, saved: nat)
    returns (res: Result<TallyMap<string>>, next: QueryAccumulator,
             ghost done': seq<seq<Alignment>>, ghost cur': seq<Alignment>, saved': nat)
    requires i < |records| && Folded(records, i, done, cur, expressions, picks) && saved == |done|
    requires working.Valid() && working.qName == cur[0].qName && working.history == HitsOf(cur)
    modifies working
    ensures res.Err? ==> res == FoldSpec(records, picks)
    ensures res.Ok? ==> Folded(records, i + 1, done', cur', res.value, picks) && saved' == |done'|
    ensures res.Ok? ==> next == working || fresh(next)
    ensures res.Ok? ==> next.Valid() && next.qName == cur'[0].qName && next.history == HitsOf(cur')
  {
    if records[i].qName != working.qName {
      res, next := CloseQuery(records, i, done, cur, working, expressions, picks, saved);
      done', cur', saved' := done + [cur], [records[i]], saved + 1;
    } else {
      ExtendQuery(records, i, done, cur, working, expressions, picks);
      res, next := Ok(expressions), working;
      done', cur', saved' := done, cur + [records[i]], saved;
    }
  }

  /** What the worker evidently means to put on the queue: every run saved,
      the last one included. */
  function FoldSpecSavingLast(records: seq<Alignment>, picks: seq<nat>): Result<TallyMap<string>>
  {
    if records == [] then Err(StopIteration) else SaveRuns(map[], Runs(records), picks)
  }

  lemma SavingLastEnd(records: seq<Alignment>, done: seq<seq<Alignment>>, cur: seq<Alignment>,
                      expressions: TallyMap<string>, picks: seq<nat>)
    requires Folded(records, |records|, done, cur, expressions, picks)
    ensures FoldSpecSavingLast(records, picks) == SaveSpec(expressions, TiedTargets(HitsOf(cur)), PickAt(picks, |done|))
  {
    PrefixAll(records);
    RunsSplit(records);
    SaveRunsAppend(map[], done, cur, picks);
  }

  lemma SavingLastErr(records: seq<Alignment>, picks: seq<nat>)
    requires records != [] && FoldSpec(records, picks).Err?
    ensures FoldSpecSavingLast(records, picks) == FoldSpec(records, picks)
  {
    RunsSplit(records);
    SaveRunsErr(map[], Done(records), [Current(records)], picks);
  }

  /** The loop of read_named_pipe: the first record opens an accumulator;
      each later record with a new query name saves the open accumulator
      into the tally map and opens a fresh one; every record then updates
      the open accumulator. Returns the tally map and the accumulator still
      open when the records run out. */
  method FoldRecords(records: seq<Alignment>, picks: seq<nat>)
    returns (r: Result<TallyMap<string>>, working: QueryAccumulator, saved: nat)
    requires records != []
    ensures r == FoldSpec(records, picks)
    ensures r.Ok? ==> working.Valid()
    ensures r.Ok? ==> FoldSpecSavingLast(records, picks) == SaveSpec(r.value, working.targets, PickAt(picks, saved))
  {
    var expressions: TallyMap<string> := map[];
    working := OpenQuery(records, picks);
    ghost var done: seq<seq<Alignment>>, cur := [], [records[0]];
    saved := 0;
    var i := 1;
    while i < |records|
      invariant Folded(records, i, done, cur, expressions, picks)
      invariant saved == |done|
      invariant fresh(working) && working.Valid()
      invariant working.qName == cur[0].qName && working.history == HitsOf(cur)
    {
      var res, next, saved';
      ghost var done', cur';
      res, next, done', cur', saved' := Feed(records, i, done, cur, working, expressions, picks, saved);
      if res.Err? {
        return res, working, saved;
      }
      expressions, working, saved := res.value, next, saved';
      done, cur := done', cur';
      i := i + 1;
    }
    FoldEnd(records, done, cur, expressions, picks);
    SavingLastEnd(records, done, cur, expressions, picks);
    r := Ok(expressions);
  }

  /** read_named_pipe as written: the tally map is put on the queue and the
      accumulator still open is dropped. */
  method FoldStream(records: seq<Alignment>, picks: seq<nat>) returns (r: Result<TallyMap<string>>)
    ensures r == FoldSpec(records, picks)
  {
    if |records| == 0 {
      return Err(StopIteration);
    }
    var working, saved;
    r, working, saved := FoldRecords(records, picks);
  }

  /** read_named_pipe with the open accumulator saved once the records run
      out, before the tally map is put on the queue. */
  method FoldStreamSavingLast(records: seq<Alignment>, picks: seq<nat>) returns (r: Result<TallyMap<string>>)
    ensures r == FoldSpecSavingLast(records, picks)
  {
    if |records| == 0 {
      return Err(StopIteration);
    }
    var working, saved;
    r, working, saved := FoldRecords(records, picks);
    if r.Ok? {
      r := working.Save(r.value, PickAt(picks, saved));
    } else {
      SavingLastErr(records, picks);
    }
  }
}
