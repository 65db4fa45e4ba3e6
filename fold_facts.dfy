/** What the worker's fold puts on the queue: how many reads it counts,
    when it fails, and what the dropped last query costs. */
module FoldFacts {
  import opened Errors
  import opened Seqs
  import opened Tallies
  import opened Accumulator
  import opened Worker

  /** The hits of a run are its records' targets and scores, position by position. */
  lemma {:induction false} HitsOfAt(run: seq<Alignment>, k: nat)
    requires k < |run|
    ensures HitsOf(run)[k] == Hit(run[k].tName, run[k].score)
    decreases |run|
  {
    var p := run[..|run| - 1];
    if k < |p| {
      HitsOfAt(p, k);
    }
  }

  /** Every alignment of the run scores below zero. */
  predicate AllNegative(run: seq<Alignment>)
  {
    forall k :: 0 <= k < |run| ==> run[k].score < 0
  }

  /** A run has no tied target exactly when all its scores are negative. */
  lemma NegativeRun(run: seq<Alignment>)
    ensures TiedTargets(HitsOf(run)) == [] <==> AllNegative(run)
  {
    var h := HitsOf(run);
    NoTiedTargets(h);
    forall k | 0 <= k < |run|
      ensures h[k].score == run[k].score
    {
      HitsOfAt(run, k);
    }
  }

  /** Saving the runs fails exactly when one of them has only negative
      scores, and the failure is then a division by zero. */
  lemma {:induction false} SaveRunsFails(d: TallyMap<string>, runs: seq<seq<Alignment>>, picks: seq<nat>)
    ensures SaveRuns(d, runs, picks).Err? <==> exists j :: 0 <= j < |runs| && AllNegative(runs[j])
    ensures SaveRuns(d, runs, picks).Err? ==> SaveRuns(d, runs, picks) == Err(ZeroDivisionError)
    decreases |runs|
  {
    if runs != [] {
      var p := runs[..|runs| - 1];
      var last := runs[|runs| - 1];
      SaveRunsFails(d, p, picks);
      NegativeRun(last);
      assert forall j :: 0 <= j < |p| ==> runs[j] == p[j];
      if SaveRuns(d, p, picks).Ok? {
        assert forall j :: 0 <= j < |runs| && AllNegative(runs[j]) ==> j == |runs| - 1;
      }
    }
  }

  /** Every successful save adds one read to the split and random columns. */
  lemma {:induction false} SaveRunsTotals(d: TallyMap<string>, runs: seq<seq<Alignment>>, picks: seq<nat>)
    requires SaveRuns(d, runs, picks).Ok?
    ensures Total(SaveRuns(d, runs, picks).value, Split) == Total(d, Split) + |runs| as real
    ensures Total(SaveRuns(d, runs, picks).value, Random) == Total(d, Random) + |runs| as real
    decreases |runs|
  {
    if runs != [] {
      var p := runs[..|runs| - 1];
      SaveRunsTotals(d, p, picks);
      var before := SaveRuns(d, p, picks).value;
      SaveTotals(before, TiedTargets(HitsOf(runs[|runs| - 1])), PickAt(picks, |runs| - 1));
    }
  }

  lemma {:induction false} SaveRunsNonNegative(d: TallyMap<string>, runs: seq<seq<Alignment>>, picks: seq<nat>)
    requires AllNonNegative(d) && SaveRuns(d, runs, picks).Ok?
    ensures AllNonNegative(SaveRuns(d, runs, picks).value)
    decreases |runs|
  {
    if runs != [] {
      var p := runs[..|runs| - 1];
      SaveRunsNonNegative(d, p, picks);
      SaveNonNegative(SaveRuns(d, p, picks).value, TiedTargets(HitsOf(runs[|runs| - 1])), PickAt(picks, |runs| - 1));
    }
  }

  /** Every tally a worker hands on, as written or saving the last query,
      has non-negative counters. */
  lemma FoldNonNegative(records: seq<Alignment>, picks: seq<nat>)
    ensures FoldSpec(records, picks).Ok? ==> AllNonNegative(FoldSpec(records, picks).value)
    ensures FoldSpecSavingLast(records, picks).Ok? ==> AllNonNegative(FoldSpecSavingLast(records, picks).value)
  {
    var empty: TallyMap<string> := map[];
    if records != [] {
      if FoldSpec(records, picks).Ok? {
        SaveRunsNonNegative(empty, Done(records), picks);
      }
      if FoldSpecSavingLast(records, picks).Ok? {
        SaveRunsNonNegative(empty, Runs(records), picks);
      }
    }
  }

  /** The fold as written counts one read for every query but the last. */
  lemma FoldTotals(records: seq<Alignment>, picks: seq<nat>)
    requires FoldSpec(records, picks).Ok?
    ensures records != []
    ensures Total(FoldSpec(records, picks).value, Split) == (|Runs(records)| - 1) as real
    ensures Total(FoldSpec(records, picks).value, Random) == (|Runs(records)| - 1) as real
  {
    RunsSplit(records);
    TotalEmpty<string>(map[], Split);
    TotalEmpty<string>(map[], Random);
    SaveRunsTotals(map[], Done(records), picks);
  }

  /** The fold that also saves the last query counts one read for every query. */
  lemma SavingLastTotals(records: seq<Alignment>, picks: seq<nat>)
    requires FoldSpecSavingLast(records, picks).Ok?
    ensures Total(FoldSpecSavingLast(records, picks).value, Split) == |Runs(records)| as real
    ensures Total(FoldSpecSavingLast(records, picks).value, Random) == |Runs(records)| as real
  {
    TotalEmpty<string>(map[], Split);
    TotalEmpty<string>(map[], Random);
    SaveRunsTotals(map[], Runs(records), picks);
  }

  /** The fold fails exactly when a saved query has only negative scores;
      the last query is never saved, so its scores do not matter. */
  lemma FoldFails(records: seq<Alignment>, picks: seq<nat>)
    requires records != []
    ensures FoldSpec(records, picks).Err? <==> exists j :: 0 <= j < |Done(records)| && AllNegative(Done(records)[j])
    ensures FoldSpec(records, picks).Err? ==> FoldSpec(records, picks) == Err(ZeroDivisionError)
  {
    SaveRunsFails(map[], Done(records), picks);
  }

  /** Records of a single query form a single run. */
  lemma {:induction false} RunsOneQuery(rs: seq<Alignment>)
    requires rs != []
    requires forall k :: 0 <= k < |rs| ==> rs[k].qName == rs[0].qName
    ensures Runs(rs) == [rs]
    decreases |rs|
  {
    if |rs| == 1 {
      RunsFirst(rs[0]);
      assert rs == [rs[0]];
    } else {
      var p := rs[..|rs| - 1];
      var x := rs[|rs| - 1];
      RunsOneQuery(p);
      assert rs == p + [x];
      RunsExtend(p, x);
      RunsSplit(rs);
      Literals(p + [x], p, p);
      assert Runs(rs) == [] + [p + [x]];
    }
  }

  /** A worker that sees a single query puts an empty tally map on the queue. */
  lemma OneQueryEmpty(records: seq<Alignment>, picks: seq<nat>)
    requires records != []
    requires forall k :: 0 <= k < |records| ==> records[k].qName == records[0].qName
    ensures FoldSpec(records, picks) == Ok(map[])
  {
    RunsOneQuery(records);
  }

  /** A single alignment ties its target exactly when it scores at least 0. */
  lemma SingleHit(x: Alignment)
    ensures TiedTargets(HitsOf([x])) == if x.score >= 0 then [x.tName] else []
  {
    var h := Hit(x.tName, x.score);
    HitsOfSingle(x);
    UpdateStep([], h);
    Literals(h, h, h);
    Literals(x.tName, x.tName, x.tName);
  }

  /** One alignment of one read: the fold as written reports nothing, while
      saving the last query credits the read to its target. */
  lemma LastQueryDropped()
    ensures FoldSpec([Alignment("R1", "T1", 10)], []) == Ok(map[])
    ensures FoldSpecSavingLast([Alignment("R1", "T1", 10)], []) == Ok(map["T1" := Tally(0, 1, 1, 1.0)])
  {
    var x := Alignment("R1", "T1", 10);
    RunsFirst(x);
    SingleHit(x);
    SingleTargetSave(map[], "T1", 0);
    assert [[x]][..0] == [];
  }
}
