/** Per-target read tallies (TranscriptionExpressResults) and the key-wise
    merge of the per-worker tally maps (merge_results). */
module Tallies {
  import opened Errors
  import opened Sums

  /** The four counters of one target. The source's `split_reads` is a
      float; here it is an exact `real`. */
  datatype Tally = Tally(nonUniqueReads: int, uniqueReads: int, randomlyMappedReads: int, splitReads: real)
  {
    /** total_size: the reads credited to this target as unique or non-unique. */
    function TotalSize(): (n: int)
      ensures NonNegative() ==> uniqueReads <= n && nonUniqueReads <= n
      ensures NonNegative() ==> (n == 0 <==> uniqueReads == 0 && nonUniqueReads == 0)
    {
      uniqueReads + nonUniqueReads
    }

    /** Counters that never went below zero. Every tally a save or a merge
        builds from non-negative tallies is one (Accumulator.SaveNonNegative,
        MergeNonNegative). */
    predicate NonNegative()
    {
      nonUniqueReads >= 0 && uniqueReads >= 0 && randomlyMappedReads >= 0
    }

  }

  /** unique_over_total: the unique share of a target's credited reads, 0 when
      nothing was credited. */
  function UniqueOverTotal(t: Tally): (f: real)
    ensures t.NonNegative() ==> 0.0 <= f <= 1.0
    ensures t.TotalSize() != 0 ==> f * (t.TotalSize() as real) == t.uniqueReads as real
    ensures t.NonNegative() ==> (f == 0.0 <==> t.uniqueReads == 0)
    ensures t.NonNegative() ==> (f == 1.0 <==> t.uniqueReads > 0 && t.nonUniqueReads == 0)
  {
    if t.TotalSize() == 0 then 0.0 else t.uniqueReads as real / t.TotalSize() as real
  }

  /** A freshly constructed TranscriptionExpressResults. */
  const Zero := Tally(0, 0, 0, 0.0)

  /** The per-worker dictionary from target name to tally. */
  type TallyMap<K> = map<K, Tally>

  /** The tally of `k`, or a zero tally when `k` has none yet. */
  function Get<K>(d: TallyMap<K>, k: K): Tally
  {
    if k in d then d[k] else Zero
  }

  /** Every tally of the map has non-negative counters. */
  predicate AllNonNegative<K>(d: TallyMap<K>)
  {
    forall k :: k in d ==> d[k].NonNegative()
  }

  /** Counter-wise sum of two tallies. */
  function Add(x: Tally, y: Tally): Tally
  {
    Tally(x.nonUniqueReads + y.nonUniqueReads, x.uniqueReads + y.uniqueReads,
          x.randomlyMappedReads + y.randomlyMappedReads, x.splitReads + y.splitReads)
  }

  /** Names the four counters, so that one conservation lemma covers each. */
  datatype Counter = NonUnique | Unique | Random | Split

  function Value(t: Tally, c: Counter): real
  {
    match c
    case NonUnique => t.nonUniqueReads as real
    case Unique => t.uniqueReads as real
    case Random => t.randomlyMappedReads as real
    case Split => t.splitReads
  }

  /** One counter of every target. */
  ghost function Column<K>(d: TallyMap<K>, c: Counter): map<K, real>
  {
    map k | k in d :: Value(d[k], c)
  }

  /** One counter summed over all targets of a map. */
  ghost function Total<K>(d: TallyMap<K>, c: Counter): real
  {
    Sum(Column(d, c))
  }

  lemma TotalUpdate<K>(d: TallyMap<K>, k: K, t: Tally, c: Counter)
    ensures Total(d[k := t], c) == Total(d, c) - Value(Get(d, k), c) + Value(t, c)
  {
    assert Column(d[k := t], c) == Column(d, c)[k := Value(t, c)];
    SumUpdate(Column(d, c), k, Value(t, c));
  }

  lemma TotalRemove<K>(d: TallyMap<K>, k: K, c: Counter)
    requires k in d
    ensures Total(d, c) == Value(d[k], c) + Total(d - {k}, c)
  {
    assert Column(d - {k}, c) == Column(d, c) - {k};
    SumRemove(Column(d, c), k);
  }

  lemma TotalEmpty<K>(d: TallyMap<K>, c: Counter)
    requires d == map[]
    ensures Total(d, c) == 0.0
  {
    assert |Column(d, c)| == 0;
  }

  /** Key-wise sum of two tally maps: a key absent from one side contributes zero. */
  function AddMaps<K>(a: TallyMap<K>, b: TallyMap<K>): (r: TallyMap<K>)
    ensures r.Keys == a.Keys + b.Keys
  {
    map k | k in a.Keys + b.Keys :: Add(Get(a, k), Get(b, k))
  }

  lemma AddMapsUpdate<K>(a: TallyMap<K>, b: TallyMap<K>, k: K)
    requires k in b
    ensures Get(AddMaps(a, b - {k}), k) == Get(a, k)
    ensures AddMaps(a, b) == AddMaps(a, b - {k})[k := Add(Get(a, k), b[k])]
  {
    var l := AddMaps(a, b - {k})[k := Add(Get(a, k), b[k])];
    assert AddMaps(a, b).Keys == l.Keys;
    forall j | j in l ensures AddMaps(a, b)[j] == l[j] {
      if j != k {
        assert Get(b - {k}, j) == Get(b, j);
      }
    }
  }

  /** A fresh tally has credited nothing, and adding it to a tally
      changes nothing. */
  lemma FreshTally(x: Tally)
    ensures Zero.NonNegative() && Zero.TotalSize() == 0 && UniqueOverTotal(Zero) == 0.0
    ensures Add(x, Zero) == x && Add(Zero, x) == x
  {
    AddZero(x);
  }

  lemma AddZero(x: Tally)
    ensures Add(x, Zero) == x && Add(Zero, x) == x
  {
  }

  lemma ValueAdd(x: Tally, y: Tally, c: Counter)
    ensures Value(Add(x, y), c) == Value(x, c) + Value(y, c)
  {
  }

  lemma AddMapsEmpty<K>(a: TallyMap<K>, b: TallyMap<K>)
    requires b == map[]
    ensures AddMaps(a, b) == a
  {
    forall k | k in a ensures AddMaps(a, b)[k] == a[k] {
      AddZero(a[k]);
    }
  }

  /** Summing two maps key-wise sums each counter's grand total. */
  lemma {:induction false} TotalAddMaps<K>(a: TallyMap<K>, b: TallyMap<K>, c: Counter)
    ensures Total(AddMaps(a, b), c) == Total(a, c) + Total(b, c)
    decreases |b|
  {
    if |b| == 0 {
      AddMapsEmpty(a, b);
      TotalEmpty(b, c);
    } else {
      var k :| k in b;
      var b' := b - {k};
      assert b'.Keys == b.Keys - {k};
      TotalAddMaps(a, b', c);
      AddMapsUpdate(a, b, k);
      var t := Add(Get(a, k), b[k]);
      TotalUpdate(AddMaps(a, b'), k, t, c);
      ValueAdd(Get(a, k), b[k], c);
      TotalRemove(b, k, c);
    }
  }

  /** The union of the key sets of a list of maps. */
  function KeyUnion<K>(rs: seq<TallyMap<K>>): set<K>
  {
    if rs == [] then {} else KeyUnion(rs[..|rs| - 1]) + rs[|rs| - 1].Keys
  }

  /** The tally of `k` summed over every map of `rs` that holds `k`. */
  function SumAt<K>(rs: seq<TallyMap<K>>, k: K): Tally
  {
    if rs == [] then Zero else Add(SumAt(rs[..|rs| - 1], k), Get(rs[|rs| - 1], k))
  }

  /** What merge_results computes: every key of any input, mapped to the
      counter-wise sum over the inputs that hold it. */
  function MergeSpec<K>(rs: seq<TallyMap<K>>): TallyMap<K>
  {
    map k | k in KeyUnion(rs) :: SumAt(rs, k)
  }

  /** One counter summed over all targets of all inputs. */
  ghost function TotalOfAll<K>(rs: seq<TallyMap<K>>, c: Counter): real
  {
    if rs == [] then 0.0 else TotalOfAll(rs[..|rs| - 1], c) + Total(rs[|rs| - 1], c)
  }

  lemma KeyUnionMember<K>(rs: seq<TallyMap<K>>, k: K)
    ensures k in KeyUnion(rs) <==> exists j :: 0 <= j < |rs| && k in rs[j]
  {
    if rs != [] {
      var p := rs[..|rs| - 1];
      KeyUnionMember(p, k);
      if k in KeyUnion(p) {
        var j :| 0 <= j < |p| && k in p[j];
        assert rs[j] == p[j];
      }
      forall j | 0 <= j < |p| ensures rs[j] == p[j] { }
    }
  }

  lemma {:induction false} SumAtAbsent<K>(rs: seq<TallyMap<K>>, k: K)
    requires k !in KeyUnion(rs)
    ensures SumAt(rs, k) == Zero
  {
    if rs != [] {
      var p := rs[..|rs| - 1];
      SumAtAbsent(p, k);
      assert Get(rs[|rs| - 1], k) == Zero;
      assert SumAt(rs, k) == Add(Zero, Zero);
    }
  }

  /** Merging one more worker's map adds it key-wise to the merge of the others. */
  lemma MergeAppend<K>(rs: seq<TallyMap<K>>, m: TallyMap<K>)
    ensures MergeSpec(rs + [m]) == AddMaps(MergeSpec(rs), m)
  {
    var rs' := rs + [m];
    assert rs'[..|rs'| - 1] == rs;
    forall k | k in KeyUnion(rs') ensures SumAt(rs', k) == Add(Get(MergeSpec(rs), k), Get(m, k)) {
      if k !in KeyUnion(rs) {
        SumAtAbsent(rs, k);
      }
    }
  }

  /** Merging preserves every counter's grand total. */
  lemma {:induction false} MergeTotal<K>(rs: seq<TallyMap<K>>, c: Counter)
    ensures Total(MergeSpec(rs), c) == TotalOfAll(rs, c)
  {
    if rs == [] {
      assert MergeSpec(rs) == map[];
      TotalEmpty(MergeSpec(rs), c);
    } else {
      var p := rs[..|rs| - 1];
      assert rs == p + [rs[|rs| - 1]];
      MergeTotal(p, c);
      MergeAppend(p, rs[|rs| - 1]);
      TotalAddMaps(MergeSpec(p), rs[|rs| - 1], c);
    }
  }

  lemma {:induction false} SumAtNonNegative<K>(rs: seq<TallyMap<K>>, k: K)
    requires forall j :: 0 <= j < |rs| ==> AllNonNegative(rs[j])
    ensures SumAt(rs, k).NonNegative()
  {
    if rs != [] {
      var p := rs[..|rs| - 1];
      assert forall j :: 0 <= j < |p| ==> p[j] == rs[j];
      SumAtNonNegative(p, k);
      assert AllNonNegative(rs[|rs| - 1]);
    }
  }

  /** Merging maps of non-negative tallies gives non-negative tallies, so
      every merged target's unique share lies in [0, 1]. */
  lemma MergeNonNegative<K>(rs: seq<TallyMap<K>>)
    requires forall j :: 0 <= j < |rs| ==> AllNonNegative(rs[j])
    ensures AllNonNegative(MergeSpec(rs))
    ensures forall k :: k in MergeSpec(rs) ==> 0.0 <= UniqueOverTotal(MergeSpec(rs)[k]) <= 1.0
  {
    forall k | k in MergeSpec(rs) ensures MergeSpec(rs)[k].NonNegative() {
      SumAtNonNegative(rs, k);
    }
  }

  /** A single worker's map merges to itself. */
  lemma MergeSingleton<K>(m: TallyMap<K>)
    ensures MergeSpec([m]) == m
  {
    assert [m][..0] == [];
    assert KeyUnion([m]) == m.Keys;
    forall k | k in m ensures SumAt([m], k) == m[k] {
      assert SumAt([m], k) == Add(Zero, m[k]);
    }
  }

  /** `d` with the tallies of `result` added in for the keys in `done`. */
  function AddSome<K>(d: TallyMap<K>, result: TallyMap<K>, done: set<K>): (r: TallyMap<K>)
    ensures r.Keys == d.Keys
  {
    map k | k in d :: if k in done then Add(d[k], Get(result, k)) else d[k]
  }

  lemma AddSomeStep<K>(d: TallyMap<K>, result: TallyMap<K>, done: set<K>, key: K)
    requires key in d && key in result && key !in done
    ensures AddSome(d, result, done + {key}) == AddSome(d, result, done)[key := Add(d[key], result[key])]
  {
  }

  /** `d` with every tally of `result` added in. */
  function AddAll<K>(d: TallyMap<K>, result: TallyMap<K>): TallyMap<K>
  {
    map k | k in d :: Add(d[k], Get(result, k))
  }

  /** The inner loop of merge_results: adds one worker's counters into `d`. */
  method AddInto<K>(d: TallyMap<K>, result: TallyMap<K>) returns (d': TallyMap<K>)
    requires result.Keys <= d.Keys
    ensures d' == AddAll(d, result)
  {
    d' := d;
    var pending := result.Keys;
    var done: set<K> := {};
    while pending != {}
      invariant pending <= result.Keys
      invariant done == result.Keys - pending
      invariant d' == AddSome(d, result, done)
      decreases pending
    {
      var key :| key in pending;
      AddSomeStep(d, result, done, key);
      var t := d'[key];
      t := t.(nonUniqueReads := t.nonUniqueReads + result[key].nonUniqueReads);
      t := t.(uniqueReads := t.uniqueReads + result[key].uniqueReads);
      t := t.(randomlyMappedReads := t.randomlyMappedReads + result[key].randomlyMappedReads);
      t := t.(splitReads := t.splitReads + result[key].splitReads);
      d' := d'[key := t];
      pending := pending - {key};
      done := done + {key};
    }
    assert done == result.Keys;
  }

  /** The merge state after the first `j` inputs. */
  function MergedPrefix<K>(keys: set<K>, rs: seq<TallyMap<K>>, j: nat): TallyMap<K>
    requires j <= |rs|
  {
    map k | k in keys :: SumAt(rs[..j], k)
  }

  lemma MergedPrefixNext<K>(keys: set<K>, rs: seq<TallyMap<K>>, j: nat)
    requires j < |rs|
    ensures AddAll(MergedPrefix(keys, rs, j), rs[j]) == MergedPrefix(keys, rs, j + 1)
  {
    assert rs[..j + 1][..j] == rs[..j];
  }

  lemma MergedPrefixAll<K>(rs: seq<TallyMap<K>>)
    ensures MergedPrefix(KeyUnion(rs), rs, |rs|) == MergeSpec(rs)
  {
    assert rs[..|rs|] == rs;
  }

  lemma KeysCovered<K>(rs: seq<TallyMap<K>>, j: nat)
    requires j < |rs|
    ensures rs[j].Keys <= KeyUnion(rs)
  {
    forall k | k in rs[j] ensures k in KeyUnion(rs) { KeyUnionMember(rs, k); }
  }

  /** merge_results: builds the union of the key sets by reduce (which has no
      initial value, so an empty list fails), zero-initialises every key and
      adds each input's counters in. */
  method Merge<K>(results: seq<TallyMap<K>>) returns (r: Result<TallyMap<K>>)
    ensures results == [] ==> r == Err(TypeError)
    ensures results != [] ==> r == Ok(MergeSpec(results))
  {
    if |results| == 0 {
      return Err(TypeError);
    }
    var allKeys := results[0].Keys;
    var i := 1;
    assert results[..1][..0] == [];
    while i < |results|
      invariant 1 <= i <= |results|
      invariant allKeys == KeyUnion(results[..i])
    {
      assert results[..i + 1][..i] == results[..i];
      allKeys := allKeys + results[i].Keys;
      i := i + 1;
    }
    assert results[..|results|] == results;

    var d := map k | k in allKeys :: Zero;
    var j := 0;
    assert d == MergedPrefix(allKeys, results, 0);
    while j < |results|
      invariant 0 <= j <= |results|
      invariant d == MergedPrefix(allKeys, results, j)
    {
      KeysCovered(results, j);
      MergedPrefixNext(allKeys, results, j);
      d := AddInto(d, results[j]);
      j := j + 1;
    }
    MergedPrefixAll(results);
    return Ok(d);
  }

  lemma MergeTwice<K>(m: TallyMap<K>)
    ensures MergeSpec([m, m]) == AddMaps(m, m)
  {
    MergeSingleton(m);
    MergeAppend([m], m);
    assert [m] + [m] == [m, m];
  }

  /** Two workers that each saw one unique read of T1 merge to two unique reads. */
  lemma MergeTwoWorkers()
    ensures MergeSpec([map["T1" := Tally(0, 1, 0, 0.0)], map["T1" := Tally(0, 1, 0, 0.0)]])
         == map["T1" := Tally(0, 2, 0, 0.0)]
  {
    var m := map["T1" := Tally(0, 1, 0, 0.0)];
    MergeTwice(m);
    var r := AddMaps(m, m);
    assert r.Keys == {"T1"};
    assert r["T1"] == Add(m["T1"], m["T1"]) == Tally(0, 2, 0, 0.0);
    assert r == map["T1" := Tally(0, 2, 0, 0.0)];
  }
}
