/** The per-query accumulator of one worker (TranscriptionExpressionValues):
    it keeps the best alignment score seen for a query and the targets that
    reached it, and on save credits those targets in the worker's tally map. */
module Accumulator {
  import opened Errors
  import opened Tallies
  import opened Seqs

  /** One alignment of the current query: the target it hit and its score. */
  datatype Hit = Hit(target: string, score: int)

  /** The best score among the hits, starting from the initial best score 0. */
  function BestScore(h: seq<Hit>): (r: int)
    ensures r >= 0
  {
    if h == [] then 0
    else
      var b := BestScore(h[..|h| - 1]);
      if b < h[|h| - 1].score then h[|h| - 1].score else b
  }

  /** The best score is the maximum of 0 and every hit's score. */
  lemma {:induction false} BestScoreIsMaximum(h: seq<Hit>)
    ensures forall i :: 0 <= i < |h| ==> h[i].score <= BestScore(h)
    ensures BestScore(h) == 0 || exists i :: 0 <= i < |h| && h[i].score == BestScore(h)
  {
    if h != [] {
      var p := h[..|h| - 1];
      BestScoreIsMaximum(p);
      assert forall i :: 0 <= i < |p| ==> h[i] == p[i];
    }
  }

  /** The targets of the hits scoring exactly `s`, in arrival order. */
  function TargetsAt(h: seq<Hit>, s: int): (ts: seq<string>)
    ensures |ts| <= |h|
  {
    if h == [] then []
    else
      var p := TargetsAt(h[..|h| - 1], s);
      if h[|h| - 1].score == s then p + [h[|h| - 1].target] else p
  }

  /** The targets tied at the best score: what `targets` holds after the hits. */
  function TiedTargets(h: seq<Hit>): seq<string>
  {
    TargetsAt(h, BestScore(h))
  }

  lemma {:induction false} TargetsAtNone(h: seq<Hit>, s: int)
    requires forall i :: 0 <= i < |h| ==> h[i].score < s
    ensures TargetsAt(h, s) == []
  {
    if h != [] {
      var p := h[..|h| - 1];
      assert forall i :: 0 <= i < |p| ==> p[i] == h[i];
      TargetsAtNone(p, s);
    }
  }

  /** A target is tied exactly when one of its hits has the given score. */
  lemma {:induction false} TargetsAtMember(h: seq<Hit>, s: int, t: string)
    ensures t in TargetsAt(h, s) <==> exists i :: 0 <= i < |h| && h[i] == Hit(t, s)
  {
    if h != [] {
      var p := h[..|h| - 1];
      TargetsAtMember(p, s, t);
      if t in TargetsAt(p, s) {
        var i :| 0 <= i < |p| && p[i] == Hit(t, s);
        assert h[i] == p[i];
      }
      forall i | 0 <= i < |p| ensures h[i] == p[i] { }
    }
  }

  /** How one more hit moves the best score and the tied targets: a better
      score restarts the list, an equal one extends it, a worse one is
      ignored. */
  lemma UpdateStep(h: seq<Hit>, x: Hit)
    ensures BestScore(h) < x.score ==>
      BestScore(h + [x]) == x.score && TiedTargets(h + [x]) == [x.target]
    ensures BestScore(h) == x.score ==>
      BestScore(h + [x]) == x.score && TiedTargets(h + [x]) == TiedTargets(h) + [x.target]
    ensures BestScore(h) > x.score ==>
      BestScore(h + [x]) == BestScore(h) && TiedTargets(h + [x]) == TiedTargets(h)
  {
    PrefixOfAppend(h, x);
    if BestScore(h) < x.score {
      BestScoreIsMaximum(h);
      TargetsAtNone(h, x.score);
    }
  }

  /** The accumulator of one query name. `history` is the sequence of hits
      given to Update since construction; it exists only for the proof. */
  class QueryAccumulator {
    const qName: string
    var bestScore: int
    var targets: seq<string>
    ghost var history: seq<Hit>

    ghost predicate Valid()
      reads this
    {
      bestScore == BestScore(history) && targets == TiedTargets(history)
    }

    /** A fresh accumulator: best score 0 and no targets. */
    constructor (qName: string)
      ensures this.qName == qName
      ensures bestScore == 0 && targets == [] && history == []
      ensures Valid()
    {
      this.qName := qName;
      bestScore := 0;
      targets := [];
      history := [];
    }

    /** update: a strictly better score replaces the targets, an equal score
        appends the target, a worse one changes nothing. */
    method Update(targetName: string, score: int)
      requires Valid()
      modifies this
      ensures Valid()
      ensures history == old(history) + [Hit(targetName, score)]
      ensures old(bestScore) < score ==> bestScore == score && targets == [targetName]
      ensures old(bestScore) == score ==> bestScore == score && targets == old(targets) + [targetName]
      ensures old(bestScore) > score ==> bestScore == old(bestScore) && targets == old(targets)
    {
      UpdateStep(history, Hit(targetName, score));
      if bestScore < score {
        targets := [targetName];
        bestScore := score;
      } else if bestScore == score {
        targets := targets + [targetName];
      }
      history := history + [Hit(targetName, score)];
    }

    /** save: credits every target, as unique when there is exactly one and
        as non-unique otherwise, adds the split share 1/len(targets) to each,
        then gives one randomly mapped read to one of the targets: the one
        at `pick` modulo their number. No targets divides by zero. */
    method Save(d: TallyMap<string>, pick: nat) returns (r: Result<TallyMap<string>>)
      ensures r == SaveSpec(d, targets, pick)
    {
      if |targets| == 0 {
        return Err(ZeroDivisionError);
      }
      var splitVal := 1.0 / |targets| as real;
      var isUnique := |targets| == 1;
      var d' := d;
      var i := 0;
      while i < |targets|
        invariant 0 <= i <= |targets|
        invariant d' == CreditAll(d, targets[..i], isUnique, splitVal)
      {
        CreditAllNext(d, targets, i, isUnique, splitVal);
        var target := targets[i];
        var record := if target in d' then d'[target] else Zero;
        if isUnique {
          record := record.(uniqueReads := record.uniqueReads + 1);
        } else {
          record := record.(nonUniqueReads := record.nonUniqueReads + 1);
        }
        record := record.(splitReads := record.splitReads + splitVal);
        assert record == Credit(Get(d', target), isUnique, splitVal);
        d' := d'[target := record];
        i := i + 1;
      }
      PrefixAll(targets);
      var chosen := targets[pick % |targets|];
      SaveShape(d, targets, pick);
      var record := d'[chosen];
      d' := d'[chosen := record.(randomlyMappedReads := record.randomlyMappedReads + 1)];
      return Ok(d');
    }
  }

  /** One target's credit from a saved query. */
  function Credit(t: Tally, unique: bool, share: real): Tally
  {
    if unique then Tally(t.nonUniqueReads, t.uniqueReads + 1, t.randomlyMappedReads, t.splitReads + share)
    else Tally(t.nonUniqueReads + 1, t.uniqueReads, t.randomlyMappedReads, t.splitReads + share)
  }

  /** `d` after every target of `ts` (repeats included) has been credited. */
  function CreditAll<K>(d: TallyMap<K>, ts: seq<K>, unique: bool, share: real): TallyMap<K>
  {
    if ts == [] then d
    else
      var p := ts[..|ts| - 1];
      var c := CreditAll(d, p, unique, share);
      var t := ts[|ts| - 1];
      c[t := Credit(Get(c, t), unique, share)]
  }

  lemma {:induction false} CreditAllKeys<K>(d: TallyMap<K>, ts: seq<K>, unique: bool, share: real, t: K)
    ensures t in CreditAll(d, ts, unique, share) <==> t in d || t in ts
  {
    if ts != [] {
      MemberLast(ts, t);
      CreditAllKeys(d, ts[..|ts| - 1], unique, share, t);
    }
  }

  lemma CreditAllNext<K>(d: TallyMap<K>, ts: seq<K>, i: nat, unique: bool, share: real)
    requires i < |ts|
    ensures CreditAll(d, ts[..i + 1], unique, share)
         == var c := CreditAll(d, ts[..i], unique, share); c[ts[i] := Credit(Get(c, ts[i]), unique, share)]
  {
    assert ts[..i + 1][..i] == ts[..i];
  }

  /** What save leaves in the tally map, or the error it raises. */
  function SaveSpec<K>(d: TallyMap<K>, ts: seq<K>, pick: nat): Result<TallyMap<K>>
  {
    if ts == [] then Err(ZeroDivisionError)
    else
      var c := CreditAll(d, ts, |ts| == 1, 1.0 / |ts| as real);
      var t := ts[pick % |ts|];
      CreditAllKeys(d, ts, |ts| == 1, 1.0 / |ts| as real, t);
      Ok(c[t := c[t].(randomlyMappedReads := c[t].randomlyMappedReads + 1)])
  }

  lemma {:induction false} CreditAllNonNegative<K>(d: TallyMap<K>, ts: seq<K>, unique: bool, share: real)
    requires AllNonNegative(d)
    ensures AllNonNegative(CreditAll(d, ts, unique, share))
  {
    if ts != [] {
      CreditAllNonNegative(d, ts[..|ts| - 1], unique, share);
    }
  }

  /** A save only ever adds to counters: from non-negative tallies it
      builds non-negative tallies, whose unique shares lie in [0, 1]. */
  lemma SaveNonNegative<K>(d: TallyMap<K>, ts: seq<K>, pick: nat)
    requires AllNonNegative(d) && SaveSpec(d, ts, pick).Ok?
    ensures AllNonNegative(SaveSpec(d, ts, pick).value)
    ensures forall k :: k in SaveSpec(d, ts, pick).value ==> 0.0 <= UniqueOverTotal(SaveSpec(d, ts, pick).value[k]) <= 1.0
  {
    var c := CreditAll(d, ts, |ts| == 1, 1.0 / |ts| as real);
    CreditAllNonNegative(d, ts, |ts| == 1, 1.0 / |ts| as real);
    var t := ts[pick % |ts|];
    CreditAllKeys(d, ts, |ts| == 1, 1.0 / |ts| as real, t);
    assert c[t].NonNegative();
    assert SaveSpec(d, ts, pick).value == c[t := c[t].(randomlyMappedReads := c[t].randomlyMappedReads + 1)];
  }

  /** `n` copies of `x` added up. */
  function Times(n: nat, x: real): real
  {
    if n == 0 then 0.0 else Times(n - 1, x) + x
  }

  lemma {:induction false} TimesIsProduct(n: nat, x: real)
    ensures Times(n, x) == n as real * x
  {
    if n > 0 {
      TimesIsProduct(n - 1, x);
      MulSucc(n - 1, x);
    }
  }

  /** What `n` credits of one kind add to a target. */
  function Credits(n: nat, unique: bool, share: real): Tally
  {
    if unique then Tally(0, n, 0, Times(n, share)) else Tally(n, 0, 0, Times(n, share))
  }

  lemma MulSucc(n: nat, x: real)
    ensures (n + 1) as real * x == n as real * x + x
  {
  }

  lemma CreditsStep(x: Tally, n: nat, unique: bool, share: real)
    ensures Credit(Add(x, Credits(n, unique, share)), unique, share) == Add(x, Credits(n + 1, unique, share))
  {
  }

  /** Each target gains one credit per occurrence in `ts`. */
  lemma {:induction false} CreditAllAt<K>(d: TallyMap<K>, ts: seq<K>, unique: bool, share: real, t: K)
    ensures Get(CreditAll(d, ts, unique, share), t) == Add(Get(d, t), Credits(multiset(ts)[t], unique, share))
  {
    if ts == [] {
      assert Credits(0, unique, share) == Zero;
      AddZero(Get(d, t));
    } else {
      var p := ts[..|ts| - 1];
      var n := multiset(p)[t];
      CreditAllLast(d, ts, unique, share, t);
      CountLast(ts, t);
      CreditAllAt(d, p, unique, share, t);
      if ts[|ts| - 1] == t {
        CreditsStep(Get(d, t), n, unique, share);
      }
    }
  }

  /** Crediting one more target changes that target's tally only. */
  lemma CreditAllLast<K>(d: TallyMap<K>, ts: seq<K>, unique: bool, share: real, t: K)
    requires ts != []
    ensures var c := CreditAll(d, ts[..|ts| - 1], unique, share);
      Get(CreditAll(d, ts, unique, share), t) == if ts[|ts| - 1] == t then Credit(Get(c, t), unique, share) else Get(c, t)
  {
  }

  /** The map save builds from `d`, the targets and the pick. */
  lemma SaveShape<K>(d: TallyMap<K>, ts: seq<K>, pick: nat)
    requires ts != []
    ensures var c := CreditAll(d, ts, |ts| == 1, 1.0 / |ts| as real);
            var p := ts[pick % |ts|];
            p in c && SaveSpec(d, ts, pick) == Ok(c[p := c[p].(randomlyMappedReads := c[p].randomlyMappedReads + 1)])
  {
    CreditAllKeys(d, ts, |ts| == 1, 1.0 / |ts| as real, ts[pick % |ts|]);
  }

  /** save adds exactly the targets to the keys. */
  lemma SaveKeys<K>(d: TallyMap<K>, ts: seq<K>, pick: nat, t: K)
    requires ts != []
    ensures SaveSpec(d, ts, pick).Ok?
    ensures t in SaveSpec(d, ts, pick).value <==> t in d || t in ts
  {
    SaveShape(d, ts, pick);
    CreditAllKeys(d, ts, |ts| == 1, 1.0 / |ts| as real, t);
  }

  /** save leaves every entry that is not a target as it was. */
  lemma SaveOthers<K>(d: TallyMap<K>, ts: seq<K>, pick: nat, t: K)
    requires ts != []
    requires t !in ts && t in d
    ensures SaveSpec(d, ts, pick).Ok?
    ensures t in SaveSpec(d, ts, pick).value && SaveSpec(d, ts, pick).value[t] == d[t]
  {
    var k := |ts|;
    var share := 1.0 / k as real;
    SaveShape(d, ts, pick);
    CreditAllKeys(d, ts, k == 1, share, t);
    CreditAllAt(d, ts, k == 1, share, t);
    assert multiset(ts)[t] == 0;
    assert Credits(0, k == 1, share) == Zero;
    AddZero(d[t]);
  }

  /** save, for one target: it is credited once per occurrence (as unique
      only when it is the sole target), gains 1/len(targets) of the split
      read per occurrence, and gets the random read exactly when it is the
      picked target. */
  lemma SaveTarget<K>(d: TallyMap<K>, ts: seq<K>, pick: nat, t: K)
    requires ts != []
    requires t in ts
    ensures SaveSpec(d, ts, pick).Ok?
    ensures t in SaveSpec(d, ts, pick).value
    ensures var n := multiset(ts)[t];
      var k := |ts|;
      SaveSpec(d, ts, pick).value[t] == Add(Get(d, t), Tally(if k == 1 then 0 else n, if k == 1 then n else 0,
                                                             if t == ts[pick % |ts|] then 1 else 0, n as real / k as real))
  {
    var k := |ts|;
    var c := CreditAll(d, ts, k == 1, 1.0 / k as real);
    var p := ts[pick % |ts|];
    SaveShape(d, ts, pick);
    var n := multiset(ts)[t];
    var e := Tally(if k == 1 then 0 else n, if k == 1 then n else 0, 0, n as real / k as real);
    CreditedTarget(d, ts, t);
    if t == p {
      assert SaveSpec(d, ts, pick).value[t] == Add(Get(d, t), e.(randomlyMappedReads := 1));
    }
  }

  /** The credits alone, before the random read: a target's counters grow by
      its number of occurrences. */
  lemma CreditedTarget<K>(d: TallyMap<K>, ts: seq<K>, t: K)
    requires t in ts
    ensures var k := |ts|;
      var n := multiset(ts)[t];
      var c := CreditAll(d, ts, k == 1, 1.0 / k as real);
      t in c && c[t] == Add(Get(d, t), Tally(if k == 1 then 0 else n, if k == 1 then n else 0, 0, n as real / k as real))
  {
    var k := |ts|;
    var share := 1.0 / k as real;
    CreditAllKeys(d, ts, k == 1, share, t);
    CreditAllAt(d, ts, k == 1, share, t);
    ShareSum(multiset(ts)[t], k);
  }

  /** `n` shares of 1/k make n/k. */
  lemma ShareSum(n: nat, k: nat)
    requires k > 0
    ensures Times(n, 1.0 / k as real) == n as real / k as real
    ensures n == k ==> Times(n, 1.0 / k as real) == 1.0
  {
    TimesIsProduct(n, 1.0 / k as real);
  }

  /** What one credit adds to a counter. */
  function CreditDelta(unique: bool, share: real, c: Counter): real
  {
    match c
    case NonUnique => if unique then 0.0 else 1.0
    case Unique => if unique then 1.0 else 0.0
    case Random => 0.0
    case Split => share
  }

  lemma {:induction false} CreditAllTotal<K>(d: TallyMap<K>, ts: seq<K>, unique: bool, share: real, c: Counter)
    ensures Total(CreditAll(d, ts, unique, share), c) == Total(d, c) + Times(|ts|, CreditDelta(unique, share, c))
  {
    if ts != [] {
      var delta := CreditDelta(unique, share, c);
      var p := ts[..|ts| - 1];
      var l := ts[|ts| - 1];
      var cp := CreditAll(d, p, unique, share);
      var x := Credit(Get(cp, l), unique, share);
      assert CreditAll(d, ts, unique, share) == cp[l := x];
      CreditAllTotal(d, p, unique, share, c);
      TotalUpdate(cp, l, x, c);
      assert Value(x, c) == Value(Get(cp, l), c) + delta;
    }
  }

  /** One counter's total after save: `len(targets)` credits plus the random read. */
  lemma SaveTotal<K>(d: TallyMap<K>, ts: seq<K>, pick: nat, ctr: Counter)
    requires ts != []
    ensures SaveSpec(d, ts, pick).Ok?
    ensures Total(SaveSpec(d, ts, pick).value, ctr)
         == Total(d, ctr) + Times(|ts|, CreditDelta(|ts| == 1, 1.0 / |ts| as real, ctr)) + (if ctr == Random then 1.0 else 0.0)
  {
    var k := |ts|;
    var share := 1.0 / k as real;
    var c := CreditAll(d, ts, k == 1, share);
    var t := ts[pick % |ts|];
    SaveShape(d, ts, pick);
    var x := c[t].(randomlyMappedReads := c[t].randomlyMappedReads + 1);
    assert SaveSpec(d, ts, pick).value == c[t := x];
    assert Value(x, ctr) == Value(c[t], ctr) + (if ctr == Random then 1.0 else 0.0);
    CreditAllTotal(d, ts, k == 1, share, ctr);
    TotalUpdate(c, t, x, ctr);
  }

  /** save conserves reads: one split read and one random read are handed
      out in total, and one unique read (a single target) or one non-unique
      read per target (several targets). */
  lemma SaveTotals<K>(d: TallyMap<K>, ts: seq<K>, pick: nat)
    requires ts != []
    ensures SaveSpec(d, ts, pick).Ok?
    ensures Total(SaveSpec(d, ts, pick).value, Split) == Total(d, Split) + 1.0
    ensures Total(SaveSpec(d, ts, pick).value, Random) == Total(d, Random) + 1.0
    ensures Total(SaveSpec(d, ts, pick).value, Unique) == Total(d, Unique) + (if |ts| == 1 then 1.0 else 0.0)
    ensures Total(SaveSpec(d, ts, pick).value, NonUnique) == Total(d, NonUnique) + (if |ts| == 1 then 0.0 else |ts| as real)
  {
    var k := |ts|;
    SaveTotal(d, ts, pick, Split);
    SaveTotal(d, ts, pick, Random);
    SaveTotal(d, ts, pick, Unique);
    SaveTotal(d, ts, pick, NonUnique);
    ShareSum(k, k);
    TimesIsProduct(k, 0.0);
    TimesIsProduct(k, 1.0);
  }

  /** A query whose every alignment scored below zero has no targets, so
      saving it divides by zero. */
  lemma AllNegativeFails(h: seq<Hit>, d: TallyMap<string>, pick: nat)
    requires forall i :: 0 <= i < |h| ==> h[i].score < 0
    ensures TiedTargets(h) == []
    ensures SaveSpec(d, TiedTargets(h), pick) == Err(ZeroDivisionError)
  {
    TargetsAtNone(h, BestScore(h));
  }

  /** A query has no tied target exactly when every one of its scores is
      negative: the initial best score 0 is then never reached. */
  lemma NoTiedTargets(h: seq<Hit>)
    ensures TiedTargets(h) == [] <==> forall i :: 0 <= i < |h| ==> h[i].score < 0
  {
    if exists i :: 0 <= i < |h| && h[i].score >= 0 {
      var i :| 0 <= i < |h| && h[i].score >= 0;
      BestScoreIsMaximum(h);
      var j := i;
      if BestScore(h) != 0 {
        j :| 0 <= j < |h| && h[j].score == BestScore(h);
      }
      TargetsAtMember(h, BestScore(h), h[j].target);
      assert h[j] == Hit(h[j].target, BestScore(h));
    } else {
      TargetsAtNone(h, BestScore(h));
    }
  }

  /** A better score drops the earlier target, an equal one joins it. */
  lemma TiedExample()
    ensures TiedTargets([Hit("T1", 5), Hit("T2", 10), Hit("T3", 10)]) == ["T2", "T3"]
  {
    Literals(Hit("T1", 5), Hit("T2", 10), Hit("T3", 10));
    UpdateStep([], Hit("T1", 5));
    UpdateStep([Hit("T1", 5)], Hit("T2", 10));
    UpdateStep([Hit("T1", 5), Hit("T2", 10)], Hit("T3", 10));
  }

  /** Saving a query with one tied target credits it one unique read, one
      split read and the random read, and leaves every other entry alone. */
  lemma SingleTargetSave<K>(d: TallyMap<K>, t: K, pick: nat)
    ensures SaveSpec(d, [t], pick) == Ok(d[t := Add(Get(d, t), Tally(0, 1, 1, 1.0))])
  {
    var g := Get(d, t);
    var x := Credit(g, true, 1.0);
    SoleCredit(g);
    SaveOne(d, t, pick);
    MapOverwrite(d, t, x, x.(randomlyMappedReads := x.randomlyMappedReads + 1));
  }

  /** save with one target: credit it, then give it the random read. */
  lemma SaveOne<K>(d: TallyMap<K>, t: K, pick: nat)
    ensures var x := Credit(Get(d, t), true, 1.0);
      SaveSpec(d, [t], pick) == Ok(d[t := x][t := x.(randomlyMappedReads := x.randomlyMappedReads + 1)])
  {
    var ts := [t];
    assert ts[pick % |ts|] == t;
    assert 1.0 / |ts| as real == 1.0;
    SaveShape(d, ts, pick);
    CreditOne(d, t);
  }

  lemma CreditOne<K>(d: TallyMap<K>, t: K)
    ensures CreditAll(d, [t], true, 1.0) == d[t := Credit(Get(d, t), true, 1.0)]
  {
    assert [t][..0] == [];
  }

  lemma SoleCredit(g: Tally)
    ensures var x := Credit(g, true, 1.0);
      x.(randomlyMappedReads := x.randomlyMappedReads + 1) == Add(g, Tally(0, 1, 1, 1.0))
  {
  }

  /** Two tied targets share the read: each is non-unique once with half a
      split read, and the picked one also gets the random read. */
  lemma SaveExample()
    ensures SaveSpec(map[], ["T2", "T3"], 1)
         == Ok(map["T2" := Tally(1, 0, 0, 0.5), "T3" := Tally(1, 0, 1, 0.5)])
  {
    var ts := ["T2", "T3"];
    var e := map["T2" := Tally(1, 0, 0, 0.5), "T3" := Tally(1, 0, 1, 0.5)];
    assert multiset(ts) == multiset{"T2", "T3"};
    SaveTarget(map[], ts, 1, "T2");
    SaveTarget(map[], ts, 1, "T3");
    var r := SaveSpec(map[], ts, 1).value;
    forall t ensures t in r <==> t in e {
      SaveKeys(map[], ts, 1, t);
    }
    assert r == e;
  }
}
