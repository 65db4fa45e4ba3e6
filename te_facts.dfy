/** What the reference statistics say about the records they come from:
    which identifiers are counted and how often, how the windows split
    into unique and non-unique ones, and a worked example. */
module TeFacts {
  import opened Seqs
  import opened Sums
  import opened TeStats

  // ---------------------------------------------------------------------
  // theoretical_counts

  /** The number of windows of the records with identifier id. */
  function WindowsOfId(records: seq<SeqRecord>, n: nat, id: string): nat
  {
    if records == [] then 0
    else
      var r := records[|records| - 1];
      WindowsOfId(records[..|records| - 1], n, id) + (if r.id == id then |Windows(r.sequence, n)| else 0)
  }

  /** Pairs that all carry identifier v count only for v. */
  lemma {:induction false} CountOneId(ps: seq<WindowId>, v: string, id: string)
    requires forall k :: 0 <= k < |ps| ==> ps[k].id == v
    ensures Count(ps, id) == if v == id then |ps| else 0
    decreases |ps|
  {
    if ps != [] {
      CountOneId(ps[..|ps| - 1], v, id);
    }
  }

  /** Each identifier is counted once for every window of every record that
      carries it. */
  lemma {:induction false} CountsPerId(records: seq<SeqRecord>, n: nat, id: string)
    ensures Count(Pairs(records, n), id) == WindowsOfId(records, n, id)
    decreases |records|
  {
    if records != [] {
      var p := records[..|records| - 1];
      var r := records[|records| - 1];
      CountsPerId(p, n, id);
      CountAppend(Pairs(p, n), RecordPairs(r, n), id);
      CountOneId(RecordPairs(r, n), r.id, id);
    }
  }

  /** No window comes from identifier id exactly when every record with
      that identifier is too short to hold one. */
  lemma {:induction false} NoWindowsOfId(records: seq<SeqRecord>, n: nat, id: string)
    ensures WindowsOfId(records, n, id) == 0
        <==> forall k :: 0 <= k < |records| && records[k].id == id ==> |records[k].sequence| < n
    decreases |records|
  {
    if records != [] {
      var p := records[..|records| - 1];
      NoWindowsOfId(p, n, id);
      assert forall k :: 0 <= k < |p| ==> p[k] == records[k];
    }
  }

  /** An identifier is a key of theoretical_counts exactly when one of its
      records is at least read_len long, and its value is the number of
      windows of its records. */
  lemma CountedIds(records: seq<SeqRecord>, n: nat, id: string)
    ensures id in CountsSpec(Pairs(records, n))
        <==> exists k :: 0 <= k < |records| && records[k].id == id && |records[k].sequence| >= n
    ensures id in CountsSpec(Pairs(records, n)) ==> CountsSpec(Pairs(records, n))[id] == WindowsOfId(records, n, id)
  {
    CountsPerId(records, n, id);
    CountZero(Pairs(records, n), id);
    NoWindowsOfId(records, n, id);
  }

  /** The counts as reals, so that they can be summed. */
  function Reals(c: map<string, nat>): (r: map<string, real>)
    ensures r.Keys == c.Keys
    ensures forall k :: k in c ==> r[k] == c[k] as real
  {
    map k | k in c :: c[k] as real
  }

  lemma RealsUpdate(c: map<string, nat>, k: string, v: nat)
    ensures Reals(c[k := v]) == Reals(c)[k := v as real]
  {
  }

  /** One more pair adds one to the sum of the counts. */
  lemma CountsSumStep(p: seq<WindowId>, x: WindowId)
    ensures Sum(Reals(CountsSpec(p + [x]))) == Sum(Reals(CountsSpec(p))) + 1.0
  {
    CountsSnoc(p, x);
    var c := CountsSpec(p);
    var v: nat := (if x.id in c then c[x.id] else 0) + 1;
    RealsUpdate(c, x.id, v);
    SumUpdate(Reals(c), x.id, v as real);
  }

  /** theoretical_counts adds up to the number of windows: every window is
      counted for exactly one identifier. */
  lemma {:induction false} CountsSum(ps: seq<WindowId>)
    ensures Sum(Reals(CountsSpec(ps))) == |ps| as real
    decreases |ps|
  {
    if ps == [] {
      assert IdSet(ps) == {};
      assert Reals(CountsSpec(ps)) == map[];
    } else {
      var p := ps[..|ps| - 1];
      CountsSum(p);
      InitLast(ps);
      CountsSumStep(p, ps[|ps| - 1]);
    }
  }

  // ---------------------------------------------------------------------
  // unique_windows and non_unique_windows

  /** Every group goes to exactly one of the two maps, unchanged. */
  lemma Partition<K>(g: map<K, seq<string>>)
    ensures UniqueOf(g).Keys !! NonUniqueOf(g).Keys
    ensures UniqueOf(g).Keys + NonUniqueOf(g).Keys == g.Keys
    ensures forall w :: w in UniqueOf(g) ==> UniqueOf(g)[w] == g[w]
    ensures forall w :: w in NonUniqueOf(g) ==> NonUniqueOf(g)[w] == g[w]
  {
  }

  /** Every window of the references is a key of exactly one of the two maps. */
  lemma WindowsPartition(ps: seq<WindowId>)
    ensures UniqueSpec(ps).Keys !! NonUniqueSpec(ps).Keys
    ensures UniqueSpec(ps).Keys + NonUniqueSpec(ps).Keys == WindowSet(ps)
  {
    Partition(GroupsOf(ps));
  }

  /** The group of a window names exactly the identifiers paired with it. */
  lemma {:induction false} GroupIds(ps: seq<WindowId>, w: string, v: string)
    ensures v in Group(ps, w) <==> WindowId(w, v) in ps
    decreases |ps|
  {
    if ps != [] {
      var p := ps[..|ps| - 1];
      var x := ps[|ps| - 1];
      GroupIds(p, w, v);
      InitLast(ps);
      assert WindowId(w, v) in ps <==> WindowId(w, v) in p || WindowId(w, v) == x;
    }
  }

  /** A window is unique exactly when one identifier, and no other, is
      paired with it. */
  lemma UniqueMeaning(ps: seq<WindowId>, w: string)
    ensures w in UniqueSpec(ps)
        <==> exists v :: WindowId(w, v) in ps && forall u :: WindowId(w, u) in ps ==> u == v
  {
    var g := Group(ps, w);
    GroupEmpty(ps, w);
    if w in UniqueSpec(ps) {
      var v := g[0];
      GroupIds(ps, w, v);
      forall u | WindowId(w, u) in ps
        ensures u == v
      {
        GroupIds(ps, w, u);
      }
    }
    if exists v :: WindowId(w, v) in ps && forall u :: WindowId(w, u) in ps ==> u == v {
      var v :| WindowId(w, v) in ps && forall u :: WindowId(w, u) in ps ==> u == v;
      assert w in WindowSet(ps);
      forall k | 0 <= k < |g|
        ensures g[k] == v
      {
        GroupIds(ps, w, g[k]);
      }
    }
  }

  /** The window texts of the pairs, in order. */
  function WindowTexts(ps: seq<WindowId>): (ts: seq<string>)
    ensures |ts| == |ps|
  {
    seq(|ps|, i requires 0 <= i < |ps| => ps[i].window)
  }

  /** Each window's list of identifiers is as long as the number of times
      the window was generated. */
  lemma {:induction false} GroupSize(ps: seq<WindowId>, w: string)
    ensures |Group(ps, w)| == multiset(WindowTexts(ps))[w]
    decreases |ps|
  {
    if ps != [] {
      var p := ps[..|ps| - 1];
      GroupSize(p, w);
      assert WindowTexts(ps)[..|ps| - 1] == WindowTexts(p);
      CountLast(WindowTexts(ps), w);
    }
  }

  /** The identifiers of a window come in generation order: those of the
      earlier records first, then those of the next record. */
  lemma GroupOrder(records: seq<SeqRecord>, r: SeqRecord, n: nat, w: string)
    ensures Group(Pairs(records + [r], n), w) == Group(Pairs(records, n), w) + Group(RecordPairs(r, n), w)
  {
    PrefixOfAppend(records, r);
    GroupAppend(Pairs(records, n), RecordPairs(r, n), w);
  }

  /** The pairs of one record carry its identifier. */
  lemma OnePairs(r: SeqRecord, n: nat)
    ensures Pairs([r], n) == RecordPairs(r, n)
  {
    assert [r][..0] == [];
  }

  /** With a single reference record every window is unique. */
  lemma SingleRecord(r: SeqRecord, n: nat)
    ensures NonUniqueSpec(Pairs([r], n)) == map[]
    ensures UniqueSpec(Pairs([r], n)) == GroupsOf(Pairs([r], n))
  {
    var ps := Pairs([r], n);
    OnePairs(r, n);
    forall w | w in WindowSet(ps)
      ensures AllSame(Group(ps, w))
    {
      var g := Group(ps, w);
      forall k | 0 <= k < |g|
        ensures g[k] == r.id
      {
        GroupIds(ps, w, g[k]);
      }
    }
  }

  lemma FiveSlices()
    ensures Windows("AAAACCCC", 4) == ["AAAA", "AAAC", "AACC", "ACCC", "CCCC"]
  {
    var s := "AAAACCCC";
    var ws := Windows(s, 4);
    assert s[0..4] == "AAAA" && s[1..5] == "AAAC" && s[2..6] == "AACC";
    assert s[3..7] == "ACCC" && s[4..8] == "CCCC";
    assert ws[0] == s[0..4] && ws[1] == s[1..5] && ws[2] == s[2..6] && ws[3] == s[3..7] && ws[4] == s[4..8];
  }

  /** The pairs of the one-record example. */
  function FivePairs(): seq<WindowId>
  {
    [WindowId("AAAA", "R1"), WindowId("AAAC", "R1"), WindowId("AACC", "R1"),
     WindowId("ACCC", "R1"), WindowId("CCCC", "R1")]
  }

  lemma FivePairsOf(r: SeqRecord, ws: seq<string>)
    requires r.id == "R1" && ws == Windows(r.sequence, 4)
    requires ws == ["AAAA", "AAAC", "AACC", "ACCC", "CCCC"]
    ensures Pairs([r], 4) == FivePairs()
  {
    OnePairs(r, 4);
    var ps := RecordPairs(r, 4);
    var fs := FivePairs();
    assert |ps| == |fs|;
    forall i | 0 <= i < 5
      ensures ps[i] == fs[i]
    {
      assert ps[i] == WindowId(ws[i], "R1");
    }
  }

  lemma FiveCounts()
    ensures CountsSpec(FivePairs()) == map["R1" := 5]
  {
    var ps := FivePairs();
    assert IdSet(ps) == {"R1"};
    CountOneId(ps, "R1", "R1");
  }

  lemma FiveFirstGroup()
    ensures Group(FivePairs(), "AAAA") == ["R1"]
  {
    var ps := FivePairs();
    var rest := ps[1..];
    assert ps == [ps[0]] + rest;
    assert "AAAA" !in WindowSet(rest);
    GroupEmpty(rest, "AAAA");
    GroupAppend([ps[0]], rest, "AAAA");
    GroupSnoc([], ps[0], "AAAA");
  }

  lemma FiveWindowSet()
    ensures WindowSet(FivePairs()) == {"AAAA", "AAAC", "AACC", "ACCC", "CCCC"}
    ensures UniqueSpec(FivePairs()).Keys + NonUniqueSpec(FivePairs()).Keys == WindowSet(FivePairs())
  {
    WindowsPartition(FivePairs());
  }

  /** One record "AAAACCCC" named R1 and reads of length 4: five windows,
      all unique, all counted for R1. */
  lemma FiveWindows(r: SeqRecord)
    requires r == SeqRecord("R1", "AAAACCCC")
    ensures CountsSpec(Pairs([r], 4)) == map["R1" := 5]
    ensures UniqueSpec(Pairs([r], 4)).Keys == {"AAAA", "AAAC", "AACC", "ACCC", "CCCC"}
    ensures UniqueSpec(Pairs([r], 4))["AAAA"] == ["R1"]
    ensures NonUniqueSpec(Pairs([r], 4)) == map[]
  {
    FiveSlices();
    FivePairsOf(r, Windows(r.sequence, 4));
    SingleRecord(r, 4);
    FiveWindowSet();
    FiveCounts();
    FiveFirstGroup();
  }
}
