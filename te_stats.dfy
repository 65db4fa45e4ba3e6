/** Reference window statistics (te_stats): every read-length window of
    every reference record, grouped by window text, counted per record
    identifier and split into windows that only one identifier contains
    and windows that several do. */
module TeStats {
  import opened Seqs
  import opened Sums

  // ---------------------------------------------------------------------
  // windowed

  /** The windows windowed(s, n) yields: for n >= 1 every n-wide slice
      s[i..i+n] in order, none when s is shorter than n; for n = 0 the
      empty window first, then each element on its own. */
  function Windows<T>(s: seq<T>, n: nat): (ws: seq<seq<T>>)
    ensures n >= 1 ==> |ws| == if |s| >= n then |s| - n + 1 else 0
    ensures n == 0 ==> |ws| == |s| + 1
  {
    if n == 0 then [[]] + seq(|s|, i requires 0 <= i < |s| => [s[i]])
    else if |s| < n then []
    else seq(|s| - n + 1, i requires 0 <= i <= |s| - n => s[i..i + n])
  }

  /** result[1:]: a tuple without its first element (the empty tuple stays empty). */
  function Drop1<T>(r: seq<T>): seq<T>
  {
    if r == [] then [] else r[1..]
  }

  /** windowed(s, n): the first n elements, if there are n of them, then
      for each further element the last window shifted by one. */
  method Windowed<T>(s: seq<T>, n: nat) returns (ws: seq<seq<T>>)
    ensures ws == Windows(s, n)
  {
    var k := if n <= |s| then n else |s|;
    var result := s[..k];
    ws := [];
    if |result| == n {
      ws := [result];
    }
    WindowsStart(s, n);
    var i := k;
    ghost var seen := s[..k];
    while i < |s|
      invariant k <= i <= |s|
      invariant n <= i || i == |s|
      invariant seen == s[..i] && |seen| == i
      invariant ws == Windows(seen, n)
      invariant 1 <= n <= |seen| ==> result == seen[|seen| - n..]
      invariant n == 0 ==> Drop1(result) == []
    {
      WindowsSnoc(seen, s[i], n, result);
      TakeNext(s, i);
      result := Drop1(result) + [s[i]];
      ws := ws + [result];
      seen := seen + [s[i]];
      i := i + 1;
    }
    PrefixAll(s);
  }

  /** What windowed yields before its loop: the first window when there
      is one. */
  lemma WindowsStart<T>(s: seq<T>, n: nat)
    ensures Windows(s[..if n <= |s| then n else |s|], n) == if n <= |s| then [s[..n]] else []
  {
    if n <= |s| {
      assert s[..n][0..n] == s[..n];
    }
  }

  /** One more element adds exactly one window: the last one shifted by
      one, with the new element at its end. */
  lemma WindowsSnoc<T>(t: seq<T>, x: T, n: nat, result: seq<T>)
    requires n <= |t|
    requires n >= 1 ==> result == t[|t| - n..]
    requires n == 0 ==> Drop1(result) == []
    ensures Windows(t + [x], n) == Windows(t, n) + [Drop1(result) + [x]]
    ensures n >= 1 ==> Drop1(result) + [x] == (t + [x])[|t| + 1 - n..]
    ensures n == 0 ==> Drop1(Drop1(result) + [x]) == []
  {
    if n == 0 {
      WindowsSnocSingles(t, x);
      assert Drop1(result) + [x] == [x];
    } else {
      WindowsSnocWide(t, x, n);
      assert Drop1(result) == t[|t| - n + 1..];
      assert (t + [x])[|t| + 1 - n..] == t[|t| - n + 1..] + [x];
    }
  }

  lemma WindowsSnocSingles<T>(t: seq<T>, x: T)
    ensures Windows(t + [x], 0) == Windows(t, 0) + [[x]]
  {
    var u := t + [x];
    var l := Windows(u, 0);
    var a := Windows(t, 0);
    assert |l| == |a| + 1;
    forall j | 0 <= j < |a|
      ensures l[j] == a[j]
    {
      if j > 0 {
        assert u[j - 1] == t[j - 1];
      }
    }
    assert l[|a|] == [x];
  }

  lemma WindowsSnocWide<T>(t: seq<T>, x: T, n: nat)
    requires 1 <= n <= |t|
    ensures Windows(t + [x], n) == Windows(t, n) + [t[|t| - n + 1..] + [x]]
  {
    var u := t + [x];
    var l := Windows(u, n);
    var a := Windows(t, n);
    assert |l| == |a| + 1;
    forall j | 0 <= j < |a|
      ensures l[j] == a[j]
    {
      assert u[j..j + n] == t[j..j + n];
    }
    assert l[|a|] == u[|t| - n + 1..|t| + 1];
    assert u[|t| - n + 1..|t| + 1] == t[|t| - n + 1..] + [x];
  }

  /** Consecutive windows overlap in all but one element: each is the one
      before it shifted by one, the step windowed takes. */
  lemma WindowsSlide<T>(s: seq<T>, n: nat, i: nat)
    requires n >= 1 && i + 1 < |Windows(s, n)|
    ensures Windows(s, n)[i + 1] == Windows(s, n)[i][1..] + [s[i + n]]
  {
  }

  // ---------------------------------------------------------------------
  // String order, as Python compares str values.

  /** a <= b: a is a prefix of b, or a has the smaller character at the
      first position where they differ. */
  predicate LexLe(a: string, b: string)
    decreases |a|
  {
    a == [] || (b != [] && (a[0] < b[0] || (a[0] == b[0] && LexLe(a[1..], b[1..]))))
  }

  lemma {:induction false} LexRefl(a: string)
    ensures LexLe(a, a)
    decreases |a|
  {
    if a != [] {
      LexRefl(a[1..]);
    }
  }

  lemma {:induction false} LexTotal(a: string, b: string)
    ensures LexLe(a, b) || LexLe(b, a)
    decreases |a|
  {
    if a != [] && b != [] && a[0] == b[0] {
      LexTotal(a[1..], b[1..]);
    }
  }

  lemma {:induction false} LexAntisym(a: string, b: string)
    requires LexLe(a, b) && LexLe(b, a)
    ensures a == b
    decreases |a|
  {
    if a != [] {
      LexAntisym(a[1..], b[1..]);
      HeadTail(a);
      HeadTail(b);
    }
  }

  lemma {:induction false} LexTrans(a: string, b: string, c: string)
    requires LexLe(a, b) && LexLe(b, c)
    ensures LexLe(a, c)
    decreases |a|
  {
    if a != [] && a[0] == b[0] && b[0] == c[0] {
      LexTrans(a[1..], b[1..], c[1..]);
    }
  }

  // ---------------------------------------------------------------------
  // Windows with the identifier of the record they come from.

  /** A reference record, as SeqIO hands it out. */
  datatype SeqRecord = SeqRecord(id: string, sequence: string)

  /** (''.join(window), record.id). */
  datatype WindowId = WindowId(window: string, id: string)

  /** The pairs one record contributes, in window order. */
  function RecordPairs(r: SeqRecord, n: nat): (ps: seq<WindowId>)
    ensures |ps| == |Windows(r.sequence, n)|
  {
    var ws := Windows(r.sequence, n);
    seq(|ws|, i requires 0 <= i < |ws| => WindowId(ws[i], r.id))
  }

  /** all_windows: the pairs of every record, record by record. */
  function Pairs(records: seq<SeqRecord>, n: nat): seq<WindowId>
  {
    if records == [] then []
    else Pairs(records[..|records| - 1], n) + RecordPairs(records[|records| - 1], n)
  }

  /** The identifiers of the pairs with window text w, in order. */
  function Group(ps: seq<WindowId>, w: string): seq<string>
  {
    if ps == [] then []
    else Group(ps[..|ps| - 1], w) + (if ps[|ps| - 1].window == w then [ps[|ps| - 1].id] else [])
  }

  /** How many pairs come from records with identifier id. */
  function Count(ps: seq<WindowId>, id: string): nat
  {
    if ps == [] then 0
    else Count(ps[..|ps| - 1], id) + (if ps[|ps| - 1].id == id then 1 else 0)
  }

  function WindowSet(ps: seq<WindowId>): set<string>
  {
    set p | p in ps :: p.window
  }

  function IdSet(ps: seq<WindowId>): set<string>
  {
    set p | p in ps :: p.id
  }

  /** The identifiers of a run of pairs: list(x[1] for x in seq_ids). */
  function Ids(ps: seq<WindowId>): (ids: seq<string>)
    ensures |ids| == |ps|
  {
    seq(|ps|, i requires 0 <= i < |ps| => ps[i].id)
  }

  /** all(x == seq_ids[0] for x in seq_ids). */
  predicate AllSame(ids: seq<string>)
  {
    forall k :: 0 <= k < |ids| ==> ids[k] == ids[0]
  }

  // ---------------------------------------------------------------------
  // sorted(all_windows, key=window): a stable sort.

  predicate Sorted(ps: seq<WindowId>)
  {
    forall i, j :: 0 <= i < j < |ps| ==> LexLe(ps[i].window, ps[j].window)
  }

  /** x placed after every pair whose window is not above its own. */
  function Insert(ps: seq<WindowId>, x: WindowId): (r: seq<WindowId>)
    ensures |r| == |ps| + 1
  {
    if ps == [] then [x]
    else if LexLe(ps[|ps| - 1].window, x.window) then ps + [x]
    else Insert(ps[..|ps| - 1], x) + [ps[|ps| - 1]]
  }

  /** Insertion sort by window text; equal windows keep their order. */
  function SortByWindow(ps: seq<WindowId>): (r: seq<WindowId>)
    ensures |r| == |ps|
  {
    if ps == [] then [] else Insert(SortByWindow(ps[..|ps| - 1]), ps[|ps| - 1])
  }

  /** Group and Count take the last pair off first. */
  lemma GroupSnoc(ps: seq<WindowId>, x: WindowId, w: string)
    ensures Group(ps + [x], w) == Group(ps, w) + (if x.window == w then [x.id] else [])
  {
    PrefixOfAppend(ps, x);
  }

  lemma CountSnoc(ps: seq<WindowId>, x: WindowId, id: string)
    ensures Count(ps + [x], id) == Count(ps, id) + (if x.id == id then 1 else 0)
  {
    PrefixOfAppend(ps, x);
  }

  lemma {:induction false} InsertMultiset(ps: seq<WindowId>, x: WindowId)
    ensures multiset(Insert(ps, x)) == multiset(ps) + multiset{x}
    decreases |ps|
  {
    if ps != [] && !LexLe(ps[|ps| - 1].window, x.window) {
      var p := ps[..|ps| - 1];
      InsertMultiset(p, x);
      InitLast(ps);
    }
  }

  /** Inserting into a sorted sequence keeps it sorted. */
  lemma {:induction false} InsertSorted(ps: seq<WindowId>, x: WindowId)
    requires Sorted(ps)
    ensures Sorted(Insert(ps, x))
    decreases |ps|
  {
    if ps != [] {
      var last := ps[|ps| - 1];
      var r := Insert(ps, x);
      if LexLe(last.window, x.window) {
        forall i | 0 <= i < |ps|
          ensures LexLe(ps[i].window, x.window)
        {
          if i < |ps| - 1 {
            LexTrans(ps[i].window, last.window, x.window);
          }
        }
      } else {
        var p := ps[..|ps| - 1];
        InsertSorted(p, x);
        InsertMultiset(p, x);
        LexTotal(last.window, x.window);
        var q := Insert(p, x);
        forall i | 0 <= i < |q|
          ensures LexLe(q[i].window, last.window)
        {
          assert q[i] in multiset(q);
          if q[i] != x {
            assert q[i] in multiset(p);
            var k :| 0 <= k < |p| && p[k] == q[i];
            assert ps[k] == p[k];
          }
        }
        assert r == q + [last];
      }
    }
  }

  /** Insertion keeps the order of equal windows: x comes after every pair
      that shares its window. */
  lemma {:induction false} InsertGroup(ps: seq<WindowId>, x: WindowId, w: string)
    ensures Group(Insert(ps, x), w) == Group(ps, w) + (if x.window == w then [x.id] else [])
    decreases |ps|
  {
    if ps == [] {
      GroupSnoc([], x, w);
    } else {
      var last := ps[|ps| - 1];
      var p := ps[..|ps| - 1];
      if LexLe(last.window, x.window) {
        GroupSnoc(ps, x, w);
      } else {
        InsertGroup(p, x, w);
        GroupSnoc(Insert(p, x), last, w);
        InitLast(ps);
        GroupSnoc(p, last, w);
        if x.window == w {
          LexRefl(w);
          assert last.window != w;
        }
      }
    }
  }

  lemma {:induction false} InsertCount(ps: seq<WindowId>, x: WindowId, id: string)
    ensures Count(Insert(ps, x), id) == Count(ps, id) + (if x.id == id then 1 else 0)
    decreases |ps|
  {
    if ps == [] {
      CountSnoc([], x, id);
    } else {
      var last := ps[|ps| - 1];
      var p := ps[..|ps| - 1];
      if LexLe(last.window, x.window) {
        CountSnoc(ps, x, id);
      } else {
        InsertCount(p, x, id);
        CountSnoc(Insert(p, x), last, id);
        InitLast(ps);
        CountSnoc(p, last, id);
      }
    }
  }

  /** The sort returns its input sorted and rearranged. */
  lemma {:induction false} SortSorted(ps: seq<WindowId>)
    ensures Sorted(SortByWindow(ps))
    ensures multiset(SortByWindow(ps)) == multiset(ps)
    decreases |ps|
  {
    if ps != [] {
      var p := ps[..|ps| - 1];
      var x := ps[|ps| - 1];
      SortSorted(p);
      InsertSorted(SortByWindow(p), x);
      InsertMultiset(SortByWindow(p), x);
      InitLast(ps);
    }
  }

  /** The sort is stable: the pairs of each window keep their order. */
  lemma {:induction false} SortGroup(ps: seq<WindowId>, w: string)
    ensures Group(SortByWindow(ps), w) == Group(ps, w)
    decreases |ps|
  {
    if ps != [] {
      var p := ps[..|ps| - 1];
      var x := ps[|ps| - 1];
      SortGroup(p, w);
      InsertGroup(SortByWindow(p), x, w);
      InitLast(ps);
      GroupSnoc(p, x, w);
    }
  }

  /** The sort counts every identifier as often as its input does. */
  lemma {:induction false} SortCount(ps: seq<WindowId>, id: string)
    ensures Count(SortByWindow(ps), id) == Count(ps, id)
    decreases |ps|
  {
    if ps != [] {
      var p := ps[..|ps| - 1];
      var x := ps[|ps| - 1];
      SortCount(p, id);
      InsertCount(SortByWindow(p), x, id);
      InitLast(ps);
      CountSnoc(p, x, id);
    }
  }

  // ---------------------------------------------------------------------
  // What make_reference_statistics computes.

  /** theoretical_counts: every identifier that has a window, with the
      number of its windows. */
  function CountsSpec(ps: seq<WindowId>): map<string, nat>
  {
    map id | id in IdSet(ps) :: Count(ps, id)
  }

  /** Every window that occurs, with the identifiers of its pairs in order:
      what groupby hands out, one entry per distinct window. */
  function GroupsOf(ps: seq<WindowId>): map<string, seq<string>>
  {
    map w | w in WindowSet(ps) :: Group(ps, w)
  }

  /** The groups whose identifiers are all the same. */
  function UniqueOf<K>(g: map<K, seq<string>>): map<K, seq<string>>
  {
    map w | w in g && AllSame(g[w]) :: g[w]
  }

  /** The groups that name more than one identifier. */
  function NonUniqueOf<K>(g: map<K, seq<string>>): map<K, seq<string>>
  {
    map w | w in g && !AllSame(g[w]) :: g[w]
  }

  /** unique_windows: every window all of whose pairs name one identifier,
      with the identifiers of its pairs in order. */
  function UniqueSpec(ps: seq<WindowId>): map<string, seq<string>>
  {
    UniqueOf(GroupsOf(ps))
  }

  /** non_unique_windows: every other window, with its identifiers in order. */
  function NonUniqueSpec(ps: seq<WindowId>): map<string, seq<string>>
  {
    NonUniqueOf(GroupsOf(ps))
  }

  /** ReferenceStatistics: the three dictionaries, filled in by
      make_reference_statistics. */
  class ReferenceStatistics {
    var uniqueWindows: map<string, seq<string>>
    var nonUniqueWindows: map<string, seq<string>>
    var theoreticalCounts: map<string, nat>

    constructor ()
      ensures uniqueWindows == map[] && nonUniqueWindows == map[] && theoreticalCounts == map[]
    {
      uniqueWindows := map[];
      nonUniqueWindows := map[];
      theoreticalCounts := map[];
    }
  }

  /** groupby: the end of the run of equal windows that starts at i. */
  method GroupEnd(ps: seq<WindowId>, i: nat) returns (j: nat)
    requires i < |ps|
    ensures i < j <= |ps|
    ensures forall k :: i <= k < j ==> ps[k].window == ps[i].window
    ensures j == |ps| || ps[j].window != ps[i].window
  {
    j := i + 1;
    while j < |ps| && ps[j].window == ps[i].window
      invariant i < j <= |ps|
      invariant forall k :: i <= k < j ==> ps[k].window == ps[i].window
    {
      j := j + 1;
    }
  }

  /** theoretical_counts[seq_id] += 1 for each identifier of a run. */
  method CountRun(counts: map<string, nat>, ghost before: seq<WindowId>, run: seq<WindowId>, ids: seq<string>)
    returns (c: map<string, nat>)
    requires counts == CountsSpec(before) && ids == Ids(run)
    ensures c == CountsSpec(before + run)
  {
    c := counts;
    ghost var seen := before;
    var m := 0;
    assert run[..0] == [];
    AppendEmpty(before);
    while m < |ids|
      invariant m <= |ids|
      invariant seen == before + run[..m]
      invariant c == CountsSpec(seen)
    {
      var id := ids[m];
      CountsSnoc(seen, run[m]);
      c := c[id := (if id in c then c[id] else 0) + 1];
      TakeNext(run, m);
      AppendAssoc(before, run[..m], [run[m]]);
      seen := seen + [run[m]];
      m := m + 1;
    }
    PrefixAll(run);
  }

  /** make_reference_statistics over the records SeqIO would read: the
      windows of every record, sorted by text, grouped, counted per
      identifier and classified by whether one identifier has them all. */
  method MakeReferenceStatistics(readLen: nat, records: seq<SeqRecord>) returns (stats: ReferenceStatistics)
    ensures stats.theoreticalCounts == CountsSpec(Pairs(records, readLen))
    ensures stats.uniqueWindows == UniqueSpec(Pairs(records, readLen))
    ensures stats.nonUniqueWindows == NonUniqueSpec(Pairs(records, readLen))
  {
    var counts: map<string, nat> := map[];
    stats := new ReferenceStatistics();
    var sorted := SortByWindow(Pairs(records, readLen));
    SortSorted(Pairs(records, readLen));
    SpecsEmpty(sorted);
    var i := 0;
    while i < |sorted|
      invariant i <= |sorted|
      invariant i == 0 || i == |sorted| || sorted[i - 1].window != sorted[i].window
      invariant counts == CountsSpec(sorted[..i])
      invariant stats.uniqueWindows == UniqueSpec(sorted[..i])
      invariant stats.nonUniqueWindows == NonUniqueSpec(sorted[..i])
    {
      var w := sorted[i].window;
      var j := GroupEnd(sorted, i);
      var ids := Ids(sorted[i..j]);
      counts := CountRun(counts, sorted[..i], sorted[i..j], ids);
      RunFacts(sorted, i, j);
      GroupsStep(sorted[..i], sorted[i..j], w);
      if AllSame(ids) {
        stats.uniqueWindows := stats.uniqueWindows[w := ids];
      } else {
        stats.nonUniqueWindows := stats.nonUniqueWindows[w := ids];
      }
      i := j;
    }
    stats.theoreticalCounts := counts;
    PrefixAll(sorted);
    SpecsOfSorted(Pairs(records, readLen));
  }

  // ---------------------------------------------------------------------
  // Lemmas behind the loop.

  lemma WindowSetAppend(a: seq<WindowId>, b: seq<WindowId>)
    ensures WindowSet(a + b) == WindowSet(a) + WindowSet(b)
    ensures IdSet(a + b) == IdSet(a) + IdSet(b)
  {
    assert forall p :: p in a + b <==> p in a || p in b;
  }

  /** A window has an empty group exactly when no pair carries it. */
  lemma {:induction false} GroupEmpty(ps: seq<WindowId>, w: string)
    ensures Group(ps, w) == [] <==> w !in WindowSet(ps)
    decreases |ps|
  {
    if ps != [] {
      var p := ps[..|ps| - 1];
      GroupEmpty(p, w);
      InitLast(ps);
      WindowSetAppend(p, [ps[|ps| - 1]]);
    }
  }

  /** An identifier counts no window exactly when no pair carries it. */
  lemma {:induction false} CountZero(ps: seq<WindowId>, id: string)
    ensures Count(ps, id) == 0 <==> id !in IdSet(ps)
    decreases |ps|
  {
    if ps != [] {
      var p := ps[..|ps| - 1];
      CountZero(p, id);
      InitLast(ps);
      WindowSetAppend(p, [ps[|ps| - 1]]);
    }
  }

  lemma {:induction false} GroupAppend(a: seq<WindowId>, b: seq<WindowId>, w: string)
    ensures Group(a + b, w) == Group(a, w) + Group(b, w)
    decreases |b|
  {
    if b == [] {
      assert a + b == a;
    } else {
      var p := b[..|b| - 1];
      var x := b[|b| - 1];
      GroupAppend(a, p, w);
      InitLast(b);
      AppendAssoc(a, p, [x]);
      GroupSnoc(a + p, x, w);
      GroupSnoc(p, x, w);
      AppendAssoc(Group(a, w), Group(p, w), if x.window == w then [x.id] else []);
    }
  }

  lemma {:induction false} CountAppend(a: seq<WindowId>, b: seq<WindowId>, id: string)
    ensures Count(a + b, id) == Count(a, id) + Count(b, id)
    decreases |b|
  {
    if b == [] {
      assert a + b == a;
    } else {
      var p := b[..|b| - 1];
      var x := b[|b| - 1];
      CountAppend(a, p, id);
      InitLast(b);
      AppendAssoc(a, p, [x]);
      CountSnoc(a + p, x, id);
      CountSnoc(p, x, id);
    }
  }

  /** The group of a run of one window is the run's identifiers; other
      windows have none in it. */
  lemma {:induction false} GroupRun(run: seq<WindowId>, w: string, v: string)
    requires forall k :: 0 <= k < |run| ==> run[k].window == w
    ensures Group(run, w) == Ids(run)
    ensures v != w ==> Group(run, v) == []
    decreases |run|
  {
    if run != [] {
      var p := run[..|run| - 1];
      GroupRun(p, w, v);
      assert Ids(run) == Ids(p) + [run[|run| - 1].id];
    }
  }

  lemma CountsSnoc(ps: seq<WindowId>, x: WindowId)
    ensures CountsSpec(ps + [x])
         == CountsSpec(ps)[x.id := (if x.id in CountsSpec(ps) then CountsSpec(ps)[x.id] else 0) + 1]
  {
    WindowSetAppend(ps, [x]);
    assert IdSet([x]) == {x.id};
    forall id
      ensures Count(ps + [x], id) == Count(ps, id) + (if x.id == id then 1 else 0)
    {
      CountSnoc(ps, x, id);
    }
    CountZero(ps, x.id);
  }

  lemma SpecsEmpty(ps: seq<WindowId>)
    ensures CountsSpec(ps[..0]) == map[] && UniqueSpec(ps[..0]) == map[] && NonUniqueSpec(ps[..0]) == map[]
  {
    assert ps[..0] == [];
    assert WindowSet([]) == {} && IdSet([]) == {};
  }

  /** A run that starts where the window changes is the whole group of its
      window: no earlier pair has it. */
  lemma RunFacts(ps: seq<WindowId>, i: nat, j: nat)
    requires Sorted(ps) && i < j <= |ps|
    requires i == 0 || ps[i - 1].window != ps[i].window
    requires forall k :: i <= k < j ==> ps[k].window == ps[i].window
    ensures ps[..j] == ps[..i] + ps[i..j]
    ensures ps[i].window !in WindowSet(ps[..i])
    ensures forall k :: 0 <= k < |ps[i..j]| ==> ps[i..j][k].window == ps[i].window
  {
    var w := ps[i].window;
    if w in WindowSet(ps[..i]) {
      var k :| 0 <= k < i && ps[k].window == w;
      assert LexLe(ps[k].window, ps[i - 1].window) && LexLe(ps[i - 1].window, w);
      LexAntisym(ps[i - 1].window, w);
      assert false;
    }
  }

  /** Adding the run of a new window adds that window, with the run's
      identifiers, to the unique or to the non-unique map. */
  lemma GroupsStep(before: seq<WindowId>, run: seq<WindowId>, w: string)
    requires run != []
    requires forall k :: 0 <= k < |run| ==> run[k].window == w
    requires w !in WindowSet(before)
    ensures UniqueSpec(before + run)
         == if AllSame(Ids(run)) then UniqueSpec(before)[w := Ids(run)] else UniqueSpec(before)
    ensures NonUniqueSpec(before + run)
         == if AllSame(Ids(run)) then NonUniqueSpec(before) else NonUniqueSpec(before)[w := Ids(run)]
  {
    NewGroup(before, run, w);
    SpecsStep(before, before + run, w, Ids(run));
  }

  /** The groups after a run of a new window: that window's group is the
      run's identifiers, every other group is as before. */
  lemma NewGroup(before: seq<WindowId>, run: seq<WindowId>, w: string)
    requires run != []
    requires forall k :: 0 <= k < |run| ==> run[k].window == w
    requires w !in WindowSet(before)
    ensures WindowSet(before + run) == WindowSet(before) + {w}
    ensures Group(before + run, w) == Ids(run)
    ensures forall v :: v != w ==> Group(before + run, v) == Group(before, v)
  {
    WindowSetAppend(before, run);
    assert WindowSet(run) == {w} by {
      assert run[0] in run;
    }
    GroupEmpty(before, w);
    GroupAppend(before, run, w);
    GroupRun(run, w, w);
    forall v | v != w
      ensures Group(before + run, v) == Group(before, v)
    {
      GroupAppend(before, run, v);
      GroupRun(run, w, v);
      AppendEmpty(Group(before, v));
    }
  }

  lemma SpecsStep(before: seq<WindowId>, after: seq<WindowId>, w: string, ids: seq<string>)
    requires w !in WindowSet(before)
    requires WindowSet(after) == WindowSet(before) + {w}
    requires Group(after, w) == ids
    requires forall v :: v != w ==> Group(after, v) == Group(before, v)
    ensures UniqueSpec(after) == if AllSame(ids) then UniqueSpec(before)[w := ids] else UniqueSpec(before)
    ensures NonUniqueSpec(after) == if AllSame(ids) then NonUniqueSpec(before) else NonUniqueSpec(before)[w := ids]
  {
    assert GroupsOf(after) == GroupsOf(before)[w := ids];
    SplitStep(GroupsOf(before), w, ids);
  }

  /** A new group goes to exactly one of the two maps. */
  lemma SplitStep<K>(g: map<K, seq<string>>, w: K, ids: seq<string>)
    requires w !in g
    ensures UniqueOf(g[w := ids]) == if AllSame(ids) then UniqueOf(g)[w := ids] else UniqueOf(g)
    ensures NonUniqueOf(g[w := ids]) == if AllSame(ids) then NonUniqueOf(g) else NonUniqueOf(g)[w := ids]
  {
  }

  /** Sorting keeps the windows and identifiers that occur. */
  lemma SortMembers(ps: seq<WindowId>)
    ensures WindowSet(SortByWindow(ps)) == WindowSet(ps)
    ensures IdSet(SortByWindow(ps)) == IdSet(ps)
  {
    var s := SortByWindow(ps);
    SortSorted(ps);
    forall p
      ensures p in s <==> p in ps
    {
      assert p in s <==> p in multiset(s);
      assert p in ps <==> p in multiset(ps);
    }
  }

  lemma SortCounts(ps: seq<WindowId>)
    ensures CountsSpec(SortByWindow(ps)) == CountsSpec(ps)
  {
    SortMembers(ps);
    forall id
      ensures Count(SortByWindow(ps), id) == Count(ps, id)
    {
      SortCount(ps, id);
    }
  }

  lemma SortGroups(ps: seq<WindowId>)
    ensures GroupsOf(SortByWindow(ps)) == GroupsOf(ps)
  {
    SortMembers(ps);
    forall w
      ensures Group(SortByWindow(ps), w) == Group(ps, w)
    {
      SortGroup(ps, w);
    }
  }

  /** Sorting changes none of the three maps. */
  lemma SpecsOfSorted(ps: seq<WindowId>)
    ensures CountsSpec(SortByWindow(ps)) == CountsSpec(ps)
    ensures UniqueSpec(SortByWindow(ps)) == UniqueSpec(ps)
    ensures NonUniqueSpec(SortByWindow(ps)) == NonUniqueSpec(ps)
  {
    SortCounts(ps);
    SortGroups(ps);
  }
}
