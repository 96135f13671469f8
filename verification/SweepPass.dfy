/** One pass of `Threads.sweep_ttl`: choosing the expired threads, visiting them in
    batches, and the sizes it reports. */
module SweepPass {
  import opened Prelude
  import opened History
  import opened Stores
  import opened Sizes
  import opened Savers

  // ------------------------------------------------------------- selection

  datatype Expired = Expired(at: int, id: string)

  /** The sort key `(expires_at, str(thread_id))`. */
  predicate Before(x: Expired, y: Expired) {
    x.at < y.at || (x.at == y.at && StrLeq(x.id, y.id))
  }

  lemma BeforeTotal(x: Expired, y: Expired)
    ensures Before(x, y) || Before(y, x)
  {
    StrLeqTotal(x.id, y.id);
  }

  lemma BeforeTransitive(x: Expired, y: Expired, z: Expired)
    requires Before(x, y) && Before(y, z)
    ensures Before(x, z)
  {
    if x.at == y.at == z.at { StrLeqTransitive(x.id, y.id, z.id); }
  }

  ghost predicate Sorted(s: seq<Expired>) {
    forall i, j :: 0 <= i < j < |s| ==> Before(s[i], s[j])
  }

  /** Place `x` behind everything not after it. */
  function Insert(s: seq<Expired>, x: Expired): seq<Expired> {
    if s == [] then [x]
    else if Before(s[|s| - 1], x) then s + [x]
    else Insert(s[..|s| - 1], x) + [s[|s| - 1]]
  }

  lemma {:induction false} InsertSorts(s: seq<Expired>, x: Expired)
    requires Sorted(s)
    ensures Sorted(Insert(s, x)) && multiset(Insert(s, x)) == multiset(s) + multiset{x}
    ensures |Insert(s, x)| == |s| + 1
  {
    if s == [] {
    } else if Before(s[|s| - 1], x) {
      forall i | 0 <= i < |s| ensures Before(s[i], x) {
        if i < |s| - 1 { BeforeTransitive(s[i], s[|s| - 1], x); }
      }
    } else {
      var front, last := s[..|s| - 1], s[|s| - 1];
      assert s == front + [last];
      InsertSorts(front, x);
      BeforeTotal(last, x);
      forall y | y in Insert(front, x) ensures Before(y, last) {
        assert y in multiset(Insert(front, x));
        assert y in front || y == x;
      }
    }
  }

  method SortExpired(expired: seq<Expired>) returns (r: seq<Expired>)
    ensures Sorted(r) && multiset(r) == multiset(expired) && |r| == |expired|
  {
    r := [];
    for i := 0 to |expired|
      invariant Sorted(r) && |r| == i && multiset(r) == multiset(expired[..i])
    {
      InsertSorts(r, expired[i]);
      r := Insert(r, expired[i]);
      assert expired[..i + 1] == expired[..i] + [expired[i]];
    }
    assert expired[..|expired|] == expired;
  }

  /** The threads one sweep handles, and the expired ones it leaves for later.
      `limit` is the effective limit, `None` for no limit. */
  method SelectExpired(expired: seq<Expired>, limit: Option<int>) returns (chosen: seq<Expired>, left: seq<Expired>)
    ensures multiset(chosen) + multiset(left) == multiset(expired)
    ensures limit.Some? ==> |chosen| <= Max(0, limit.value)
    ensures left != [] ==> limit.Some? && |chosen| == Max(0, limit.value)
    ensures forall x, y :: x in chosen && y in left ==> x.at <= y.at
  {
    var sorted := SortExpired(expired);
    var n := if limit.Some? && Max(0, limit.value) < |sorted| then Max(0, limit.value) else |sorted|;
    chosen, left := sorted[..n], sorted[n..];
    assert sorted == chosen + left;
    forall x, y | x in chosen && y in left ensures x.at <= y.at {
      var i :| 0 <= i < |chosen| && chosen[i] == x;
      var j :| 0 <= j < |left| && left[j] == y;
      assert sorted[i] == x && sorted[n + j] == y;
      assert Before(sorted[i], sorted[n + j]);
    }
  }

  /** What the visit of one selected thread came to. */
  datatype Outcome = Skipped | KeptLatest | DeletedThread

  ghost function Handled(outcomes: seq<Outcome>): nat {
    if outcomes == [] then 0
    else Handled(outcomes[..|outcomes| - 1]) + if outcomes[|outcomes| - 1].Skipped? then 0 else 1
  }

  ghost function Deletions(outcomes: seq<Outcome>): nat {
    if outcomes == [] then 0
    else Deletions(outcomes[..|outcomes| - 1]) + if outcomes[|outcomes| - 1].DeletedThread? then 1 else 0
  }

  /** The counter counts the selected threads that were not skipped. */
  lemma {:induction false} HandledCounts(outcomes: seq<Outcome>)
    ensures Handled(outcomes) == |set i | 0 <= i < |outcomes| && outcomes[i] != Skipped|
    decreases |outcomes|
  {
    if outcomes != [] {
      var n := |outcomes| - 1;
      var front := outcomes[..n];
      HandledCounts(front);
      var before := set i | 0 <= i < |front| && front[i] != Skipped;
      assert (set i | 0 <= i < |outcomes| && outcomes[i] != Skipped) ==
             if outcomes[n] != Skipped then before + {n} else before;
    }
  }

  /** The counter counts the selected threads that were deleted. */
  lemma {:induction false} DeletionsCount(outcomes: seq<Outcome>)
    ensures Deletions(outcomes) == |set i | 0 <= i < |outcomes| && outcomes[i] == DeletedThread|
    decreases |outcomes|
  {
    if outcomes != [] {
      var n := |outcomes| - 1;
      var front := outcomes[..n];
      DeletionsCount(front);
      var before := set i | 0 <= i < |front| && front[i] == DeletedThread;
      assert (set i | 0 <= i < |outcomes| && outcomes[i] == DeletedThread) ==
             if outcomes[n] == DeletedThread then before + {n} else before;
    }
  }

  lemma {:induction false} DeletionsAreHandled(outcomes: seq<Outcome>)
    ensures Deletions(outcomes) <= Handled(outcomes) <= |outcomes|
  {
    if outcomes != [] { DeletionsAreHandled(outcomes[..|outcomes| - 1]); }
  }

  // -------------------------------------------------------- reported sizes

  datatype Action = Prune(thread: string) | Delete(thread: string)

  ghost function Act(st: Store, a: Action): Store {
    match a
    case Prune(t) => Pruned(st, t)
    case Delete(t) => WithoutThread(st, t)
  }

  /** The store after the saver calls of a pass. */
  ghost function Swept(st: Store, actions: seq<Action>): Store
    decreases actions
  {
    if actions == [] then st else Swept(Act(st, actions[0]), actions[1..])
  }

  lemma PruneShrinks(st: Store, t: string)
    ensures ThreadBytes(Pruned(st, t), t) <= ThreadBytes(st, t)
  {
    var w := Pruned(st, t);
    if t in st.storage && st.storage[t] != map[] {
      var spaces, kept := st.storage[t], w.storage[t];
      forall ns | ns in spaces ensures SpaceBytes(ns, spaces[ns]) >= 0 {
        EntriesShrink(spaces[ns], spaces[ns]);
      }
      forall ns | ns in kept ensures SpaceBytes(ns, kept[ns]) <= SpaceBytes(ns, spaces[ns]) {
        EntriesShrink(spaces[ns], kept[ns]);
      }
      hide Keep, SpaceBytes, Uses, GroupSize, BlobSize;
      TotalShrinks(spaces, kept, SpaceBytes);
      RecordsShrink(st.writes, w.writes, st.blobs, w.blobs, t);
    }
  }

  lemma EntriesShrink(es: map<string, Entry>, es': map<string, Entry>)
    requires es'.Keys <= es.Keys && forall id :: id in es' ==> es'[id] == es[id]
    ensures 0 <= EntriesBytes(es') <= EntriesBytes(es)
  {
    assert forall id :: id in es ==> EntrySize(id, es[id]) >= 0;
    TotalShrinks(es, es', EntrySize);
    TotalNonNegative(es', EntrySize);
  }

  lemma RecordsShrink(writes: map<CheckpointKey, Group>, writes': map<CheckpointKey, Group>,
                      blobs: map<BlobKey, Payload>, blobs': map<BlobKey, Payload>, t: string)
    requires writes'.Keys <= writes.Keys && forall k :: k in writes' ==> writes'[k] == writes[k]
    requires blobs'.Keys <= blobs.Keys && forall k :: k in blobs' ==> blobs'[k] == blobs[k]
    ensures WritesBytes(writes', t) <= WritesBytes(writes, t)
    ensures BlobsBytes(blobs', t) <= BlobsBytes(blobs, t)
  {
    forall k | k in writes ensures GroupShare(t)(k, writes[k]) >= 0 {
      GroupSizeNonNegative(k.id, writes[k]);
    }
    TotalShrinks(writes, writes', GroupShare(t));
    TotalShrinks(blobs, blobs', BlobShare(t));
  }

  /** One saver call shrinks its own thread and touches no other. */
  lemma ActShrinks(st: Store, a: Action, t: string)
    ensures ThreadBytes(Act(st, a), t) <= ThreadBytes(st, t)
    ensures t != a.thread ==> ThreadBytes(Act(st, a), t) == ThreadBytes(st, t)
  {
    hide ThreadBytes, Pruned, WithoutThread;
    if t != a.thread {
      assert OtherThreadsSame(st, Act(st, a), {a.thread}) by {
        if a.Prune? { PruneIsConfined(st, a.thread); } else { DeleteIsConfined(st, a.thread); }
      }
      OtherThreadsBytes(st, Act(st, a), a.thread, t);
    } else if a.Prune? {
      PruneShrinks(st, t);
    } else {
      DeleteEmpties(st, t);
    }
  }

  lemma DeleteIsConfined(st: Store, t: string)
    ensures OtherThreadsSame(st, WithoutThread(st, t), {t})
  {
  }

  lemma DeleteEmpties(st: Store, t: string)
    ensures ThreadBytes(WithoutThread(st, t), t) <= ThreadBytes(st, t)
  {
    UnknownThreadIsEmpty(WithoutThread(st, t), t);
    ThreadBytesNonNegative(st, t);
  }

  lemma {:induction false} SweptShrinks(st: Store, actions: seq<Action>, t: string)
    ensures ThreadBytes(Swept(st, actions), t) <= ThreadBytes(st, t)
    ensures (forall a :: a in actions ==> a.thread != t) ==> ThreadBytes(Swept(st, actions), t) == ThreadBytes(st, t)
    decreases actions
  {
    hide ThreadBytes, Act;
    if actions != [] {
      ActShrinks(st, actions[0], t);
      SweptShrinks(Act(st, actions[0]), actions[1..], t);
    }
  }

  /** What a tracked thread adds to the reported deleted size. */
  ghost function Shrinkage(after: Store): (string, int) -> int {
    (t: string, before: int) => Max(before - ThreadBytes(after, t), 0)
  }

  /** `sizes_before` of the tracked threads. */
  ghost function SizesBefore(st: Store, tracked: set<string>): map<string, int> {
    map t | t in tracked :: ThreadBytes(st, t)
  }

  ghost function EstimatedBytes(st: Store): int {
    TotalBytes(Recount(st))
  }

  function Count(t: string, n: int): int { n }

  /** The total is the sum over any set of threads that covers the store. */
  lemma {:induction false} TotalByThread(st: Store, threads: set<string>)
    requires Recount(st).Keys <= threads
    ensures EstimatedBytes(st) == Total(SizesBefore(st, threads), Count)
    decreases threads
  {
    TableByThread(Recount(st), threads);
    forall t | t in threads ensures Row(Recount(st), t).0 == ThreadBytes(st, t) { RecountRow(st, t); }
    assert (map t | t in threads :: Row(Recount(st), t).0) == SizesBefore(st, threads);
  }

  lemma {:induction false} TableByThread(table: Table, threads: set<string>)
    requires table.Keys <= threads
    ensures TotalBytes(table) == Total(map t | t in threads :: Row(table, t).0, Count)
    decreases threads
  {
    var rows := map t | t in threads :: Row(table, t).0;
    if threads == {} {
      assert table == map[] && rows == map[];
    } else {
      var t :| t in threads;
      TotalTake(rows, Count, t);
      if t in table { TotalChange(table, RowSize, t, table[t]); } else { assert table - {t} == table; }
      TableByThread(table - {t}, threads - {t});
      var rest := map u | u in threads - {t} :: Row(table - {t}, u).0;
      assert rows - {t} == rest;
    }
  }

  /** Conservation: with no interleaved writes, the deleted size a sweep reports is
      exactly how much the estimated total fell. */
  lemma ReportedSizeIsExact(st: Store, actions: seq<Action>, tracked: set<string>)
    requires forall a :: a in actions ==> a.thread in tracked
    ensures Total(SizesBefore(st, tracked), Shrinkage(Swept(st, actions)))
         == EstimatedBytes(st) - EstimatedBytes(Swept(st, actions))
  {
    var after := Swept(st, actions);
    var all := Recount(st).Keys + Recount(after).Keys + tracked;
    TotalByThread(st, all);
    TotalByThread(after, all);
    forall t | t in all
      ensures ThreadBytes(after, t) <= ThreadBytes(st, t)
      ensures t !in tracked ==> ThreadBytes(after, t) == ThreadBytes(st, t)
    {
      SweptShrinks(st, actions, t);
    }
    hide ThreadBytes, Recount;
    ShrinkageAddsUp(st, after, tracked, all);
  }

  lemma {:induction false} ShrinkageAddsUp(st: Store, after: Store, tracked: set<string>, all: set<string>)
    requires tracked <= all
    requires forall t :: t in all ==> ThreadBytes(after, t) <= ThreadBytes(st, t)
    requires forall t :: t in all && t !in tracked ==> ThreadBytes(after, t) == ThreadBytes(st, t)
    ensures Total(SizesBefore(st, tracked), Shrinkage(after))
         == Total(SizesBefore(st, all), Count) - Total(SizesBefore(after, all), Count)
    decreases all
  {
    hide ThreadBytes, SizesBefore, Total;
    if all != {} {
      var t :| t in all;
      ShrinkageAddsUp(st, after, tracked - {t}, all - {t});
      SizesTake(st, all, t, Count);
      SizesTake(after, all, t, Count);
      if t in tracked {
        SizesTake(st, tracked, t, Shrinkage(after));
      } else {
        assert tracked - {t} == tracked;
      }
    } else {
      assert tracked == {} && all == {};
      SizesNone(st, Shrinkage(after));
      SizesNone(st, Count);
      SizesNone(after, Count);
    }
  }

  lemma SizesNone(st: Store, f: (string, int) -> int)
    ensures Total(SizesBefore(st, {}), f) == 0
  {
    hide ThreadBytes;
    assert SizesBefore(st, {}) == map[];
  }

  lemma SizesTake(st: Store, all: set<string>, t: string, f: (string, int) -> int)
    requires t in all
    ensures Total(SizesBefore(st, all), f) == f(t, ThreadBytes(st, t)) + Total(SizesBefore(st, all - {t}), f)
  {
    hide ThreadBytes;
    TotalTake(SizesBefore(st, all), f, t);
    assert SizesBefore(st, all) - {t} == SizesBefore(st, all - {t});
  }

  // ------------------------------------------------------------ a whole pass

  /** The saver call a visit comes to. */
  function ActionOf(t: string, o: Outcome): seq<Action> {
    match o
    case Skipped => []
    case KeptLatest => [Prune(t)]
    case DeletedThread => [Delete(t)]
  }

  /** The saver calls of a pass, in order. */
  function Actions(chosen: seq<Expired>, outcomes: seq<Outcome>): seq<Action>
    requires |outcomes| == |chosen|
  {
    if chosen == [] then []
    else
      var n := |chosen| - 1;
      Actions(chosen[..n], outcomes[..n]) + ActionOf(chosen[n].id, outcomes[n])
  }

  lemma {:induction false} ActionsName(chosen: seq<Expired>, outcomes: seq<Outcome>, a: Action)
    requires |outcomes| == |chosen| && a in Actions(chosen, outcomes)
    ensures exists i :: 0 <= i < |chosen| && chosen[i].id == a.thread
    decreases |chosen|
  {
    var n := |chosen| - 1;
    if a in Actions(chosen[..n], outcomes[..n]) {
      ActionsName(chosen[..n], outcomes[..n], a);
      var i :| 0 <= i < n && chosen[..n][i].id == a.thread;
      assert chosen[i].id == a.thread;
    } else {
      assert chosen[n].id == a.thread;
    }
  }

  lemma {:induction false} SweptMore(st: Store, actions: seq<Action>, more: seq<Action>)
    ensures Swept(st, actions + more) == Swept(Swept(st, actions), more)
    decreases actions
  {
    if actions == [] {
      assert actions + more == more;
    } else {
      assert (actions + more)[1..] == actions[1..] + more;
      SweptMore(Act(st, actions[0]), actions[1..], more);
    }
  }

  /** The selected thread `i` is selected once. */
  ghost predicate SelectedOnce(chosen: seq<Expired>, i: int) {
    0 <= i < |chosen| && forall j :: 0 <= j < |chosen| && j != i ==> chosen[j].id != chosen[i].id
  }

  /** What an outcome means for the records of a thread: skipped, they are untouched;
      kept latest, they are those of a pruned thread and the newest checkpoint of
      every namespace reads as before; deleted, none is left. */
  ghost predicate Treated(st: Store, st': Store, t: string, o: Outcome) {
    match o
    case Skipped => SameOwn(st, st', t)
    case KeptLatest => SameOwn(Pruned(st, t), st', t) && forall ns :: LatestReadable(st, st', t, ns)
    case DeletedThread => Erased(st', t)
  }

  /** A pass treats every thread it selects once as its outcome says, and leaves the
      records of unselected threads alone. */
  ghost predicate PassTreats(st: Store, st': Store, chosen: seq<Expired>, outcomes: seq<Outcome>)
    requires |outcomes| == |chosen|
  {
    && (forall i :: SelectedOnce(chosen, i) ==> Treated(st, st', chosen[i].id, outcomes[i]))
    && (forall t :: (forall i :: 0 <= i < |chosen| ==> chosen[i].id != t) ==> SameOwn(st, st', t))
  }

  lemma {:induction false} OthersUntouched(st: Store, actions: seq<Action>, t: string)
    requires forall a :: a in actions ==> a.thread != t
    ensures SameOwn(st, Swept(st, actions), t)
    decreases actions
  {
    if actions != [] {
      hide Pruned;
      var a := actions[0];
      if a.Prune? { PruneIsConfined(st, a.thread); }
      OthersUntouched(Act(st, a), actions[1..], t);
    }
  }

  /** The saver calls of the first `n` visits. */
  ghost function ActionsTo(chosen: seq<Expired>, outcomes: seq<Outcome>, n: nat): seq<Action>
    requires n <= |chosen| == |outcomes|
  {
    Actions(chosen[..n], outcomes[..n])
  }

  /** The store after the first `n` visits. */
  ghost function StoreAt(st: Store, chosen: seq<Expired>, outcomes: seq<Outcome>, n: nat): Store
    requires n <= |chosen| == |outcomes|
  {
    Swept(st, ActionsTo(chosen, outcomes, n))
  }

  lemma StoreAtNext(st: Store, chosen: seq<Expired>, outcomes: seq<Outcome>, n: nat)
    requires n < |chosen| == |outcomes|
    ensures StoreAt(st, chosen, outcomes, n + 1) ==
            Swept(StoreAt(st, chosen, outcomes, n), ActionOf(chosen[n].id, outcomes[n]))
  {
    hide Swept;
    assert chosen[..n + 1][..n] == chosen[..n] && outcomes[..n + 1][..n] == outcomes[..n];
    SweptMore(st, ActionsTo(chosen, outcomes, n), ActionOf(chosen[n].id, outcomes[n]));
  }

  /** Visits of other threads leave the records of `t` alone. */
  lemma {:induction false} UntouchedBetween(st: Store, chosen: seq<Expired>, outcomes: seq<Outcome>,
                                            a: nat, b: nat, t: string)
    requires a <= b <= |chosen| == |outcomes|
    requires forall i :: a <= i < b ==> chosen[i].id != t
    ensures SameOwn(StoreAt(st, chosen, outcomes, a), StoreAt(st, chosen, outcomes, b), t)
    decreases b
  {
    hide StoreAt, Swept;
    if a < b {
      UntouchedBetween(st, chosen, outcomes, a, b - 1, t);
      StoreAtNext(st, chosen, outcomes, b - 1);
      OthersUntouched(StoreAt(st, chosen, outcomes, b - 1), ActionOf(chosen[b - 1].id, outcomes[b - 1]), t);
    }
  }

  /** A thread whose records are those of `st` before its visit, and those after its
      visit at the end, is treated as its outcome says. */
  lemma VisitTreats(st: Store, a: Store, t: string, o: Outcome, end: Store)
    requires SameOwn(st, a, t) && SameOwn(Swept(a, ActionOf(t, o)), end, t)
    ensures Treated(st, end, t, o)
  {
    ActedOn(a, t, o);
    var b := Swept(a, ActionOf(t, o));
    hide Swept, Pruned;
    match o
    case Skipped =>
    case DeletedThread => SameOwnErased(b, end, t);
    case KeptLatest =>
      PrunedAlike(st, a, t);
      forall ns ensures LatestReadable(st, end, t, ns) { LikePrunedIsReadable(st, end, t, ns); }
  }

  lemma SameOwnErased(st: Store, st': Store, t: string)
    requires SameOwn(st, st', t) && Erased(st, t)
    ensures Erased(st', t)
  {
    assert Lookup(st'.storage, t) == None;
    forall k: CheckpointKey ensures k.thread == t ==> k !in st'.writes {
      assert k.thread == t ==> Lookup(st'.writes, k) == Lookup(st.writes, k);
    }
    forall k: BlobKey ensures k.thread == t ==> k !in st'.blobs {
      assert k.thread == t ==> Lookup(st'.blobs, k) == Lookup(st.blobs, k);
    }
  }

  lemma ActedOn(st: Store, t: string, o: Outcome)
    ensures var st' := Swept(st, ActionOf(t, o));
            match o
            case Skipped => st' == st
            case KeptLatest => st' == Pruned(st, t)
            case DeletedThread => Erased(st', t)
  {
    hide Pruned;
    if !o.Skipped? { assert ActionOf(t, o)[1..] == []; }
  }

  /** Main result for a pass, whatever the batches. */
  lemma PassTreatsAll(st: Store, chosen: seq<Expired>, outcomes: seq<Outcome>)
    requires |outcomes| == |chosen|
    ensures PassTreats(st, Swept(st, Actions(chosen, outcomes)), chosen, outcomes)
  {
    var n := |chosen|;
    assert chosen[..n] == chosen && outcomes[..n] == outcomes;
    assert StoreAt(st, chosen, outcomes, 0) == st;
    assert StoreAt(st, chosen, outcomes, n) == Swept(st, Actions(chosen, outcomes));
    hide StoreAt, Swept, Treated, SameOwn;
    forall i | SelectedOnce(chosen, i)
      ensures Treated(st, StoreAt(st, chosen, outcomes, n), chosen[i].id, outcomes[i])
    {
      var t := chosen[i].id;
      UntouchedBetween(st, chosen, outcomes, 0, i, t);
      StoreAtNext(st, chosen, outcomes, i);
      UntouchedBetween(st, chosen, outcomes, i + 1, n, t);
      VisitTreats(st, StoreAt(st, chosen, outcomes, i), t, outcomes[i], StoreAt(st, chosen, outcomes, n));
    }
    forall t | forall i :: 0 <= i < n ==> chosen[i].id != t ensures SameOwn(st, StoreAt(st, chosen, outcomes, n), t) {
      UntouchedBetween(st, chosen, outcomes, 0, n, t);
    }
  }

  /** The visit of one selected thread: what the recheck came to, done. */
  method Visit(saver: InMemorySaver, t: string, outcome: Outcome)
    requires saver.Valid()
    modifies saver, saver.sizes
    ensures saver.Valid() && saver.Contents() == Swept(old(saver.Contents()), ActionOf(t, outcome))
    ensures Treated(old(saver.Contents()), saver.Contents(), t, outcome)
  {
    hide Recount;
    VisitTreats(saver.Contents(), saver.Contents(), t, outcome, Swept(saver.Contents(), ActionOf(t, outcome)));
    match outcome {
      case Skipped =>
      case KeptLatest =>
        saver.PruneThread(t);
        assert [Prune(t)][1..] == [];
      case DeletedThread =>
        saver.DeleteThread(t);
        assert [Delete(t)][1..] == [];
    }
  }

  /** The first `n` selected threads are visited and counted. */
  ghost predicate Visited(chosen: seq<Expired>, outcomes: seq<Outcome>, n: nat,
                          visited: seq<Expired>, processed: nat, deleted: nat)
    requires n <= |chosen| == |outcomes|
  {
    visited == chosen[..n] && processed == Handled(outcomes[..n]) && deleted == Deletions(outcomes[..n])
  }

  lemma OneMoreVisit(chosen: seq<Expired>, outcomes: seq<Outcome>, n: nat,
                     visited: seq<Expired>, processed: nat, deleted: nat)
    requires n < |chosen| == |outcomes| && Visited(chosen, outcomes, n, visited, processed, deleted)
    ensures Visited(chosen, outcomes, n + 1, visited + [chosen[n]], processed + (if outcomes[n].Skipped? then 0 else 1),
                    deleted + if outcomes[n].DeletedThread? then 1 else 0)
  {
    assert outcomes[..n + 1][..n] == outcomes[..n];
  }

  /** The batch loop: every selected thread is visited exactly once, in order, and
      the saver is called exactly for those the recheck did not skip. */
  method VisitBatches(saver: InMemorySaver, chosen: seq<Expired>, outcomes: seq<Outcome>, batchSize: int)
    returns (visited: seq<Expired>, processed: nat, deleted: nat)
    requires saver.Valid() && |outcomes| == |chosen|
    modifies saver, saver.sizes
    ensures saver.Valid() && saver.Contents() == Swept(old(saver.Contents()), Actions(chosen, outcomes))
    ensures PassTreats(old(saver.Contents()), saver.Contents(), chosen, outcomes)
    ensures visited == chosen
    ensures processed == Handled(outcomes) && deleted == Deletions(outcomes)
    ensures deleted <= processed <= |chosen|
  {
    hide PassTreats, Treated, Recount, Swept, Actions, StoreAt, Visited, TotalBytes, TotalCount;
    var size := Max(1, batchSize);
    visited, processed, deleted := [], 0, 0;
    ghost var st := saver.Contents();
    NothingVisited(st, chosen, outcomes);
    var offset := 0;
    while offset < |chosen|
      invariant 0 <= offset && saver.Valid()
      invariant Visited(chosen, outcomes, Min(offset, |chosen|), visited, processed, deleted)
      invariant saver.Contents() == StoreAt(st, chosen, outcomes, Min(offset, |chosen|))
      decreases |chosen| - offset
    {
      for i := offset to Min(offset + size, |chosen|)
        invariant saver.Valid() && Visited(chosen, outcomes, i, visited, processed, deleted)
        invariant saver.Contents() == StoreAt(st, chosen, outcomes, i)
      {
        OneMoreVisit(chosen, outcomes, i, visited, processed, deleted);
        StoreAtNext(st, chosen, outcomes, i);
        Visit(saver, chosen[i].id, outcomes[i]);
        visited := visited + [chosen[i]];
        if !outcomes[i].Skipped? { processed := processed + 1; }
        if outcomes[i].DeletedThread? { deleted := deleted + 1; }
      }
      offset := offset + size;
    }
    AllVisited(st, chosen, outcomes, visited, processed, deleted);
    PassTreatsAll(st, chosen, outcomes);
  }

  lemma NothingVisited(st: Store, chosen: seq<Expired>, outcomes: seq<Outcome>)
    requires |outcomes| == |chosen|
    ensures Visited(chosen, outcomes, 0, [], 0, 0) && StoreAt(st, chosen, outcomes, 0) == st
  {
  }

  lemma AllVisited(st: Store, chosen: seq<Expired>, outcomes: seq<Outcome>,
                   visited: seq<Expired>, processed: nat, deleted: nat)
    requires |outcomes| == |chosen| && Visited(chosen, outcomes, |chosen|, visited, processed, deleted)
    ensures visited == chosen && StoreAt(st, chosen, outcomes, |chosen|) == Swept(st, Actions(chosen, outcomes))
    ensures processed == Handled(outcomes) && deleted == Deletions(outcomes) && deleted <= processed <= |chosen|
  {
    assert chosen[..|chosen|] == chosen && outcomes[..|chosen|] == outcomes;
    DeletionsAreHandled(outcomes);
  }

  function Min(a: int, b: int): int {
    if a < b then a else b
  }

  /** `sizes_before`. */
  method MeasureThreads(saver: InMemorySaver, chosen: seq<Expired>) returns (sizes: map<string, int>)
    requires saver.Valid()
    ensures sizes == SizesBefore(saver.Contents(), set x | x in chosen :: x.id)
  {
    hide ThreadBytes, Recount, TotalBytes, TotalCount;
    sizes := map[];
    for i := 0 to |chosen|
      invariant sizes == SizesBefore(saver.Contents(), set x | x in chosen[..i] :: x.id)
    {
      RecountRow(saver.Contents(), chosen[i].id);
      sizes := sizes[chosen[i].id := Row(saver.sizes.byThread, chosen[i].id).0];
      assert chosen[..i + 1] == chosen[..i] + [chosen[i]];
    }
    assert chosen[..|chosen|] == chosen;
  }

  /** The sum of what each tracked thread lost. */
  method ReportDeleted(saver: InMemorySaver, before: map<string, int>) returns (size: int)
    requires saver.Valid()
    ensures size == Total(before, Shrinkage(saver.Contents()))
  {
    hide ThreadBytes, Recount, Total;
    var todo := before.Keys;
    size := 0;
    NoShrinkage(saver.Contents());
    while todo != {}
      invariant todo <= before.Keys
      invariant size == Total(before - todo, Shrinkage(saver.Contents()))
      decreases todo
    {
      var t :| t in todo;
      RecountRow(saver.Contents(), t);
      TotalAdd(before - todo, Shrinkage(saver.Contents()), t, before[t]);
      assert before - (todo - {t}) == (before - todo)[t := before[t]];
      size := size + Max(before[t] - Row(saver.sizes.byThread, t).0, 0);
      todo := todo - {t};
    }
    assert before - todo == before;
  }

  lemma NoShrinkage(st: Store)
    ensures forall m: map<string, int> :: Total(m - m.Keys, Shrinkage(st)) == 0
  {
    forall m: map<string, int> ensures Total(m - m.Keys, Shrinkage(st)) == 0 {
      assert m - m.Keys == map[];
    }
  }

  /** A pass without interleaved writes, from the selected threads to its report: the
      saver is left as the visits leave it, and the reported deleted size is exactly
      how much its estimated total fell. */
  method SweepSelected(saver: InMemorySaver, chosen: seq<Expired>, outcomes: seq<Outcome>, batchSize: int)
    returns (processed: nat, deleted: nat, deletedSize: int)
    requires saver.Valid() && |outcomes| == |chosen|
    modifies saver, saver.sizes
    ensures saver.Valid() && saver.Contents() == Swept(old(saver.Contents()), Actions(chosen, outcomes))
    ensures PassTreats(old(saver.Contents()), saver.Contents(), chosen, outcomes)
    ensures deleted <= processed <= |chosen|
    ensures deletedSize == old(saver.sizes.totalBytes) - saver.sizes.totalBytes
  {
    hide Recount, Swept, Total, ThreadBytes, PassTreats;
    ghost var st := saver.Contents();
    var before := MeasureThreads(saver, chosen);
    var visited;
    visited, processed, deleted := VisitBatches(saver, chosen, outcomes, batchSize);
    deletedSize := ReportDeleted(saver, before);
    var tracked := set x | x in chosen :: x.id;
    forall a | a in Actions(chosen, outcomes) ensures a.thread in tracked {
      ActionsName(chosen, outcomes, a);
      var i :| 0 <= i < |chosen| && chosen[i].id == a.thread;
      assert chosen[i] in chosen;
    }
    ReportedSizeIsExact(st, Actions(chosen, outcomes), tracked);
  }
}
