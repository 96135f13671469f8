/** `StreamManager`: five maps, active runs, pending deletions and the stop flag. */
module Streams {
  import opened Prelude
  import opened StreamIds

  /** Values by thread key, then by run id. */
  type Nested<V> = map<string, map<string, V>>

  datatype RunKey = RunKey(thread: string, run: string)

  datatype Manager = Manager(
    queues: Nested<seq<nat>>,
    controlQueues: Nested<seq<nat>>,
    controlKeys: Nested<Message>,
    stores: Nested<seq<Message>>,
    threadStreams: map<string, seq<nat>>,
    active: set<RunKey>,
    pending: set<RunKey>,
    stopped: bool,
    last: StreamId)                      // the process-wide id generator

  const FRESH := Manager(map[], map[], map[], map[], map[], {}, {}, false, NO_ID)

  // ----------------------------------------------------------- nested maps

  function Get<V>(m: Nested<V>, k: RunKey): Option<V> {
    if k.thread in m && k.run in m[k.thread] then Some(m[k.thread][k.run]) else None
  }

  function Set<V>(m: Nested<V>, k: RunKey, v: V): Nested<V> {
    m[k.thread := (if k.thread in m then m[k.thread] else map[])[k.run := v]]
  }

  /** Remove one run's value, and its thread's bucket if that was the last. */
  function Pop<V>(m: Nested<V>, k: RunKey): Nested<V> {
    if k.thread !in m then m
    else
      var rest := m[k.thread] - {k.run};
      if rest == map[] then m - {k.thread} else m[k.thread := rest]
  }

  ghost predicate NoEmptyBucket<V>(m: Nested<V>) {
    forall t :: t in m ==> m[t] != map[]
  }

  ghost predicate NoEmptyList<V>(m: Nested<seq<V>>) {
    forall k :: Get(m, k).Some? ==> Get(m, k).value != []
  }

  lemma PopEffect<V>(m: Nested<V>, k: RunKey)
    requires NoEmptyBucket(m)
    ensures NoEmptyBucket(Pop(m, k))
    ensures forall j :: Get(Pop(m, k), j) == if j == k then None else Get(m, j)
  {
    if k.thread in m {
      var rest := m[k.thread] - {k.run};
      assert forall r :: r in m[k.thread] && r != k.run ==> r in rest;
    }
  }

  lemma SetEffect<V>(m: Nested<V>, k: RunKey, v: V)
    requires NoEmptyBucket(m)
    ensures NoEmptyBucket(Set(m, k, v))
    ensures forall j :: Get(Set(m, k, v), j) == if j == k then Some(v) else Get(m, j)
  {
    assert Set(m, k, v)[k.thread][k.run] == v;
  }

  lemma DropThreadEffect<V>(m: Nested<V>, t: string)
    requires NoEmptyBucket(m)
    ensures NoEmptyBucket(m - {t})
    ensures forall j :: Get(m - {t}, j) == if j.thread == t then None else Get(m, j)
  {
  }

  /** The first position of `q`, or the length. */
  function IndexOf(qs: seq<nat>, q: nat): (i: nat)
    ensures i <= |qs| && q !in qs[..i] && (i < |qs| ==> qs[i] == q)
  {
    if qs == [] then 0
    else if qs[|qs| - 1] == q && q !in qs[..|qs| - 1] then |qs| - 1
    else
      var i := IndexOf(qs[..|qs| - 1], q);
      assert qs[..|qs| - 1][..i] == qs[..i];
      if i == |qs| - 1 then |qs| else i
  }

  /** `list.remove(queue)`: the first occurrence. */
  function Remove(qs: seq<nat>, q: nat): seq<nat> {
    var i := IndexOf(qs, q);
    if i == |qs| then qs else qs[..i] + qs[i + 1..]
  }

  function RemoveFrom(m: Nested<seq<nat>>, k: RunKey, q: nat): Nested<seq<nat>> {
    if Get(m, k).None? || q !in Get(m, k).value then m
    else if Remove(Get(m, k).value, q) == [] then Pop(m, k)
    else Set(m, k, Remove(Get(m, k).value, q))
  }

  // ------------------------------------------------------------- operations

  datatype Step =
    | Put(key: RunKey, topic: string, data: seq<bv8>, resumable: bool, clock: int)
    | AnyOtherId(clock: int)             // ids of thread messages and of close signals
    | AddQueue(key: RunKey, queue: nat)
    | AddControlQueue(key: RunKey, queue: nat)
    | AddThreadStream(thread: string, queue: nat)
    | RemoveQueue(key: RunKey, queue: nat)
    | RemoveControlQueue(key: RunKey, queue: nat)
    | RemoveThreadStream(thread: string, queue: nat)
    | MarkActive(key: RunKey)
    | MarkInactive(key: RunKey)
    | DeleteRun(key: RunKey)
    | DeleteThread(thread: string)
    | Close

  function ClearRun(s: Manager, k: RunKey): Manager {
    s.(queues := Pop(s.queues, k), controlQueues := Pop(s.controlQueues, k),
       controlKeys := Pop(s.controlKeys, k), stores := Pop(s.stores, k))
  }

  function ClearThread(s: Manager, t: string): Manager {
    s.(queues := s.queues - {t}, controlQueues := s.controlQueues - {t},
       controlKeys := s.controlKeys - {t}, stores := s.stores - {t},
       threadStreams := s.threadStreams - {t})
  }

  /** Messages, ids and queue closings are refused for stopped managers and runs
      whose deletion is pending. */
  predicate Refused(s: Manager, k: RunKey) {
    s.stopped || k in s.pending
  }

  /** `"control" in topic`. */
  predicate IsControl(topic: string) {
    exists i :: 0 <= i <= |topic| - 7 && topic[i..][..7] == "control"
  }

  function Append<V>(m: Nested<seq<V>>, k: RunKey, v: V): Nested<seq<V>> {
    Set(m, k, (if Get(m, k).Some? then Get(m, k).value else []) + [v])
  }

  function PutMessage(s: Manager, k: RunKey, topic: string, data: seq<bv8>, resumable: bool, clock: int): Manager {
    if Refused(s, k) then s
    else
      var id := NextId(s.last, clock);
      var m := Message(topic, data, Some(IdText(id)));
      s.(last := id,
         stores := (if resumable then Append(s.stores, k, m) else s.stores),
         controlKeys := (if IsControl(topic) then Set(s.controlKeys, k, m) else s.controlKeys))
  }

  function WithQueue(s: Manager, k: RunKey, q: nat): Manager {
    if Refused(s, k) then s else s.(queues := Append(s.queues, k, q))
  }

  function WithControlQueue(s: Manager, k: RunKey, q: nat): Manager {
    if Refused(s, k) then s else s.(controlQueues := Append(s.controlQueues, k, q))
  }

  function WithThreadStream(s: Manager, t: string, q: nat): Manager {
    if s.stopped then s
    else s.(threadStreams := s.threadStreams[t := (if t in s.threadStreams then s.threadStreams[t] else []) + [q]])
  }

  function WithoutThreadStream(s: Manager, t: string, q: nat): Manager {
    if t !in s.threadStreams || q !in s.threadStreams[t] then s
    else if Remove(s.threadStreams[t], q) == [] then s.(threadStreams := s.threadStreams - {t})
    else s.(threadStreams := s.threadStreams[t := Remove(s.threadStreams[t], q)])
  }

  function Activated(s: Manager, k: RunKey): Manager {
    if Refused(s, k) then s else s.(active := s.active + {k})
  }

  function Deactivated(s: Manager, k: RunKey): Manager {
    var s' := s.(active := s.active - {k});
    if k in s.pending then ClearRun(s', k).(pending := s.pending - {k}) else s'
  }

  function RunDeleted(s: Manager, k: RunKey): Manager {
    ClearRun(s, k).(pending := if k in s.active then s.pending + {k} else s.pending)
  }

  function ThreadDeleted(s: Manager, t: string): Manager {
    ClearThread(s, t).(pending := s.pending + set k | k in s.active && k.thread == t)
  }

  function Closed(s: Manager): Manager {
    FRESH.(stopped := true, last := s.last)
  }

  function Next(s: Manager, step: Step): Manager {
    match step
    case Put(k, topic, data, resumable, clock) => PutMessage(s, k, topic, data, resumable, clock)
    case AnyOtherId(clock) => s.(last := NextId(s.last, clock))
    case AddQueue(k, q) => WithQueue(s, k, q)
    case AddControlQueue(k, q) => WithControlQueue(s, k, q)
    case AddThreadStream(t, q) => WithThreadStream(s, t, q)
    case RemoveQueue(k, q) => s.(queues := RemoveFrom(s.queues, k, q))
    case RemoveControlQueue(k, q) => s.(controlQueues := RemoveFrom(s.controlQueues, k, q))
    case RemoveThreadStream(t, q) => WithoutThreadStream(s, t, q)
    case MarkActive(k) => Activated(s, k)
    case MarkInactive(k) => Deactivated(s, k)
    case DeleteRun(k) => RunDeleted(s, k)
    case DeleteThread(t) => ThreadDeleted(s, t)
    case Close => Closed(s)
  }

  // ------------------------------------------------------------- invariants

  /** The run has no queue, no control state and no replay buffer. */
  predicate NoState(s: Manager, k: RunKey) {
    && Get(s.queues, k).None? && Get(s.controlQueues, k).None?
    && Get(s.controlKeys, k).None? && Get(s.stores, k).None?
  }

  predicate Empty(s: Manager) {
    && s.queues == map[] && s.controlQueues == map[] && s.controlKeys == map[] && s.stores == map[]
    && s.threadStreams == map[] && s.active == {} && s.pending == {}
  }

  ghost predicate TidyLists<V>(m: Nested<seq<V>>) {
    NoEmptyBucket(m) && NoEmptyList(m)
  }

  ghost predicate Tidy(s: Manager) {
    && TidyLists(s.queues) && TidyLists(s.controlQueues) && NoEmptyBucket(s.controlKeys) && TidyLists(s.stores)
    && (forall t :: t in s.threadStreams ==> s.threadStreams[t] != [])
  }

  ghost predicate PendingInv(s: Manager) {
    && s.pending <= s.active
    && (forall k :: k in s.pending ==> NoState(s, k))
    && (s.stopped ==> Empty(s))
  }

  /** Every replay buffer can be resumed exactly. */
  ghost predicate Replayable(s: Manager) {
    && (s.last == NO_ID || (s.last.ms >= 0 && s.last.seq' >= 0))
    && forall k :: Get(s.stores, k).Some? ==> Numbered(Get(s.stores, k).value, s.last)
  }

  /** At most one run's entry differs. */
  ghost predicate Local<V>(m: Nested<V>, m': Nested<V>, k: RunKey) {
    forall j :: j != k ==> Get(m', j) == Get(m, j)
  }

  lemma AppendEffect<V>(m: Nested<seq<V>>, k: RunKey, v: V)
    requires TidyLists(m)
    ensures TidyLists(Append(m, k, v)) && Local(m, Append(m, k, v), k)
    ensures Get(Append(m, k, v), k) == Some((if Get(m, k).Some? then Get(m, k).value else []) + [v])
  {
    SetEffect(m, k, (if Get(m, k).Some? then Get(m, k).value else []) + [v]);
  }

  lemma PopListEffect<V>(m: Nested<seq<V>>, k: RunKey)
    requires TidyLists(m)
    ensures TidyLists(Pop(m, k)) && Local(m, Pop(m, k), k) && Get(Pop(m, k), k).None?
  {
    PopEffect(m, k);
  }

  lemma RemoveFromEffect(m: Nested<seq<nat>>, k: RunKey, q: nat)
    requires TidyLists(m)
    ensures TidyLists(RemoveFrom(m, k, q)) && Local(m, RemoveFrom(m, k, q), k)
    ensures Get(m, k).None? ==> RemoveFrom(m, k, q) == m
  {
    if Get(m, k).Some? && q in Get(m, k).value {
      PopEffect(m, k);
      SetEffect(m, k, Remove(Get(m, k).value, q));
    }
  }

  /** Clearing one run: its four entries go, no other entry changes. */
  lemma ClearRunIsLocal(s: Manager, k: RunKey)
    requires Tidy(s)
    ensures Tidy(ClearRun(s, k)) && NoState(ClearRun(s, k), k)
    ensures forall j :: j != k ==> SameRun(s, ClearRun(s, k), j)
  {
    hide Pop;
    PopListEffect(s.queues, k);
    PopListEffect(s.controlQueues, k);
    PopEffect(s.controlKeys, k);
    PopListEffect(s.stores, k);
  }

  /** All per-run state of `j` is the same. */
  ghost predicate SameRun(s: Manager, s': Manager, j: RunKey) {
    && Get(s'.queues, j) == Get(s.queues, j) && Get(s'.controlQueues, j) == Get(s.controlQueues, j)
    && Get(s'.controlKeys, j) == Get(s.controlKeys, j) && Get(s'.stores, j) == Get(s.stores, j)
  }

  lemma ClearThreadIsLocal(s: Manager, t: string)
    requires Tidy(s)
    ensures Tidy(ClearThread(s, t))
    ensures forall j: RunKey :: j.thread == t ==> NoState(ClearThread(s, t), j)
    ensures forall j: RunKey :: j.thread != t ==> SameRun(s, ClearThread(s, t), j)
  {
    DropThreadEffect(s.queues, t);
    DropThreadEffect(s.controlQueues, t);
    DropThreadEffect(s.controlKeys, t);
    DropThreadEffect(s.stores, t);
  }

  /** Deleting one run releases all its state and nothing of any other run; the
      run stays barred until it goes inactive. */
  lemma DeleteRunIsLocal(s: Manager, k: RunKey, j: RunKey)
    requires Tidy(s) && j != k
    ensures var s' := RunDeleted(s, k);
            && NoState(s', k) && (k in s'.pending <==> k in s.pending || k in s.active)
            && SameRun(s, s', j) && (j in s'.pending <==> j in s.pending)
            && s'.active == s.active && s'.threadStreams == s.threadStreams && s'.last == s.last
  {
    ClearRunIsLocal(s, k);
    assert SameRun(s, ClearRun(s, k), j);
  }

  lemma DeleteThreadIsLocal(s: Manager, t: string, j: RunKey)
    requires Tidy(s)
    ensures var s' := ThreadDeleted(s, t);
            && t !in s'.threadStreams
            && (j.thread == t ==> NoState(s', j) && (j in s'.pending <==> j in s.pending || j in s.active))
            && (j.thread != t ==> SameRun(s, s', j) && (j in s'.pending <==> j in s.pending))
            && (forall u :: u != t ==> (u in s'.threadStreams <==> u in s.threadStreams)
                                       && (u in s.threadStreams ==> s'.threadStreams[u] == s.threadStreams[u]))
            && s'.active == s.active
  {
    ClearThreadIsLocal(s, t);
  }

  ghost predicate Inv(s: Manager) {
    Tidy(s) && PendingInv(s)
  }

  lemma EmptyInv(s: Manager)
    requires Empty(s)
    ensures Inv(s)
  {
  }

  /** A step that changes the state of one run that is not barred. */
  lemma PendingLocal(s: Manager, s': Manager, k: RunKey)
    requires PendingInv(s) && !Refused(s, k)
    requires s'.pending == s.pending && s'.active == s.active && s'.stopped == s.stopped
    requires forall j :: j != k ==> SameRun(s, s', j)
    ensures PendingInv(s')
  {
    forall j | j in s'.pending ensures NoState(s', j) {
      assert NoState(s, j) && SameRun(s, s', j);
    }
  }

  lemma PutInv(s: Manager, k: RunKey, topic: string, data: seq<bv8>, resumable: bool, clock: int)
    requires Inv(s)
    ensures Inv(PutMessage(s, k, topic, data, resumable, clock))
  {
    hide Set, Append;
    if !Refused(s, k) {
      var m := Message(topic, data, Some(IdText(NextId(s.last, clock))));
      AppendEffect(s.stores, k, m);
      SetEffect(s.controlKeys, k, m);
      PendingLocal(s, PutMessage(s, k, topic, data, resumable, clock), k);
    }
  }

  lemma QueueInv(s: Manager, k: RunKey, q: nat)
    requires Inv(s)
    ensures Inv(WithQueue(s, k, q)) && Inv(WithControlQueue(s, k, q))
  {
    hide Set, Append;
    if !Refused(s, k) {
      AppendEffect(s.queues, k, q);
      AppendEffect(s.controlQueues, k, q);
      PendingLocal(s, WithQueue(s, k, q), k);
      PendingLocal(s, WithControlQueue(s, k, q), k);
    }
  }

  lemma UnqueueInv(s: Manager, k: RunKey, q: nat)
    requires Inv(s)
    ensures Inv(s.(queues := RemoveFrom(s.queues, k, q))) && Inv(s.(controlQueues := RemoveFrom(s.controlQueues, k, q)))
  {
    RemoveFromEffect(s.queues, k, q);
    RemoveFromEffect(s.controlQueues, k, q);
    hide RemoveFrom;
    if Get(s.queues, k).Some? { PendingLocal(s, s.(queues := RemoveFrom(s.queues, k, q)), k); }
    if Get(s.controlQueues, k).Some? { PendingLocal(s, s.(controlQueues := RemoveFrom(s.controlQueues, k, q)), k); }
  }

  lemma ThreadStreamInv(s: Manager, t: string, q: nat)
    requires Inv(s)
    ensures Inv(WithThreadStream(s, t, q)) && Inv(WithoutThreadStream(s, t, q))
  {
    hide TidyLists, NoEmptyBucket;
  }

  lemma ActivatedInv(s: Manager, k: RunKey)
    requires Inv(s)
    ensures Inv(Activated(s, k))
  {
    hide TidyLists, NoEmptyBucket;
  }

  lemma DeactivatedIs(s: Manager, k: RunKey)
    ensures Deactivated(s, k) ==
            if k in s.pending then ClearRun(s, k).(active := s.active - {k}, pending := s.pending - {k})
            else s.(active := s.active - {k})
    ensures ClearRun(s, k).threadStreams == s.threadStreams && ClearRun(s, k).stopped == s.stopped
    ensures RunDeleted(s, k).stores == Pop(s.stores, k) && RunDeleted(s, k).last == s.last
    ensures Deactivated(s, k).stores == if k in s.pending then Pop(s.stores, k) else s.stores
    ensures Deactivated(s, k).last == s.last
  {
    hide Pop;
  }

  lemma DeactivatedInv(s: Manager, k: RunKey)
    requires Inv(s)
    ensures Inv(Deactivated(s, k))
  {
    DeactivatedIs(s, k);
    if k in s.pending {
      PendingAfterClear(s, k);
      var cleared := ClearRun(s, k);
      assert cleared.threadStreams == s.threadStreams && cleared.stopped == s.stopped;
      hide TidyLists, NoEmptyBucket, ClearRun, Deactivated, Get;
      assert Inv(cleared.(active := s.active - {k}, pending := s.pending - {k}));
    } else {
      hide TidyLists, NoEmptyBucket, ClearRun, Deactivated, Get;
      assert Inv(s.(active := s.active - {k}));
    }
  }

  lemma RunDeletedInv(s: Manager, k: RunKey)
    requires Inv(s)
    ensures Inv(RunDeleted(s, k))
  {
    PendingAfterClear(s, k);
    assert ClearRun(s, k).active == s.active && ClearRun(s, k).stopped == s.stopped
           && ClearRun(s, k).threadStreams == s.threadStreams;
    hide TidyLists, NoEmptyBucket, ClearRun, Get;
  }

  lemma ThreadDeletedInv(s: Manager, t: string)
    requires Inv(s)
    ensures Inv(ThreadDeleted(s, t))
  {
    ClearThreadIsLocal(s, t);
    hide TidyLists, NoEmptyBucket, Get;
    forall j | j in ThreadDeleted(s, t).pending ensures NoState(ThreadDeleted(s, t), j) {
      if j.thread != t { assert NoState(s, j) && SameRun(s, ClearThread(s, t), j); }
    }
  }

  lemma PendingAfterClear(s: Manager, k: RunKey)
    requires Inv(s)
    ensures Tidy(ClearRun(s, k)) && NoState(ClearRun(s, k), k)
    ensures forall j :: j in s.pending ==> NoState(ClearRun(s, k), j)
    ensures s.stopped ==> ClearRun(s, k) == s
  {
    ClearRunIsLocal(s, k);
    if s.stopped { ClearEmpty(s, k); }
    hide ClearRun;
    forall j | j in s.pending ensures NoState(ClearRun(s, k), j) {
      if j != k { assert SameRun(s, ClearRun(s, k), j) && NoState(s, j); }
    }
  }

  lemma ClearEmpty(s: Manager, k: RunKey)
    requires Empty(s)
    ensures ClearRun(s, k) == s
  {
  }

  lemma InvStep(s: Manager, step: Step)
    requires Inv(s)
    ensures Inv(Next(s, step))
  {
    hide Inv, PutMessage, WithQueue, WithControlQueue, WithThreadStream, WithoutThreadStream, RemoveFrom,
      Activated, Deactivated, RunDeleted, ThreadDeleted, NextId;
    match step
    case Put(k, topic, data, resumable, clock) => PutInv(s, k, topic, data, resumable, clock);
    case AnyOtherId(clock) => LastIsFree(s, NextId(s.last, clock));
    case AddQueue(k, q) => QueueInv(s, k, q);
    case AddControlQueue(k, q) => QueueInv(s, k, q);
    case AddThreadStream(t, q) => ThreadStreamInv(s, t, q);
    case RemoveQueue(k, q) => UnqueueInv(s, k, q);
    case RemoveControlQueue(k, q) => UnqueueInv(s, k, q);
    case RemoveThreadStream(t, q) => ThreadStreamInv(s, t, q);
    case MarkActive(k) => ActivatedInv(s, k);
    case MarkInactive(k) => DeactivatedInv(s, k);
    case DeleteRun(k) => RunDeletedInv(s, k);
    case DeleteThread(t) => ThreadDeletedInv(s, t);
    case Close => EmptyInv(Closed(s));
  }

  lemma LastIsFree(s: Manager, last: StreamId)
    requires Inv(s)
    ensures Inv(s.(last := last))
  {
  }

  // ------------------------------------------------------- whole-run results

  ghost function After(steps: seq<Step>): Manager {
    if steps == [] then FRESH else Next(After(steps[..|steps| - 1]), steps[|steps| - 1])
  }

  /** In every reachable state: pending deletions are active runs without any
      state, no bucket or list is empty, and a closed manager holds nothing. */
  lemma {:induction false} ManagerInvariant(steps: seq<Step>)
    ensures Inv(After(steps))
  {
    hide Next, Inv;
    if steps == [] {
      EmptyInv(FRESH);
    } else {
      ManagerInvariant(steps[..|steps| - 1]);
      InvStep(After(steps[..|steps| - 1]), steps[|steps| - 1]);
    }
  }

  lemma StoppedStep(s: Manager, step: Step)
    requires s.stopped
    ensures Next(s, step).stopped
  {
  }

  /** Once closed, the manager stays empty whatever is called on it. */
  lemma {:induction false} ClosedForever(before: seq<Step>, later: seq<Step>)
    ensures After(before + [Close] + later).stopped && Empty(After(before + [Close] + later))
    decreases later
  {
    hide Next, Empty, Tidy;
    var all := before + [Close] + later;
    if later == [] {
      assert all[..|all| - 1] == before && all[|all| - 1] == Close;
      CloseStops(After(before));
    } else {
      assert all[..|all| - 1] == before + [Close] + later[..|later| - 1];
      ClosedForever(before, later[..|later| - 1]);
      StoppedStep(After(all[..|all| - 1]), all[|all| - 1]);
    }
    ManagerInvariant(all);
  }

  lemma CloseStops(s: Manager)
    ensures Next(s, Close).stopped
  {
  }

  // ---------------------------------------------------------------- replay

  predicate ClockOk(step: Step) {
    (step.Put? || step.AnyOtherId?) ==> step.clock >= 0
  }

  lemma LaterStores(s: Manager, later: StreamId)
    requires Replayable(s) && !Less(later, s.last)
    ensures forall k :: Get(s.stores, k).Some? ==> Numbered(Get(s.stores, k).value, later)
  {
    forall k | Get(s.stores, k).Some? ensures Numbered(Get(s.stores, k).value, later) {
      NumberedLater(Get(s.stores, k).value, s.last, later);
    }
  }

  lemma ReplayAfterPut(s: Manager, k: RunKey, topic: string, data: seq<bv8>, resumable: bool, clock: int)
    requires Tidy(s) && Replayable(s) && clock >= 0
    ensures Replayable(PutMessage(s, k, topic, data, resumable, clock))
  {
    hide Append, Numbered, Set;
    var id := NextId(s.last, clock);
    if !Refused(s, k) {
      var m := Message(topic, data, Some(IdText(id)));
      var s' := PutMessage(s, k, topic, data, resumable, clock);
      LaterStores(s, id);
      AppendEffect(s.stores, k, m);
      forall j | Get(s'.stores, j).Some? ensures Numbered(Get(s'.stores, j).value, id) {
        if resumable && j == k {
          var old' := if Get(s.stores, k).Some? then Get(s.stores, k).value else [];
          NoMessages(s.last);
          NumberedAppend(old', s.last, clock, m);
        }
      }
    }
  }

  lemma NoMessages(last: StreamId)
    ensures Numbered([], last)
  {
  }

  lemma ReplayFewer(s: Manager, s': Manager)
    requires Replayable(s) && s'.last == s.last
    requires forall j :: Get(s'.stores, j).Some? ==> Get(s'.stores, j) == Get(s.stores, j)
    ensures Replayable(s')
  {
    hide Numbered, Get;
  }

  lemma ReplayAfterDelete(s: Manager, k: RunKey)
    requires Tidy(s) && Replayable(s)
    ensures Replayable(RunDeleted(s, k)) && Replayable(Deactivated(s, k))
  {
    PopListEffect(s.stores, k);
    DeactivatedIs(s, k);
    hide Replayable, Pop, RunDeleted, Deactivated, ClearRun, Get;
    ReplayFewer(s, RunDeleted(s, k));
    ReplayFewer(s, Deactivated(s, k));
  }

  lemma ReplayAfterDeleteThread(s: Manager, t: string)
    requires Tidy(s) && Replayable(s)
    ensures Replayable(ThreadDeleted(s, t))
  {
    DropThreadEffect(s.stores, t);
    hide Replayable;
    ReplayFewer(s, ThreadDeleted(s, t));
  }

  lemma ReplaySame(s: Manager, s': Manager)
    requires Replayable(s) && s'.stores == s.stores && s'.last == s.last
    ensures Replayable(s')
  {
  }

  lemma ReplayOtherStep(s: Manager, step: Step)
    requires Replayable(s)
    requires step.AddQueue? || step.AddControlQueue? || step.AddThreadStream? || step.RemoveQueue?
          || step.RemoveControlQueue? || step.RemoveThreadStream? || step.MarkActive?
    ensures Replayable(Next(s, step))
  {
    assert Next(s, step).stores == s.stores && Next(s, step).last == s.last by {
      hide RemoveFrom, Append, Replayable, Remove;
    }
    hide Replayable, Next;
    ReplaySame(s, Next(s, step));
  }

  lemma ReplayStep(s: Manager, step: Step)
    requires Tidy(s) && Replayable(s) && ClockOk(step)
    ensures Replayable(Next(s, step))
  {
    hide Replayable, Tidy, PutMessage, Deactivated, RunDeleted, ThreadDeleted, WithQueue, WithControlQueue,
      WithThreadStream, WithoutThreadStream, Activated, RemoveFrom, Closed, NextId;
    match step
    case Put(k, topic, data, resumable, clock) => ReplayAfterPut(s, k, topic, data, resumable, clock);
    case AnyOtherId(clock) => ReplayLater(s, clock);
    case MarkInactive(k) => ReplayAfterDelete(s, k);
    case DeleteRun(k) => ReplayAfterDelete(s, k);
    case DeleteThread(t) => ReplayAfterDeleteThread(s, t);
    case Close => ClosedReplays(s);
    case _ => ReplayOtherStep(s, step);
  }

  lemma ReplayLater(s: Manager, clock: int)
    requires Replayable(s) && clock >= 0
    ensures Replayable(s.(last := NextId(s.last, clock)))
  {
    hide Numbered;
    LaterStores(s, NextId(s.last, clock));
  }

  lemma ClosedReplays(s: Manager)
    requires Replayable(s)
    ensures Replayable(Closed(s))
  {
  }

  lemma {:induction false} ReplayInvariant(steps: seq<Step>)
    requires forall i :: 0 <= i < |steps| ==> ClockOk(steps[i])
    ensures Replayable(After(steps))
  {
    hide Next, Tidy, Replayable;
    if steps == [] {
      FreshReplays();
    } else {
      ReplayInvariant(steps[..|steps| - 1]);
      ManagerInvariant(steps[..|steps| - 1]);
      ReplayStep(After(steps[..|steps| - 1]), steps[|steps| - 1]);
    }
  }

  lemma FreshReplays()
    ensures Replayable(FRESH)
  {
  }

  /** Main result: in every reachable state, resuming a run from the id of its
      stored message `i`, or from index `i`, yields exactly the later messages. */
  lemma ResumeAfterAnyRun(steps: seq<Step>, k: RunKey, i: nat)
    requires forall j :: 0 <= j < |steps| ==> ClockOk(steps[j])
    requires Get(After(steps).stores, k).Some? && i < |Get(After(steps).stores, k).value|
    ensures var messages := Get(After(steps).stores, k).value;
            && Resume(messages, messages[i].id) == Yields(messages[i + 1..])
            && Resume(messages, Some(NatText(i))) == Yields(messages[i + 1..])
  {
    ReplayInvariant(steps);
    ResumeIsExact(Get(After(steps).stores, k).value, After(steps).last, i);
  }

  // ------------------------------------------------------------- the manager

  class StreamManager {
    var queues: Nested<seq<nat>>
    var controlQueues: Nested<seq<nat>>
    var controlKeys: Nested<Message>
    var stores: Nested<seq<Message>>
    var threadStreams: map<string, seq<nat>>
    var activeRuns: set<RunKey>
    var pendingRunDeletes: set<RunKey>
    var stopped: bool
    const ids: Generator

    function State(): Manager
      reads this, ids
    {
      Manager(queues, controlQueues, controlKeys, stores, threadStreams,
              activeRuns, pendingRunDeletes, stopped, ids.Last())
    }

    constructor (ids: Generator)
      ensures this.ids == ids
      ensures State() == FRESH.(last := ids.Last())
    {
      queues, controlQueues, controlKeys, stores, threadStreams := map[], map[], map[], map[], map[];
      activeRuns, pendingRunDeletes, stopped := {}, {}, false;
      this.ids := ids;
    }

    method PutOne(k: RunKey, topic: string, data: seq<bv8>, resumable: bool, clock: int)
      modifies this, ids
      ensures State() == PutMessage(old(State()), k, topic, data, resumable, clock)
    {
      if stopped || k in pendingRunDeletes { return; }
      var id := ids.Generate(clock);
      var message := Message(topic, data, Some(id));
      if resumable { stores := Append(stores, k, message); }
      if IsControl(topic) { controlKeys := Set(controlKeys, k, message); }
    }

    method AddQueue(k: RunKey, queue: nat)
      modifies this
      ensures State() == WithQueue(old(State()), k, queue)
    {
      if stopped || k in pendingRunDeletes { return; }
      queues := Append(queues, k, queue);
    }

    method AddControlQueue(k: RunKey, queue: nat)
      modifies this
      ensures State() == WithControlQueue(old(State()), k, queue)
    {
      if stopped || k in pendingRunDeletes { return; }
      controlQueues := Append(controlQueues, k, queue);
    }

    method RemoveQueue(k: RunKey, queue: nat)
      modifies this
      ensures State() == Next(old(State()), Step.RemoveQueue(k, queue))
    {
      if k.thread !in queues || k.run !in queues[k.thread] { return; }
      if queue !in queues[k.thread][k.run] { return; }
      var rest := Remove(queues[k.thread][k.run], queue);
      if rest == [] {
        queues := Pop(queues, k);
      } else {
        queues := Set(queues, k, rest);
      }
    }

    method RemoveControlQueue(k: RunKey, queue: nat)
      modifies this
      ensures State() == Next(old(State()), Step.RemoveControlQueue(k, queue))
    {
      if k.thread !in controlQueues || k.run !in controlQueues[k.thread] { return; }
      if queue !in controlQueues[k.thread][k.run] { return; }
      var rest := Remove(controlQueues[k.thread][k.run], queue);
      if rest == [] {
        controlQueues := Pop(controlQueues, k);
      } else {
        controlQueues := Set(controlQueues, k, rest);
      }
    }

    method AddThreadStream(t: string, queue: nat)
      modifies this
      ensures State() == WithThreadStream(old(State()), t, queue)
    {
      if stopped { return; }
      threadStreams := threadStreams[t := (if t in threadStreams then threadStreams[t] else []) + [queue]];
    }

    method RemoveThreadStream(t: string, queue: nat)
      modifies this
      ensures State() == WithoutThreadStream(old(State()), t, queue)
    {
      if t !in threadStreams || queue !in threadStreams[t] { return; }
      var rest := Remove(threadStreams[t], queue);
      if rest == [] {
        threadStreams := threadStreams - {t};
      } else {
        threadStreams := threadStreams[t := rest];
      }
    }

    method MarkRunActive(k: RunKey)
      modifies this
      ensures State() == Activated(old(State()), k)
    {
      if !stopped && k !in pendingRunDeletes { activeRuns := activeRuns + {k}; }
    }

    method MarkRunInactive(k: RunKey)
      modifies this
      ensures State() == Deactivated(old(State()), k)
    {
      activeRuns := activeRuns - {k};
      if k in pendingRunDeletes {
        ClearRunState(k);
        pendingRunDeletes := pendingRunDeletes - {k};
      }
    }

    method ClearRunState(k: RunKey)
      modifies this
      ensures State() == ClearRun(old(State()), k)
    {
      queues := Pop(queues, k);
      controlQueues := Pop(controlQueues, k);
      controlKeys := Pop(controlKeys, k);
      stores := Pop(stores, k);
    }

    method DeleteRun(k: RunKey)
      modifies this
      ensures State() == RunDeleted(old(State()), k)
    {
      if k in activeRuns { pendingRunDeletes := pendingRunDeletes + {k}; }
      ClearRunState(k);
    }

    /** The loop of `delete_thread` over the thread's runs. */
    method ReleaseRuns(t: string, runs: set<string>)
      modifies this
      ensures SameOutside(old(State()), State(), t)
      ensures pendingRunDeletes == old(pendingRunDeletes) + set k | k in activeRuns && k.thread == t && k.run in runs
    {
      hide SameOutside, Pop;
      ghost var before := State();
      var todo := runs;
      SameOutsideSelf(before, t);
      while todo != {}
        invariant todo <= runs && activeRuns == before.active
        invariant SameOutside(before, State(), t)
        invariant pendingRunDeletes ==
                  before.pending + set k | k in before.active && k.thread == t && k.run in runs - todo
        decreases todo
      {
        var run :| run in todo;
        var key := RunKey(t, run);
        ghost var was := State();
        if key in activeRuns { pendingRunDeletes := pendingRunDeletes + {key}; }
        ClearOutside(before, was, pendingRunDeletes, key);
        ClearRunState(key);
        todo := todo - {run};
      }
    }

    method DeleteThread(t: string)
      modifies this
      ensures State() == ThreadDeleted(old(State()), t)
    {
      var runs := RunsOf(queues, t) + RunsOf(controlQueues, t) + RunsOf(controlKeys, t) + RunsOf(stores, t)
                + (set k | k in activeRuns && k.thread == t :: k.run);
      ReleaseRuns(t, runs);
      queues := queues - {t};
      controlQueues := controlQueues - {t};
      controlKeys := controlKeys - {t};
      stores := stores - {t};
      threadStreams := threadStreams - {t};
    }

    method Close()
      modifies this
      ensures State() == Closed(old(State()))
    {
      stopped := true;
      queues, controlKeys, controlQueues, threadStreams, stores := map[], map[], map[], map[], map[];
      activeRuns, pendingRunDeletes := {}, {};
    }
  }

  function RunsOf<V>(m: Nested<V>, t: string): set<string> {
    if t in m then m[t].Keys else {}
  }

  /** Nothing but pending deletions and the buckets of thread `t` differs. */
  ghost predicate SameOutside(s: Manager, s': Manager, t: string) {
    && s'.queues - {t} == s.queues - {t} && s'.controlQueues - {t} == s.controlQueues - {t}
    && s'.controlKeys - {t} == s.controlKeys - {t} && s'.stores - {t} == s.stores - {t}
    && s'.threadStreams == s.threadStreams && s'.active == s.active && s'.stopped == s.stopped && s'.last == s.last
  }

  lemma SameOutsideSelf(s: Manager, t: string)
    ensures SameOutside(s, s, t)
  {
  }

  lemma ClearOutside(s: Manager, s': Manager, pending: set<RunKey>, k: RunKey)
    requires SameOutside(s, s', k.thread)
    ensures SameOutside(s, ClearRun(s'.(pending := pending), k), k.thread)
  {
    PopOutside(s'.queues, k);
    PopOutside(s'.controlQueues, k);
    PopOutside(s'.controlKeys, k);
    PopOutside(s'.stores, k);
    hide Pop;
  }

  lemma PopOutside<V>(m: Nested<V>, k: RunKey)
    ensures Pop(m, k) - {k.thread} == m - {k.thread}
  {
  }
}
