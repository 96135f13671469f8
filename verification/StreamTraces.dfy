/** The stream manager told from its calls alone: what every run and every thread may
    expect of it after any history, without the nested maps. */
module StreamTraces {
  import opened Prelude
  import opened StreamIds
  import opened Streams

  // ------------------------------------------------------------ one run's share

  /** What the manager holds for one run. */
  datatype Share = Share(
    active: bool,
    pending: bool,
    queues: seq<nat>,
    controlQueues: seq<nat>,
    control: Option<Message>,
    stored: seq<Message>)

  const NOTHING := Share(false, false, [], [], None, [])

  /** The text contains "control". */
  ghost predicate MentionsControl(topic: string) {
    exists before, after :: topic == before + "control" + after
  }

  /** The run's share after it loses everything, barred or not. */
  function Cleared(active: bool, pending: bool): Share {
    NOTHING.(active := active, pending := pending)
  }

  /** What one call means to run `k`; `id` is the id a message gets. */
  ghost function Heard(r: Share, stopped: bool, step: Step, k: RunKey, id: StreamId): Share {
    var open := !stopped && !r.pending;
    match step
    case Put(j, topic, data, resumable, _) =>
      if j != k || !open then r
      else
        var m := Message(topic, data, Some(IdText(id)));
        r.(stored := (if resumable then r.stored + [m] else r.stored),
           control := (if MentionsControl(topic) then Some(m) else r.control))
    case AddQueue(j, q) => if j == k && open then r.(queues := r.queues + [q]) else r
    case AddControlQueue(j, q) => if j == k && open then r.(controlQueues := r.controlQueues + [q]) else r
    case RemoveQueue(j, q) => if j == k then r.(queues := Remove(r.queues, q)) else r
    case RemoveControlQueue(j, q) => if j == k then r.(controlQueues := Remove(r.controlQueues, q)) else r
    case MarkActive(j) => if j == k && open then r.(active := true) else r
    case MarkInactive(j) =>
      if j != k then r else if r.pending then NOTHING else r.(active := false)
    case DeleteRun(j) => if j == k then Cleared(r.active, r.pending || r.active) else r
    case DeleteThread(t) => if t == k.thread then Cleared(r.active, r.pending || r.active) else r
    case Close => NOTHING
    case _ => r
  }

  function ListOf<V>(m: Nested<seq<V>>, k: RunKey): seq<V> {
    if Get(m, k).Some? then Get(m, k).value else []
  }

  ghost function ShareOf(s: Manager, k: RunKey): Share {
    Share(k in s.active, k in s.pending, ListOf(s.queues, k), ListOf(s.controlQueues, k),
          Get(s.controlKeys, k), ListOf(s.stores, k))
  }

  /** `list.remove` takes out the first occurrence and nothing else. */
  lemma RemoveTakesFirst(qs: seq<nat>, q: nat) returns (before: seq<nat>, after: seq<nat>)
    requires q in qs
    ensures qs == before + [q] + after && q !in before
    ensures Remove(qs, q) == before + after
  {
    var i := IndexOf(qs, q);
    before, after := qs[..i], qs[i + 1..];
  }

  lemma RemoveAbsent(qs: seq<nat>, q: nat)
    requires q !in qs
    ensures Remove(qs, q) == qs
  {
  }

  lemma ControlByText(topic: string)
    ensures IsControl(topic) <==> MentionsControl(topic)
  {
    if IsControl(topic) {
      var i :| 0 <= i <= |topic| - 7 && topic[i..][..7] == "control";
      assert topic == topic[..i] + "control" + topic[i..][7..];
    }
    if MentionsControl(topic) {
      var before, after :| topic == before + "control" + after;
      assert topic[|before|..][..7] == "control";
    }
  }

  lemma ListAfterRemove(m: Nested<seq<nat>>, k: RunKey, q: nat, j: RunKey)
    requires TidyLists(m)
    ensures ListOf(RemoveFrom(m, k, q), j) == if j == k then Remove(ListOf(m, k), q) else ListOf(m, j)
  {
    if q !in ListOf(m, k) { RemoveAbsent(ListOf(m, k), q); }
    if Get(m, k).Some? && q in Get(m, k).value {
      PopEffect(m, k);
      SetEffect(m, k, Remove(Get(m, k).value, q));
    }
  }

  lemma ListAfterAppend<V>(m: Nested<seq<V>>, k: RunKey, v: V, j: RunKey)
    requires TidyLists(m)
    ensures ListOf(Append(m, k, v), j) == if j == k then ListOf(m, k) + [v] else ListOf(m, j)
  {
    AppendEffect(m, k, v);
    if j != k { assert Get(Append(m, k, v), j) == Get(m, j); }
  }

  /** The manager treats run `k` by the rules of `Heard`. */
  ghost predicate Heeds(s: Manager, step: Step, k: RunKey) {
    ShareOf(Next(s, step), k) == Heard(ShareOf(s, k), s.stopped, step, k, Next(s, step).last)
  }

  lemma PutHeard(s: Manager, step: Step, k: RunKey)
    requires Inv(s) && step.Put?
    ensures Heeds(s, step, k)
  {
    ControlByText(step.topic);
    if !Refused(s, step.key) {
      var m := Message(step.topic, step.data, Some(IdText(NextId(s.last, step.clock))));
      ListAfterAppend(s.stores, step.key, m, k);
      SetEffect(s.controlKeys, step.key, m);
      hide Append, Set, Get, IdText, ListOf;
      assert Get(Set(s.controlKeys, step.key, m), k) == if k == step.key then Some(m) else Get(s.controlKeys, k);
    }
  }

  lemma QueueHeard(s: Manager, step: Step, k: RunKey)
    requires Inv(s) && (step.AddQueue? || step.AddControlQueue?)
    ensures Heeds(s, step, k)
  {
    ListAfterAppend(s.queues, step.key, step.queue, k);
    ListAfterAppend(s.controlQueues, step.key, step.queue, k);
    hide Append, Get, ListOf, Inv;
  }

  lemma UnqueueHeard(s: Manager, step: Step, k: RunKey)
    requires Inv(s) && (step.RemoveQueue? || step.RemoveControlQueue?)
    ensures Heeds(s, step, k)
  {
    ListAfterRemove(s.queues, step.key, step.queue, k);
    ListAfterRemove(s.controlQueues, step.key, step.queue, k);
    hide RemoveFrom, Get, ListOf, Inv;
  }

  lemma ClearHeard(s: Manager, j: RunKey, k: RunKey)
    requires Tidy(s)
    ensures ShareOf(ClearRun(s, j), k) ==
            if k == j then Cleared(k in s.active, k in s.pending) else ShareOf(s, k)
  {
    ClearRunIsLocal(s, j);
    assert k != j ==> SameRun(s, ClearRun(s, j), k);
    hide Pop;
  }

  lemma DeleteRunHeard(s: Manager, step: Step, k: RunKey)
    requires Inv(s) && step.DeleteRun?
    ensures Heeds(s, step, k)
  {
    ClearHeard(s, step.key, k);
    hide Get, Pop, Inv;
  }

  lemma InactiveHeard(s: Manager, j: RunKey, k: RunKey)
    requires Inv(s)
    ensures Heeds(s, Step.MarkInactive(j), k)
  {
    ClearHeard(s, j, k);
    DeactivatedIs(s, j);
    assert Next(s, Step.MarkInactive(j)) == Deactivated(s, j);
    var c := ClearRun(s, j);
    assert c.active == s.active && c.pending == s.pending;
    hide Get, ClearRun, Deactivated, Inv, ListOf, Next;
  }

  lemma DeleteThreadHeard(s: Manager, step: Step, k: RunKey)
    requires Inv(s) && step.DeleteThread?
    ensures Heeds(s, step, k)
  {
    DeleteThreadIsLocal(s, step.thread, k);
    hide Inv;
  }

  lemma ActiveHeard(s: Manager, step: Step, k: RunKey)
    requires step.MarkActive?
    ensures Heeds(s, step, k)
  {
    hide ListOf, Get, Remove;
  }

  lemma CloseHeard(s: Manager, step: Step, k: RunKey)
    requires step.Close?
    ensures Heeds(s, step, k)
  {
    EmptyShare(Next(s, step), k);
  }

  lemma OtherHeard(s: Manager, step: Step, k: RunKey)
    requires step.AnyOtherId? || step.AddThreadStream? || step.RemoveThreadStream?
    ensures Heeds(s, step, k)
  {
    hide ListOf, Get, NextId, Remove;
    var s' := Next(s, step);
    assert s' == s.(last := s'.last, threadStreams := s'.threadStreams);
  }

  lemma EmptyShare(s: Manager, k: RunKey)
    requires Empty(s)
    ensures ShareOf(s, k) == NOTHING
  {
  }

  /** Every call treats every run by the rules, whatever the other runs hold. */
  lemma StepHeard(s: Manager, step: Step, k: RunKey)
    requires Inv(s)
    ensures Heeds(s, step, k)
  {
    hide Inv, Heeds;
    match step
    case Put(_, _, _, _, _) => PutHeard(s, step, k);
    case AddQueue(_, _) => QueueHeard(s, step, k);
    case AddControlQueue(_, _) => QueueHeard(s, step, k);
    case RemoveQueue(_, _) => UnqueueHeard(s, step, k);
    case RemoveControlQueue(_, _) => UnqueueHeard(s, step, k);
    case MarkInactive(j) => InactiveHeard(s, j, k);
    case DeleteRun(_) => DeleteRunHeard(s, step, k);
    case DeleteThread(_) => DeleteThreadHeard(s, step, k);
    case MarkActive(_) => ActiveHeard(s, step, k);
    case Close => CloseHeard(s, step, k);
    case _ => OtherHeard(s, step, k);
  }

  // --------------------------------------------------------------- histories

  ghost predicate Stopped(steps: seq<Step>) {
    Close in steps
  }

  /** What the calls so far tell about run `k`. */
  ghost function Told(steps: seq<Step>, k: RunKey): Share
    decreases |steps|, 1
  {
    if steps == [] then NOTHING
    else
      var n := |steps| - 1;
      Heard(Told(steps[..n], k), Stopped(steps[..n]), steps[n], k, LastId(steps))
  }

  /** The last id given out: one for every accepted message and every other signal. */
  ghost function LastId(steps: seq<Step>): StreamId
    decreases |steps|, 0
  {
    if steps == [] then NO_ID
    else
      var n := |steps| - 1;
      var id := LastId(steps[..n]);
      match steps[n]
      case Put(k, _, _, _, clock) =>
        if Stopped(steps[..n]) || Told(steps[..n], k).pending then id else NextId(id, clock)
      case AnyOtherId(clock) => NextId(id, clock)
      case _ => id
  }

  /** Main result: in every reachable state the manager holds for each run exactly
      what its calls tell. */
  lemma {:induction false} TraceTells(steps: seq<Step>, k: RunKey)
    ensures ShareOf(After(steps), k) == Told(steps, k)
    ensures After(steps).stopped <==> Stopped(steps)
    ensures After(steps).last == LastId(steps)
    decreases |steps|, 1
  {
    if steps != [] {
      var n := |steps| - 1;
      var p := steps[..n];
      TraceTells(p, k);
      ManagerInvariant(p);
      StepHeard(After(p), steps[n], k);
      StopTold(steps);
      IdTold(steps);
    }
  }

  lemma StopTold(steps: seq<Step>)
    requires steps != [] && (After(steps[..|steps| - 1]).stopped <==> Stopped(steps[..|steps| - 1]))
    ensures After(steps).stopped <==> Stopped(steps)
  {
    var n := |steps| - 1;
    assert steps == steps[..n] + [steps[n]];
    StopStep(After(steps[..n]), steps[n]);
    hide Next;
  }

  lemma StopStep(s: Manager, step: Step)
    ensures Next(s, step).stopped <==> s.stopped || step == Close
  {
    hide Pop, Set, RemoveFrom, Append, NextId;
  }

  lemma IdTold(steps: seq<Step>)
    requires steps != [] && After(steps[..|steps| - 1]).last == LastId(steps[..|steps| - 1])
    requires After(steps[..|steps| - 1]).stopped <==> Stopped(steps[..|steps| - 1])
    ensures After(steps).last == LastId(steps)
    decreases |steps|, 0
  {
    var n := |steps| - 1;
    if steps[n].Put? { TraceTells(steps[..n], steps[n].key); }
    IdStep(After(steps[..n]), steps[n]);
    hide Next, NextId;
  }

  lemma IdStep(s: Manager, step: Step)
    ensures Next(s, step).last ==
            match step
            case Put(k, _, _, _, clock) => if s.stopped || k in s.pending then s.last else NextId(s.last, clock)
            case AnyOtherId(clock) => NextId(s.last, clock)
            case _ => s.last
  {
    hide Pop, Set, RemoveFrom, Append, NextId;
  }

  // ------------------------------------------------------- stored messages

  /** Call `n` is a message to run `k` that was not refused. */
  ghost predicate Accepted(steps: seq<Step>, n: nat, k: RunKey) {
    && n < |steps| && steps[n].Put? && steps[n].key == k
    && !Stopped(steps[..n]) && !Told(steps[..n], k).pending
  }

  /** The message as it was accepted, with the id it was given. */
  ghost function MessageAt(steps: seq<Step>, n: nat): Message
    requires n < |steps| && steps[n].Put?
  {
    Message(steps[n].topic, steps[n].data, Some(IdText(LastId(steps[..n + 1]))))
  }

  /** The call releases everything of run `k`. */
  predicate Clears(step: Step, k: RunKey) {
    match step
    case DeleteRun(j) => j == k
    case DeleteThread(t) => t == k.thread
    case Close => true
    case _ => false
  }

  /** Call `n` was an accepted resumable message and nothing cleared the run since. */
  ghost predicate Retained(steps: seq<Step>, n: nat, k: RunKey) {
    Accepted(steps, n, k) && steps[n].resumable && forall m :: n < m < |steps| ==> !Clears(steps[m], k)
  }

  ghost predicate Increasing(ns: seq<nat>) {
    forall i, j :: 0 <= i < j < |ns| ==> ns[i] < ns[j]
  }

  /** `ms` are the messages accepted at the calls `ns`. */
  ghost predicate AreMessages(steps: seq<Step>, ns: seq<nat>, ms: seq<Message>) {
    && |ms| == |ns|
    && forall i :: 0 <= i < |ns| ==> ns[i] < |steps| && steps[ns[i]].Put? && ms[i] == MessageAt(steps, ns[i])
  }

  lemma AcceptedLater(steps: seq<Step>, n: nat, k: RunKey)
    requires n < |steps| - 1
    ensures Accepted(steps, n, k) <==> Accepted(steps[..|steps| - 1], n, k)
    ensures steps[n].Put? ==> MessageAt(steps, n) == MessageAt(steps[..|steps| - 1], n)
  {
    var p := steps[..|steps| - 1];
    assert p[..n] == steps[..n] && p[..n + 1] == steps[..n + 1];
  }

  lemma RetainedStep(steps: seq<Step>, n: nat, k: RunKey)
    requires steps != []
    ensures var last := |steps| - 1;
            Retained(steps, n, k) <==>
            if n < last then Retained(steps[..last], n, k) && !Clears(steps[last], k)
            else Accepted(steps, n, k) && steps[n].resumable
  {
    var last := |steps| - 1;
    if n < last {
      AcceptedLater(steps, n, k);
      hide Accepted;
      assert forall m :: n < m < last ==> steps[..last][m] == steps[m];
    }
  }

  /** A barred run has nothing stored. */
  lemma BarredHasNothing(steps: seq<Step>, k: RunKey)
    requires Told(steps, k).pending
    ensures Told(steps, k).stored == [] && Told(steps, k).control == None
  {
    TraceTells(steps, k);
    ManagerInvariant(steps);
    assert NoState(Streams.After(steps), k);
  }

  /** Main result: after every history the stored messages of run `k` are, in order,
      exactly its accepted resumable messages since it was last cleared, each with
      the topic, data and id it was accepted with. */
  lemma {:induction false} StoredExactly(steps: seq<Step>, k: RunKey) returns (ns: seq<nat>)
    ensures Lists(steps, k, ns)
    ensures AreMessages(steps, ns, ListOf(Streams.After(steps).stores, k))
    decreases |steps|
  {
    ns := StoredTold(steps, k);
    TraceTells(steps, k);
  }

  /** What the last call means for the stored messages. */
  lemma StoredByLast(steps: seq<Step>, k: RunKey)
    requires steps != []
    ensures var last := |steps| - 1; var before := Told(steps[..last], k).stored;
            Told(steps, k).stored ==
            if Clears(steps[last], k) then []
            else if Accepted(steps, last, k) && steps[last].resumable then before + [MessageAt(steps, last)]
            else before
  {
    var last := |steps| - 1;
    assert steps[..last + 1] == steps;
    var r := Told(steps[..last], k);
    if r.pending { BarredHasNothing(steps[..last], k); }
    assert Told(steps, k) == Heard(r, Stopped(steps[..last]), steps[last], k, LastId(steps));
    hide LastId, Told, Stopped, MentionsControl;
  }

  /** The calls `ns` are those whose messages run `k` retains. */
  ghost predicate Lists(steps: seq<Step>, k: RunKey, ns: seq<nat>) {
    Increasing(ns) && forall n: nat :: n in ns <==> Retained(steps, n, k)
  }

  function NextRetained(before: seq<nat>, last: nat, cleared: bool, added: bool): seq<nat> {
    if cleared then [] else if added then before + [last] else before
  }

  lemma ListsStep(steps: seq<Step>, k: RunKey, before: seq<nat>)
    requires steps != [] && Lists(steps[..|steps| - 1], k, before)
    ensures var last := |steps| - 1;
            Lists(steps, k, NextRetained(before, last, Clears(steps[last], k),
                                         Accepted(steps, last, k) && steps[last].resumable))
  {
    var last := |steps| - 1;
    var ns := NextRetained(before, last, Clears(steps[last], k), Accepted(steps, last, k) && steps[last].resumable);
    forall n: nat ensures Retained(steps, n, k) <==> n in ns {
      RetainedStep(steps, n, k);
      if n in before { assert Retained(steps[..last], n, k); }
    }
    hide Accepted, Clears;
    forall i | 0 <= i < |before| ensures before[i] < last {
      assert before[i] in before && Retained(steps[..last], before[i], k);
      NotYetRetained(steps[..last], before[i], k);
    }
  }

  lemma {:induction false} StoredTold(steps: seq<Step>, k: RunKey) returns (ns: seq<nat>)
    ensures Lists(steps, k, ns) && AreMessages(steps, ns, Told(steps, k).stored)
    decreases |steps|
  {
    if steps == [] {
      ns := [];
    } else {
      hide Told, LastId, Lists, Accepted, Clears, MessageAt, AreMessages;
      var last := |steps| - 1;
      var before := StoredTold(steps[..last], k);
      ListsStep(steps, k, before);
      CarryMessages(steps, before, k, Told(steps[..last], k).stored);
      StoredByLast(steps, k);
      ns := NextRetained(before, last, Clears(steps[last], k), Accepted(steps, last, k) && steps[last].resumable);
      if Clears(steps[last], k) {
        NoneAreMessages(steps);
      } else if Accepted(steps, last, k) && steps[last].resumable {
        AcceptedIsPut(steps, last, k);
        OneMoreMessage(steps, before, Told(steps[..last], k).stored, last);
      }
    }
  }

  lemma NoneAreMessages(steps: seq<Step>)
    ensures AreMessages(steps, [], [])
  {
  }

  lemma OneMoreMessage(steps: seq<Step>, ns: seq<nat>, ms: seq<Message>, n: nat)
    requires AreMessages(steps, ns, ms) && n < |steps| && steps[n].Put?
    ensures AreMessages(steps, ns + [n], ms + [MessageAt(steps, n)])
  {
    hide MessageAt;
  }

  lemma AcceptedIsPut(steps: seq<Step>, n: nat, k: RunKey)
    requires Accepted(steps, n, k)
    ensures n < |steps| && steps[n].Put?
  {
  }

  lemma NotYetRetained(steps: seq<Step>, n: nat, k: RunKey)
    requires Retained(steps, n, k)
    ensures n < |steps|
  {
  }

  lemma CarryMessages(steps: seq<Step>, ns: seq<nat>, k: RunKey, ms: seq<Message>)
    requires steps != [] && AreMessages(steps[..|steps| - 1], ns, ms)
    ensures AreMessages(steps, ns, ms)
    ensures forall i :: 0 <= i < |ns| ==> ns[i] < |steps| - 1
  {
    forall i | 0 <= i < |ns|
      ensures ns[i] < |steps| && steps[ns[i]].Put? && ms[i] == MessageAt(steps, ns[i])
    {
      AcceptedLater(steps, ns[i], k);
    }
  }

  /** Hence resuming from the id of a retained message yields exactly the messages
      accepted after it, in order. */
  lemma ResumeFromPut(steps: seq<Step>, k: RunKey, n: nat) returns (later: seq<nat>, ms: seq<Message>)
    requires (forall j :: 0 <= j < |steps| ==> ClockOk(steps[j])) && Retained(steps, n, k)
    ensures Increasing(later) && forall m: nat :: m in later <==> m > n && Retained(steps, m, k)
    ensures AreMessages(steps, later, ms)
    ensures Get(Streams.After(steps).stores, k).Some?
    ensures Resume(Get(Streams.After(steps).stores, k).value, MessageAt(steps, n).id) == Yields(ms)
  {
    hide Resume, Retained, LastId, Told, MessageAt, Streams.After;
    var ns := StoredExactly(steps, k);
    var i :| 0 <= i < |ns| && ns[i] == n;
    var all := ListOf(Streams.After(steps).stores, k);
    later, ms := ns[i + 1..], all[i + 1..];
    TailIsLater(ns, i);
    ResumeAfterAnyRun(steps, k, i);
  }

  lemma TailIsLater(ns: seq<nat>, i: nat)
    requires Increasing(ns) && i < |ns|
    ensures Increasing(ns[i + 1..]) && forall m: nat :: m in ns[i + 1..] <==> m > ns[i] && m in ns
  {
    forall m: nat | m > ns[i] && m in ns ensures m in ns[i + 1..] {
      var j :| 0 <= j < |ns| && ns[j] == m;
      assert ns[i + 1..][j - i - 1] == m;
    }
  }

  // -------------------------------------------------------- the control key

  /** Call `n` was the last accepted message whose topic contains "control", and
      nothing cleared the run since. */
  ghost predicate LastControl(steps: seq<Step>, n: nat, k: RunKey) {
    && Accepted(steps, n, k) && MentionsControl(steps[n].topic)
    && forall m: nat :: n < m < |steps| ==>
         !Clears(steps[m], k) && !(Accepted(steps, m, k) && MentionsControl(steps[m].topic))
  }

  lemma LastControlStep(steps: seq<Step>, n: nat, k: RunKey)
    requires steps != []
    ensures var last := |steps| - 1;
            var fresh' := Accepted(steps, last, k) && MentionsControl(steps[last].topic);
            LastControl(steps, n, k) <==>
            if n < last then LastControl(steps[..last], n, k) && !Clears(steps[last], k) && !fresh'
            else n == last && fresh'
  {
    var last := |steps| - 1;
    if n < last {
      forall m: nat | m < last
        ensures steps[..last][m] == steps[m] && (Accepted(steps, m, k) <==> Accepted(steps[..last], m, k))
      {
        AcceptedLater(steps, m, k);
      }
      hide Accepted, MentionsControl, Clears;
    }
  }

  /** After every history the control key of run `k` is the last accepted message
      whose topic contains "control" since the run was cleared, if there is one. */
  lemma {:induction false} ControlExactly(steps: seq<Step>, k: RunKey)
    ensures forall n: nat :: LastControl(steps, n, k) ==>
              Get(Streams.After(steps).controlKeys, k) == Some(MessageAt(steps, n))
    ensures (forall n: nat :: !LastControl(steps, n, k)) ==> Get(Streams.After(steps).controlKeys, k) == None
  {
    ControlTold(steps, k);
    TraceTells(steps, k);
  }

  /** What the last call means for the control key. */
  lemma ControlByLast(steps: seq<Step>, k: RunKey)
    requires steps != []
    ensures var last := |steps| - 1; var before := Told(steps[..last], k).control;
            Told(steps, k).control ==
            if Clears(steps[last], k) then None
            else if Accepted(steps, last, k) && MentionsControl(steps[last].topic) then Some(MessageAt(steps, last))
            else before
  {
    var last := |steps| - 1;
    assert steps[..last + 1] == steps;
    var r := Told(steps[..last], k);
    if r.pending { BarredHasNothing(steps[..last], k); }
    assert Told(steps, k) == Heard(r, Stopped(steps[..last]), steps[last], k, LastId(steps));
    hide LastId, Told, Stopped, MentionsControl;
  }

  lemma {:induction false} ControlTold(steps: seq<Step>, k: RunKey)
    ensures forall n: nat :: LastControl(steps, n, k) ==> Told(steps, k).control == Some(MessageAt(steps, n))
    ensures (forall n: nat :: !LastControl(steps, n, k)) ==> Told(steps, k).control == None
    decreases |steps|
  {
    if steps != [] {
      hide Told, MessageAt, Accepted, MentionsControl, Clears, LastControl;
      var last := |steps| - 1;
      ControlTold(steps[..last], k);
      ControlByLast(steps, k);
      forall n: nat | LastControl(steps, n, k) ensures Told(steps, k).control == Some(MessageAt(steps, n)) {
        LastControlIsPut(steps, n, k);
        LastControlStep(steps, n, k);
        if n < last { AcceptedLater(steps, n, k); }
      }
      if forall n: nat :: !LastControl(steps, n, k) {
        LastControlStep(steps, last, k);
        forall n: nat ensures LastControl(steps[..last], n, k) ==> Clears(steps[last], k) {
          if n < last { LastControlStep(steps, n, k); } else { NotYetControl(steps[..last], n, k); }
        }
      }
    }
  }

  lemma LastControlIsPut(steps: seq<Step>, n: nat, k: RunKey)
    requires LastControl(steps, n, k)
    ensures n < |steps| && steps[n].Put?
  {
  }

  lemma NotYetControl(steps: seq<Step>, n: nat, k: RunKey)
    requires n >= |steps|
    ensures !LastControl(steps, n, k)
  {
  }

  // --------------------------------------------------------- thread streams

  /** The subscribers of a thread, told from the calls. */
  ghost function Subscribers(steps: seq<Step>, t: string): seq<nat> {
    if steps == [] then []
    else
      var n := |steps| - 1;
      var r := Subscribers(steps[..n], t);
      match steps[n]
      case AddThreadStream(u, q) => if u == t && !Stopped(steps[..n]) then r + [q] else r
      case RemoveThreadStream(u, q) => if u == t then Remove(r, q) else r
      case DeleteThread(u) => if u == t then [] else r
      case Close => []
      case _ => r
  }

  function StreamsOf(s: Manager, t: string): seq<nat> {
    if t in s.threadStreams then s.threadStreams[t] else []
  }

  lemma {:induction false} SubscribersTold(steps: seq<Step>, t: string)
    ensures StreamsOf(Streams.After(steps), t) == Subscribers(steps, t)
    decreases |steps|
  {
    if steps != [] {
      var n := |steps| - 1;
      SubscribersTold(steps[..n], t);
      TraceTells(steps[..n], RunKey(t, ""));
      SubscribersStep(Streams.After(steps[..n]), steps[n], t);
      hide Next, Told, LastId;
    }
  }

  lemma SubscribersStep(s: Manager, step: Step, t: string)
    ensures StreamsOf(Next(s, step), t) ==
            match step
            case AddThreadStream(u, q) =>
              if u == t && !s.stopped then StreamsOf(s, t) + [q] else StreamsOf(s, t)
            case RemoveThreadStream(u, q) => if u == t then Remove(StreamsOf(s, t), q) else StreamsOf(s, t)
            case DeleteThread(u) => if u == t then [] else StreamsOf(s, t)
            case Close => []
            case _ => StreamsOf(s, t)
  {
    if step.RemoveThreadStream? {
      if step.queue !in StreamsOf(s, t) { RemoveAbsent(StreamsOf(s, t), step.queue); }
      hide Remove;
    } else if !(step.AddThreadStream? || step.DeleteThread? || step.Close?) {
      StreamsKept(s, step);
      hide Next, Remove;
    }
  }

  lemma StreamsKept(s: Manager, step: Step)
    requires !(step.AddThreadStream? || step.RemoveThreadStream? || step.DeleteThread? || step.Close?)
    ensures Next(s, step).threadStreams == s.threadStreams
  {
    hide Pop, Set, Append, NextId, RemoveFrom;
  }
}
