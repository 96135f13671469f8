/** `Runs.next` and the runner pool of `queue()`. */
module Scheduler {
  import opened Prelude
  import opened Runs

  // ------------------------------------------------------------- one pass

  predicate Waiting(r: Run, now: int) {
    r.status.Pending? && r.createdAt < now
  }

  ghost predicate HasRunning(runs: seq<Run>, t: string) {
    exists i :: 0 <= i < |runs| && runs[i].thread == t && runs[i].status.Running?
  }

  ghost predicate AtMostOneRunning(runs: seq<Run>) {
    forall i, j :: 0 <= i < j < |runs| && runs[i].status.Running? && runs[j].status.Running? ==>
      runs[i].thread != runs[j].thread
  }

  /** Positions of runs in the order of their creation time. */
  ghost predicate Ordered(runs: seq<Run>, queue: seq<nat>) {
    && (forall i :: 0 <= i < |queue| ==> queue[i] < |runs|)
    && (forall i, j :: 0 <= i < j < |queue| ==>
          queue[i] != queue[j] && runs[queue[i]].createdAt <= runs[queue[j]].createdAt)
  }

  /** Join a queue sorted by creation time, behind runs of the same time. */
  function Join(runs: seq<Run>, queue: seq<nat>, i: nat): seq<nat>
    requires i < |runs| && forall j :: 0 <= j < |queue| ==> queue[j] < |runs|
  {
    if queue == [] || runs[queue[|queue| - 1]].createdAt <= runs[i].createdAt then queue + [i]
    else Join(runs, queue[..|queue| - 1], i) + [queue[|queue| - 1]]
  }

  lemma AppendOrdered(runs: seq<Run>, queue: seq<nat>, i: nat)
    requires Ordered(runs, queue) && i < |runs|
    requires forall a :: 0 <= a < |queue| ==> queue[a] != i && runs[queue[a]].createdAt <= runs[i].createdAt
    ensures Ordered(runs, queue + [i])
  {
  }

  lemma NotAfterLast(runs: seq<Run>, queue: seq<nat>, q: nat)
    requires Ordered(runs, queue) && queue != [] && q in queue[..|queue| - 1]
    ensures q < |runs| && q != queue[|queue| - 1] && runs[q].createdAt <= runs[queue[|queue| - 1]].createdAt
  {
    var a :| 0 <= a < |queue| - 1 && queue[a] == q;
  }

  lemma {:induction false} JoinOrdered(runs: seq<Run>, queue: seq<nat>, i: nat)
    requires Ordered(runs, queue) && i < |runs| && i !in queue
    ensures Ordered(runs, Join(runs, queue, i))
    ensures forall q: nat :: q in Join(runs, queue, i) <==> q in queue || q == i
    decreases |queue|
  {
    if queue == [] || runs[queue[|queue| - 1]].createdAt <= runs[i].createdAt {
      forall a | 0 <= a < |queue| ensures queue[a] != i && runs[queue[a]].createdAt <= runs[i].createdAt {
        assert queue[a] in queue;
      }
      AppendOrdered(runs, queue, i);
    } else {
      var front, last := queue[..|queue| - 1], queue[|queue| - 1];
      assert queue == front + [last];
      assert Ordered(runs, front);
      JoinOrdered(runs, front, i);
      var r := Join(runs, front, i);
      hide Ordered;
      forall a | 0 <= a < |r| ensures r[a] < |runs| && r[a] != last && runs[r[a]].createdAt <= runs[last].createdAt {
        assert r[a] in r;
        if r[a] in front { NotAfterLast(runs, queue, r[a]); }
      }
      AppendOrdered(runs, r, last);
    }
  }

  /** All waiting runs, oldest first. */
  method PendingRuns(runs: seq<Run>, now: int) returns (queue: seq<nat>)
    ensures Ordered(runs, queue)
    ensures forall q: nat :: q in queue <==> q < |runs| && Waiting(runs[q], now)
    ensures forall q: nat :: q in queue <==> q < |runs| && runs[q].status == Pending && runs[q].createdAt < now
  {
    queue := [];
    for i := 0 to |runs|
      invariant Ordered(runs, queue)
      invariant forall q: nat :: q in queue <==> q < i && Waiting(runs[q], now)
    {
      if Waiting(runs[i], now) {
        JoinOrdered(runs, queue, i);
        queue := Join(runs, queue, i);
      }
    }
  }

  /** Run `i` is the oldest waiting run of its thread. */
  ghost predicate OldestOfThread(runs: seq<Run>, now: int, i: nat)
    requires i < |runs|
  {
    forall j :: 0 <= j < |runs| && Waiting(runs[j], now) && runs[j].thread == runs[i].thread ==>
      runs[i].createdAt <= runs[j].createdAt
  }

  /** A run a pass may claim: the oldest waiting run of an idle existing thread. */
  ghost predicate Claimable(runs: seq<Run>, threads: set<string>, now: int, c: nat) {
    && c < |runs| && Waiting(runs[c], now) && runs[c].thread in threads
    && !HasRunning(runs, runs[c].thread) && OldestOfThread(runs, now, c)
  }

  /** What a pass may have done: it set exactly the claimed runs to running, each
      claimable, no two of one thread. */
  ghost predicate FairPass(runs: seq<Run>, runs': seq<Run>, threads: set<string>, now: int, claimed: seq<nat>) {
    && |runs'| == |runs|
    && (forall i: nat :: i < |runs| ==> runs'[i] == if i in claimed then runs[i].(status := Running) else runs[i])
    && (forall a :: 0 <= a < |claimed| ==> Claimable(runs, threads, now, claimed[a]))
    && (forall a, b :: 0 <= a < b < |claimed| ==> runs[claimed[a]].thread != runs[claimed[b]].thread)
  }

  /** One uninterrupted `Runs.next(limit=...)`.  It looks at the `limit` oldest
      waiting runs, and afterwards each of their threads is busy. */
  method NextPass(runs: seq<Run>, threads: set<string>, now: int, limit: nat)
    returns (runs': seq<Run>, claimed: seq<nat>, ghost queue: seq<nat>)
    ensures |claimed| <= limit
    ensures FairPass(runs, runs', threads, now, claimed)
    ensures forall a :: 0 <= a < |claimed| ==>
              && claimed[a] < |runs| == |runs'| && runs[claimed[a]].status == Pending
              && runs[claimed[a]].createdAt < now && runs'[claimed[a]].status == Running
    ensures AtMostOneRunning(runs) ==> AtMostOneRunning(runs')
    ensures Ordered(runs, queue) && forall q: nat :: q in queue <==> q < |runs| && Waiting(runs[q], now)
    ensures forall m :: 0 <= m < |queue| && m < limit && runs[queue[m]].thread in threads ==>
              HasRunning(runs', runs[queue[m]].thread)
  {
    var pending := PendingRuns(runs, now);
    queue := pending;
    runs', claimed := runs, [];
    var n := 0;
    while n < limit && n < |pending|
      invariant 0 <= n <= |pending| && |claimed| <= n <= limit
      invariant FairPass(runs, runs', threads, now, claimed)
      invariant forall c: nat :: c in claimed ==> c in pending[..n]
      invariant forall m :: 0 <= m < n && runs[pending[m]].thread in threads ==>
                  HasRunning(runs', runs[pending[m]].thread)
    {
      hide Claimable, Waiting;
      var i := pending[n];
      var busy := exists j :: 0 <= j < |runs'| && runs'[j].thread == runs[i].thread && runs'[j].status.Running?;
      assert i !in claimed by { assert forall m :: 0 <= m < n ==> pending[m] != i; }
      if runs[i].thread in threads && !busy {
        Claim(runs, runs', threads, now, claimed, pending, n);
        RunningGrows(runs', i);
        runs' := runs'[i := runs'[i].(status := Running)];
        claimed := claimed + [i];
      }
      n := n + 1;
    }
    forall a | 0 <= a < |claimed| ensures Claimable(runs, threads, now, claimed[a]) && claimed[a] in claimed {}
    if AtMostOneRunning(runs) { FairPassKeepsOne(runs, runs', threads, now, claimed); }
  }

  lemma RunningGrows(runs: seq<Run>, i: nat)
    requires i < |runs|
    ensures var runs' := runs[i := runs[i].(status := Running)];
            HasRunning(runs', runs[i].thread) && forall t :: HasRunning(runs, t) ==> HasRunning(runs', t)
  {
    var runs' := runs[i := runs[i].(status := Running)];
    assert runs'[i].status.Running?;
    forall t | HasRunning(runs, t) ensures HasRunning(runs', t) {
      var j :| 0 <= j < |runs| && runs[j].thread == t && runs[j].status.Running?;
      assert runs'[j].thread == t && runs'[j].status.Running?;
    }
  }

  /** A fair pass never leaves two running runs on one thread. */
  lemma FairPassKeepsOne(runs: seq<Run>, runs': seq<Run>, threads: set<string>, now: int, claimed: seq<nat>)
    requires FairPass(runs, runs', threads, now, claimed) && AtMostOneRunning(runs)
    ensures AtMostOneRunning(runs')
  {
    forall i: nat, j: nat | i < j < |runs'| && runs'[i].status.Running? && runs'[j].status.Running?
      ensures runs'[i].thread != runs'[j].thread
    {
      if i in claimed {
        var a :| 0 <= a < |claimed| && claimed[a] == i;
        assert Claimable(runs, threads, now, claimed[a]);
        if j in claimed {
          var b :| 0 <= b < |claimed| && claimed[b] == j;
          assert a < b || b < a;
        }
      } else if j in claimed {
        var b :| 0 <= b < |claimed| && claimed[b] == j;
        assert Claimable(runs, threads, now, claimed[b]);
      }
    }
  }

  /** Claiming the next run of the queue keeps a pass fair. */
  lemma Claim(runs: seq<Run>, cur: seq<Run>, threads: set<string>, now: int, claimed: seq<nat>, queue: seq<nat>, n: nat)
    requires FairPass(runs, cur, threads, now, claimed)
    requires Ordered(runs, queue) && n < |queue|
    requires forall q: nat :: q in queue <==> q < |runs| && Waiting(runs[q], now)
    requires forall m :: 0 <= m < n && runs[queue[m]].thread in threads ==> HasRunning(cur, runs[queue[m]].thread)
    requires queue[n] !in claimed && runs[queue[n]].thread in threads && !HasRunning(cur, runs[queue[n]].thread)
    ensures FairPass(runs, cur[queue[n] := cur[queue[n]].(status := Running)], threads, now, claimed + [queue[n]])
  {
    var i := queue[n];
    assert i in queue;
    forall a | 0 <= a < |claimed| ensures runs[claimed[a]].thread != runs[i].thread {
      assert claimed[a] in claimed && Claimable(runs, threads, now, claimed[a]);
      assert cur[claimed[a]].status.Running?;
    }
    NextIsClaimable(runs, cur, threads, now, queue, n);
  }

  lemma NextIsClaimable(runs: seq<Run>, cur: seq<Run>, threads: set<string>, now: int, queue: seq<nat>, n: nat)
    requires |cur| == |runs|
    requires forall i: nat :: i < |runs| ==> cur[i] == runs[i] || cur[i] == runs[i].(status := Running)
    requires Ordered(runs, queue) && n < |queue|
    requires forall q: nat :: q in queue <==> q < |runs| && Waiting(runs[q], now)
    requires forall m :: 0 <= m < n && runs[queue[m]].thread in threads ==> HasRunning(cur, runs[queue[m]].thread)
    requires runs[queue[n]].thread in threads && !HasRunning(cur, runs[queue[n]].thread)
    ensures Claimable(runs, threads, now, queue[n])
  {
    var i := queue[n];
    assert i in queue;
    forall j: nat | j < |runs| && Waiting(runs[j], now) && runs[j].thread == runs[i].thread
      ensures runs[i].createdAt <= runs[j].createdAt
    {
      assert j in queue;
      var m :| 0 <= m < |queue| && queue[m] == j;
      assert m >= n;
    }
  }

  // ------------------------------------------------------------ whole runs

  /** What happens to the stored runs.  A pass suspended at an await or a yield is a
      series of claims, each checked against the runs of that moment; it may also
      claim a run of its list that is no longer stored, which changes no stored
      run. */
  datatype Change =
    | Claimed(run: nat)
    | ClaimedUnstored
    | StatusSet(run: nat, status: Status)
    | Inserted(added: Run)
    | RunDropped(id: nat, thread: string)
    | ThreadDropped(thread: string)

  ghost predicate Possible(runs: seq<Run>, c: Change) {
    match c
    case Claimed(i) => i < |runs| && runs[i].status.Pending? && !HasRunning(runs, runs[i].thread)
    case StatusSet(i, _) => i < |runs|
    case _ => true
  }

  /** Whether a deletion removes the run. */
  predicate Drops(c: Change, id: nat, t: string) {
    match c
    case RunDropped(i, u) => i == id && u == t
    case ThreadDropped(u) => u == t
    case _ => false
  }

  function Without(runs: seq<Run>, c: Change): seq<Run> {
    if runs == [] then []
    else (if Drops(c, runs[0].id, runs[0].thread) then [] else [runs[0]]) + Without(runs[1..], c)
  }

  ghost function Changed(runs: seq<Run>, c: Change): seq<Run>
    requires Possible(runs, c)
  {
    match c
    case Claimed(i) => runs[i := runs[i].(status := Running)]
    case ClaimedUnstored => runs
    case StatusSet(i, status) => runs[i := runs[i].(status := status)]
    case Inserted(r) => runs + [r]
    case _ => Without(runs, c)
  }

  lemma {:induction false} WithoutHas(runs: seq<Run>, c: Change, r: Run)
    ensures r in Without(runs, c) <==> r in runs && !Drops(c, r.id, r.thread)
  {
    if runs != [] { WithoutHas(runs[1..], c, r); }
  }

  lemma {:induction false} DroppingKeepsOne(runs: seq<Run>, c: Change)
    requires AtMostOneRunning(runs)
    ensures AtMostOneRunning(Without(runs, c))
  {
    if runs != [] {
      var rest := runs[1..];
      DroppingKeepsOne(rest, c);
      var kept := Without(rest, c);
      forall j | 0 <= j < |kept| && runs[0].status.Running? && kept[j].status.Running?
        ensures kept[j].thread != runs[0].thread
      {
        WithoutHas(rest, c, kept[j]);
        var i :| 0 <= i < |rest| && rest[i] == kept[j];
        assert rest[i] == runs[i + 1];
      }
    }
  }

  /** A setter or an insertion that makes a run running beside another running run
      of its thread; `Runs.next` never does. */
  ghost predicate Doubles(runs: seq<Run>, c: Change) {
    match c
    case StatusSet(i, status) =>
      i < |runs| && status.Running?
      && exists j :: 0 <= j < |runs| && j != i && runs[j].thread == runs[i].thread && runs[j].status.Running?
    case Inserted(r) => r.status.Running? && HasRunning(runs, r.thread)
    case _ => false
  }

  lemma OneRunningStep(runs: seq<Run>, c: Change)
    requires AtMostOneRunning(runs) && Possible(runs, c)
    ensures AtMostOneRunning(Changed(runs, c)) <==> !Doubles(runs, c)
  {
    var runs' := Changed(runs, c);
    match c
    case RunDropped(_, _) => DroppingKeepsOne(runs, c);
    case ThreadDropped(_) => DroppingKeepsOne(runs, c);
    case StatusSet(i, status) =>
      if Doubles(runs, c) {
        var j :| 0 <= j < |runs| && j != i && runs[j].thread == runs[i].thread && runs[j].status.Running?;
        assert runs'[i].thread == runs'[j].thread;
      }
    case Inserted(r) =>
      if Doubles(runs, c) {
        var j :| 0 <= j < |runs| && runs[j].thread == r.thread && runs[j].status.Running?;
        assert runs'[j].thread == runs'[|runs|].thread;
      }
    case _ =>
  }

  /** The stored runs after the changes, if each was possible. */
  ghost function RunsAfter(runs: seq<Run>, changes: seq<Change>): Option<seq<Run>>
    decreases changes
  {
    if changes == [] then Some(runs)
    else if !Possible(runs, changes[0]) then None
    else RunsAfter(Changed(runs, changes[0]), changes[1..])
  }

  /** No thread has two running runs at any moment. */
  ghost predicate OneRunningThroughout(runs: seq<Run>, changes: seq<Change>)
    decreases changes
  {
    AtMostOneRunning(runs)
    && (changes != [] && Possible(runs, changes[0]) ==> OneRunningThroughout(Changed(runs, changes[0]), changes[1..]))
  }

  /** Some change doubles the running runs of a thread. */
  ghost predicate EverDoubles(runs: seq<Run>, changes: seq<Change>)
    decreases changes
  {
    changes != [] && Possible(runs, changes[0])
    && (Doubles(runs, changes[0]) || EverDoubles(Changed(runs, changes[0]), changes[1..]))
  }

  /** Over every history, interrupted passes included, no thread ever has two
      running runs, exactly if no setter and no insertion doubles them: the
      scheduler's own claims never do. */
  lemma {:induction false} OneRunningAlways(runs: seq<Run>, changes: seq<Change>)
    requires AtMostOneRunning(runs) && RunsAfter(runs, changes).Some?
    ensures OneRunningThroughout(runs, changes) <==> !EverDoubles(runs, changes)
    decreases changes
  {
    hide Changed, Doubles, Possible, AtMostOneRunning;
    if changes != [] {
      OneRunningStep(runs, changes[0]);
      if !Doubles(runs, changes[0]) {
        OneRunningAlways(Changed(runs, changes[0]), changes[1..]);
      } else {
        assert !OneRunningThroughout(Changed(runs, changes[0]), changes[1..]);
      }
    }
  }

  ghost predicate Stored(runs: seq<Run>, id: nat, t: string) {
    exists i :: 0 <= i < |runs| && runs[i].id == id && runs[i].thread == t
  }

  lemma StoredStep(runs: seq<Run>, c: Change, id: nat, t: string)
    requires Possible(runs, c) && (c.Inserted? ==> c.added.id != id)
    ensures Stored(Changed(runs, c), id, t) <==> Stored(runs, id, t) && !Drops(c, id, t)
  {
    var runs' := Changed(runs, c);
    if Stored(runs, id, t) && !Drops(c, id, t) {
      var i :| 0 <= i < |runs| && runs[i].id == id && runs[i].thread == t;
      if c.RunDropped? || c.ThreadDropped? {
        WithoutHas(runs, c, runs[i]);
        assert runs[i] in runs';
      } else {
        assert runs'[i].id == id;
      }
    }
    if Stored(runs', id, t) {
      var i :| 0 <= i < |runs'| && runs'[i].id == id && runs'[i].thread == t;
      if c.RunDropped? || c.ThreadDropped? {
        WithoutHas(runs, c, runs'[i]);
      } else {
        assert runs[i].id == id;
      }
    }
  }

  /** A suspended pass works on the list it read.  A run of that list is still
      stored when the pass comes to it exactly if neither the run nor its thread was
      deleted meanwhile; run ids are never used twice. */
  lemma {:induction false} ListedRunIsStored(runs: seq<Run>, changes: seq<Change>, id: nat, t: string)
    requires Stored(runs, id, t) && RunsAfter(runs, changes).Some?
    requires forall c :: c in changes && c.Inserted? ==> c.added.id != id
    ensures Stored(RunsAfter(runs, changes).value, id, t) <==> forall c :: c in changes ==> !Drops(c, id, t)
    decreases changes
  {
    hide Changed, Possible, Drops;
    if changes != [] {
      StoredStep(runs, changes[0], id, t);
      if Drops(changes[0], id, t) {
        StaysUnstored(Changed(runs, changes[0]), changes[1..], id, t);
      } else {
        ListedRunIsStored(Changed(runs, changes[0]), changes[1..], id, t);
        assert changes == [changes[0]] + changes[1..];
      }
    }
  }

  lemma {:induction false} StaysUnstored(runs: seq<Run>, changes: seq<Change>, id: nat, t: string)
    requires !Stored(runs, id, t) && RunsAfter(runs, changes).Some?
    requires forall c :: c in changes && c.Inserted? ==> c.added.id != id
    ensures !Stored(RunsAfter(runs, changes).value, id, t)
    decreases changes
  {
    hide Changed, Possible;
    if changes != [] {
      StoredStep(runs, changes[0], id, t);
      StaysUnstored(Changed(runs, changes[0]), changes[1..], id, t);
    }
  }

  // ---------------------------------------------------------- runner pool

  /** Runner tokens by where they are; `budget` is how many runs the current
      `Runs.next` call may still yield. */
  datatype Pool = Pool(free: set<nat>, busy: map<nat, nat>, expired: set<nat>, budget: nat)

  datatype Step =
    | StartPass
    | Dispatch(runner: nat, task: nat)
    | Cleanup(runner: nat, returned: bool)     // false: putting it back raised
    | RestoreExpired

  predicate Enabled(s: Pool, step: Step) {
    match step
    case StartPass => true
    case Dispatch(r, _) => s.budget > 0 && (s.free != {} ==> r in s.free)
    case Cleanup(r, _) => r in s.busy
    case RestoreExpired => true
  }

  /** `Dispatch` on an empty pool is `QueueEmpty`: `None`. */
  function Next(s: Pool, step: Step): Option<Pool>
    requires Enabled(s, step)
  {
    match step
    case StartPass => Some(s.(budget := |s.free|))
    case Dispatch(r, task) =>
      if s.free == {} then None
      else Some(s.(free := s.free - {r}, busy := s.busy[r := task], budget := s.budget - 1))
    case Cleanup(r, returned) =>
      if returned then Some(s.(free := s.free + {r}, busy := s.busy - {r}))
      else Some(s.(expired := s.expired + {r}, busy := s.busy - {r}))
    case RestoreExpired => Some(s.(free := s.free + s.expired, expired := {}))
  }

  /** Every runner is free, busy or expired, never two of these, and a pass never
      promises more runs than there are free runners. */
  ghost predicate Conserved(s: Pool, runners: set<nat>) {
    && (forall r :: r in runners <==> r in s.free || r in s.busy || r in s.expired)
    && (forall r :: r in s.free ==> r !in s.busy && r !in s.expired)
    && (forall r :: r in s.busy ==> r !in s.expired)
    && s.budget <= |s.free|
  }

  lemma DispatchConserves(s: Pool, runners: set<nat>, r: nat, task: nat)
    requires Conserved(s, runners) && Enabled(s, Dispatch(r, task))
    ensures r in s.free
    ensures Conserved(s.(free := s.free - {r}, busy := s.busy[r := task], budget := s.budget - 1), runners)
  {
    assert s.free != {};
    assert |s.free - {r}| == |s.free| - 1;
  }

  lemma CleanupConserves(s: Pool, runners: set<nat>, r: nat)
    requires Conserved(s, runners) && r in s.busy
    ensures Conserved(s.(free := s.free + {r}, busy := s.busy - {r}), runners)
    ensures Conserved(s.(expired := s.expired + {r}, busy := s.busy - {r}), runners)
  {
    assert |s.free + {r}| == |s.free| + 1;
  }

  lemma RestoreConserves(s: Pool, runners: set<nat>)
    requires Conserved(s, runners)
    ensures Conserved(s.(free := s.free + s.expired, expired := {}), runners)
  {
    assert |s.free + s.expired| == |s.free| + |s.expired|;
  }

  lemma ConservedStep(s: Pool, runners: set<nat>, step: Step)
    requires Conserved(s, runners) && Enabled(s, step)
    ensures Next(s, step).Some? && Conserved(Next(s, step).value, runners)
  {
    match step
    case StartPass =>
    case Dispatch(r, task) => DispatchConserves(s, runners, r, task);
    case Cleanup(r, _) => CleanupConserves(s, runners, r);
    case RestoreExpired => RestoreConserves(s, runners);
  }

  /** After a restore no runner is expired: every runner that is not busy is free. */
  lemma RestoreFreesAll(s: Pool, runners: set<nat>)
    requires Conserved(s, runners)
    ensures var s' := Next(s, RestoreExpired).value;
            s'.expired == {} && s'.busy == s.busy && forall r :: r in s'.free <==> r in runners && r !in s.busy
  {
  }

  /** `n` more runs can be dispatched, one after the other, whichever runners are
      taken. */
  ghost predicate CanDispatch(s: Pool, n: nat)
    decreases n
  {
    n == 0
    || ((exists r :: Enabled(s, Dispatch(r, 0)))
        && forall r :: Enabled(s, Dispatch(r, 0)) ==>
             Next(s, Dispatch(r, 0)).Some? && CanDispatch(Next(s, Dispatch(r, 0)).value, n - 1))
  }

  lemma {:induction false} BudgetIsCapacity(s: Pool, runners: set<nat>, n: nat)
    requires Conserved(s, runners)
    ensures CanDispatch(s, n) <==> n <= s.budget
    decreases n
  {
    if n > 0 && s.budget > 0 {
      assert s.free != {};
      var r :| r in s.free;
      assert Enabled(s, Dispatch(r, 0));
      forall r | Enabled(s, Dispatch(r, 0))
        ensures Next(s, Dispatch(r, 0)).Some?
        ensures CanDispatch(Next(s, Dispatch(r, 0)).value, n - 1) <==> n <= s.budget
      {
        ConservedStep(s, runners, Dispatch(r, 0));
        BudgetIsCapacity(Next(s, Dispatch(r, 0)).value, runners, n - 1);
        hide Conserved, CanDispatch;
      }
      hide Conserved, Enabled, Next;
    }
  }

  /** A pass that starts now can dispatch exactly as many runs as there are free
      runners. */
  lemma PassUsesAllRunners(s: Pool, runners: set<nat>, n: nat)
    requires Conserved(s, runners)
    ensures CanDispatch(Next(s, StartPass).value, n) <==> n <= |s.free|
  {
    ConservedStep(s, runners, StartPass);
    BudgetIsCapacity(Next(s, StartPass).value, runners, n);
  }

  datatype Outcome = At(pool: Pool) | QueueEmpty | Impossible

  ghost function After(runners: set<nat>, steps: seq<Step>): Outcome {
    if steps == [] then At(Pool(runners, map[], {}, 0))
    else
      var p := After(runners, steps[..|steps| - 1]);
      if !p.At? then p
      else if !Enabled(p.pool, steps[|steps| - 1]) then Impossible
      else
        var n := Next(p.pool, steps[|steps| - 1]);
        if n.None? then QueueEmpty else At(n.value)
  }

  /** In every run of the scheduling loop no dispatch finds the pool empty, and
      free, busy and expired runners add up to the concurrency. */
  lemma {:induction false} RunnersAddUp(runners: set<nat>, steps: seq<Step>)
    ensures !After(runners, steps).QueueEmpty?
    ensures After(runners, steps).At? ==>
              var s := After(runners, steps).pool;
              Conserved(s, runners) && |s.free| + |s.busy| + |s.expired| == |runners|
    decreases |steps|
  {
    if steps != [] {
      RunnersAddUp(runners, steps[..|steps| - 1]);
      var p := After(runners, steps[..|steps| - 1]);
      if p.At? && Enabled(p.pool, steps[|steps| - 1]) {
        ConservedStep(p.pool, runners, steps[|steps| - 1]);
      }
    }
    if After(runners, steps).At? {
      Partition(After(runners, steps).pool, runners);
    }
  }

  lemma Partition(s: Pool, runners: set<nat>)
    requires Conserved(s, runners)
    ensures |s.free| + |s.busy| + |s.expired| == |runners|
  {
    assert |s.busy.Keys| == |s.busy|;
    assert s.free + s.busy.Keys + s.expired == runners;
    assert |s.free + s.busy.Keys| == |s.free| + |s.busy.Keys|;
    assert (s.free + s.busy.Keys) !! s.expired;
    assert |s.free + s.busy.Keys + s.expired| == |s.free + s.busy.Keys| + |s.expired|;
  }

  /** The pool of the scheduling loop, changed in place. */
  class RunnerPool {
    var free: set<nat>
    var busy: map<nat, nat>
    var expired: set<nat>
    var budget: nat

    function State(): Pool
      reads this
    {
      Pool(free, busy, expired, budget)
    }

    constructor (runners: set<nat>)
      ensures State() == Pool(runners, map[], {}, 0)
    {
      free, busy, expired, budget := runners, map[], {}, 0;
    }

    /** `limit=runners.qsize()`. */
    method StartPass() returns (limit: nat)
      modifies this
      ensures Next(old(State()), Step.StartPass) == Some(State()) && limit == budget == |free|
    {
      limit := |free|;
      budget := limit;
    }

    /** `runners.get_nowait()` for one yielded run; it cannot find the pool empty. */
    method Take(task: nat, ghost runners: set<nat>) returns (runner: nat)
      requires Conserved(State(), runners) && budget > 0
      modifies this
      ensures runner in old(free) && runner !in free && busy == old(busy)[runner := task] && expired == old(expired)
      ensures Next(old(State()), Dispatch(runner, task)) == Some(State())
      ensures Conserved(State(), runners)
    {
      assert free != {};
      runner :| runner in free;
      DispatchConserves(State(), runners, runner, task);
      free := free - {runner};
      busy := busy[runner := task];
      budget := budget - 1;
    }

    method CleanupTask(runner: nat, returned: bool, ghost runners: set<nat>)
      requires Conserved(State(), runners) && runner in busy
      modifies this
      ensures runner !in busy && if returned then runner in free && runner !in expired else runner in expired
      ensures Next(old(State()), Cleanup(runner, returned)) == Some(State())
      ensures Conserved(State(), runners)
    {
      CleanupConserves(State(), runners, runner);
      busy := busy - {runner};
      if returned {
        free := free + {runner};
      } else {
        expired := expired + {runner};
      }
    }

    method PutBackExpired(ghost runners: set<nat>)
      requires Conserved(State(), runners)
      modifies this
      ensures expired == {} && old(expired) <= free
      ensures Next(old(State()), RestoreExpired) == Some(State())
      ensures Conserved(State(), runners)
    {
      RestoreConserves(State(), runners);
      free, expired := free + expired, {};
    }
  }
}
