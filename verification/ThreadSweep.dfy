/** The thread TTL protocol: sweepers, `Runs.put`, `Runs.next`, `Threads.put` and
    `Threads.delete` interleaved on one event loop.  A step is the code between two
    awaits; nothing else runs in between. */
module ThreadSweep {
  import opened Prelude
  import opened Runs

  /** A stored thread object; `key` is its identity, `id` its thread id. */
  datatype Thread = Thread(key: nat, id: string, updatedAt: int)

  datatype Strategy = Delete | KeepLatest
  datatype Config = Config(strategy: Strategy, ttl: int)

  /** One entry of the persistent TTL sidecar: an optional override and the
      `updated_at` recorded by the last keep-latest sweep. */
  datatype TtlState = TtlState(override: Option<Config>, lastSwept: Option<int>)

  /** A sweeper suspended in an await while it holds the maintenance marker. */
  datatype Sweeper =
    | Deleting(thread: string, key: nat)
    | Pruning(thread: string, updatedAt: int, state: TtlState)

  /** A `Threads.delete` call suspended in its cleanup. */
  datatype Deleter = Deleter(thread: string, key: nat)

  /** What the history of sweeps is told in. */
  datatype Event = Pruned(thread: string, updatedAt: int) | TtlReplaced(thread: string)

  datatype State = State(
    threads: seq<Thread>,
    runs: set<Run>,
    ttl: map<string, TtlState>,
    marked: set<string>,               // _THREAD_TTL_MAINTENANCE
    sweepers: map<nat, Sweeper>,
    deleters: map<nat, Deleter>,
    creators: map<nat, string>,        // Runs.put calls awaiting the "Creating thread" log
    nextKey: nat,
    log: seq<Event>)

  datatype Step =
    | SweepClaim(sweeper: nat, thread: string, now: int)
    | SweepFinish(sweeper: nat)
    | SweepFail(sweeper: nat)                        // external cleanup raised
    | PutRun(run: Run, updatedAt: Option<int>)
    | PutRunFreshThread(run: Run, now: int)
    | PutRunCreate(call: nat, thread: string)
    | PutRunCreated(call: nat, run: Run, now: int)
    | NextRun(stored: Run)
    | SetStatus(stored: Run, status: Status)         // any status on any stored run
    | DropRun(stored: Run)
    | DeleteStart(call: nat, thread: string)
    | DeleteFinish(call: nat)
    | PutThread(thread: string, now: int, ttl: Option<Option<Config>>)
    | SetTtl(thread: string, config: Option<Config>)  // None: the given TTL holds no minutes
    | Touch(thread: string, at: int)

  // ------------------------------------------------------------- helpers

  predicate HasActive(s: State, t: string) {
    exists r :: r in s.runs && r.thread == t && Active(r)
  }

  /** The first stored thread with the id, as `next(...)` finds it. */
  function Find(threads: seq<Thread>, t: string): (r: Option<Thread>)
    ensures r.Some? ==> r.value in threads && r.value.id == t
    ensures r.None? ==> forall th :: th in threads ==> th.id != t
  {
    if threads == [] then None
    else if threads[0].id == t then Some(threads[0])
    else Find(threads[1..], t)
  }

  predicate Exists(s: State, t: string) {
    Find(s.threads, t).Some?
  }

  function Entry(s: State, t: string): TtlState {
    if t in s.ttl then s.ttl[t] else TtlState(None, None)
  }

  /** `_effective_thread_ttl`: the override, else the server's default. */
  function Effective(global: Option<Config>, e: TtlState): Option<Config> {
    if e.override.Some? then e.override else global
  }

  /** The checks a sweeper makes between claiming a thread and its first await. */
  predicate Eligible(global: Option<Config>, s: State, t: string, now: int) {
    && Exists(s, t)
    && !HasActive(s, t)
    && var e := Entry(s, t);
       var config := Effective(global, e);
       && config.Some?
       && var u := Find(s.threads, t).value.updatedAt;
          && !(config.value.strategy.KeepLatest? && e.lastSwept.Some? && e.lastSwept.value >= u)
          && u + config.value.ttl <= now
  }

  function WithoutKey(threads: seq<Thread>, key: nat): (r: seq<Thread>)
    ensures forall th :: th in r <==> th in threads && th.key != key
  {
    if threads == [] then []
    else if threads[0].key == key then WithoutKey(threads[1..], key)
    else [threads[0]] + WithoutKey(threads[1..], key)
  }

  /** The mutation that ends `Threads.delete`: runs by thread id, the thread by
      identity, the TTL entry by id. */
  function Removed(s: State, t: string, key: nat): State {
    s.(threads := WithoutKey(s.threads, key),
       runs := (set r | r in s.runs && r.thread != t),
       ttl := s.ttl - {t},
       log := s.log + [TtlReplaced(t)])
  }

  /** `_set_thread_ttl_override`: a new entry, or none. */
  function SetOverride(s: State, t: string, o: Option<Config>): State {
    s.(ttl := (if o.None? then s.ttl - {t} else s.ttl[t := TtlState(o, None)]), log := s.log + [TtlReplaced(t)])
  }

  function AddThread(s: State, t: string, now: int): State {
    s.(threads := s.threads + [Thread(s.nextKey, t, now)], nextKey := s.nextKey + 1)
  }

  function AddRun(s: State, run: Run): State {
    s.(runs := s.runs + {run})
  }

  /** The first thread with the id gets a new `updated_at`, in place. */
  function SetUpdated(threads: seq<Thread>, t: string, u: int): (r: seq<Thread>)
    ensures |r| == |threads|
    ensures forall i :: 0 <= i < |r| ==> r[i].key == threads[i].key && r[i].id == threads[i].id
  {
    if threads == [] then []
    else if threads[0].id == t then [threads[0].(updatedAt := u)] + threads[1..]
    else [threads[0]] + SetUpdated(threads[1..], t, u)
  }

  /** An id no record mentions: what `uuid4()` yields. */
  predicate FreshId(s: State, t: string) {
    && !Exists(s, t) && t !in s.marked
    && (forall c :: c in s.creators ==> s.creators[c] != t)
    && (forall r :: r in s.runs ==> r.thread != t)
    && (forall d :: d in s.deleters ==> s.deleters[d].thread != t)
  }

  // --------------------------------------------------------------- steps

  predicate Enabled(global: Option<Config>, s: State, step: Step) {
    match step
    case SweepClaim(p, t, now) => p !in s.sweepers && t !in s.marked && Eligible(global, s, t, now)
    case SweepFinish(p) => p in s.sweepers
    case SweepFail(p) => p in s.sweepers
    case PutRun(r, _) => r.thread !in s.marked && Exists(s, r.thread)
    case PutRunFreshThread(r, _) => FreshId(s, r.thread)
    case PutRunCreate(c, t) => c !in s.creators && t !in s.marked && !Exists(s, t)
    case PutRunCreated(c, r, _) => c in s.creators && r.thread == s.creators[c]
    case NextRun(r) =>
      r in s.runs && r.status.Pending? && Exists(s, r.thread)
      && !(exists q :: q in s.runs && q.thread == r.thread && q.status.Running?)
    case SetStatus(r, _) => r in s.runs
    case DropRun(r) => r in s.runs
    case DeleteStart(d, t) => d !in s.deleters && Exists(s, t)
    case DeleteFinish(d) => d in s.deleters
    case PutThread(t, _, _) => t !in s.marked && !Exists(s, t)
    case SetTtl(t, _) => t !in s.marked && Exists(s, t)
    case Touch(t, _) => Exists(s, t)
  }

  function Apply(global: Option<Config>, s: State, step: Step): State
    requires Enabled(global, s, step)
  {
    match step
    case SweepClaim(p, t, now) =>
      var th, e := Find(s.threads, t).value, Entry(s, t);
      var phase := if Effective(global, e).value.strategy.Delete?
                   then Deleting(t, th.key) else Pruning(t, th.updatedAt, e);
      s.(marked := s.marked + {t}, sweepers := s.sweepers[p := phase])
    case SweepFinish(p) =>
      var released := s.(marked := s.marked - {s.sweepers[p].thread}, sweepers := s.sweepers - {p});
      (match s.sweepers[p]
       case Deleting(t, key) => Removed(released, t, key)
       case Pruning(t, u, e) =>
         released.(ttl := s.ttl[t := e.(lastSwept := Some(u))], log := s.log + [Pruned(t, u)]))
    case SweepFail(p) =>
      s.(marked := s.marked - {s.sweepers[p].thread}, sweepers := s.sweepers - {p})
    case PutRun(r, u) =>
      AddRun(if u.Some? then s.(threads := SetUpdated(s.threads, r.thread, u.value)) else s, r)
    case PutRunFreshThread(r, now) => AddRun(AddThread(s, r.thread, now), r)
    case PutRunCreate(c, t) => s.(creators := s.creators[c := t])
    case PutRunCreated(c, r, now) =>
      AddRun(AddThread(s.(creators := s.creators - {c}), r.thread, now), r)
    case NextRun(r) => s.(runs := s.runs - {r} + {r.(status := Running)})
    case SetStatus(r, status) => s.(runs := s.runs - {r} + {r.(status := status)})
    case DropRun(r) => s.(runs := s.runs - {r})
    case DeleteStart(d, t) => s.(deleters := s.deleters[d := Deleter(t, Find(s.threads, t).value.key)])
    case DeleteFinish(d) =>
      Removed(s.(deleters := s.deleters - {d}), s.deleters[d].thread, s.deleters[d].key)
    case PutThread(t, now, o) =>
      if o.None? then AddThread(s, t, now) else SetOverride(AddThread(s, t, now), t, o.value)
    case SetTtl(t, o) => SetOverride(s, t, o)
    case Touch(t, u) => s.(threads := SetUpdated(s.threads, t, u))
  }

  const INIT := State([], {}, map[], {}, map[], map[], map[], 0, [])

  /** The state the steps lead to from the empty server, if each was possible. */
  ghost function After(global: Option<Config>, steps: seq<Step>): Option<State> {
    if steps == [] then Some(INIT)
    else
      var p, last := After(global, steps[..|steps| - 1]), steps[|steps| - 1];
      if p.Some? && Enabled(global, p.value, last) then Some(Apply(global, p.value, last)) else None
  }

  ghost predicate LeadsTo(global: Option<Config>, p: State, step: Step, s: State) {
    Enabled(global, p, step) && s == Apply(global, p, step)
  }

  // ------------------------------------------------------------ invariants

  /** The marker set is exactly the threads held by sweepers, each by one. */
  ghost predicate OneClaimant(s: State) {
    && (forall p :: p in s.sweepers ==> s.sweepers[p].thread in s.marked)
    && (forall t :: t in s.marked ==> exists p :: p in s.sweepers && s.sweepers[p].thread == t)
    && (forall p, q :: p in s.sweepers && q in s.sweepers && s.sweepers[p].thread == s.sweepers[q].thread ==> p == q)
  }

  ghost predicate RunsHaveThreads(s: State) {
    forall r :: r in s.runs ==> HasThread(s.threads, r.thread)
  }

  ghost predicate HasThread(threads: seq<Thread>, t: string) {
    exists th :: th in threads && th.id == t
  }

  /** Object identities: fresh ones are unused, and a suspended deletion's object
      still has the id it was found by. */
  ghost predicate KeysSound(s: State) {
    && (forall th :: th in s.threads ==> th.key < s.nextKey)
    && (forall p :: p in s.sweepers && s.sweepers[p].Deleting? ==> KeyNames(s, s.sweepers[p].key, s.sweepers[p].thread))
    && (forall d :: d in s.deleters ==> KeyNames(s, s.deleters[d].key, s.deleters[d].thread))
    && (forall x, y :: x in s.threads && y in s.threads && x.key == y.key ==> x.id == y.id)
  }

  ghost predicate KeyNames(s: State, key: nat, t: string) {
    key < s.nextKey && forall th :: th in s.threads && th.key == key ==> th.id == t
  }

  ghost predicate Inv(s: State) {
    OneClaimant(s) && KeysSound(s) && RunsHaveThreads(s)
  }

  lemma HasThreadFound(s: State, t: string)
    ensures Exists(s, t) <==> HasThread(s.threads, t)
  {
  }

  /** `th` is an object of `threads`, up to its `updated_at`. */
  ghost predicate Carried(threads: seq<Thread>, th: Thread) {
    exists o :: o in threads && o.key == th.key && o.id == th.id
  }

  lemma SetUpdatedCarries(threads: seq<Thread>, t: string, u: int, th: Thread)
    ensures th in SetUpdated(threads, t, u) ==> Carried(threads, th)
    ensures th in threads ==> Carried(SetUpdated(threads, t, u), th)
  {
    var r := SetUpdated(threads, t, u);
    if th in r {
      var i :| 0 <= i < |r| && r[i] == th;
      assert threads[i] in threads;
    }
    if th in threads {
      var i :| 0 <= i < |threads| && threads[i] == th;
      assert r[i] in r;
    }
  }

  /** Identities stay sound if every thread is carried over, but for at most one
      new object, and newly suspended deletions name their object truly. */
  lemma KeysCarried(s: State, s': State, extra: Thread)
    requires KeysSound(s) && s.nextKey <= s'.nextKey
    requires forall th :: th in s'.threads ==>
               Carried(s.threads, th) || (th == extra && s.nextKey <= extra.key < s'.nextKey)
    requires forall p :: p in s'.sweepers && s'.sweepers[p].Deleting? ==>
               (p in s.sweepers && s'.sweepers[p] == s.sweepers[p])
               || KeyNames(s, s'.sweepers[p].key, s'.sweepers[p].thread)
    requires forall d :: d in s'.deleters ==>
               (d in s.deleters && s'.deleters[d] == s.deleters[d])
               || KeyNames(s, s'.deleters[d].key, s'.deleters[d].thread)
    ensures KeysSound(s')
  {
    forall p | p in s'.sweepers && s'.sweepers[p].Deleting?
      ensures KeyNames(s', s'.sweepers[p].key, s'.sweepers[p].thread)
    {
      assert KeyNames(s, s'.sweepers[p].key, s'.sweepers[p].thread);
    }
    forall d | d in s'.deleters ensures KeyNames(s', s'.deleters[d].key, s'.deleters[d].thread) {
      assert KeyNames(s, s'.deleters[d].key, s'.deleters[d].thread);
    }
  }

  /** Threads are carried over by every step; a creating step adds one object. */
  lemma ThreadsCarried(global: Option<Config>, s: State, step: Step, s': State) returns (extra: Thread)
    requires LeadsTo(global, s, step, s')
    ensures s.nextKey <= s'.nextKey
    ensures forall th :: th in s'.threads ==>
               Carried(s.threads, th) || (th == extra && s.nextKey <= extra.key < s'.nextKey)
  {
    hide Eligible, HasActive, Carried;
    extra := Thread(s.nextKey, "", 0);
    forall th ensures th in s.threads ==> Carried(s.threads, th) { CarriedItself(s.threads, th); }
    match step
    case PutRun(r, u) =>
      if u.Some? {
        forall th ensures th in s'.threads ==> Carried(s.threads, th) {
          SetUpdatedCarries(s.threads, r.thread, u.value, th);
        }
      }
    case Touch(t, u) =>
      forall th ensures th in s'.threads ==> Carried(s.threads, th) { SetUpdatedCarries(s.threads, t, u, th); }
    case PutRunFreshThread(r, now) => extra := Thread(s.nextKey, r.thread, now);
    case PutRunCreated(_, r, now) => extra := Thread(s.nextKey, r.thread, now);
    case PutThread(t, now, _) => extra := Thread(s.nextKey, t, now);
    case _ =>
  }

  lemma CarriedItself(threads: seq<Thread>, th: Thread)
    ensures th in threads ==> Carried(threads, th)
  {
  }

  lemma FoundKeyNames(s: State, t: string)
    requires KeysSound(s) && Exists(s, t)
    ensures KeyNames(s, Find(s.threads, t).value.key, t)
  {
  }

  /** A deletion suspended by this step names its object truly. */
  lemma HoldersCarried(global: Option<Config>, s: State, step: Step, s': State)
    requires KeysSound(s) && LeadsTo(global, s, step, s')
    ensures forall p :: p in s'.sweepers && s'.sweepers[p].Deleting? ==>
              (p in s.sweepers && s'.sweepers[p] == s.sweepers[p])
               || KeyNames(s, s'.sweepers[p].key, s'.sweepers[p].thread)
    ensures forall d :: d in s'.deleters ==>
              (d in s.deleters && s'.deleters[d] == s.deleters[d])
               || KeyNames(s, s'.deleters[d].key, s'.deleters[d].thread)
  {
    hide KeysSound, KeyNames, HasActive, FreshId, WithoutKey, SetUpdated;
    if step.SweepClaim? || step.DeleteStart? { FoundKeyNames(s, step.thread); }
  }

  /** Object identities stay sound. */
  lemma KeysSoundStep(global: Option<Config>, s: State, step: Step, s': State)
    requires KeysSound(s) && LeadsTo(global, s, step, s')
    ensures KeysSound(s')
  {
    hide Enabled, Apply, KeysSound;
    HoldersCarried(global, s, step, s');
    var extra := ThreadsCarried(global, s, step, s');
    KeysCarried(s, s', extra);
  }

  lemma ClaimantsAfterClaim(s: State, s': State, p: nat, w: Sweeper)
    requires OneClaimant(s) && p !in s.sweepers && w.thread !in s.marked
    requires s'.marked == s.marked + {w.thread} && s'.sweepers == s.sweepers[p := w]
    ensures OneClaimant(s')
  {
    forall t | t in s'.marked ensures exists q :: q in s'.sweepers && s'.sweepers[q].thread == t {
      if t == w.thread {
        assert s'.sweepers[p].thread == t;
      } else {
        var q :| q in s.sweepers && s.sweepers[q].thread == t;
        assert s'.sweepers[q].thread == t;
      }
    }
  }

  lemma ClaimantsAfterRelease(s: State, s': State, p: nat)
    requires OneClaimant(s) && p in s.sweepers
    requires s'.marked == s.marked - {s.sweepers[p].thread} && s'.sweepers == s.sweepers - {p}
    ensures OneClaimant(s')
  {
    forall t | t in s'.marked ensures exists q :: q in s'.sweepers && s'.sweepers[q].thread == t {
      var q :| q in s.sweepers && s.sweepers[q].thread == t;
      assert s'.sweepers[q].thread == t;
    }
  }

  lemma OneClaimantStep(global: Option<Config>, s: State, step: Step, s': State)
    requires OneClaimant(s) && LeadsTo(global, s, step, s')
    ensures OneClaimant(s')
  {
    hide OneClaimant, Eligible;
    match step
    case SweepClaim(p, _, _) => ClaimantsAfterClaim(s, s', p, s'.sweepers[p]);
    case SweepFinish(p) => ClaimantsAfterRelease(s, s', p);
    case SweepFail(p) => ClaimantsAfterRelease(s, s', p);
    case _ => SameClaimants(s, s');
  }

  lemma SameClaimants(s: State, s': State)
    requires OneClaimant(s) && s'.marked == s.marked && s'.sweepers == s.sweepers
    ensures OneClaimant(s')
  {
  }

  /** Deletion never strands a run: it removes every run of the id. */
  lemma RemovedKeepsThreads(s: State, t: string, key: nat)
    requires RunsHaveThreads(s)
    requires forall th :: th in s.threads && th.key == key ==> th.id == t
    ensures RunsHaveThreads(Removed(s, t, key))
  {
    var s' := Removed(s, t, key);
    forall r | r in s'.runs ensures HasThread(s'.threads, r.thread) {
      var th :| th in s.threads && th.id == r.thread;
      assert th in s'.threads;
    }
  }

  lemma SetUpdatedKeepsThreads(threads: seq<Thread>, t: string, u: int, id: string)
    requires HasThread(threads, id)
    ensures HasThread(SetUpdated(threads, t, u), id)
  {
    var o :| o in threads && o.id == id;
    SetUpdatedCarries(threads, t, u, o);
  }

  lemma RunsHaveThreadsAfterDelete(global: Option<Config>, s: State, step: Step, s': State)
    requires RunsHaveThreads(s) && KeysSound(s) && LeadsTo(global, s, step, s')
    requires step.SweepFinish? || step.DeleteFinish?
    ensures RunsHaveThreads(s')
  {
    hide HasThread;
    match step
    case SweepFinish(p) =>
      if s.sweepers[p].Deleting? {
        RemovedKeepsThreads(s.(marked := s'.marked, sweepers := s'.sweepers), s.sweepers[p].thread, s.sweepers[p].key);
      }
    case DeleteFinish(d) =>
      RemovedKeepsThreads(s.(deleters := s'.deleters), s.deleters[d].thread, s.deleters[d].key);
  }

  lemma RunsHaveThreadsAfterUpdate(global: Option<Config>, s: State, step: Step, s': State)
    requires RunsHaveThreads(s) && LeadsTo(global, s, step, s')
    requires step.PutRun? || step.Touch?
    ensures RunsHaveThreads(s')
  {
    HasThreadFound(s, if step.PutRun? then step.run.thread else step.thread);
    hide HasThread, Exists;
    match step
    case PutRun(added, u) =>
      if u.Some? {
        forall r | r in s'.runs ensures HasThread(s'.threads, r.thread) {
          SetUpdatedKeepsThreads(s.threads, added.thread, u.value, r.thread);
        }
      }
    case Touch(t, u) =>
      forall r | r in s'.runs ensures HasThread(s'.threads, r.thread) {
        SetUpdatedKeepsThreads(s.threads, t, u, r.thread);
      }
  }

  lemma RunsHaveThreadsStep(global: Option<Config>, s: State, step: Step, s': State)
    requires RunsHaveThreads(s) && KeysSound(s) && LeadsTo(global, s, step, s')
    ensures RunsHaveThreads(s')
  {
    hide Eligible, HasThread, Exists, HasActive, KeysSound, FreshId, WithoutKey, SetUpdated, Find;
    match step
    case SweepFinish(p) => RunsHaveThreadsAfterDelete(global, s, step, s');
    case DeleteFinish(d) => RunsHaveThreadsAfterDelete(global, s, step, s');
    case PutRun(_, _) => RunsHaveThreadsAfterUpdate(global, s, step, s');
    case Touch(t, u) => RunsHaveThreadsAfterUpdate(global, s, step, s');
    case PutRunFreshThread(r, _) => AddedThread(s, s', r.thread);
    case PutRunCreated(_, r, _) => AddedThread(s, s', r.thread);
    case PutThread(t, _, _) => AddedThread(s, s', t);
    case _ =>
  }

  lemma AddedThread(s: State, s': State, t: string)
    requires RunsHaveThreads(s) && |s'.threads| == |s.threads| + 1 && s'.threads[..|s.threads|] == s.threads
    requires s'.threads[|s.threads|].id == t
    requires forall r :: r in s'.runs ==> r in s.runs || r.thread == t
    ensures RunsHaveThreads(s')
  {
    forall r | r in s'.runs ensures HasThread(s'.threads, r.thread) {
      if r in s.runs {
        var th :| th in s.threads && th.id == r.thread;
        assert th in s'.threads;
      } else {
        assert s'.threads[|s.threads|] in s'.threads;
      }
    }
  }

  /** A marked thread has no pending or running run. */
  ghost predicate QuietAt(s: State, t: string) {
    t in s.marked ==> !HasActive(s, t)
  }

  /** The steps that put an active run into a marked thread: the completion of a
      creation that passed the gate before the thread was claimed, and a status
      setter that makes a stored run active. */
  predicate Intrudes(s: State, step: Step, t: string) {
    && t in s.marked
    && match step
       case PutRunCreated(_, r, _) => r.thread == t && Active(r)
       case SetStatus(r, status) => r.thread == t && !status.Finished?
       case _ => false
  }

  /** A step that starts from a quiet thread leaves it quiet, unless it is one of
      the two that intrude. */
  lemma QuietStep(global: Option<Config>, s: State, step: Step, s': State, t: string)
    requires QuietAt(s, t) && LeadsTo(global, s, step, s')
    ensures QuietAt(s', t) <==> !Intrudes(s, step, t)
  {
    match step
    case SweepClaim(p, u, now) =>
      assert u == t ==> !HasActive(s, t);
    case PutRunCreated(_, r, _) =>
      assert r in s'.runs;
    case SetStatus(r, status) =>
      assert r.(status := status) in s'.runs;
    case _ =>
  }

  // ------------------------------------------------------- whole-run results

  /** In every interleaving, with `Threads.delete` and explicit creation included:
      one claimant per marked thread, and every run has its thread. */
  lemma {:induction false} ProtocolInvariant(global: Option<Config>, steps: seq<Step>)
    requires After(global, steps).Some?
    ensures Inv(After(global, steps).value)
    decreases |steps|
  {
    hide Enabled, Apply, OneClaimant, KeysSound;
    if steps == [] {
      InitInv();
    } else {
      var last := steps[|steps| - 1];
      ProtocolInvariant(global, steps[..|steps| - 1]);
      var p, s := After(global, steps[..|steps| - 1]).value, After(global, steps).value;
      KeysSoundStep(global, p, last, s);
      OneClaimantStep(global, p, last, s);
      RunsHaveThreadsStep(global, p, last, s);
    }
  }

  lemma InitInv()
    ensures Inv(INIT)
  {
  }

  lemma {:induction false} PrefixReached(global: Option<Config>, steps: seq<Step>, n: nat)
    requires After(global, steps).Some? && n <= |steps|
    ensures After(global, steps[..n]).Some?
    decreases |steps|
  {
    if n < |steps| {
      assert steps[..|steps| - 1][..n] == steps[..n];
      PrefixReached(global, steps[..|steps| - 1], n);
    } else {
      assert steps[..n] == steps;
    }
  }

  /** The state before step `n`. */
  ghost function Before(global: Option<Config>, steps: seq<Step>, n: nat): State
    requires After(global, steps).Some? && n <= |steps|
  {
    PrefixReached(global, steps, n);
    After(global, steps[..n]).value
  }

  lemma BeforeLeads(global: Option<Config>, steps: seq<Step>, n: nat)
    requires After(global, steps).Some? && n < |steps|
    ensures LeadsTo(global, Before(global, steps, n), steps[n], Before(global, steps, n + 1))
  {
    hide Enabled, Apply;
    PrefixReached(global, steps, n);
    PrefixReached(global, steps, n + 1);
    assert steps[..n + 1][..n] == steps[..n];
  }

  ghost predicate QuietBetween(global: Option<Config>, steps: seq<Step>, start: nat, end: nat, t: string)
    requires After(global, steps).Some? && end <= |steps|
  {
    forall n: nat :: start <= n <= end ==> QuietAt(Before(global, steps, n), t)
  }

  /** No step from `start` on, before `end`, intrudes into `t`. */
  ghost predicate Undisturbed(global: Option<Config>, steps: seq<Step>, start: nat, end: nat, t: string)
    requires After(global, steps).Some? && end <= |steps|
  {
    forall n: nat :: start <= n < end ==> !Intrudes(Before(global, steps, n), steps[n], t)
  }

  /** From any moment at which a thread is quiet, it stays quiet up to a later one
      exactly if nothing intrudes into it meanwhile. */
  lemma {:induction false} QuietFrom(global: Option<Config>, steps: seq<Step>, start: nat, end: nat, t: string)
    requires After(global, steps).Some? && start <= end <= |steps|
    requires QuietAt(Before(global, steps, start), t)
    ensures QuietBetween(global, steps, start, end, t) <==> Undisturbed(global, steps, start, end, t)
    decreases end
  {
    hide Before, QuietAt, Intrudes;
    if start < end {
      QuietFrom(global, steps, start, end - 1, t);
      if QuietBetween(global, steps, start, end - 1, t) {
        BeforeLeads(global, steps, end - 1);
        QuietStep(global, Before(global, steps, end - 1), steps[end - 1], Before(global, steps, end), t);
      } else {
        var n: nat :| start <= n <= end - 1 && !QuietAt(Before(global, steps, n), t);
        assert !QuietBetween(global, steps, start, end, t);
        var m: nat :| start <= m < end - 1 && Intrudes(Before(global, steps, m), steps[m], t);
        assert !Undisturbed(global, steps, start, end, t);
      }
    }
  }

  /** Main result: for every run of the server and every thread, the thread has no
      pending or running run whenever it is marked, exactly if no step of the run
      inserts or revives an active run of it while it is marked.  What happens to
      other threads does not matter. */
  lemma QuietExactlyUndisturbed(global: Option<Config>, steps: seq<Step>, t: string)
    requires After(global, steps).Some?
    ensures QuietBetween(global, steps, 0, |steps|, t) <==> Undisturbed(global, steps, 0, |steps|, t)
  {
    assert steps[..0] == [];
    QuietFrom(global, steps, 0, |steps|, t);
  }

  /** A claim finds its thread quiet, whatever happened before. */
  lemma ClaimIsQuiet(global: Option<Config>, steps: seq<Step>, n: nat)
    requires After(global, steps).Some? && n < |steps| && steps[n].SweepClaim?
    ensures QuietAt(Before(global, steps, n + 1), steps[n].thread)
  {
    BeforeLeads(global, steps, n);
    hide Before;
    assert !HasActive(Before(global, steps, n), steps[n].thread);
  }

  /** Two clients create the same thread; the first one's run ends, the idle thread
      expires and is claimed; then the second client resumes. */
  const RACE := [
    PutRunCreate(0, "t"), PutRunCreate(1, "t"), PutRunCreated(0, FIRST, 0),
    SetStatus(FIRST, Finished), SweepClaim(0, "t", 0), PutRunCreated(1, SECOND, 0)]

  const FIRST := Run(0, "t", Pending, 0)
  const SECOND := Run(1, "t", Pending, 0)
  const ENDED := Run(0, "t", Finished, 0)

  const RACE_CONFIG := Some(Config(Delete, 0))
  const RACE_0 := INIT.(creators := map[0 := "t", 1 := "t"])
  const RACE_1 := State([Thread(0, "t", 0)], {FIRST}, map[], {}, map[], map[], map[1 := "t"], 1, [])
  const RACE_2 := RACE_1.(runs := {ENDED}, marked := {"t"}, sweepers := map[0 := Deleting("t", 0)])

  lemma AfterOneMore(global: Option<Config>, steps: seq<Step>, s: State, step: Step, s': State)
    requires After(global, steps) == Some(s) && LeadsTo(global, s, step, s')
    ensures After(global, steps + [step]) == Some(s')
  {
    assert (steps + [step])[..|steps|] == steps;
  }

  lemma RaceStart()
    ensures After(RACE_CONFIG, RACE[..3]) == Some(RACE_1)
  {
    var s := INIT.(creators := map[0 := "t"]);
    AfterOneMore(RACE_CONFIG, [], INIT, RACE[0], s);
    AfterOneMore(RACE_CONFIG, [RACE[0]], s, RACE[1], RACE_0);
    assert RACE_0.creators - {0} == map[1 := "t"];
    AfterOneMore(RACE_CONFIG, [RACE[0]] + [RACE[1]], RACE_0, RACE[2], RACE_1);
    assert RACE[..3] == [RACE[0]] + [RACE[1]] + [RACE[2]];
    assert [] + [RACE[0]] == [RACE[0]];
  }

  lemma RaceClaim()
    ensures After(RACE_CONFIG, RACE[..5]) == Some(RACE_2)
  {
    RaceStart();
    var s := RACE_1.(runs := {ENDED});
    assert RACE_1.runs - {FIRST} + {ENDED} == s.runs;
    AfterOneMore(RACE_CONFIG, RACE[..3], RACE_1, RACE[3], s);
    assert Find(s.threads, "t") == Some(Thread(0, "t", 0));
    assert !HasActive(s, "t");
    AfterOneMore(RACE_CONFIG, RACE[..3] + [RACE[3]], s, RACE[4], RACE_2);
    assert RACE[..5] == RACE[..3] + [RACE[3]] + [RACE[4]];
  }

  /** The first intrusion: between the gate and the insertion, creating a thread by
      id awaits a log call, and a sweeper can claim the thread meanwhile. */
  lemma CreateRace()
    ensures After(RACE_CONFIG, RACE).Some? && !QuietAt(After(RACE_CONFIG, RACE).value, "t")
  {
    RaceClaim();
    var s := Apply(RACE_CONFIG, RACE_2, RACE[5]);
    AfterOneMore(RACE_CONFIG, RACE[..5], RACE_2, RACE[5], s);
    assert RACE == RACE[..5] + [RACE[5]];
    assert SECOND in s.runs;
  }

  /** The second: a run is cancelled, its idle thread is claimed, and then the run
      is set back to pending.  No thread is created by id. */
  const REVIVAL := [
    PutRunFreshThread(FIRST, 0), SetStatus(FIRST, Finished), SweepClaim(0, "t", 0), SetStatus(ENDED, Pending)]

  lemma RevivalClaim()
    ensures After(RACE_CONFIG, REVIVAL[..3]) == Some(RACE_2.(creators := map[]))
  {
    var s0 := RACE_1.(creators := map[]);
    assert AddRun(AddThread(INIT, "t", 0), FIRST) == s0;
    AfterOneMore(RACE_CONFIG, [], INIT, REVIVAL[0], s0);
    var s1 := s0.(runs := {ENDED});
    assert s0.runs - {FIRST} + {ENDED} == s1.runs;
    AfterOneMore(RACE_CONFIG, [] + [REVIVAL[0]], s0, REVIVAL[1], s1);
    assert Find(s1.threads, "t") == Some(Thread(0, "t", 0));
    assert !HasActive(s1, "t");
    AfterOneMore(RACE_CONFIG, [] + [REVIVAL[0]] + [REVIVAL[1]], s1, REVIVAL[2], RACE_2.(creators := map[]));
    assert REVIVAL[..3] == [] + [REVIVAL[0]] + [REVIVAL[1]] + [REVIVAL[2]];
  }

  lemma StatusRace()
    ensures After(RACE_CONFIG, REVIVAL).Some? && !QuietAt(After(RACE_CONFIG, REVIVAL).value, "t")
  {
    RevivalClaim();
    var s := Apply(RACE_CONFIG, RACE_2.(creators := map[]), REVIVAL[3]);
    AfterOneMore(RACE_CONFIG, REVIVAL[..3], RACE_2.(creators := map[]), REVIVAL[3], s);
    assert REVIVAL == REVIVAL[..3] + [REVIVAL[3]];
    assert FIRST in s.runs;
  }

  /** A sweep that ends by deleting its thread deletes no pending or running run
      exactly if the thread is quiet then; a sweep that pruned deletes no run. */
  lemma SweepSparesExactly(global: Option<Config>, s: State, p: nat)
    requires OneClaimant(s) && p in s.sweepers
    ensures (forall r :: r in s.runs && Active(r) ==> r in Apply(global, s, SweepFinish(p)).runs)
            <==> (s.sweepers[p].Deleting? ==> QuietAt(s, s.sweepers[p].thread))
  {
    hide WithoutKey;
    if s.sweepers[p].Deleting? && !QuietAt(s, s.sweepers[p].thread) {
      var r :| r in s.runs && r.thread == s.sweepers[p].thread && Active(r);
      assert r !in Apply(global, s, SweepFinish(p)).runs;
    }
  }

  /** Hence, over every run of the server, a sweep deletes no active run if nothing
      intruded into its thread since some claim of it, other threads aside. */
  lemma SweepDeletesNoActiveRun(global: Option<Config>, steps: seq<Step>, claim: nat, p: nat, r: Run)
    requires After(global, steps).Some? && claim < |steps| && steps[claim].SweepClaim?
    requires Undisturbed(global, steps, claim + 1, |steps|, steps[claim].thread)
    requires p in After(global, steps).value.sweepers
             && After(global, steps).value.sweepers[p].thread == steps[claim].thread
    requires r in After(global, steps).value.runs && Active(r)
    ensures r in Apply(global, After(global, steps).value, SweepFinish(p)).runs
  {
    hide Enabled, Apply;
    assert steps[..|steps|] == steps;
    ProtocolInvariant(global, steps);
    ClaimIsQuiet(global, steps, claim);
    QuietFrom(global, steps, claim + 1, |steps|, steps[claim].thread);
    assert Before(global, steps, |steps|) == After(global, steps).value;
    SweepSparesExactly(global, After(global, steps).value, p);
  }

  // ------------------------------------------------- what is claimed, what goes

  /** The configuration in force for `t`: its own entry's override, or else the
      server's default. */
  ghost predicate InForce(global: Option<Config>, ttl: map<string, TtlState>, t: string, c: Config) {
    if t in ttl && ttl[t].override.Some? then ttl[t].override.value == c else global.Some? && global.value == c
  }

  /** `i` is the position of the first thread object with the id. */
  ghost predicate FirstAt(threads: seq<Thread>, t: string, i: nat) {
    i < |threads| && threads[i].id == t && forall j :: 0 <= j < i ==> threads[j].id != t
  }

  lemma {:induction false} FoundFirst(threads: seq<Thread>, t: string) returns (i: nat)
    requires Find(threads, t).Some?
    ensures FirstAt(threads, t, i) && Find(threads, t).value == threads[i]
  {
    if threads[0].id == t {
      i := 0;
    } else {
      i := FoundFirst(threads[1..], t);
      i := i + 1;
    }
  }

  /** Over every run: a thread is claimed only when its first object has expired under
      the configuration in force, which also decides whether it will be deleted, by
      that object's identity, or pruned. */
  lemma ClaimHasExpired(global: Option<Config>, steps: seq<Step>, n: nat) returns (i: nat, c: Config)
    requires After(global, steps).Some? && n < |steps| && steps[n].SweepClaim?
    ensures var s := Before(global, steps, n); var t := steps[n].thread;
            && FirstAt(s.threads, t, i) && InForce(global, s.ttl, t, c)
            && s.threads[i].updatedAt + c.ttl <= steps[n].now
            && (forall r :: r in s.runs && r.thread == t ==> r.status == Finished)
            && var held := Lookup(Before(global, steps, n + 1).sweepers, steps[n].sweeper);
               && held.Some? && held.value.thread == t
               && (held.value.Deleting? <==> c.strategy == Delete)
               && (held.value.Deleting? ==> held.value.key == s.threads[i].key)
               && (held.value.Pruning? ==> held.value.updatedAt == s.threads[i].updatedAt)
  {
    BeforeLeads(global, steps, n);
    var s, s', t := Before(global, steps, n), Before(global, steps, n + 1), steps[n].thread;
    hide Before;
    i := FoundFirst(s.threads, t);
    c := Effective(global, Entry(s, t)).value;
  }

  /** The deletion a step completes, if it does. */
  function CompletedBy(s: State, step: Step): Option<Deleter> {
    match step
    case SweepFinish(p) =>
      if p in s.sweepers && s.sweepers[p].Deleting? then Some(Deleter(s.sweepers[p].thread, s.sweepers[p].key))
      else None
    case DeleteFinish(d) => if d in s.deleters then Some(s.deleters[d]) else None
    case _ => None
  }

  /** Over every run: a completed deletion leaves no run of the thread, no TTL entry
      and no object with the identity it was started for; everything else of the
      three collections stays. */
  lemma DeletionIsComplete(global: Option<Config>, steps: seq<Step>, n: nat)
    requires After(global, steps).Some? && n < |steps| && CompletedBy(Before(global, steps, n), steps[n]).Some?
    ensures var s, s' := Before(global, steps, n), Before(global, steps, n + 1);
            var d := CompletedBy(s, steps[n]).value;
            && (forall r :: r in s'.runs <==> r in s.runs && r.thread != d.thread)
            && (forall t :: Lookup(s'.ttl, t) == if t == d.thread then None else Lookup(s.ttl, t))
            && (forall th :: th in s'.threads <==> th in s.threads && th.key != d.key)
  {
    BeforeLeads(global, steps, n);
    hide Before;
  }

  /** A replaced TTL entry forgets earlier sweeps: an idle thread is then eligible
      exactly if it has expired under the new configuration in force. */
  lemma ReplacementForgetsSweeps(global: Option<Config>, s: State, t: string, o: Option<Config>, now: int, i: nat)
    requires FirstAt(s.threads, t, i) && Enabled(global, s, SetTtl(t, o))
    requires forall r :: r in s.runs && r.thread == t ==> !Active(r)
    ensures var s' := Apply(global, s, SetTtl(t, o));
            Eligible(global, s', t, now) <==>
            exists c :: (if o.Some? then o.value == c else global == Some(c)) && s.threads[i].updatedAt + c.ttl <= now
  {
    var s' := Apply(global, s, SetTtl(t, o));
    var j := FoundFirst(s.threads, t);
    assert i == j && s'.threads == s.threads && s'.runs == s.runs;
    assert !HasActive(s', t);
    var config := if o.Some? then o else global;
    assert Effective(global, Entry(s', t)) == config && Entry(s', t).lastSwept == None;
  }

  /** An update reaches the first object with the id, and no other. */
  lemma {:induction false} SetUpdatedExactly(threads: seq<Thread>, t: string, u: int, i: nat)
    requires FirstAt(threads, t, i)
    ensures SetUpdated(threads, t, u) == threads[i := threads[i].(updatedAt := u)]
  {
    if i > 0 {
      assert FirstAt(threads[1..], t, i - 1);
      SetUpdatedExactly(threads[1..], t, u, i - 1);
      assert threads == [threads[0]] + threads[1..];
    }
  }

  /** A touched thread expires from its new update on. */
  lemma UpdatePostpones(global: Option<Config>, s: State, t: string, u: int, now: int, c: Config, i: nat)
    requires FirstAt(s.threads, t, i) && InForce(global, s.ttl, t, c)
    ensures Enabled(global, s, Touch(t, u))
    ensures var s' := Apply(global, s, Touch(t, u));
            && s'.threads[i] == s.threads[i].(updatedAt := u)
            && (u + c.ttl > now ==> !Eligible(global, s', t, now))
  {
    var s' := Apply(global, s, Touch(t, u));
    SetUpdatedExactly(s.threads, t, u, i);
    assert FirstAt(s'.threads, t, i);
    if Exists(s', t) { var j := FoundFirst(s'.threads, t); }
  }

  /** A new thread is the last object, under its own id, updated at its creation, and
      with the TTL entry it was given. */
  lemma CreationIsRecorded(global: Option<Config>, s: State, t: string, now: int, o: Option<Config>)
    requires Enabled(global, s, PutThread(t, now, Some(o)))
    ensures var s' := Apply(global, s, PutThread(t, now, Some(o)));
            && |s'.threads| == |s.threads| + 1 && s'.threads[..|s.threads|] == s.threads
            && FirstAt(s'.threads, t, |s.threads|) && s'.threads[|s.threads|].updatedAt == now
            && Lookup(s'.ttl, t) == if o.Some? then Some(TtlState(o, None)) else None
  {
  }

  /** Once an active run is put, its thread cannot be claimed. */
  lemma PutRunBlocksClaim(global: Option<Config>, s: State, r: Run, u: Option<int>, p: nat, now: int)
    requires Active(r) && Enabled(global, s, PutRun(r, u))
    ensures !Enabled(global, Apply(global, s, PutRun(r, u)), SweepClaim(p, r.thread, now))
  {
    assert r in Apply(global, s, PutRun(r, u)).runs;
  }

  /** Once a run is claimed by the scheduler, it runs, and no second run of its thread
      can be claimed. */
  lemma NextRunExcludes(global: Option<Config>, s: State, r: Run, q: Run)
    requires Enabled(global, s, NextRun(r)) && q.thread == r.thread
    ensures r.(status := Running) in Apply(global, s, NextRun(r)).runs
    ensures !Enabled(global, Apply(global, s, NextRun(r)), NextRun(q))
  {
    assert r.(status := Running) in Apply(global, s, NextRun(r)).runs;
  }

  // -------------------------------------------------- once per thread update

  /** The `updated_at` of the last prune of `t` that no replacement or removal of
      its TTL entry followed. */
  ghost function LastPruned(log: seq<Event>, t: string): Option<int> {
    if log == [] then None
    else
      var e := log[|log| - 1];
      if e.thread != t then LastPruned(log[..|log| - 1], t)
      else if e.Pruned? then Some(e.updatedAt) else None
  }

  lemma LastPrunedAppend(log: seq<Event>, e: Event, t: string)
    ensures LastPruned(log + [e], t) ==
            if e.thread != t then LastPruned(log, t) else if e.Pruned? then Some(e.updatedAt) else None
  {
    assert (log + [e])[..|log|] == log;
  }

  /** Each recorded prune is of a later `updated_at` than the one before it. */
  ghost predicate PrunesAdvance(log: seq<Event>) {
    forall j :: 0 <= j < |log| && log[j].Pruned? ==>
      LastPruned(log[..j], log[j].thread).None? || LastPruned(log[..j], log[j].thread).value < log[j].updatedAt
  }

  ghost predicate SweepInv(s: State) {
    && PrunesAdvance(s.log)
    && (forall t :: LastPruned(s.log, t).Some? ==> t in s.ttl && s.ttl[t].lastSwept == LastPruned(s.log, t))
    && (forall p :: p in s.sweepers && s.sweepers[p].Pruning? && LastPruned(s.log, s.sweepers[p].thread).Some? ==>
          LastPruned(s.log, s.sweepers[p].thread).value < s.sweepers[p].updatedAt)
  }

  lemma AdvanceAppend(log: seq<Event>, e: Event)
    requires PrunesAdvance(log)
    requires e.Pruned? ==> LastPruned(log, e.thread).None? || LastPruned(log, e.thread).value < e.updatedAt
    ensures PrunesAdvance(log + [e])
  {
    var log' := log + [e];
    forall j | 0 <= j < |log'| && log'[j].Pruned?
      ensures LastPruned(log'[..j], log'[j].thread).None?
              || LastPruned(log'[..j], log'[j].thread).value < log'[j].updatedAt
    {
      if j < |log| { assert log'[..j] == log[..j]; } else { assert log'[..j] == log; }
    }
  }

  /** A replaced or removed TTL entry starts a new history for its thread. */
  lemma SweepInvReplaced(s: State, s': State, t: string)
    requires SweepInv(s) && s'.log == s.log + [TtlReplaced(t)]
    requires forall u :: u != t ==> Lookup(s'.ttl, u) == Lookup(s.ttl, u)
    requires forall p :: p in s'.sweepers ==> p in s.sweepers && s'.sweepers[p] == s.sweepers[p]
    ensures SweepInv(s')
  {
    AdvanceAppend(s.log, TtlReplaced(t));
    forall u ensures LastPruned(s'.log, u) == if u == t then None else LastPruned(s.log, u) {
      LastPrunedAppend(s.log, TtlReplaced(t), u);
    }
    forall u | LastPruned(s'.log, u).Some? ensures u in s'.ttl && s'.ttl[u].lastSwept == LastPruned(s'.log, u) {
      assert Lookup(s'.ttl, u) == Lookup(s.ttl, u);
    }
  }

  lemma SweepInvPruned(s: State, s': State, p: nat)
    requires SweepInv(s) && OneClaimant(s) && p in s.sweepers && s.sweepers[p].Pruning?
    requires var w := s.sweepers[p];
             s'.ttl == s.ttl[w.thread := w.state.(lastSwept := Some(w.updatedAt))]
             && s'.log == s.log + [Pruned(w.thread, w.updatedAt)] && s'.sweepers == s.sweepers - {p}
    ensures SweepInv(s')
  {
    var e := Pruned(s.sweepers[p].thread, s.sweepers[p].updatedAt);
    AdvanceAppend(s.log, e);
    forall u ensures LastPruned(s'.log, u) == if u == e.thread then Some(e.updatedAt) else LastPruned(s.log, u) {
      LastPrunedAppend(s.log, e, u);
    }
  }

  lemma SweepInvClaimed(global: Option<Config>, s: State, s': State, p: nat, t: string, now: int)
    requires SweepInv(s) && Eligible(global, s, t, now)
    requires s'.ttl == s.ttl && s'.log == s.log && p in s'.sweepers
    requires forall q :: q in s'.sweepers && q != p ==> q in s.sweepers && s'.sweepers[q] == s.sweepers[q]
    requires var e := Entry(s, t); var w := s'.sweepers[p];
             w.Pruning? ==> w.thread == t && w.updatedAt == Find(s.threads, t).value.updatedAt
                            && Effective(global, e).value.strategy.KeepLatest?
    ensures SweepInv(s')
  {
  }

  lemma SweepInvClaim(global: Option<Config>, s: State, step: Step, s': State)
    requires SweepInv(s) && step.SweepClaim? && LeadsTo(global, s, step, s')
    ensures SweepInv(s')
  {
    hide SweepInv;
    SweepInvClaimed(global, s, s', step.sweeper, step.thread, step.now);
  }

  lemma SweepInvFinish(global: Option<Config>, s: State, step: Step, s': State)
    requires SweepInv(s) && OneClaimant(s) && step.SweepFinish? && LeadsTo(global, s, step, s')
    ensures SweepInv(s')
  {
    hide SweepInv, OneClaimant, WithoutKey;
    var p := step.sweeper;
    if s.sweepers[p].Deleting? {
      SweepInvReplaced(s, s', s.sweepers[p].thread);
    } else {
      SweepInvPruned(s, s', p);
    }
  }

  lemma SweepInvOverride(s: State, t: string, o: Option<Config>)
    requires SweepInv(s)
    ensures SweepInv(SetOverride(s, t, o))
  {
    hide SweepInv;
    SweepInvReplaced(s, SetOverride(s, t, o), t);
  }

  lemma SweepInvStep(global: Option<Config>, s: State, step: Step, s': State)
    requires SweepInv(s) && OneClaimant(s) && LeadsTo(global, s, step, s')
    ensures SweepInv(s')
  {
    hide SweepInv, OneClaimant, Eligible, Exists, FreshId, WithoutKey, SetUpdated, Find, HasActive, SetOverride;
    match step
    case SweepClaim(p, t, now) => SweepInvClaim(global, s, step, s');
    case SweepFinish(p) => SweepInvFinish(global, s, step, s');
    case DeleteFinish(d) => SweepInvReplaced(s, s', s.deleters[d].thread);
    case SetTtl(t, o) => SweepInvOverride(s, t, o);
    case PutThread(t, now, o) =>
      SweepInvSame(s, AddThread(s, t, now));
      if o.Some? { SweepInvOverride(AddThread(s, t, now), t, o.value); }
    case _ => SweepInvSame(s, s');
  }

  lemma SweepInvSame(s: State, s': State)
    requires SweepInv(s) && s'.ttl == s.ttl && s'.log == s.log
    requires forall p :: p in s'.sweepers ==> p in s.sweepers && s'.sweepers[p] == s.sweepers[p]
    ensures SweepInv(s')
  {
  }

  lemma {:induction false} SweepInvariant(global: Option<Config>, steps: seq<Step>)
    requires After(global, steps).Some?
    ensures SweepInv(After(global, steps).value)
    decreases |steps|
  {
    hide Enabled, Apply, OneClaimant, SweepInv, KeysSound;
    if steps == [] {
      InitSweepInv();
    } else {
      SweepInvariant(global, steps[..|steps| - 1]);
      ProtocolInvariant(global, steps[..|steps| - 1]);
      SweepInvStep(global, After(global, steps[..|steps| - 1]).value, steps[|steps| - 1], After(global, steps).value);
    }
  }

  lemma InitSweepInv()
    ensures SweepInv(INIT)
  {
  }

  /** A second prune follows a first only after a strict advance. */
  lemma {:induction false} AdvanceBetween(log: seq<Event>, i: nat, j: nat)
    requires PrunesAdvance(log) && i < j < |log| && log[i].Pruned? && log[j].Pruned? && log[i].thread == log[j].thread
    requires forall k :: i < k < j ==> log[k] != TtlReplaced(log[i].thread)
    ensures log[i].updatedAt < log[j].updatedAt
  {
    LastPrunedAtLeast(log, i, j);
  }

  lemma {:induction false} LastPrunedAtLeast(log: seq<Event>, i: nat, j: nat)
    requires PrunesAdvance(log) && i < j <= |log| && log[i].Pruned?
    requires forall k :: i < k < j ==> log[k] != TtlReplaced(log[i].thread)
    ensures LastPruned(log[..j], log[i].thread).Some? && log[i].updatedAt <= LastPruned(log[..j], log[i].thread).value
    decreases j
  {
    assert log[..j] == log[..j - 1] + [log[j - 1]];
    LastPrunedAppend(log[..j - 1], log[j - 1], log[i].thread);
    if i < j - 1 { LastPrunedAtLeast(log, i, j - 1); }
  }

  /** Main result on repeated sweeps: over every run, two recorded keep-latest
      prunes of one thread, with no replacement or removal of its TTL entry between
      them, are of strictly increasing `updated_at`. */
  lemma PrunedOncePerUpdate(global: Option<Config>, steps: seq<Step>, i: nat, j: nat)
    requires After(global, steps).Some?
    requires var log := After(global, steps).value.log;
             && i < j < |log| && log[i].Pruned? && log[j].Pruned? && log[i].thread == log[j].thread
             && forall k :: i < k < j ==> log[k] != TtlReplaced(log[i].thread)
    ensures var log := After(global, steps).value.log; log[i].updatedAt < log[j].updatedAt
  {
    SweepInvariant(global, steps);
    AdvanceBetween(After(global, steps).value.log, i, j);
  }

  /** After a prune, an idle keep-latest thread is eligible again exactly when its
      `updated_at` has passed the value read before the await and has expired: an
      update that arrived during the prune is not lost. */
  lemma EligibleAgain(global: Option<Config>, s: State, p: nat, now: int)
    requires p in s.sweepers && s.sweepers[p].Pruning?
    requires var s' := Apply(global, s, SweepFinish(p)); var t := s.sweepers[p].thread;
             && Exists(s', t) && !HasActive(s', t)
             && Effective(global, Entry(s', t)).Some? && Effective(global, Entry(s', t)).value.strategy.KeepLatest?
    ensures var s' := Apply(global, s, SweepFinish(p)); var w := s.sweepers[p];
            var u := Find(s'.threads, w.thread).value.updatedAt;
            Eligible(global, s', w.thread, now) <==>
              u > w.updatedAt && u + Effective(global, Entry(s', w.thread)).value.ttl <= now
  {
  }
}
