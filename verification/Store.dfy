/** The three dictionaries of the in-memory saver, what pruning and run deletion
    do to them, and the properties of both on whole stores. */
module Stores {
  import opened Prelude
  import opened History

  type Spaces = map<string, map<string, Entry>>

  datatype Store = Store(
    storage: map<string, Spaces>,
    writes: map<CheckpointKey, Group>,
    blobs: map<BlobKey, Payload>)

  function EntriesOf(storage: map<string, Spaces>, t: string, ns: string): map<string, Entry> {
    if t in storage && ns in storage[t] then storage[t][ns] else map[]
  }

  function ViewOf(st: Store, t: string, ns: string): View {
    View(t, ns, EntriesOf(st.storage, t, ns), st.writes, st.blobs)
  }

  /** Some checkpoint stored in `spaces` uses blob `k`. */
  predicate Uses(spaces: Spaces, k: BlobKey) {
    k.ns in spaces && UsedIn(spaces[k.ns], k)
  }

  predicate UsedIn(es: map<string, Entry>, k: BlobKey) {
    exists id :: id in es && UsedBy(es[id], k)
  }

  predicate UsedBy(e: Entry, k: BlobKey) {
    k.channel in e.versions && e.versions[k.channel] == k.version
  }

  predicate Stored(storage: map<string, Spaces>, k: CheckpointKey) {
    k.id in EntriesOf(storage, k.thread, k.ns)
  }

  // ------------------------------------------------------------ keep-latest

  /** The namespaces of a thread after keep-latest; empty ones disappear. */
  ghost function KeptSpaces(t: string, spaces: Spaces, writes: map<CheckpointKey, Group>, blobs: map<BlobKey, Payload>)
    : Spaces
  {
    map ns | ns in spaces && spaces[ns] != map[] ::
      Only(spaces[ns], Keep(View(t, ns, spaces[ns], writes, blobs)))
  }

  /** `prune([t], strategy="keep_latest")`. */
  ghost function Pruned(st: Store, t: string): Store {
    if t !in st.storage || st.storage[t] == map[] then st
    else
      var kept := KeptSpaces(t, st.storage[t], st.writes, st.blobs);
      Store(
        st.storage[t := kept],
        map k | k in st.writes && (k.thread == t ==> k.ns in kept && k.id in kept[k.ns]) :: st.writes[k],
        map k | k in st.blobs && (k.thread == t ==> Uses(kept, k)) :: st.blobs[k])
  }

  ghost function PrunedAll(st: Store, threads: seq<string>): Store
    decreases threads
  {
    if threads == [] then st else PrunedAll(Pruned(st, threads[0]), threads[1..])
  }

  /** `delete_thread(t)`: the base saver drops all three kinds of record. */
  function WithoutThread(st: Store, t: string): Store {
    Store(
      st.storage - {t},
      map k | k in st.writes && k.thread != t :: st.writes[k],
      map k | k in st.blobs && k.thread != t :: st.blobs[k])
  }

  function WithoutThreads(st: Store, threads: seq<string>): Store
    decreases threads
  {
    if threads == [] then st else WithoutThreads(WithoutThread(st, threads[0]), threads[1..])
  }

  lemma PrunedEntries(st: Store, t: string, ns: string)
    ensures EntriesOf(Pruned(st, t).storage, t, ns) ==
            Only(EntriesOf(st.storage, t, ns), Keep(ViewOf(st, t, ns)))
  {
    var es := EntriesOf(st.storage, t, ns);
    if es == map[] {
      assert Only(es, Keep(ViewOf(st, t, ns))) == map[];
    }
  }

  /** Keep-latest cuts every namespace of its thread to `Keep`. */
  lemma PrunedCuts(st: Store, t: string, ns: string)
    ensures CutTo(ViewOf(st, t, ns), ViewOf(Pruned(st, t), t, ns), Keep(ViewOf(st, t, ns)))
  {
    hide Keep, KeptSpaces;
    PrunedEntries(st, t, ns);
    var v, w := ViewOf(st, t, ns), ViewOf(Pruned(st, t), t, ns);
    if t in st.storage && st.storage[t] != map[] {
      var kept := KeptSpaces(t, st.storage[t], st.writes, st.blobs);
      forall id | id in w.entries ensures Lookup(w.writes, v.Key(id)) == Lookup(v.writes, v.Key(id)) {
        assert ns in kept && id in kept[ns];
      }
      forall id, c | id in w.entries && c in w.entries[id].versions
        ensures SameSlot(v, w, v.Slot(c, w.entries[id].versions[c]))
      {
        assert UsedBy(kept[ns][id], v.Slot(c, w.entries[id].versions[c]));
        assert UsedIn(kept[ns], v.Slot(c, w.entries[id].versions[c]));
      }
    }
  }

  lemma PruneIsConfined(st: Store, t: string)
    ensures OtherThreadsSame(st, Pruned(st, t), {t})
  {
    hide KeptSpaces, Uses;
  }

  /** Main result for keep-latest: in every namespace the newest checkpoint stays
      the newest and each of its channels reads exactly as before; nothing of any
      other thread changes. */
  lemma PruneKeepsLatestReadable(st: Store, t: string, ns: string)
    ensures var v, w := ViewOf(st, t, ns), ViewOf(Pruned(st, t), t, ns);
            v.entries != map[] ==>
              && Greatest(v.entries.Keys) in w.entries
              && Greatest(w.entries.Keys) == Greatest(v.entries.Keys)
              && forall c :: Reconstruct(w, Greatest(v.entries.Keys), c)
                          == Reconstruct(v, Greatest(v.entries.Keys), c)
    ensures OtherThreadsSame(st, Pruned(st, t), {t})
  {
    hide Pruned;
    PruneIsConfined(st, t);
    PrunedCuts(st, t, ns);
    var v, w := ViewOf(st, t, ns), ViewOf(Pruned(st, t), t, ns);
    if v.entries != map[] {
      GreatestPreserved(v, w, Keep(v));
      RetentionIsExact(v, w, Keep(v), {Greatest(v.entries.Keys)});
    }
  }

  /** Storage, writes and blobs of threads outside `ts` are the same. */
  ghost predicate OtherThreadsSame(st: Store, st': Store, ts: set<string>) {
    && (forall u :: u !in ts ==> Lookup(st'.storage, u) == Lookup(st.storage, u))
    && (forall k: CheckpointKey :: k.thread !in ts ==> Lookup(st'.writes, k) == Lookup(st.writes, k))
    && (forall k: BlobKey :: k.thread !in ts ==> Lookup(st'.blobs, k) == Lookup(st.blobs, k))
  }

  /** Of a thread with stored namespaces, no blob survives that no kept checkpoint
      uses, no write group of a removed checkpoint and no empty namespace. */
  lemma PruneLeavesNoGarbage(st: Store, t: string)
    requires t in st.storage && st.storage[t] != map[]
    ensures var w := Pruned(st, t);
            && (forall k :: k in w.blobs && k.thread == t ==> Uses(w.storage[t], k))
            && (forall k :: k in w.writes && k.thread == t ==> Stored(w.storage, k))
            && (forall ns :: ns in w.storage[t] ==> w.storage[t][ns] != map[])
  {
    var w := Pruned(st, t);
    forall ns | ns in w.storage[t] ensures w.storage[t][ns] != map[] {
      assert Greatest(st.storage[t][ns].Keys) in w.storage[t][ns];
    }
  }

  /** Exactness: any other cut of a namespace that keeps the newest checkpoint and
      all its readings keeps every checkpoint that keep-latest keeps. */
  lemma PruneIsLeast(st: Store, t: string, ns: string, w: View, keep: set<string>)
    requires EntriesOf(st.storage, t, ns) != map[]
    requires CutTo(ViewOf(st, t, ns), w, keep)
    requires Greatest(EntriesOf(st.storage, t, ns).Keys) in keep
    requires forall c :: Reconstruct(w, Greatest(EntriesOf(st.storage, t, ns).Keys), c)
                      == Reconstruct(ViewOf(st, t, ns), Greatest(EntriesOf(st.storage, t, ns).Keys), c)
    ensures EntriesOf(Pruned(st, t).storage, t, ns).Keys <= keep
  {
    PrunedEntries(st, t, ns);
    RetentionIsExact(ViewOf(st, t, ns), w, keep, {Greatest(EntriesOf(st.storage, t, ns).Keys)});
  }

  lemma KeptSpaceStable(st: Store, w: Store, t: string, ns: string)
    requires w == Pruned(st, t)
    ensures Keep(ViewOf(w, t, ns)) == EntriesOf(w.storage, t, ns).Keys
  {
    PrunedCuts(st, t, ns);
    KeepIdempotent(ViewOf(st, t, ns), ViewOf(w, t, ns));
  }

  /** A thread whose namespaces hold what keep-latest keeps, and nothing unused,
      is left alone. */
  lemma PrunedFixpoint(w: Store, t: string)
    requires t in w.storage
    requires forall ns :: ns in w.storage[t] ==>
               w.storage[t][ns] != map[] && Keep(ViewOf(w, t, ns)) == w.storage[t][ns].Keys
    requires forall k :: k in w.blobs && k.thread == t ==> Uses(w.storage[t], k)
    requires forall k :: k in w.writes && k.thread == t ==> Stored(w.storage, k)
    ensures Pruned(w, t) == w
  {
    KeptSpacesFixpoint(t, w.storage[t], w.writes, w.blobs);
    if w.storage[t] != map[] { NothingUnused(w, t); }
  }

  lemma NothingUnused(w: Store, t: string)
    requires t in w.storage && w.storage[t] != map[]
    requires KeptSpaces(t, w.storage[t], w.writes, w.blobs) == w.storage[t]
    requires forall k :: k in w.blobs && k.thread == t ==> Uses(w.storage[t], k)
    requires forall k :: k in w.writes && k.thread == t ==> Stored(w.storage, k)
    ensures Pruned(w, t) == w
  {
    hide KeptSpaces, Uses;
    var p := Pruned(w, t);
    assert p.storage == w.storage;
    assert p.writes == w.writes;
  }

  lemma KeptSpacesFixpoint(t: string, spaces: Spaces, writes: map<CheckpointKey, Group>, blobs: map<BlobKey, Payload>)
    requires forall ns :: ns in spaces ==>
               spaces[ns] != map[] && Keep(View(t, ns, spaces[ns], writes, blobs)) == spaces[ns].Keys
    ensures KeptSpaces(t, spaces, writes, blobs) == spaces
  {
    hide Keep;
    forall ns | ns in spaces ensures KeptSpaces(t, spaces, writes, blobs)[ns] == spaces[ns] {
      assert Only(spaces[ns], spaces[ns].Keys) == spaces[ns];
    }
  }

  /** A second keep-latest prune changes nothing. */
  lemma PruneIdempotent(st: Store, t: string)
    ensures Pruned(Pruned(st, t), t) == Pruned(st, t)
  {
    if t in st.storage && st.storage[t] != map[] {
      PruneLeavesNoGarbage(st, t);
      ghost var w := Pruned(st, t);
      forall ns | ns in w.storage[t] ensures Keep(ViewOf(w, t, ns)) == w.storage[t][ns].Keys {
        KeptSpaceStable(st, w, t, ns);
      }
      PrunedFixpoint(w, t);
    }
  }

  /** Pruning several threads keeps every newest checkpoint of every thread
      readable. */
  lemma {:induction false} PruneAllKeepsLatestReadable(st: Store, ts: seq<string>, t: string, ns: string, c: string)
    ensures var v, w := ViewOf(st, t, ns), ViewOf(PrunedAll(st, ts), t, ns);
            v.entries != map[] ==>
              && Greatest(v.entries.Keys) in w.entries
              && Greatest(w.entries.Keys) == Greatest(v.entries.Keys)
              && Reconstruct(w, Greatest(v.entries.Keys), c) == Reconstruct(v, Greatest(v.entries.Keys), c)
    ensures OtherThreadsSame(st, PrunedAll(st, ts), set u | u in ts)
    decreases ts
  {
    hide Pruned, Reconstruct;
    if ts != [] {
      var mid := Pruned(st, ts[0]);
      PruneAllKeepsLatestReadable(mid, ts[1..], t, ns, c);
      PruneKeepsLatestReadable(st, ts[0], ns);
      var v, m := ViewOf(st, t, ns), ViewOf(mid, t, ns);
      if ts[0] != t {
        SameThreadSameReading(st, mid, {ts[0]}, t, ns);
      }
      assert forall u :: u in ts[1..] ==> u in ts;
    }
  }

  /** A change confined to other threads changes no reading of thread `t`. */
  lemma SameThreadSameReading(st: Store, st': Store, ts: set<string>, t: string, ns: string)
    requires OtherThreadsSame(st, st', ts) && t !in ts
    ensures var v, w := ViewOf(st, t, ns), ViewOf(st', t, ns);
            && w.entries == v.entries
            && forall id, c :: id in v.entries ==> Reconstruct(w, id, c) == Reconstruct(v, id, c)
  {
    var v, w := ViewOf(st, t, ns), ViewOf(st', t, ns);
    assert Lookup(st'.storage, t) == Lookup(st.storage, t);
    assert w.entries == v.entries == Only(v.entries, v.entries.Keys);
    forall id | id in w.entries ensures Lookup(w.writes, v.Key(id)) == Lookup(v.writes, v.Key(id)) {
      assert v.Key(id).thread !in ts;
    }
    forall id, c | id in w.entries && c in w.entries[id].versions
      ensures SameSlot(v, w, v.Slot(c, w.entries[id].versions[c]))
    {
      assert v.Slot(c, w.entries[id].versions[c]).thread !in ts;
    }
    forall id, c | id in v.entries ensures Reconstruct(w, id, c) == Reconstruct(v, id, c) {
      ReconstructPreserved(v, w, v.entries.Keys, id, c);
    }
  }

  /** Storage, writes and blobs of thread `t` are the same. */
  ghost predicate SameOwn(st: Store, st': Store, t: string) {
    && Lookup(st'.storage, t) == Lookup(st.storage, t)
    && (forall k: CheckpointKey :: k.thread == t ==> Lookup(st'.writes, k) == Lookup(st.writes, k))
    && (forall k: BlobKey :: k.thread == t ==> Lookup(st'.blobs, k) == Lookup(st.blobs, k))
  }

  lemma SameOwnSameRecords(st: Store, st': Store, t: string, ns: string)
    requires SameOwn(st, st', t)
    ensures SameRecords(ViewOf(st, t, ns), ViewOf(st', t, ns))
  {
    var v, w := ViewOf(st, t, ns), ViewOf(st', t, ns);
    assert w.entries == v.entries == Only(v.entries, v.entries.Keys);
  }

  lemma KeptSpacesAlike(st: Store, st': Store, t: string)
    requires SameOwn(st, st', t) && t in st.storage
    ensures KeptSpaces(t, st'.storage[t], st'.writes, st'.blobs) == KeptSpaces(t, st.storage[t], st.writes, st.blobs)
  {
    assert st'.storage[t] == st.storage[t];
    forall ns | ns in st.storage[t] ensures Keep(ViewOf(st', t, ns)) == Keep(ViewOf(st, t, ns)) {
      SameOwnSameRecords(st, st', t, ns);
      var v, w := ViewOf(st, t, ns), ViewOf(st', t, ns);
      if v.entries != map[] { SameRecordsSameClosure(v, w, {Greatest(v.entries.Keys)}); }
    }
  }

  /** What keep-latest makes of a thread depends on nothing but that thread. */
  lemma PrunedAlike(st: Store, st': Store, t: string)
    requires SameOwn(st, st', t)
    ensures SameOwn(Pruned(st, t), Pruned(st', t), t)
  {
    assert Lookup(st'.storage, t) == Lookup(st.storage, t);
    if t in st.storage {
      KeptSpacesAlike(st, st', t);
    }
    hide KeptSpaces, Uses;
  }

  /** A keep-latest call does to each named thread what pruning it alone would do. */
  lemma {:induction false} PrunedAllOwn(st: Store, threads: seq<string>, t: string)
    ensures SameOwn(if t in threads then Pruned(st, t) else st, PrunedAll(st, threads), t)
    decreases threads
  {
    hide Pruned;
    if threads != [] {
      var u, rest := threads[0], threads[1..];
      assert t in threads <==> t == u || t in rest;
      PrunedAllOwn(Pruned(st, u), rest, t);
      if u == t {
        PruneIdempotent(st, t);
      } else {
        PruneIsConfined(st, u);
        assert SameOwn(st, Pruned(st, u), t);
        PrunedAlike(st, Pruned(st, u), t);
      }
    }
  }

  // -------------------------------------------------------- thread deletion

  /** No record of thread `t` is left. */
  ghost predicate Erased(st: Store, t: string) {
    && t !in st.storage
    && (forall k :: k in st.writes ==> k.thread != t)
    && (forall k :: k in st.blobs ==> k.thread != t)
  }

  /** Deleting threads leaves no record of any named thread and every record of the
      others. */
  lemma {:induction false} DeletionErasesNamed(st: Store, threads: seq<string>, t: string)
    ensures t in threads ==> Erased(WithoutThreads(st, threads), t)
    ensures t !in threads ==> SameOwn(st, WithoutThreads(st, threads), t)
    ensures Erased(st, t) ==> Erased(WithoutThreads(st, threads), t)
    decreases threads
  {
    if threads != [] {
      DeletionErasesNamed(WithoutThread(st, threads[0]), threads[1..], t);
    }
  }

  /** In namespace `ns` the newest checkpoint is still the newest and each of its
      channels reads as before. */
  ghost predicate LatestReadable(st: Store, st': Store, t: string, ns: string) {
    var v, w := ViewOf(st, t, ns), ViewOf(st', t, ns);
    v.entries != map[] ==>
      var g := Greatest(v.entries.Keys);
      g in w.entries && Greatest(w.entries.Keys) == g && forall c :: Reconstruct(w, g, c) == Reconstruct(v, g, c)
  }

  /** Records of `t` like those keep-latest leaves keep the newest readable. */
  lemma LikePrunedIsReadable(st: Store, st': Store, t: string, ns: string)
    requires SameOwn(Pruned(st, t), st', t)
    ensures LatestReadable(st, st', t, ns)
  {
    hide Pruned, Reconstruct;
    PruneKeepsLatestReadable(st, t, ns);
    SameOwnSameRecords(Pruned(st, t), st', t, ns);
    var v, p, w := ViewOf(st, t, ns), ViewOf(Pruned(st, t), t, ns), ViewOf(st', t, ns);
    if v.entries != map[] {
      var g := Greatest(v.entries.Keys);
      forall c ensures Reconstruct(w, g, c) == Reconstruct(v, g, c) {
        SameRecordsSameReading(p, w, g, c);
      }
    }
  }

  // ----------------------------------------------------------- run deletion

  /** A stored checkpoint that deleting `runs` removes. */
  ghost predicate Removed(st: Store, runs: set<string>, k: CheckpointKey) {
    Stored(st.storage, k) && k.id !in KeepOthers(ViewOf(st, k.thread, k.ns), runs)
  }

  ghost function OtherSpaces(st: Store, runs: set<string>, t: string): Spaces
    requires t in st.storage
  {
    map ns | ns in st.storage[t] && KeepOthers(ViewOf(st, t, ns), runs) != {} ::
      Only(st.storage[t][ns], KeepOthers(ViewOf(st, t, ns), runs))
  }

  /** Blob `k` was used by a removed checkpoint. */
  ghost predicate Orphaned(st: Store, runs: set<string>, k: BlobKey) {
    exists id :: Removed(st, runs, CheckpointKey(k.thread, k.ns, id))
              && UsedBy(st.storage[k.thread][k.ns][id], k)
  }

  /** `delete_for_runs(runs)`. */
  ghost function RunsDeleted(st: Store, runs: set<string>): Store {
    if forall k :: !Removed(st, runs, k) then st
    else
      var storage := map t | t in st.storage && OtherSpaces(st, runs, t) != map[] :: OtherSpaces(st, runs, t);
      Store(
        storage,
        map k | k in st.writes && !Removed(st, runs, k) :: st.writes[k],
        map k | k in st.blobs && (Orphaned(st, runs, k) ==> k.thread in storage && Uses(storage[k.thread], k))
          :: st.blobs[k])
  }

  lemma RunsDeletedEntries(st: Store, runs: set<string>, t: string, ns: string)
    ensures EntriesOf(RunsDeleted(st, runs).storage, t, ns) ==
            Only(EntriesOf(st.storage, t, ns), KeepOthers(ViewOf(st, t, ns), runs))
  {
    hide KeepOthers, Uses, Orphaned;
    var keep := KeepOthers(ViewOf(st, t, ns), runs);
    var es := EntriesOf(st.storage, t, ns);
    if forall k :: !Removed(st, runs, k) {
      forall id | id in es ensures id in keep {
        assert !Removed(st, runs, CheckpointKey(t, ns, id));
      }
      assert Only(es, keep) == es;
    } else if t in st.storage && ns in st.storage[t] {
      if keep == {} {
        assert Only(es, keep) == map[];
      } else {
        assert ns in OtherSpaces(st, runs, t);
      }
    }
  }

  /** Run deletion cuts every namespace to `KeepOthers`. */
  lemma RunsDeletedCuts(st: Store, runs: set<string>, t: string, ns: string)
    ensures CutTo(ViewOf(st, t, ns), ViewOf(RunsDeleted(st, runs), t, ns), KeepOthers(ViewOf(st, t, ns), runs))
  {
    RunsDeletedEntries(st, runs, t, ns);
    var after := RunsDeleted(st, runs);
    var v, w := ViewOf(st, t, ns), ViewOf(after, t, ns);
    forall id, c | id in w.entries && c in w.entries[id].versions
      ensures SameSlot(v, w, v.Slot(c, w.entries[id].versions[c]))
    {
      assert UsedBy(after.storage[t][ns][id], v.Slot(c, w.entries[id].versions[c]));
    }
  }

  /** Main result for run deletion: every checkpoint no deleted run owns is still
      there and every one of its channels reads exactly as before. */
  lemma DeletionKeepsOthersReadable(st: Store, runs: set<string>, t: string, ns: string)
    ensures var v, w := ViewOf(st, t, ns), ViewOf(RunsDeleted(st, runs), t, ns);
            forall id :: id in Others(v, runs) ==>
              && id in w.entries
              && forall c :: Reconstruct(w, id, c) == Reconstruct(v, id, c)
  {
    RunsDeletedCuts(st, runs, t, ns);
    var v, w := ViewOf(st, t, ns), ViewOf(RunsDeleted(st, runs), t, ns);
    RetentionIsExact(v, w, KeepOthers(v, runs), Others(v, runs));
    assert forall id :: id in Others(v, runs) ==> id in KeepOthers(v, runs);
  }

  /** Exactness: any other cut of a namespace that keeps those checkpoints and all
      their readings keeps every checkpoint that run deletion keeps. */
  lemma DeletionIsLeast(st: Store, runs: set<string>, t: string, ns: string, w: View, keep: set<string>)
    requires CutTo(ViewOf(st, t, ns), w, keep) && Others(ViewOf(st, t, ns), runs) <= keep
    requires forall h, c :: h in Others(ViewOf(st, t, ns), runs) ==>
               Reconstruct(w, h, c) == Reconstruct(ViewOf(st, t, ns), h, c)
    ensures EntriesOf(RunsDeleted(st, runs).storage, t, ns).Keys <= keep
  {
    RunsDeletedEntries(st, runs, t, ns);
    RetentionIsExact(ViewOf(st, t, ns), w, keep, Others(ViewOf(st, t, ns), runs));
  }

  /** No write group of a removed checkpoint survives, and none of its blobs that
      no remaining checkpoint uses; every other write group and blob does. */
  lemma DeletionLeavesNoGarbage(st: Store, runs: set<string>)
    ensures var w := RunsDeleted(st, runs);
            && (forall k :: k in w.writes <==> k in st.writes && !(Stored(st.storage, k) && !Stored(w.storage, k)))
            && (forall b :: b in w.blobs <==>
                  b in st.blobs && (Orphaned(st, runs, b) ==> b.thread in w.storage && Uses(w.storage[b.thread], b)))
  {
    var w := RunsDeleted(st, runs);
    forall k ensures Stored(st.storage, k) && !Stored(w.storage, k) <==> Removed(st, runs, k) {
      RunsDeletedEntries(st, runs, k.thread, k.ns);
    }
    hide Removed, OtherSpaces, Uses, UsedBy;
  }

  /** Deleting the same runs again changes nothing at all. */
  lemma DeletionIdempotent(st: Store, runs: set<string>)
    ensures RunsDeleted(RunsDeleted(st, runs), runs) == RunsDeleted(st, runs)
  {
    var w := RunsDeleted(st, runs);
    forall k ensures !Removed(w, runs, k) {
      RunsDeletedCuts(st, runs, k.thread, k.ns);
      RunsDeletedEntries(st, runs, k.thread, k.ns);
      KeepOthersIdempotent(ViewOf(st, k.thread, k.ns), ViewOf(w, k.thread, k.ns), runs);
    }
  }

  /** Deleting `a` then `b` keeps every checkpoint that deleting both at once
      keeps. */
  lemma SplitDeletion(st: Store, a: set<string>, b: set<string>, k: CheckpointKey)
    ensures Stored(RunsDeleted(st, a + b).storage, k) ==> Stored(RunsDeleted(RunsDeleted(st, a), b).storage, k)
  {
    var mid := RunsDeleted(st, a);
    RunsDeletedEntries(st, a + b, k.thread, k.ns);
    RunsDeletedCuts(st, a, k.thread, k.ns);
    RunsDeletedEntries(mid, b, k.thread, k.ns);
    SplitDeletionKeepsMore(ViewOf(st, k.thread, k.ns), ViewOf(mid, k.thread, k.ns), a, b);
  }
}
