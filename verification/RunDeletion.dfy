/** The phases of `delete_for_runs`. */
module RunDeletion {
  import opened Prelude
  import opened History
  import opened Stores
  import opened Walks

  function StoredKeys(storage: map<string, Spaces>): (r: set<CheckpointKey>)
    ensures forall k :: k in r <==> Stored(storage, k)
  {
    var r := set t, ns, id | t in storage && ns in storage[t] && id in storage[t][ns] :: CheckpointKey(t, ns, id);
    assert forall k :: Stored(storage, k) ==> k == CheckpointKey(k.thread, k.ns, k.id) && k in r;
    r
  }

  /** The stored checkpoints owned by one of `runs`. */
  function Targets(storage: map<string, Spaces>, runs: set<string>): (r: set<CheckpointKey>)
    ensures forall k :: k in r ==> Stored(storage, k)
  {
    set k | k in StoredKeys(storage) &&
            var run := storage[k.thread][k.ns][k.id].run; run.Some? && run.value in runs
  }

  lemma TargetsAreNotOthers(st: Store, runs: set<string>, k: CheckpointKey)
    requires Stored(st.storage, k)
    ensures k in Targets(st.storage, runs) <==> k.id !in Others(ViewOf(st, k.thread, k.ns), runs)
  {
  }

  /** Survivor `s` needs checkpoint `k` for a replay. */
  ghost predicate Needs(st: Store, s: CheckpointKey, k: CheckpointKey) {
    && Stored(st.storage, s) && s.thread == k.thread && s.ns == k.ns
    && k.id in Ancestors(ViewOf(st, s.thread, s.ns), s.id)
  }

  /** The targeted checkpoints that some survivor needs. */
  method ProtectedTargets(st: Store, candidates: set<CheckpointKey>) returns (protected: set<CheckpointKey>)
    requires forall k :: k in candidates ==> Stored(st.storage, k)
    ensures forall k :: k in protected <==>
              k in candidates && exists s :: Stored(st.storage, s) && s !in candidates && Needs(st, s, k)
  {
    protected := {};
    var survivors := StoredKeys(st.storage) - candidates;
    var todo := survivors;
    while todo != {}
      invariant todo <= survivors
      invariant forall k :: k in protected <==>
                  k in candidates && exists s :: s in survivors && s !in todo && Needs(st, s, k)
      decreases todo
    {
      hide Ancestors;
      var s :| s in todo;
      var v := ViewOf(st, s.thread, s.ns);
      var more := ProtectedBy(v, s.id, candidates);
      forall k ensures k in more <==> k in candidates && Needs(st, s, k) {
        if k in candidates && Needs(st, s, k) { assert k == v.Key(k.id); }
      }
      forall k ensures k in protected + more <==>
          k in candidates && exists s' :: s' in survivors && s' !in todo - {s} && Needs(st, s', k)
      {
        if k in more { assert s in survivors && s !in todo - {s} && Needs(st, s, k); }
      }
      protected := protected + more;
      todo := todo - {s};
    }
  }

  /** Unprotected targets are what the specification removes. */
  lemma RemovedIsUnprotected(st: Store, runs: set<string>, k: CheckpointKey)
    ensures Removed(st, runs, k) <==>
            && k in Targets(st.storage, runs)
            && !(exists s :: Stored(st.storage, s) && s !in Targets(st.storage, runs) && Needs(st, s, k))
  {
    hide Ancestors, Targets;
    var v := ViewOf(st, k.thread, k.ns);
    if Stored(st.storage, k) {
      TargetsAreNotOthers(st, runs, k);
      if k in Targets(st.storage, runs) {
        if s :| Stored(st.storage, s) && s !in Targets(st.storage, runs) && Needs(st, s, k) {
          TargetsAreNotOthers(st, runs, s);
          assert s.id in Others(v, runs) && k.id in Ancestors(v, s.id);
          assert k.id in KeepOthers(v, runs);
        }
        if k.id in KeepOthers(v, runs) {
          var h :| h in Others(v, runs) && k.id in Ancestors(v, h);
          TargetsAreNotOthers(st, runs, v.Key(h));
          assert Needs(st, v.Key(h), k);
        }
      }
    }
  }

  function EntryAt(storage: map<string, Spaces>, k: CheckpointKey): Entry
    requires Stored(storage, k)
  {
    EntriesOf(storage, k.thread, k.ns)[k.id]
  }

  /** `rest` is `storage` without the checkpoints `gone`; no bucket is dropped. */
  ghost predicate IsWithout(storage: map<string, Spaces>, rest: map<string, Spaces>, gone: set<CheckpointKey>) {
    && rest.Keys == storage.Keys
    && (forall t :: t in storage ==> rest[t].Keys == storage[t].Keys)
    && (forall k :: Stored(rest, k) <==> Stored(storage, k) && k !in gone)
    && (forall k :: Stored(rest, k) ==> EntryAt(rest, k) == EntryAt(storage, k))
  }

  /** Stored checkpoint `k` refers to blob `b`. */
  ghost predicate Refers(storage: map<string, Spaces>, k: CheckpointKey, b: BlobKey) {
    Stored(storage, k) && k.thread == b.thread && k.ns == b.ns && UsedBy(EntryAt(storage, k), b)
  }

  /** Some checkpoint of `keys` refers to blob `b`. */
  ghost predicate AnyRefers(storage: map<string, Spaces>, keys: set<CheckpointKey>, b: BlobKey) {
    exists k :: k in keys && Refers(storage, k, b)
  }

  /** Delete the removed checkpoints one by one, noting the blobs they used. */
  method DeleteEntries(storage: map<string, Spaces>, removed: set<CheckpointKey>)
    returns (rest: map<string, Spaces>, orphans: set<BlobKey>)
    requires forall k :: k in removed ==> Stored(storage, k)
    ensures IsWithout(storage, rest, removed)
    ensures forall b :: b in orphans <==> AnyRefers(storage, removed, b)
  {
    rest, orphans := storage, {};
    var todo := removed;
    while todo != {}
      invariant todo <= removed
      invariant IsWithout(storage, rest, removed - todo)
      invariant forall b :: b in orphans <==> AnyRefers(storage, removed - todo, b)
      decreases todo
    {
      var k :| k in todo;
      assert Stored(rest, k);
      var entry := EntryAt(rest, k);
      var used := set c | c in entry.versions :: BlobKey(k.thread, k.ns, c, entry.versions[c]);
      var next := rest[k.thread := rest[k.thread][k.ns := rest[k.thread][k.ns] - {k.id}]];
      WithoutOneMore(storage, rest, next, removed - todo, k);
      assert removed - (todo - {k}) == (removed - todo) + {k};
      OneMoreUser(storage, removed - todo, k, orphans, used);
      orphans := orphans + used;
      rest := next;
      todo := todo - {k};
    }
    assert removed - todo == removed;
  }

  lemma WithoutOneMore(storage: map<string, Spaces>, rest: map<string, Spaces>, next: map<string, Spaces>,
                       gone: set<CheckpointKey>, k: CheckpointKey)
    requires IsWithout(storage, rest, gone) && Stored(rest, k)
    requires next == rest[k.thread := rest[k.thread][k.ns := rest[k.thread][k.ns] - {k.id}]]
    ensures IsWithout(storage, next, gone + {k})
  {
    DropOne(rest, next, k);
    hide EntriesOf;
    forall j ensures Stored(next, j) <==> Stored(rest, j) && j != k {}
  }

  lemma DropOne(rest: map<string, Spaces>, next: map<string, Spaces>, k: CheckpointKey)
    requires Stored(rest, k)
    requires next == rest[k.thread := rest[k.thread][k.ns := rest[k.thread][k.ns] - {k.id}]]
    ensures next.Keys == rest.Keys && forall t :: t in rest ==> next[t].Keys == rest[t].Keys
    ensures forall t, ns :: EntriesOf(next, t, ns) ==
              if t == k.thread && ns == k.ns then EntriesOf(rest, t, ns) - {k.id} else EntriesOf(rest, t, ns)
  {
  }

  lemma OneMoreUser(storage: map<string, Spaces>, gone: set<CheckpointKey>, k: CheckpointKey,
                    orphans: set<BlobKey>, used: set<BlobKey>)
    requires Stored(storage, k)
    requires var versions := EntryAt(storage, k).versions;
             used == set c | c in versions :: BlobKey(k.thread, k.ns, c, versions[c])
    requires forall b :: b in orphans <==> AnyRefers(storage, gone, b)
    ensures forall b :: b in orphans + used <==> AnyRefers(storage, gone + {k}, b)
  {
    forall b ensures b in used <==> Refers(storage, k, b) {
      if Refers(storage, k, b) {
        assert b == BlobKey(k.thread, k.ns, b.channel, EntryAt(storage, k).versions[b.channel]);
      }
    }
    hide Refers;
    forall b ensures AnyRefers(storage, gone + {k}, b) <==> AnyRefers(storage, gone, b) || Refers(storage, k, b) {
      if Refers(storage, k, b) { assert k in gone + {k}; }
    }
  }

  /** Drop empty namespaces, then empty threads. */
  function NonEmpty(storage: map<string, Spaces>): map<string, Spaces> {
    map t | t in storage && NonEmptySpaces(storage[t]) != map[] :: NonEmptySpaces(storage[t])
  }

  function NonEmptySpaces(spaces: Spaces): Spaces {
    map ns | ns in spaces && spaces[ns] != map[] :: spaces[ns]
  }

  lemma SpaceIsOthers(st: Store, runs: set<string>, rest: map<string, Spaces>, removed: set<CheckpointKey>,
                      t: string, ns: string)
    requires IsWithout(st.storage, rest, removed) && t in st.storage && ns in st.storage[t]
    requires forall k :: k in removed <==> Removed(st, runs, k)
    ensures rest[t][ns] == Only(st.storage[t][ns], KeepOthers(ViewOf(st, t, ns), runs))
    ensures rest[t][ns] != map[] <==> KeepOthers(ViewOf(st, t, ns), runs) != {}
  {
    hide KeepOthers;
    var keep := KeepOthers(ViewOf(st, t, ns), runs);
    forall id ensures id in rest[t][ns] <==> id in st.storage[t][ns] && id in keep {
      assert Stored(rest, CheckpointKey(t, ns, id)) <==>
             Stored(st.storage, CheckpointKey(t, ns, id)) && !Removed(st, runs, CheckpointKey(t, ns, id));
    }
    forall id | id in rest[t][ns] ensures rest[t][ns][id] == st.storage[t][ns][id] {
      assert EntryAt(rest, CheckpointKey(t, ns, id)) == EntryAt(st.storage, CheckpointKey(t, ns, id));
    }
    assert rest[t][ns].Keys == keep;
  }

  /** What is left after dropping empty buckets is the specified storage. */
  lemma NonEmptyIsOthers(st: Store, runs: set<string>, rest: map<string, Spaces>, removed: set<CheckpointKey>,
                         t: string)
    requires IsWithout(st.storage, rest, removed) && t in st.storage
    requires forall k :: k in removed <==> Removed(st, runs, k)
    ensures NonEmptySpaces(rest[t]) == OtherSpaces(st, runs, t)
  {
    assert rest[t].Keys == st.storage[t].Keys;
    hide KeepOthers, Removed, Stored;
    forall ns | ns in st.storage[t]
      ensures rest[t][ns] == Only(st.storage[t][ns], KeepOthers(ViewOf(st, t, ns), runs))
      ensures rest[t][ns] != map[] <==> KeepOthers(ViewOf(st, t, ns), runs) != {}
    {
      SpaceIsOthers(st, runs, rest, removed, t, ns);
    }
  }

  lemma StorageByPhases(st: Store, runs: set<string>, rest: map<string, Spaces>, removed: set<CheckpointKey>)
    requires IsWithout(st.storage, rest, removed)
    requires forall k :: k in removed <==> Removed(st, runs, k)
    ensures NonEmpty(rest) == map t | t in st.storage && OtherSpaces(st, runs, t) != map[] :: OtherSpaces(st, runs, t)
  {
    WithoutKeys(st.storage, rest, removed);
    hide KeepOthers, Removed, OtherSpaces, NonEmptySpaces, IsWithout;
    forall t | t in st.storage ensures NonEmptySpaces(rest[t]) == OtherSpaces(st, runs, t) {
      NonEmptyIsOthers(st, runs, rest, removed, t);
    }
  }

  /** A stored checkpoint of the blob's thread uses it. */
  predicate UsedAnywhere(storage: map<string, Spaces>, b: BlobKey) {
    b.thread in storage && Uses(storage[b.thread], b)
  }

  /** All phases together are the specified deletion. */
  lemma DeletedByPhases(st: Store, after: Store, runs: set<string>, rest: map<string, Spaces>,
                        removed: set<CheckpointKey>, orphans: set<BlobKey>)
    requires forall k :: k in removed <==> Removed(st, runs, k)
    requires removed != {}
    requires IsWithout(st.storage, rest, removed)
    requires forall b :: b in orphans <==> AnyRefers(st.storage, removed, b)
    requires after.storage == NonEmpty(rest)
    requires after.writes == map k | k in st.writes && k !in removed :: st.writes[k]
    requires after.blobs == map b | b in st.blobs && !(b in orphans && !UsedAnywhere(after.storage, b)) :: st.blobs[b]
    ensures after == RunsDeleted(st, runs)
  {
    hide KeepOthers, Removed, OtherSpaces, NonEmpty, Uses, IsWithout, Orphaned, AnyRefers;
    StorageByPhases(st, runs, rest, removed);
    forall b ensures b in orphans <==> Orphaned(st, runs, b) {
      OrphansAreUnused(st, runs, removed, b);
    }
    var k :| k in removed;
    assert Removed(st, runs, k);
  }

  lemma WithoutKeys(storage: map<string, Spaces>, rest: map<string, Spaces>, gone: set<CheckpointKey>)
    requires IsWithout(storage, rest, gone)
    ensures rest.Keys == storage.Keys
  {
  }

  lemma OrphansAreUnused(st: Store, runs: set<string>, removed: set<CheckpointKey>, b: BlobKey)
    requires forall k :: k in removed <==> Removed(st, runs, k)
    ensures Orphaned(st, runs, b) <==> AnyRefers(st.storage, removed, b)
  {
    hide KeepOthers;
    if Orphaned(st, runs, b) {
      var id :| Removed(st, runs, CheckpointKey(b.thread, b.ns, id)) && UsedBy(st.storage[b.thread][b.ns][id], b);
      var k := CheckpointKey(b.thread, b.ns, id);
      assert k in removed && Refers(st.storage, k, b);
    }
    if k :| k in removed && Refers(st.storage, k, b) {
      assert k == CheckpointKey(b.thread, b.ns, k.id);
    }
  }

  lemma NoTargets(storage: map<string, Spaces>)
    ensures Targets(storage, {}) == {}
  {
  }

  lemma NothingRemoved(st: Store, runs: set<string>)
    requires forall k :: !Removed(st, runs, k)
    ensures RunsDeleted(st, runs) == st
  {
    hide Removed;
  }
}
