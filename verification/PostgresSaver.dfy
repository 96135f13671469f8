/** `RuntimePostgresSaver._remove_history`: the same retention policy over SQL
    tables, and exactly when it leaves what the in-memory saver leaves. */
module PostgresSaver {
  import opened Prelude
  import opened History
  import opened Stores
  import opened SqlWalks

  // -------------------------------------------------------------- the tables

  datatype Tables = Tables(
    rows: map<CheckpointKey, Entry>,
    writes: map<CheckpointKey, Group>,
    blobs: map<BlobKey, Payload>)

  function RowsOf(rows: map<CheckpointKey, Entry>, t: string, ns: string): (r: map<string, Entry>)
    ensures forall id :: id in r <==> CheckpointKey(t, ns, id) in rows
    ensures forall id :: id in r ==> r[id] == rows[CheckpointKey(t, ns, id)]
  {
    var ids := set k | k in rows && k.thread == t && k.ns == ns :: k.id;
    assert forall id :: CheckpointKey(t, ns, id) in rows ==> CheckpointKey(t, ns, id).id in ids;
    map id | id in ids :: rows[CheckpointKey(t, ns, id)]
  }

  function TableView(tb: Tables, t: string, ns: string): View {
    View(t, ns, RowsOf(tb.rows, t, ns), tb.writes, tb.blobs)
  }

  /** What a call wants to survive: the newest checkpoint of each namespace, or
      everything outside the given runs. */
  datatype Policy = KeepLatest | DeleteRuns(runs: set<string>)

  ghost function Heads(v: View, policy: Policy): (r: set<string>)
    ensures r <= v.entries.Keys
  {
    match policy
    case KeepLatest => if v.entries == map[] then {} else {Greatest(v.entries.Keys)}
    case DeleteRuns(runs) => Others(v, runs)
  }

  /** A row of thread `t` that the call deletes. */
  ghost predicate Gone(tb: Tables, t: string, policy: Policy, k: CheckpointKey) {
    && k in tb.rows && k.thread == t
    && var v := TableView(tb, t, k.ns); k.id !in SqlClosure(v, Heads(v, policy))
  }

  predicate RowUses(rows: map<CheckpointKey, Entry>, b: BlobKey) {
    exists k :: k in rows && k.thread == b.thread && k.ns == b.ns && UsedBy(rows[k], b)
  }

  /** `_remove_history` for one thread; the three SQL deletes as set operations. */
  ghost function HistoryRemoved(tb: Tables, t: string, policy: Policy): Tables {
    if forall k :: !Gone(tb, t, policy, k) then tb
    else
      var rows := map k | k in tb.rows && !Gone(tb, t, policy, k) :: tb.rows[k];
      Tables(
        rows,
        map k | k in tb.writes && !Gone(tb, t, policy, k) :: tb.writes[k],
        map b | b in tb.blobs && (b.thread == t ==> RowUses(rows, b)) :: tb.blobs[b])
  }

  lemma HistoryRemovedRows(tb: Tables, t: string, policy: Policy, k: CheckpointKey)
    ensures k in HistoryRemoved(tb, t, policy).rows <==> k in tb.rows && !Gone(tb, t, policy, k)
    ensures k in HistoryRemoved(tb, t, policy).rows ==> HistoryRemoved(tb, t, policy).rows[k] == tb.rows[k]
  {
    hide Gone, RowUses;
  }

  lemma HistoryRemovedOthers(tb: Tables, t: string, policy: Policy, k: CheckpointKey, b: BlobKey)
    ensures !Gone(tb, t, policy, k) ==>
              Lookup(HistoryRemoved(tb, t, policy).writes, k) == Lookup(tb.writes, k)
    ensures RowUses(HistoryRemoved(tb, t, policy).rows, b) ==>
              Lookup(HistoryRemoved(tb, t, policy).blobs, b) == Lookup(tb.blobs, b)
  {
    hide Gone, RowUses;
  }

  lemma KeptRow(tb: Tables, t: string, policy: Policy, ns: string, id: string)
    ensures var v := TableView(tb, t, ns);
            CheckpointKey(t, ns, id) in tb.rows && !Gone(tb, t, policy, CheckpointKey(t, ns, id)) <==>
            id in v.entries && id in SqlClosure(v, Heads(v, policy))
  {
    hide SqlClosure, Heads;
  }

  lemma HistoryRemovedEntries(tb: Tables, t: string, policy: Policy, ns: string)
    ensures var v := TableView(tb, t, ns);
            TableView(HistoryRemoved(tb, t, policy), t, ns).entries == Only(v.entries, SqlClosure(v, Heads(v, policy)))
  {
    hide SqlClosure, Heads, HistoryRemoved, RowUses, Gone;
    var v, after := TableView(tb, t, ns), HistoryRemoved(tb, t, policy);
    forall id
      ensures CheckpointKey(t, ns, id) in after.rows <==> id in v.entries && id in SqlClosure(v, Heads(v, policy))
      ensures CheckpointKey(t, ns, id) in after.rows ==> after.rows[CheckpointKey(t, ns, id)] == v.entries[id]
    {
      KeptRow(tb, t, policy, ns, id);
      HistoryRemovedRows(tb, t, policy, CheckpointKey(t, ns, id));
    }
  }

  lemma HistoryRemovedCuts(tb: Tables, t: string, policy: Policy, ns: string)
    ensures var v := TableView(tb, t, ns);
            CutTo(v, TableView(HistoryRemoved(tb, t, policy), t, ns), SqlClosure(v, Heads(v, policy)))
  {
    hide SqlClosure, Heads, HistoryRemoved, RowUses, Only, Gone;
    var after := HistoryRemoved(tb, t, policy);
    var v, w := TableView(tb, t, ns), TableView(after, t, ns);
    HistoryRemovedEntries(tb, t, policy, ns);
    forall id | id in w.entries ensures Lookup(w.writes, v.Key(id)) == Lookup(v.writes, v.Key(id)) {
      HistoryRemovedRows(tb, t, policy, v.Key(id));
      HistoryRemovedOthers(tb, t, policy, v.Key(id), v.Slot("", ""));
    }
    forall id, c | id in w.entries && c in w.entries[id].versions
      ensures SameSlot(v, w, v.Slot(c, w.entries[id].versions[c]))
    {
      var b := v.Slot(c, w.entries[id].versions[c]);
      RowUsesOwn(after.rows, v.Key(id), b);
      HistoryRemovedOthers(tb, t, policy, v.Key(id), b);
    }
  }

  lemma RowUsesOwn(rows: map<CheckpointKey, Entry>, k: CheckpointKey, b: BlobKey)
    requires k in rows && k.thread == b.thread && k.ns == b.ns && UsedBy(rows[k], b)
    ensures RowUses(rows, b)
  {
  }

  /** Main result: one thread's removal keeps the heads and no checkpoint that the
      in-memory saver would drop.  It keeps exactly that saver's checkpoints, and
      leaves every channel of every head readable as before, exactly if nothing is
      lost. */
  lemma HistoryRemovalIsSafe(tb: Tables, t: string, policy: Policy, ns: string)
    ensures var v, w := TableView(tb, t, ns), TableView(HistoryRemoved(tb, t, policy), t, ns);
            var heads := Heads(v, policy);
            && heads <= w.entries.Keys <= Closure(v, heads)
            && (w.entries == Only(v.entries, Closure(v, heads)) <==> NothingLost(v, heads))
            && ((forall h, c :: h in heads ==> Reconstruct(w, h, c) == Reconstruct(v, h, c)) <==> NothingLost(v, heads))
  {
    HistoryRemovedCuts(tb, t, policy, ns);
    hide HistoryRemoved, NothingLost, Heads, CutTo, TableView, SqlClosure, Closure;
    var v := TableView(tb, t, ns);
    CutIsSafe(v, TableView(HistoryRemoved(tb, t, policy), t, ns), Heads(v, policy));
  }

  lemma CutIsSafe(v: View, w: View, heads: set<string>)
    requires heads <= v.entries.Keys && CutTo(v, w, SqlClosure(v, heads))
    ensures heads <= w.entries.Keys <= Closure(v, heads)
    ensures w.entries == Only(v.entries, Closure(v, heads)) <==> NothingLost(v, heads)
    ensures (forall h, c :: h in heads ==> Reconstruct(w, h, c) == Reconstruct(v, h, c)) <==> NothingLost(v, heads)
  {
    hide NothingLost;
    SaversAgreeExactly(v, heads);
    RetentionIsExact(v, w, SqlClosure(v, heads), heads);
    hide Closure, SqlClosure, Reconstruct;
    assert w.entries.Keys == SqlClosure(v, heads);
    assert Only(v.entries, Closure(v, heads)).Keys == Closure(v, heads);
  }

  /** The same records in both stores, for one namespace. */
  ghost predicate SameHistory(st: Store, tb: Tables, t: string, ns: string) {
    SameRecords(ViewOf(st, t, ns), TableView(tb, t, ns))
  }

  /** The in-memory saver's result for one policy; keep-latest is per thread. */
  ghost function InMemory(st: Store, t: string, policy: Policy): Store {
    match policy
    case KeepLatest => Pruned(st, t)
    case DeleteRuns(runs) => RunsDeleted(st, runs)
  }

  lemma InMemoryCuts(st: Store, t: string, ns: string, policy: Policy)
    ensures var v := ViewOf(st, t, ns);
            CutTo(v, ViewOf(InMemory(st, t, policy), t, ns), Closure(v, Heads(v, policy)))
  {
    var v := ViewOf(st, t, ns);
    if policy.KeepLatest? {
      PrunedCuts(st, t, ns);
      if v.entries == map[] { assert Closure(v, {}) == {}; }
    } else {
      RunsDeletedCuts(st, policy.runs, t, ns);
    }
  }

  /** Same history in, same checkpoints out: keep-latest of one saver retains what
      keep-latest of the other does, and run deletion likewise, exactly if nothing is
      lost. */
  lemma SameHistorySameCheckpoints(st: Store, tb: Tables, t: string, ns: string, policy: Policy)
    requires SameHistory(st, tb, t, ns)
    ensures var w := TableView(tb, t, ns);
            RowsOf(HistoryRemoved(tb, t, policy).rows, t, ns) == EntriesOf(InMemory(st, t, policy).storage, t, ns)
            <==> NothingLost(w, Heads(w, policy))
  {
    hide InMemory, HistoryRemoved, NothingLost, CutTo;
    var v, w := ViewOf(st, t, ns), TableView(tb, t, ns);
    HistoryRemovalIsSafe(tb, t, policy, ns);
    InMemoryEntries(st, t, ns, policy);
    SameRecordsSameClosure(v, w, Heads(v, policy));
  }

  lemma InMemoryEntries(st: Store, t: string, ns: string, policy: Policy)
    ensures var v := ViewOf(st, t, ns);
            EntriesOf(InMemory(st, t, policy).storage, t, ns) == Only(v.entries, Closure(v, Heads(v, policy)))
  {
    hide InMemory, Heads;
    InMemoryCuts(st, t, ns, policy);
  }

  // ------------------------------------------------------------ whole calls

  /** Two cuts of the same records to the same checkpoints are the same records. */
  lemma CutsAlike(v: View, w: View, v': View, w': View, keep: set<string>, keep': set<string>)
    requires SameRecords(v, w) && CutTo(v, v', keep) && CutTo(w, w', keep') && v'.entries == w'.entries
    ensures SameRecords(v', w')
  {
    assert Only(v'.entries, v'.entries.Keys) == v'.entries;
    forall id, c | id in v'.entries && c in v'.entries[id].versions
      ensures SameSlot(v', w', v'.Slot(c, v'.entries[id].versions[c]))
    {
      var b := v.Slot(c, v.entries[id].versions[c]);
      assert SameSlot(v, w, b) && SameSlot(v, v', b) && SameSlot(w, w', b);
    }
  }

  /** The thread's own step keeps the two savers' records the same exactly if
      nothing is lost. */
  lemma OwnStepAgrees(st: Store, tb: Tables, t: string, ns: string, policy: Policy)
    requires SameHistory(st, tb, t, ns)
    ensures var w := TableView(tb, t, ns);
            SameHistory(InMemory(st, t, policy), HistoryRemoved(tb, t, policy), t, ns)
            <==> NothingLost(w, Heads(w, policy))
  {
    SameHistorySameCheckpoints(st, tb, t, ns, policy);
    HistoryRemovedCuts(tb, t, policy, ns);
    InMemoryCuts(st, t, ns, policy);
    hide InMemory, HistoryRemoved, CutTo, SqlClosure, Closure, Heads, NothingLost;
    var v, w := ViewOf(st, t, ns), TableView(tb, t, ns);
    if NothingLost(w, Heads(w, policy)) {
      CutsAlike(v, w, ViewOf(InMemory(st, t, policy), t, ns), TableView(HistoryRemoved(tb, t, policy), t, ns),
                Closure(v, Heads(v, policy)), SqlClosure(w, Heads(w, policy)));
    }
  }

  lemma TablesShrink(tb: Tables, t: string, policy: Policy)
    ensures forall b :: b in HistoryRemoved(tb, t, policy).blobs ==>
              b in tb.blobs && HistoryRemoved(tb, t, policy).blobs[b] == tb.blobs[b]
  {
    hide Gone, RowUses;
  }

  /** With fewer checkpoints and blobs, none of them passed by the walk, the SQL walk
      goes no less far. */
  lemma {:induction false} SqlWalkGrows(v: View, w: View, keep: set<string>,
                                        at: Option<string>, n: set<string>, n': set<string>, visited: set<string>)
    requires w.thread == v.thread && w.ns == v.ns && w.entries == Only(v.entries, keep)
    requires forall b :: b in w.blobs ==> b in v.blobs && w.blobs[b] == v.blobs[b]
    requires n <= n' && SqlWalk(v, at, n, visited) <= keep
    ensures SqlWalk(v, at, n, visited) <= SqlWalk(w, at, n', visited)
    decreases v.entries.Keys - visited
  {
    if at.None? || at.value == "" || n == {} || at.value in visited || at.value !in v.entries {
    } else {
      var e := v.entries[at.value];
      assert at.value in keep && w.entries[at.value] == e;
      assert SqlStillNeeded(v, e, n) <= SqlStillNeeded(w, e, n');
      SqlWalkGrows(v, w, keep, e.parent, SqlStillNeeded(v, e, n), SqlStillNeeded(w, e, n'), visited + {at.value});
    }
  }

  lemma NothingMoreToRemove(v: View, w: View, heads: set<string>)
    requires heads <= v.entries.Keys && CutTo(v, w, SqlClosure(v, heads))
    requires forall b :: b in w.blobs ==> b in v.blobs && w.blobs[b] == v.blobs[b]
    ensures heads <= w.entries.Keys && SqlClosure(w, heads) == w.entries.Keys
  {
    var keep := SqlClosure(v, heads);
    forall h | h in heads ensures SqlAncestors(v, h) <= SqlAncestors(w, h) {
      var e := v.entries[h];
      assert h in keep && w.entries[h] == e;
      assert Unsettled(v, e) <= Unsettled(w, e);
      assert SqlAncestors(v, h) <= keep;
      SqlWalkGrows(v, w, keep, e.parent, Unsettled(v, e), Unsettled(w, e), {});
    }
  }

  lemma SameHeads(v: View, w: View, keep: set<string>, policy: Policy)
    requires CutTo(v, w, keep) && Heads(v, policy) <= keep
    ensures Heads(w, policy) == Heads(v, policy)
  {
    if policy.KeepLatest? {
      if v.entries != map[] { GreatestPreserved(v, w, keep); } else { assert w.entries == map[]; }
    } else {
      assert forall id :: id in w.entries ==> w.entries[id] == v.entries[id];
    }
  }

  /** The same removal again changes nothing at all, on every history. */
  lemma HistoryRemovalIdempotent(tb: Tables, t: string, policy: Policy)
    ensures HistoryRemoved(HistoryRemoved(tb, t, policy), t, policy) == HistoryRemoved(tb, t, policy)
  {
    var after := HistoryRemoved(tb, t, policy);
    forall k ensures !Gone(after, t, policy, k) {
      HistoryRemovedCuts(tb, t, policy, k.ns);
      TablesShrink(tb, t, policy);
      hide HistoryRemoved, SqlClosure, Heads, CutTo;
      var v, w := TableView(tb, t, k.ns), TableView(after, t, k.ns);
      SameHeads(v, w, SqlClosure(v, Heads(v, policy)), policy);
      NothingMoreToRemove(v, w, Heads(v, policy));
      assert k in after.rows && k.thread == t ==> k == CheckpointKey(t, k.ns, k.id);
    }
    NothingGone(after, t, policy);
  }

  /** Rows, writes and blobs of thread `t` are the same. */
  ghost predicate SameThread(tb: Tables, tb': Tables, t: string) {
    && (forall k: CheckpointKey :: k.thread == t ==>
          Lookup(tb'.rows, k) == Lookup(tb.rows, k) && Lookup(tb'.writes, k) == Lookup(tb.writes, k))
    && (forall b: BlobKey :: b.thread == t ==> Lookup(tb'.blobs, b) == Lookup(tb.blobs, b))
  }

  lemma HistoryRemovalIsConfined(tb: Tables, u: string, policy: Policy, t: string)
    requires t != u
    ensures SameThread(tb, HistoryRemoved(tb, u, policy), t)
  {
    hide TableView, SqlClosure, Heads, RowUses;
  }

  lemma SameThreadSameEntries(tb: Tables, tb': Tables, t: string, ns: string)
    requires SameThread(tb, tb', t)
    ensures TableView(tb', t, ns).entries == TableView(tb, t, ns).entries
  {
    var w, w' := TableView(tb, t, ns), TableView(tb', t, ns);
    forall id
      ensures id in w'.entries <==> id in w.entries
      ensures id in w.entries ==> w'.entries[id] == w.entries[id]
    {
      assert Lookup(tb'.rows, w.Key(id)) == Lookup(tb.rows, w.Key(id));
    }
  }

  lemma {:induction false} SqlWalkAlike(v: View, w: View, at: Option<string>, needed: set<string>, visited: set<string>)
    requires w.thread == v.thread && w.ns == v.ns && w.entries == v.entries
    requires forall c, version :: SameSlot(v, w, v.Slot(c, version))
    ensures SqlWalk(w, at, needed, visited) == SqlWalk(v, at, needed, visited)
    decreases v.entries.Keys - visited
  {
    if at.None? || at.value == "" || needed == {} || at.value in visited || at.value !in v.entries {
    } else {
      var e := v.entries[at.value];
      forall c
        ensures var b := v.Slot(c, VersionText(e, c)); Materialized(w.blobs, b) == Materialized(v.blobs, b)
      {
        assert SameSlot(v, w, v.Slot(c, VersionText(e, c)));
      }
      assert SqlStillNeeded(w, e, needed) == SqlStillNeeded(v, e, needed);
      SqlWalkAlike(v, w, e.parent, SqlStillNeeded(v, e, needed), visited + {at.value});
    }
  }

  lemma SqlClosuresAlike(v: View, w: View, heads: set<string>)
    requires w.thread == v.thread && w.ns == v.ns && w.entries == v.entries && heads <= v.entries.Keys
    requires forall c, version :: SameSlot(v, w, v.Slot(c, version))
    ensures SqlClosure(w, heads) == SqlClosure(v, heads)
  {
    forall h | h in heads ensures SqlAncestors(w, h) == SqlAncestors(v, h) {
      var e := v.entries[h];
      forall c | c in e.versions ensures Settles(w, e, c) == Settles(v, e, c) {
        assert SameSlot(v, w, v.Slot(c, e.versions[c]));
      }
      assert Unsettled(w, e) == Unsettled(v, e);
      SqlWalkAlike(v, w, e.parent, Unsettled(v, e), {});
    }
  }

  lemma GoneAlike(tb: Tables, tb': Tables, t: string, policy: Policy, k: CheckpointKey)
    requires SameThread(tb, tb', t)
    ensures Gone(tb', t, policy, k) <==> Gone(tb, t, policy, k)
  {
    if k.thread == t {
      assert Lookup(tb'.rows, k) == Lookup(tb.rows, k);
      SameThreadSameEntries(tb, tb', t, k.ns);
      var v, w := TableView(tb, t, k.ns), TableView(tb', t, k.ns);
      assert Heads(w, policy) == Heads(v, policy);
      forall c, version ensures SameSlot(v, w, v.Slot(c, version)) {}
      SqlClosuresAlike(v, w, Heads(v, policy));
    }
  }

  lemma HistoryRemovedRecords(tb: Tables, t: string, policy: Policy, k: CheckpointKey, b: BlobKey)
    ensures var after := HistoryRemoved(tb, t, policy);
            && Lookup(after.writes, k) == (if Gone(tb, t, policy, k) then None else Lookup(tb.writes, k))
            && Lookup(after.blobs, b) ==
               if (exists g :: Gone(tb, t, policy, g)) && b.thread == t && !RowUses(after.rows, b) then None
               else Lookup(tb.blobs, b)
  {
    hide Gone, RowUses;
  }

  ghost predicate SameGone(tb: Tables, tb': Tables, t: string, policy: Policy) {
    forall k :: Gone(tb', t, policy, k) <==> Gone(tb, t, policy, k)
  }

  lemma RowAlike(tb: Tables, tb': Tables, t: string, policy: Policy, k: CheckpointKey)
    requires SameThread(tb, tb', t) && SameGone(tb, tb', t, policy) && k.thread == t
    ensures var after, after' := HistoryRemoved(tb, t, policy), HistoryRemoved(tb', t, policy);
            Lookup(after'.rows, k) == Lookup(after.rows, k) && Lookup(after'.writes, k) == Lookup(after.writes, k)
  {
    HistoryRemovedRows(tb, t, policy, k);
    HistoryRemovedRows(tb', t, policy, k);
    HistoryRemovedRecords(tb, t, policy, k, BlobKey(t, "", "", ""));
    HistoryRemovedRecords(tb', t, policy, k, BlobKey(t, "", "", ""));
    hide Gone, RowUses, HistoryRemoved;
    assert Gone(tb', t, policy, k) <==> Gone(tb, t, policy, k);
    assert Lookup(tb'.rows, k) == Lookup(tb.rows, k) && Lookup(tb'.writes, k) == Lookup(tb.writes, k);
  }

  lemma BlobAlike(tb: Tables, tb': Tables, t: string, policy: Policy, b: BlobKey)
    requires SameThread(tb, tb', t) && SameGone(tb, tb', t, policy) && b.thread == t
    requires RowUses(HistoryRemoved(tb', t, policy).rows, b) <==> RowUses(HistoryRemoved(tb, t, policy).rows, b)
    ensures Lookup(HistoryRemoved(tb', t, policy).blobs, b) == Lookup(HistoryRemoved(tb, t, policy).blobs, b)
  {
    HistoryRemovedRecords(tb, t, policy, CheckpointKey(t, "", ""), b);
    HistoryRemovedRecords(tb', t, policy, CheckpointKey(t, "", ""), b);
    hide Gone, RowUses, HistoryRemoved;
    assert Lookup(tb'.blobs, b) == Lookup(tb.blobs, b);
  }

  /** What the removal makes of a thread depends on nothing but that thread. */
  lemma HistoryRemovedAlike(tb: Tables, tb': Tables, t: string, policy: Policy)
    requires SameThread(tb, tb', t)
    ensures SameThread(HistoryRemoved(tb, t, policy), HistoryRemoved(tb', t, policy), t)
  {
    hide Gone, RowUses, HistoryRemoved, Lookup;
    assert SameGone(tb, tb', t, policy) by {
      forall k ensures Gone(tb', t, policy, k) <==> Gone(tb, t, policy, k) { GoneAlike(tb, tb', t, policy, k); }
    }
    hide SameGone;
    var after, after' := HistoryRemoved(tb, t, policy), HistoryRemoved(tb', t, policy);
    forall k: CheckpointKey | k.thread == t
      ensures Lookup(after'.rows, k) == Lookup(after.rows, k) && Lookup(after'.writes, k) == Lookup(after.writes, k)
    {
      RowAlike(tb, tb', t, policy, k);
    }
    forall b: BlobKey | b.thread == t ensures Lookup(after'.blobs, b) == Lookup(after.blobs, b) {
      RowUsesAlike(after.rows, after'.rows, t, b);
      BlobAlike(tb, tb', t, policy, b);
    }
  }

  /** If the call removes a row of the thread, no write group of a removed row and no
      unused blob of the thread is left; nothing else goes. */
  lemma HistoryRemovalLeavesNoGarbage(tb: Tables, t: string, policy: Policy)
    ensures var after := HistoryRemoved(tb, t, policy);
            && (forall k :: k in after.writes <==> k in tb.writes && !(k in tb.rows && k !in after.rows))
            && (after.rows != tb.rows ==> forall b :: b in after.blobs && b.thread == t ==> RowUses(after.rows, b))
            && (forall b :: b in tb.blobs && (b.thread != t || RowUses(after.rows, b)) ==> b in after.blobs)
            && (after.rows == tb.rows ==> after == tb)
  {
    var after := HistoryRemoved(tb, t, policy);
    forall k ensures k in tb.rows && k !in after.rows <==> Gone(tb, t, policy, k) {
      HistoryRemovedRows(tb, t, policy, k);
    }
    hide Gone, RowUses;
    if k :| Gone(tb, t, policy, k) { assert k in tb.rows && k !in after.rows; }
  }

  lemma RowUsesAlike(rows: map<CheckpointKey, Entry>, rows': map<CheckpointKey, Entry>, t: string, b: BlobKey)
    requires b.thread == t && forall k: CheckpointKey :: k.thread == t ==> Lookup(rows', k) == Lookup(rows, k)
    ensures RowUses(rows', b) <==> RowUses(rows, b)
  {
    hide UsedBy;
    if RowUses(rows, b) {
      var k :| k in rows && k.thread == b.thread && k.ns == b.ns && UsedBy(rows[k], b);
      assert Lookup(rows', k) == Lookup(rows, k);
    }
    if RowUses(rows', b) {
      var k :| k in rows' && k.thread == b.thread && k.ns == b.ns && UsedBy(rows'[k], b);
      assert Lookup(rows', k) == Lookup(rows, k);
    }
  }

  /** One thread of the call after the other. */
  ghost function AllHistoryRemoved(tb: Tables, threads: seq<string>, policy: Policy): Tables
    decreases threads
  {
    if threads == [] then tb else AllHistoryRemoved(HistoryRemoved(tb, threads[0], policy), threads[1..], policy)
  }

  /** A call does to each named thread, however often it is named, what removing its
      history alone would do. */
  lemma {:induction false} AllHistoryRemovedOwn(tb: Tables, threads: seq<string>, policy: Policy, t: string)
    ensures SameThread(if t in threads then HistoryRemoved(tb, t, policy) else tb,
                       AllHistoryRemoved(tb, threads, policy), t)
    decreases threads
  {
    hide HistoryRemoved;
    if threads != [] {
      var u, rest := threads[0], threads[1..];
      var next := HistoryRemoved(tb, u, policy);
      assert t in threads <==> t == u || t in rest;
      AllHistoryRemovedOwn(next, rest, policy, t);
      if u == t {
        HistoryRemovalIdempotent(tb, t, policy);
      } else {
        HistoryRemovalIsConfined(tb, u, policy, t);
        HistoryRemovedAlike(tb, next, t, policy);
      }
    }
  }

  lemma SameHistoryAlike(st: Store, st': Store, tb: Tables, tb': Tables, t: string, ns: string)
    requires SameOwn(st, st', t) && SameThread(tb, tb', t) && SameHistory(st, tb, t, ns)
    ensures SameHistory(st', tb', t, ns)
  {
    SameThreadSameEntries(tb, tb', t, ns);
    hide RowsOf;
    var v, v', w, w' := ViewOf(st, t, ns), ViewOf(st', t, ns), TableView(tb, t, ns), TableView(tb', t, ns);
    assert v'.entries == v.entries == Only(v.entries, v.entries.Keys);
    forall id | id in v.entries ensures Lookup(w'.writes, v.Key(id)) == Lookup(v'.writes, v.Key(id)) {
      assert Lookup(w.writes, v.Key(id)) == Lookup(v.writes, v.Key(id));
    }
    forall id, c | id in v.entries && c in v.entries[id].versions
      ensures SameSlot(v', w', v.Slot(c, v.entries[id].versions[c]))
    {
      assert SameSlot(v, w, v.Slot(c, v.entries[id].versions[c]));
    }
  }

  lemma SameOwnSymmetric(st: Store, st': Store, t: string)
    requires SameOwn(st, st', t)
    ensures SameOwn(st', st, t)
  {
  }

  lemma SameThreadSymmetric(tb: Tables, tb': Tables, t: string)
    requires SameThread(tb, tb', t)
    ensures SameThread(tb', tb, t)
  {
  }

  lemma SameHistoryIff(st: Store, st': Store, tb: Tables, tb': Tables, t: string, ns: string)
    requires SameOwn(st, st', t) && SameThread(tb, tb', t)
    ensures SameHistory(st', tb', t, ns) <==> SameHistory(st, tb, t, ns)
  {
    SameOwnSymmetric(st, st', t);
    SameThreadSymmetric(tb, tb', t);
    hide SameHistory, SameOwn, SameThread;
    if SameHistory(st, tb, t, ns) { SameHistoryAlike(st, st', tb, tb', t, ns); }
    if SameHistory(st', tb', t, ns) { SameHistoryAlike(st', st, tb', tb, t, ns); }
  }

  /** Whole keep-latest calls: whatever threads are named, in whatever order and
      however often, both savers are left with the same records of thread `t`
      exactly if `t` is not named or nothing of it is lost. */
  lemma PruneCallsAgree(st: Store, tb: Tables, threads: seq<string>, t: string, ns: string)
    requires SameHistory(st, tb, t, ns)
    ensures var w := TableView(tb, t, ns);
            SameHistory(PrunedAll(st, threads), AllHistoryRemoved(tb, threads, KeepLatest), t, ns)
            <==> (t in threads ==> NothingLost(w, Heads(w, KeepLatest)))
  {
    OwnStepAgrees(st, tb, t, ns, KeepLatest);
    PrunedAllOwn(st, threads, t);
    AllHistoryRemovedOwn(tb, threads, KeepLatest, t);
    hide PrunedAll, AllHistoryRemoved, Pruned, HistoryRemoved, SameHistory, NothingLost, SameOwn, SameThread, Heads;
    if t in threads {
      SameHistoryIff(Pruned(st, t), PrunedAll(st, threads),
                     HistoryRemoved(tb, t, KeepLatest), AllHistoryRemoved(tb, threads, KeepLatest), t, ns);
    } else {
      SameHistoryIff(st, PrunedAll(st, threads), tb, AllHistoryRemoved(tb, threads, KeepLatest), t, ns);
    }
  }

  /** Whole run deletions, if the named threads include every thread with a
      checkpoint of one of the runs: the same records are left exactly if nothing is
      lost. */
  lemma DeletionCallsAgree(st: Store, tb: Tables, threads: seq<string>, runs: set<string>, t: string, ns: string)
    requires SameHistory(st, tb, t, ns)
    requires t in threads || Others(ViewOf(st, t, ns), runs) == ViewOf(st, t, ns).entries.Keys
    ensures var w := TableView(tb, t, ns);
            SameHistory(RunsDeleted(st, runs), AllHistoryRemoved(tb, threads, DeleteRuns(runs)), t, ns)
            <==> NothingLost(w, Heads(w, DeleteRuns(runs)))
  {
    OwnStepAgrees(st, tb, t, ns, DeleteRuns(runs));
    AllHistoryRemovedOwn(tb, threads, DeleteRuns(runs), t);
    var after := RunsDeleted(st, runs);
    assert SameOwn(after, after, t);
    if t !in threads { NothingTargeted(st, tb, runs, t, ns); }
    hide AllHistoryRemoved, RunsDeleted, HistoryRemoved, SameHistory, NothingLost, SameOwn, SameThread, Heads;
    SameHistoryIff(after, after, if t in threads then HistoryRemoved(tb, t, DeleteRuns(runs)) else tb,
                   AllHistoryRemoved(tb, threads, DeleteRuns(runs)), t, ns);
  }

  lemma NothingTargeted(st: Store, tb: Tables, runs: set<string>, t: string, ns: string)
    requires SameHistory(st, tb, t, ns) && Others(ViewOf(st, t, ns), runs) == ViewOf(st, t, ns).entries.Keys
    ensures SameHistory(RunsDeleted(st, runs), tb, t, ns)
    ensures var w := TableView(tb, t, ns); NothingLost(w, Heads(w, DeleteRuns(runs)))
  {
    RunsDeletedCuts(st, runs, t, ns);
    var v, v', w := ViewOf(st, t, ns), ViewOf(RunsDeleted(st, runs), t, ns), TableView(tb, t, ns);
    assert Others(w, runs) == Others(v, runs);
    assert KeepOthers(v, runs) == v.entries.Keys;
    hide RunsDeleted, NothingLost, Others, ViewOf, TableView;
    UncutIsSame(v, v', w);
    AllKept(w);
  }

  lemma AllKept(w: View)
    ensures NothingLost(w, w.entries.Keys)
  {
    SaversAgreeExactly(w, w.entries.Keys);
  }

  lemma UncutIsSame(v: View, v': View, w: View)
    requires CutTo(v, v', v.entries.Keys) && SameRecords(v, w)
    ensures SameRecords(v', w)
  {
    assert v'.entries == v.entries;
    assert Only(w.entries, w.entries.Keys) == w.entries;
    CutsAlike(v, w, v', w, v.entries.Keys, w.entries.Keys);
  }

  // --------------------------------------------------------- the algorithm

  /** The walk from one surviving row. */
  method WalkRow(v: View, id: string) returns (protected: set<string>)
    requires id in v.entries
    ensures protected == SqlAncestors(v, id)
  {
    protected := {};
    var row := v.entries[id];
    var needed := Unsettled(v, row);
    var parent := row.parent;
    var visited := {};
    while parent.Some? && parent.value != "" && needed != {}
      invariant protected + SqlWalk(v, parent, needed, visited) == SqlAncestors(v, id)
      decreases v.entries.Keys - visited
    {
      if parent.value in visited || parent.value !in v.entries { break; }
      visited := visited + {parent.value};
      protected := protected + {parent.value};
      row := v.entries[parent.value];
      needed := SqlStillNeeded(v, row, needed);
      parent := row.parent;
    }
  }

  ghost function IdsIn(keys: set<CheckpointKey>, ns: string): set<string> {
    set k | k in keys && k.ns == ns :: k.id
  }

  /** The greatest id of every namespace, folded over all rows of a thread. */
  method LatestPerNamespace(keys: set<CheckpointKey>) returns (latest: map<string, string>)
    ensures forall k :: k in keys ==> k.ns in latest
    ensures forall ns :: ns in latest ==> IsGreatest(IdsIn(keys, ns), latest[ns])
  {
    latest := map[];
    var todo := keys;
    while todo != {}
      invariant todo <= keys
      invariant forall k :: k in keys - todo ==> k.ns in latest
      invariant forall ns :: ns in latest ==> IsGreatest(IdsIn(keys - todo, ns), latest[ns])
      decreases todo
    {
      var k :| k in todo;
      var best := if k.ns in latest then latest[k.ns] else "";
      StrLeqTotal(k.id, best);
      ghost var seen := keys - todo;
      todo := todo - {k};
      forall ns ensures IdsIn(keys - todo, ns) == IdsIn(seen, ns) + if ns == k.ns then {k.id} else {} {
        assert keys - todo == seen + {k};
      }
      forall y | y in IdsIn(seen, k.ns) ensures StrLeq(y, if StrLeq(k.id, best) then best else k.id) {
        assert k.ns in latest;
        if !StrLeq(k.id, best) { StrLeqTransitive(y, best, k.id); }
      }
      StrLeqTotal(k.id, k.id);
      latest := latest[k.ns := if StrLeq(k.id, best) && k.ns in latest then best else k.id];
    }
    assert keys - todo == keys;
  }

  lemma LatestIsGreatest(tb: Tables, t: string, mine: set<CheckpointKey>, k: CheckpointKey, latest: string)
    requires mine == (set x | x in tb.rows && x.thread == t) && k in mine
    requires IsGreatest(IdsIn(mine, k.ns), latest)
    ensures TableView(tb, t, k.ns).entries != map[]
    ensures latest == Greatest(TableView(tb, t, k.ns).entries.Keys)
  {
    var ids := TableView(tb, t, k.ns).entries.Keys;
    assert k.id in ids;
    forall id ensures id in ids <==> id in IdsIn(mine, k.ns) {
      if id in ids { assert CheckpointKey(t, k.ns, id) in mine; }
    }
    assert ids == IdsIn(mine, k.ns);
    GreatestUnique(ids, latest, Greatest(ids));
  }

  class PostgresTables {
    var rows: map<CheckpointKey, Entry>
    var writes: map<CheckpointKey, Group>
    var blobs: map<BlobKey, Payload>

    ghost function Contents(): Tables
      reads this
    {
      Tables(rows, writes, blobs)
    }

    /** The rows of thread `t` that must survive on their own account. */
    method Survivors(t: string, policy: Policy) returns (survivors: set<CheckpointKey>)
      ensures forall k :: k in survivors <==>
                k in rows && k.thread == t && k.id in Heads(TableView(Contents(), t, k.ns), policy)
    {
      hide Heads;
      var mine := set k | k in rows && k.thread == t;
      match policy {
        case DeleteRuns(runs) =>
          survivors := set k | k in mine && !(rows[k].run.Some? && rows[k].run.value in runs);
          forall k | k in mine ensures k in survivors <==> k.id in Heads(TableView(Contents(), t, k.ns), policy) {
            OtherIsHead(Contents(), t, runs, k);
          }
        case KeepLatest =>
          var latest := LatestPerNamespace(mine);
          survivors := set k | k in mine && k.id == latest[k.ns];
          forall k | k in mine ensures k in survivors <==> k.id in Heads(TableView(Contents(), t, k.ns), policy) {
            LatestIsHead(Contents(), t, mine, k, latest[k.ns]);
          }
      }
    }

    /** The rows some survivor's walk passes. */
    method ProtectedRows(t: string, survivors: set<CheckpointKey>) returns (protected: set<CheckpointKey>)
      requires forall s :: s in survivors ==> s in rows && s.thread == t
      ensures forall k :: k in protected <==> exists s :: s in survivors && SqlNeeds(Contents(), s, k)
    {
      hide SqlAncestors;
      protected := {};
      var todo := survivors;
      while todo != {}
        invariant todo <= survivors
        invariant forall k :: k in protected <==>
                    exists s :: s in survivors && s !in todo && SqlNeeds(Contents(), s, k)
        decreases todo
      {
        var s :| s in todo;
        var v := View(t, s.ns, RowsOf(rows, t, s.ns), writes, blobs);
        var walked := WalkRow(v, s.id);
        var keys := set id | id in walked :: CheckpointKey(t, s.ns, id);
        forall k ensures k in keys <==> SqlNeeds(Contents(), s, k) {
          if SqlNeeds(Contents(), s, k) { assert k == CheckpointKey(t, s.ns, k.id); }
        }
        hide SqlNeeds;
        forall k ensures k in protected + keys <==>
            exists s' :: s' in survivors && s' !in todo - {s} && SqlNeeds(Contents(), s', k)
        {
          if k in keys { assert s in survivors && s !in todo - {s} && SqlNeeds(Contents(), s, k); }
        }
        protected := protected + keys;
        todo := todo - {s};
      }
    }

    /** `_remove_history` for one thread. */
    method RemoveThreadHistory(t: string, policy: Policy)
      modifies this
      ensures Contents() == HistoryRemoved(old(Contents()), t, policy)
    {
      hide Heads, SqlNeeds, Gone, HistoryRemoved, RowUses, TableView;
      ghost var before := Contents();
      var survivors := Survivors(t, policy);
      var candidates := (set k | k in rows && k.thread == t) - survivors;
      var protected := ProtectedRows(t, survivors);
      var removed := candidates - protected;
      forall k ensures k in removed <==> Gone(before, t, policy, k) {
        GoneIsUnprotected(before, t, policy, k);
      }
      if removed == {} {
        NothingGone(before, t, policy);
        return;
      }
      rows := map k | k in rows && k !in removed :: rows[k];
      writes := map k | k in writes && k !in removed :: writes[k];
      blobs := map b | b in blobs && (b.thread == t ==> RowUses(rows, b)) :: blobs[b];
      RemovedTogether(before, Contents(), t, policy, removed);
    }

    /** `_remove_history` for the given threads, one after the other. */
    method RemoveHistory(threads: seq<string>, policy: Policy)
      modifies this
      ensures Contents() == AllHistoryRemoved(old(Contents()), threads, policy)
    {
      hide HistoryRemoved;
      for i := 0 to |threads|
        invariant AllHistoryRemoved(Contents(), threads[i..], policy)
               == AllHistoryRemoved(old(Contents()), threads, policy)
      {
        assert threads[i..][1..] == threads[i + 1..];
        RemoveThreadHistory(threads[i], policy);
      }
    }

    /** `adelete_for_runs`: the threads that hold a row of one of the runs, in
        whatever order the query returns them. */
    method DeleteForRuns(runIds: seq<string>) returns (ghost threads: seq<string>)
      modifies this
      ensures Contents() == AllHistoryRemoved(old(Contents()), threads, DeleteRuns(set r | r in runIds))
      ensures forall t :: t in threads <==>
                exists k :: k in old(rows) && k.thread == t && OfRun(old(rows)[k], set r | r in runIds)
    {
      hide HistoryRemoved;
      var runs := set r | r in runIds;
      var found := set k | k in rows && OfRun(rows[k], runs) :: k.thread;
      ghost var all := found;
      var order := [];
      while found != {}
        invariant forall t :: t in all <==> t in found || t in order
        decreases found
      {
        var t :| t in found;
        order := order + [t];
        found := found - {t};
      }
      threads := order;
      RemoveHistory(order, DeleteRuns(runs));
    }
  }

  predicate OfRun(e: Entry, runs: set<string>) {
    e.run.Some? && e.run.value in runs
  }

  /** A run deletion by query: thread `t` is either found or has nothing to lose, so
      the savers agree on it exactly if nothing is lost. */
  lemma QueriedDeletionAgrees(st: Store, tb: Tables, threads: seq<string>, runs: set<string>, t: string, ns: string)
    requires SameHistory(st, tb, t, ns)
    requires forall u :: u in threads <==> exists k :: k in tb.rows && k.thread == u && OfRun(tb.rows[k], runs)
    ensures var w := TableView(tb, t, ns);
            SameHistory(RunsDeleted(st, runs), AllHistoryRemoved(tb, threads, DeleteRuns(runs)), t, ns)
            <==> NothingLost(w, Heads(w, DeleteRuns(runs)))
  {
    if t !in threads {
      var v := ViewOf(st, t, ns);
      forall id | id in v.entries ensures id in Others(v, runs) {
        assert id in TableView(tb, t, ns).entries;
        assert v.Key(id) in tb.rows && !OfRun(tb.rows[v.Key(id)], runs);
      }
      assert Others(v, runs) == v.entries.Keys;
    }
    hide RunsDeleted, AllHistoryRemoved, NothingLost;
    DeletionCallsAgree(st, tb, threads, runs, t, ns);
  }

  /** Surviving row `s` protects row `k`. */
  ghost predicate SqlNeeds(tb: Tables, s: CheckpointKey, k: CheckpointKey) {
    && s in tb.rows && s.thread == k.thread && s.ns == k.ns
    && k.id in SqlAncestors(TableView(tb, s.thread, s.ns), s.id)
  }

  lemma NothingGone(tb: Tables, t: string, policy: Policy)
    requires forall k :: !Gone(tb, t, policy, k)
    ensures HistoryRemoved(tb, t, policy) == tb
  {
    hide Gone;
  }

  lemma OtherIsHead(tb: Tables, t: string, runs: set<string>, k: CheckpointKey)
    requires k in tb.rows && k.thread == t
    ensures k.id in Heads(TableView(tb, t, k.ns), DeleteRuns(runs)) <==>
            !(tb.rows[k].run.Some? && tb.rows[k].run.value in runs)
  {
    assert k == CheckpointKey(t, k.ns, k.id);
  }

  lemma LatestIsHead(tb: Tables, t: string, mine: set<CheckpointKey>, k: CheckpointKey, latest: string)
    requires mine == (set x | x in tb.rows && x.thread == t) && k in mine
    requires IsGreatest(IdsIn(mine, k.ns), latest)
    ensures k.id in Heads(TableView(tb, t, k.ns), KeepLatest) <==> k.id == latest
  {
    LatestIsGreatest(tb, t, mine, k, latest);
  }

  lemma GoneIsUnprotected(tb: Tables, t: string, policy: Policy, k: CheckpointKey)
    ensures Gone(tb, t, policy, k) <==>
            && k in tb.rows && k.thread == t
            && k.id !in Heads(TableView(tb, t, k.ns), policy)
            && !(exists s :: s in tb.rows && s.thread == t && s.id in Heads(TableView(tb, t, s.ns), policy)
                   && SqlNeeds(tb, s, k))
  {
    hide SqlAncestors, Heads;
    var v := TableView(tb, t, k.ns);
    if k in tb.rows && k.thread == t && k.id in SqlClosure(v, Heads(v, policy)) && k.id !in Heads(v, policy) {
      var h :| h in Heads(v, policy) && k.id in SqlAncestors(v, h);
      assert SqlNeeds(tb, v.Key(h), k);
    }
  }

  lemma RemovedTogether(tb: Tables, after: Tables, t: string, policy: Policy, removed: set<CheckpointKey>)
    requires removed != {}
    requires forall k :: k in removed <==> Gone(tb, t, policy, k)
    requires after.rows == map k | k in tb.rows && k !in removed :: tb.rows[k]
    requires after.writes == map k | k in tb.writes && k !in removed :: tb.writes[k]
    requires after.blobs == map b | b in tb.blobs && (b.thread == t ==> RowUses(after.rows, b)) :: tb.blobs[b]
    ensures after == HistoryRemoved(tb, t, policy)
  {
    hide Gone, RowUses;
    var k :| k in removed;
    assert Gone(tb, t, policy, k);
    var want := HistoryRemoved(tb, t, policy);
    assert after.rows == want.rows;
    assert after.writes == want.writes;
  }
}
