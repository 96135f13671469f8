/** `InMemorySaver`: the dictionaries of the store changed in place, with the
    size table kept beside them. */
module Savers {
  import opened Prelude
  import opened History
  import opened Stores
  import opened Sizes
  import opened BaseSaver
  import opened Pruning
  import opened RunDeletion

  class InMemorySaver {
    var storage: map<string, Spaces>
    var writes: map<CheckpointKey, Group>
    var blobs: map<BlobKey, Payload>
    const sizes: CheckpointSizeState

    ghost function Contents(): Store
      reads this
    {
      Store(storage, writes, blobs)
    }

    /** The size table is what a recount would give, its totals are the sums over
        all threads, and no clamp ever changed a value. */
    ghost predicate Valid()
      reads this, sizes
    {
      && sizes.Consistent()
      && sizes.byThread == Recount(Contents())
      && !sizes.clamped
    }

    /** A saver over the dictionaries loaded from disk, empty on the first start: the
        sizes are rebuilt from them. */
    constructor (loaded: Store)
      ensures Valid() && fresh(sizes) && Contents() == loaded
    {
      storage, writes, blobs := loaded.storage, loaded.writes, loaded.blobs;
      sizes := new CheckpointSizeState();
      new;
      RebuildSizeTracking();
    }

    method Put(t: string, ns: string, id: string, e: Entry,
               newVersions: map<string, string>, values: map<string, Payload>)
      requires Valid()
      modifies this, sizes
      ensures Valid()
      ensures Contents() == WithCheckpoint(old(Contents()), t, ns, id, e, newVersions, values)
    {
      hide Recount, SetRow, Total, TotalBytes, TotalCount, OtherThreadsSame;
      ghost var before := Contents();
      var es := EntriesOf(storage, t, ns);
      var isNew := id !in es;
      var oldSize := if isNew then 0 else EntrySize(id, es[id]);
      var oldBlobs := MeasureBlobs(blobs, t, ns, newVersions);
      var spaces := if t in storage then storage[t] else map[];
      storage := storage[t := spaces[ns := es[id := e]]];
      blobs := blobs + NewBlobs(t, ns, newVersions, values);
      var newBlobs := MeasureBlobs(blobs, t, ns, newVersions);
      var size, count := EntrySize(id, e) + newBlobs - (oldSize + oldBlobs), if isNew then 1 else 0;
      PutAccounting(before, Contents(), t, ns, id, e, newVersions, values, size, count);
      sizes.Adjust(t, size, count);
    }

    method PutWrites(t: string, ns: string, id: string, added: Group)
      requires Valid()
      modifies this, sizes
      ensures Valid()
      ensures Contents() == WithWrites(old(Contents()), CheckpointKey(t, ns, id), added)
    {
      hide Recount, SetRow, Total, TotalBytes, TotalCount, OtherThreadsSame;
      ghost var before := Contents();
      var key := CheckpointKey(t, ns, id);
      var oldSize := 0;
      if key in writes { oldSize := MeasureGroup(id, writes[key]); }
      if added != map[] {
        writes := writes[key := MergeGroup(if key in writes then writes[key] else map[], added)];
      }
      var newSize := 0;
      if key in writes { newSize := MeasureGroup(id, writes[key]); }
      WritesAccounting(before, Contents(), key, added, newSize - oldSize);
      sizes.Adjust(t, newSize - oldSize, 0);
    }

    method DeleteThread(t: string)
      requires Valid()
      modifies this, sizes
      ensures Valid() && Contents() == WithoutThread(old(Contents()), t)
    {
      hide Recount, SetRow, Total, TotalBytes, TotalCount, OtherThreadsSame;
      ghost var before := Contents();
      storage := storage - {t};
      writes := map k | k in writes && k.thread != t :: writes[k];
      blobs := map k | k in blobs && k.thread != t :: blobs[k];
      var _ := sizes.RemoveThread(t);
      DeleteAccounting(before, Contents(), t);
    }

    method Clear()
      requires Valid()
      modifies this, sizes
      ensures Valid() && Contents() == Store(map[], map[], map[])
    {
      storage, writes, blobs := map[], map[], map[];
      sizes.Clear();
      EmptyRecount(Contents());
    }

    /** Keep-latest for one thread. */
    method PruneThread(t: string)
      requires Valid()
      modifies this, sizes
      ensures Valid() && Contents() == Pruned(old(Contents()), t)
    {
      hide Recount, SetRow, KeptSpaces, Pruned, GroupKeys, BlobKeys,
        SpacesBytes, SpacesCount, WritesBytes, BlobsBytes, Total, TotalBytes, TotalCount;
      ghost var before := Contents();
      if t !in storage || storage[t] == map[] {
        assert Pruned(before, t) == before by { NothingToPrune(before, t); }
        return;
      }
      var kept, keptWrites, keptBlobs, size, count := PruneSpaces(t, storage[t], writes, blobs);
      var writes', writesSize := DropWrites(writes, t, keptWrites);
      var blobs', blobsSize := DropBlobs(blobs, t, keptBlobs);
      storage := storage[t := kept];
      writes := writes';
      blobs := blobs';
      PrunedByPhases(before, Contents(), t);
      PruneAccounting(before, Contents(), t, -(size + writesSize + blobsSize), -count);
      sizes.Adjust(t, -(size + writesSize + blobsSize), -count);
    }

    /** `prune`; an unknown strategy is a `ValueError` and changes nothing. */
    method Prune(threads: seq<string>, strategy: string) returns (ok: bool)
      requires Valid()
      modifies this, sizes
      ensures Valid()
      ensures ok == (strategy in {"delete", "delete_all", "keep_latest"})
      ensures Contents() ==
                if strategy in {"delete", "delete_all"} then WithoutThreads(old(Contents()), threads)
                else if strategy == "keep_latest" then PrunedAll(old(Contents()), threads)
                else old(Contents())
    {
      hide Recount, Pruned;
      ghost var before := Contents();
      if strategy in {"delete", "delete_all"} {
        for i := 0 to |threads|
          invariant Valid()
          invariant WithoutThreads(Contents(), threads[i..]) == WithoutThreads(before, threads)
        {
          assert threads[i..][1..] == threads[i + 1..];
          DeleteThread(threads[i]);
        }
        return true;
      }
      if strategy != "keep_latest" { return false; }
      for i := 0 to |threads|
        invariant Valid()
        invariant PrunedAll(Contents(), threads[i..]) == PrunedAll(before, threads)
      {
        assert threads[i..][1..] == threads[i + 1..];
        PruneThread(threads[i]);
      }
      return true;
    }

    // ------------------------------------------------------------- rebuild

    method TrackEntries(t: string, es: map<string, Entry>)
      requires sizes.Consistent()
      modifies sizes
      ensures sizes.Consistent() && sizes.clamped == old(sizes.clamped)
      ensures sizes.byThread == AddRow(old(sizes.byThread), t, EntriesBytes(es), |es|)
    {
      hide Total, TotalBytes, TotalCount, EntriesBytes, AddRow, SetRow, Row;
      var todo := es.Keys;
      ghost var done: map<string, Entry> := map[];
      EntriesGrow(done, "", es);
      AddRowNothing(sizes.byThread, t);
      while todo != {}
        invariant sizes.Consistent() && sizes.clamped == old(sizes.clamped)
        invariant todo <= es.Keys && done == es - todo
        invariant sizes.byThread == AddRow(old(sizes.byThread), t, EntriesBytes(done), |es.Keys| - |todo|)
        decreases todo
      {
        var id :| id in todo;
        EntriesGrow(done, id, es);
        AddRowTwice(old(sizes.byThread), t, EntriesBytes(done), |es.Keys| - |todo|, EntrySize(id, es[id]), 1);
        AddRowIsAdjust(sizes.byThread, t, EntrySize(id, es[id]), 1);
        sizes.Adjust(t, EntrySize(id, es[id]), 1);
        todo := todo - {id};
        done := done[id := es[id]];
      }
      assert done == es;
      assert |es.Keys| == |es|;
    }

    method TrackThread(t: string, spaces: Spaces)
      requires sizes.Consistent()
      modifies sizes
      ensures sizes.Consistent() && sizes.clamped == old(sizes.clamped)
      ensures sizes.byThread == AddRow(old(sizes.byThread), t, SpacesBytes(spaces), SpacesCount(spaces))
    {
      hide Total, TotalBytes, TotalCount, EntriesBytes, SpacesBytes, SpacesCount, AddRow, SetRow, Row;
      var todo := spaces.Keys;
      ghost var done: Spaces := map[];
      NothingKept(t, done, map[], map[]);
      AddRowNothing(sizes.byThread, t);
      while todo != {}
        invariant sizes.Consistent() && sizes.clamped == old(sizes.clamped)
        invariant todo <= spaces.Keys && done == spaces - todo
        invariant sizes.byThread == AddRow(old(sizes.byThread), t, SpacesBytes(done), SpacesCount(done))
        decreases todo
      {
        var ns :| ns in todo;
        SpacesGrow(done, ns, spaces[ns]);
        AddRowTwice(old(sizes.byThread), t, SpacesBytes(done), SpacesCount(done),
                    EntriesBytes(spaces[ns]), |spaces[ns]|);
        TrackEntries(t, spaces[ns]);
        todo := todo - {ns};
        done := done[ns := spaces[ns]];
      }
      assert done == spaces;
    }

    method TrackStorage()
      requires sizes.Consistent() && sizes.byThread == map[]
      modifies sizes
      ensures sizes.Consistent() && sizes.clamped == old(sizes.clamped)
      ensures sizes.byThread == Recount(Store(storage, map[], map[]))
    {
      hide Recount, AddRow, Total, TotalBytes, TotalCount, SpacesBytes, SpacesCount;
      ghost var part := Store(map[], map[], map[]);
      EmptyRecount(part);
      var threads := storage.Keys;
      while threads != {}
        invariant sizes.Consistent() && sizes.clamped == old(sizes.clamped)
        invariant threads <= storage.Keys && part == Store(storage - threads, map[], map[])
        invariant sizes.byThread == Recount(part)
        decreases threads
      {
        var t :| t in threads;
        ghost var next := part.(storage := part.storage[t := storage[t]]);
        ThreadTracked(part, next, t);
        TrackThread(t, storage[t]);
        threads := threads - {t};
        part := next;
      }
      assert part.storage == storage;
    }

    method TrackWrites()
      requires sizes.Consistent() && sizes.byThread == Recount(Store(storage, map[], map[]))
      modifies sizes
      ensures sizes.Consistent() && sizes.clamped == old(sizes.clamped)
      ensures sizes.byThread == Recount(Store(storage, writes, map[]))
    {
      hide Recount, SetRow, Row, Total, TotalBytes, TotalCount, GroupSize;
      ghost var part := Store(storage, map[], map[]);
      var groups := writes.Keys;
      while groups != {}
        invariant sizes.Consistent() && sizes.clamped == old(sizes.clamped)
        invariant groups <= writes.Keys && part == Store(storage, writes - groups, map[])
        invariant sizes.byThread == Recount(part)
        decreases groups
      {
        var k :| k in groups;
        var size := MeasureGroup(k.id, writes[k]);
        ghost var next := part.(writes := part.writes[k := writes[k]]);
        GroupTracked(part, next, k);
        sizes.Adjust(k.thread, size, 0);
        groups := groups - {k};
        part := next;
      }
      assert part.writes == writes;
    }

    method TrackBlobs()
      requires sizes.Consistent() && sizes.byThread == Recount(Store(storage, writes, map[]))
      modifies sizes
      ensures sizes.Consistent() && sizes.clamped == old(sizes.clamped)
      ensures sizes.byThread == Recount(Store(storage, writes, blobs))
    {
      hide Recount, SetRow, Row, Total, TotalBytes, TotalCount;
      ghost var part := Store(storage, writes, map[]);
      var keys := blobs.Keys;
      while keys != {}
        invariant sizes.Consistent() && sizes.clamped == old(sizes.clamped)
        invariant keys <= blobs.Keys && part == Store(storage, writes, blobs - keys)
        invariant sizes.byThread == Recount(part)
        decreases keys
      {
        var k :| k in keys;
        ghost var next := part.(blobs := part.blobs[k := blobs[k]]);
        BlobTracked(part, next, k);
        sizes.Adjust(k.thread, BlobSize(k, blobs[k]), 0);
        keys := keys - {k};
        part := next;
      }
      assert part.blobs == blobs;
    }

    /** Rebuild from scratch, whatever the table held before. */
    method RebuildSizeTracking()
      modifies sizes
      ensures sizes.Consistent() && sizes.clamped == old(sizes.clamped)
      ensures sizes.byThread == Recount(Contents())
    {
      hide Recount, Total, TotalBytes, TotalCount;
      sizes.Clear();
      TrackStorage();
      TrackWrites();
      TrackBlobs();
    }

    /** The targeted checkpoints no survivor needs. */
    method RemovableTargets(runs: set<string>) returns (removed: set<CheckpointKey>)
      ensures forall k :: k in removed <==> Removed(Contents(), runs, k)
      ensures forall k :: k in removed ==> Stored(storage, k)
      ensures runs == {} ==> removed == {}
    {
      hide Targets, StoredKeys, Removed, Needs;
      var candidates := Targets(storage, runs);
      var protected := ProtectedTargets(Store(storage, writes, blobs), candidates);
      removed := candidates - protected;
      forall k ensures k in removed <==> Removed(Contents(), runs, k) {
        RemovedIsUnprotected(Contents(), runs, k);
      }
      if runs == {} { NoTargets(storage); }
    }

    /** `delete_for_runs`. */
    method DeleteForRuns(runIds: seq<string>)
      requires Valid()
      modifies this, sizes
      ensures Valid()
      ensures Contents() == RunsDeleted(old(Contents()), set r | r in runIds)
    {
      hide Recount, Total, TotalBytes, TotalCount, RunsDeleted, Removed, IsWithout, NonEmpty, UsedAnywhere, Stored,
        AnyRefers;
      ghost var before := Contents();
      var runs := set r | r in runIds;
      var removed := RemovableTargets(runs);
      if removed == {} {
        forall k ensures !Removed(before, runs, k) {
          assert k !in removed;
        }
        NothingRemoved(before, runs);
        return;
      }
      var rest, orphans := DeleteEntries(storage, removed);
      storage := NonEmpty(rest);
      writes := map k | k in writes && k !in removed :: writes[k];
      blobs := map b | b in blobs && !(b in orphans && !UsedAnywhere(storage, b)) :: blobs[b];
      DeletedByPhases(before, Contents(), runs, rest, removed, orphans);
      RebuildSizeTracking();
    }
  }

  lemma EntriesGrow(done: map<string, Entry>, id: string, es: map<string, Entry>)
    ensures EntriesBytes(done) >= 0 && (done == map[] ==> EntriesBytes(done) == 0)
    ensures id in es && id !in done ==>
              EntriesBytes(done[id := es[id]]) == EntriesBytes(done) + EntrySize(id, es[id])
  {
    TotalNonNegative(done, EntrySize);
    if id in es && id !in done {
      TotalAdd(done, EntrySize, id, es[id]);
    }
  }

  lemma ThreadTracked(part: Store, next: Store, t: string)
    requires t !in part.storage && part.writes == map[] && part.blobs == map[]
    requires t in next.storage && next == part.(storage := part.storage[t := next.storage[t]])
    ensures Recount(next) == AddRow(Recount(part), t, SpacesBytes(next.storage[t]), SpacesCount(next.storage[t]))
  {
    hide Recount, SetRow, SpacesBytes, SpacesCount;
    RecountRow(part, t);
    OnlyOneRowMoves(part, next, t);
    assert SpacesOf(part, t) == map[];
    NothingKept(t, map[], map[], map[]);
  }

  lemma GroupTracked(part: Store, next: Store, k: CheckpointKey)
    requires k !in part.writes && k in next.writes
    requires next == part.(writes := part.writes[k := next.writes[k]])
    ensures Accounted(part, next, k.thread, GroupSize(k.id, next.writes[k]), 0)
  {
    hide Accounted, Total, SpacesBytes, SpacesCount, BlobsBytes, GroupSize;
    TotalAdd(part.writes, GroupShare(k.thread), k, next.writes[k]);
    AdjustmentIsExact(part, next, k.thread, GroupSize(k.id, next.writes[k]), 0);
  }

  lemma BlobTracked(part: Store, next: Store, k: BlobKey)
    requires k !in part.blobs && k in next.blobs
    requires next == part.(blobs := part.blobs[k := next.blobs[k]])
    ensures Accounted(part, next, k.thread, BlobSize(k, next.blobs[k]), 0)
  {
    hide Accounted, Total, SpacesBytes, SpacesCount, WritesBytes;
    TotalAdd(part.blobs, BlobShare(k.thread), k, next.blobs[k]);
    AdjustmentIsExact(part, next, k.thread, BlobSize(k, next.blobs[k]), 0);
  }
}
