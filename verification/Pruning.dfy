/** The phases of a keep-latest prune. */
module Pruning {
  import opened Prelude
  import opened History
  import opened Stores
  import opened Sizes
  import opened Walks
  import opened BaseSaver

  /** First phase of keep-latest: decide, namespace by namespace, what to keep. */
  method PruneSpaces(t: string, spaces: Spaces, writes: map<CheckpointKey, Group>, blobs: map<BlobKey, Payload>)
    returns (kept: Spaces, keptWrites: set<CheckpointKey>, keptBlobs: set<BlobKey>, size: int, count: int)
    ensures kept == KeptSpaces(t, spaces, writes, blobs)
    ensures keptWrites == GroupKeys(t, kept)
    ensures keptBlobs == BlobKeys(t, kept)
    ensures size == SpacesBytes(spaces) - SpacesBytes(kept)
    ensures count == SpacesCount(spaces) - SpacesCount(kept)
  {
    hide SpacesBytes, SpacesCount, EntriesBytes, KeptSpaces, Keep, GroupKeys, BlobKeys, UsedKeys;
    kept, keptWrites, keptBlobs, size, count := map[], {}, {}, 0, 0;
    var todo := spaces.Keys;
    ghost var done: Spaces := map[];
    NothingKept(t, kept, writes, blobs);
    while todo != {}
      invariant todo <= spaces.Keys && done == spaces - todo
      invariant kept.Keys <= done.Keys
      invariant kept == KeptSpaces(t, done, writes, blobs)
      invariant keptWrites == GroupKeys(t, kept)
      invariant keptBlobs == BlobKeys(t, kept)
      invariant size == SpacesBytes(done) - SpacesBytes(kept)
      invariant count == SpacesCount(done) - SpacesCount(kept)
      decreases todo
    {
      var ns :| ns in todo;
      var checkpoints := spaces[ns];
      SpacesGrow(done, ns, checkpoints);
      KeptSpacesGrow(t, done, ns, checkpoints, writes, blobs);
      if checkpoints != map[] {
        var keep := KeepIds(View(t, ns, checkpoints, writes, blobs));
        var goneSize, goneCount := MeasureRemoved(checkpoints, keep);
        var rest := Only(checkpoints, keep);
        SpacesGrow(kept, ns, rest);
        KeysGrow(t, kept, ns, rest);
        size, count := size + goneSize, count + goneCount;
        kept := kept[ns := rest];
        keptWrites := keptWrites + set id | id in rest :: CheckpointKey(t, ns, id);
        keptBlobs := keptBlobs + UsedKeys(t, ns, rest);
      }
      todo := todo - {ns};
      done := done[ns := checkpoints];
    }
    assert done == spaces;
  }

  lemma NothingKept(t: string, none: Spaces, writes: map<CheckpointKey, Group>, blobs: map<BlobKey, Payload>)
    requires none == map[]
    ensures KeptSpaces(t, none, writes, blobs) == none
    ensures GroupKeys(t, none) == {} && BlobKeys(t, none) == {}
    ensures SpacesBytes(none) == 0 && SpacesCount(none) == 0
  {
  }

  function UsedKeys(t: string, ns: string, es: map<string, Entry>): set<BlobKey> {
    set id, c | id in es && c in es[id].versions :: BlobKey(t, ns, c, es[id].versions[c])
  }

  lemma SpacesGrow(spaces: Spaces, ns: string, es: map<string, Entry>)
    requires ns !in spaces
    ensures SpacesBytes(spaces[ns := es]) == SpacesBytes(spaces) + EntriesBytes(es)
    ensures SpacesCount(spaces[ns := es]) == SpacesCount(spaces) + |es|
    ensures es == map[] ==> EntriesBytes(es) == 0
  {
    TotalAdd(spaces, SpaceBytes, ns, es);
    TotalAdd(spaces, SpaceCount, ns, es);
  }

  lemma KeptSpacesGrow(t: string, done: Spaces, ns: string, es: map<string, Entry>,
                       writes: map<CheckpointKey, Group>, blobs: map<BlobKey, Payload>)
    requires ns !in done
    ensures KeptSpaces(t, done[ns := es], writes, blobs) ==
            if es == map[] then KeptSpaces(t, done, writes, blobs)
            else KeptSpaces(t, done, writes, blobs)[ns := Only(es, Keep(View(t, ns, es, writes, blobs)))]
  {
    hide Keep;
  }

  function GroupKeys(t: string, spaces: Spaces): set<CheckpointKey> {
    set ns, id | ns in spaces && id in spaces[ns] :: CheckpointKey(t, ns, id)
  }

  function BlobKeys(t: string, spaces: Spaces): set<BlobKey> {
    set ns, k | ns in spaces && k in UsedKeys(t, ns, spaces[ns]) :: k
  }

  lemma KeysGrow(t: string, kept: Spaces, ns: string, es: map<string, Entry>)
    requires ns !in kept
    ensures GroupKeys(t, kept[ns := es]) == GroupKeys(t, kept) + set id | id in es :: CheckpointKey(t, ns, id)
    ensures BlobKeys(t, kept[ns := es]) == BlobKeys(t, kept) + UsedKeys(t, ns, es)
  {
    hide UsedKeys;
    var now := kept[ns := es];
    forall k | k in BlobKeys(t, kept) ensures k in BlobKeys(t, now) {
      var n :| n in kept && k in UsedKeys(t, n, kept[n]);
      assert n in now && now[n] == kept[n];
    }
    forall k | k in UsedKeys(t, ns, es) ensures k in BlobKeys(t, now) {
      assert now[ns] == es;
    }
    forall k | k in GroupKeys(t, kept) ensures k in GroupKeys(t, now) {
      assert k.ns in now && now[k.ns] == kept[k.ns];
    }
    forall id | id in es ensures CheckpointKey(t, ns, id) in GroupKeys(t, now) {
      assert now[ns] == es;
    }
  }

  lemma BlobKeysAreUsed(t: string, spaces: Spaces, k: BlobKey)
    ensures k in BlobKeys(t, spaces) <==> k.thread == t && Uses(spaces, k)
  {
    if k in BlobKeys(t, spaces) {
      var ns :| ns in spaces && k in UsedKeys(t, ns, spaces[ns]);
      var id, c :| id in spaces[ns] && c in spaces[ns][id].versions
                   && k == BlobKey(t, ns, c, spaces[ns][id].versions[c]);
      assert UsedBy(spaces[ns][id], k);
    }
    if k.thread == t && Uses(spaces, k) {
      var id :| id in spaces[k.ns] && UsedBy(spaces[k.ns][id], k);
      assert k == BlobKey(t, k.ns, k.channel, spaces[k.ns][id].versions[k.channel]);
      assert k in UsedKeys(t, k.ns, spaces[k.ns]);
    }
  }

  /** The three phases together are the specified prune. */
  lemma PrunedByPhases(st: Store, after: Store, t: string)
    requires t in st.storage && st.storage[t] != map[]
    requires var kept := KeptSpaces(t, st.storage[t], st.writes, st.blobs);
             && after.storage == st.storage[t := kept]
             && after.writes == (map k | k in st.writes && (k.thread == t ==> k in GroupKeys(t, kept)) :: st.writes[k])
             && after.blobs == (map k | k in st.blobs && (k.thread == t ==> k in BlobKeys(t, kept)) :: st.blobs[k])
    ensures after == Pruned(st, t)
  {
    hide KeptSpaces, Uses, BlobKeys;
    var kept := KeptSpaces(t, st.storage[t], st.writes, st.blobs);
    forall k ensures k in BlobKeys(t, kept) <==> k.thread == t && Uses(kept, k) {
      BlobKeysAreUsed(t, kept, k);
    }
    forall k: CheckpointKey ensures k in GroupKeys(t, kept) <==> k.thread == t && k.ns in kept && k.id in kept[k.ns] {}
  }

  /** Second phase: drop the write groups of thread `t` that are not kept. */
  method DropWrites(writes: map<CheckpointKey, Group>, t: string, kept: set<CheckpointKey>)
    returns (rest: map<CheckpointKey, Group>, size: int)
    ensures rest == map k | k in writes && (k.thread == t ==> k in kept) :: writes[k]
    ensures size == WritesBytes(writes, t) - WritesBytes(rest, t)
  {
    rest, size := writes, 0;
    var todo := writes.Keys;
    while todo != {}
      invariant todo <= writes.Keys
      invariant rest == map k | k in writes && (k in todo || (k.thread == t ==> k in kept)) :: writes[k]
      invariant size == WritesBytes(writes, t) - WritesBytes(rest, t)
      decreases todo
    {
      var key :| key in todo;
      todo := todo - {key};
      if key.thread == t && key !in kept {
        var bytes := MeasureGroup(key.id, rest[key]);
        TotalChange(rest, GroupShare(t), key, rest[key]);
        size := size + bytes;
        rest := rest - {key};
      }
    }
  }

  /** Third phase: drop the blobs of thread `t` that are not kept. */
  method DropBlobs(blobs: map<BlobKey, Payload>, t: string, kept: set<BlobKey>)
    returns (rest: map<BlobKey, Payload>, size: int)
    ensures rest == map k | k in blobs && (k.thread == t ==> k in kept) :: blobs[k]
    ensures size == BlobsBytes(blobs, t) - BlobsBytes(rest, t)
  {
    rest, size := blobs, 0;
    var todo := blobs.Keys;
    while todo != {}
      invariant todo <= blobs.Keys
      invariant rest == map k | k in blobs && (k in todo || (k.thread == t ==> k in kept)) :: blobs[k]
      invariant size == BlobsBytes(blobs, t) - BlobsBytes(rest, t)
      decreases todo
    {
      var key :| key in todo;
      todo := todo - {key};
      if key.thread == t && key !in kept {
        TotalChange(rest, BlobShare(t), key, rest[key]);
        size := size + BlobSize(key, rest[key]);
        rest := rest - {key};
      }
    }
  }

  lemma NothingToPrune(st: Store, t: string)
    requires t !in st.storage || st.storage[t] == map[]
    ensures Pruned(st, t) == st
  {
  }

  lemma PruneAccounting(st: Store, after: Store, t: string, size: int, count: int)
    requires t in st.storage && t in after.storage && after == Pruned(st, t)
    requires size == SpacesBytes(after.storage[t]) - SpacesBytes(st.storage[t])
                     + WritesBytes(after.writes, t) - WritesBytes(st.writes, t)
                     + BlobsBytes(after.blobs, t) - BlobsBytes(st.blobs, t)
    requires count == SpacesCount(after.storage[t]) - SpacesCount(st.storage[t])
    ensures Accounted(st, after, t, size, count)
  {
    hide SpacesBytes, SpacesCount, WritesBytes, BlobsBytes, Accounted, Pruned, OtherThreadsSame;
    PruneIsConfined(st, t);
    AdjustmentIsExact(st, after, t, size, count);
  }

  lemma DeleteAccounting(st: Store, after: Store, t: string)
    requires after == WithoutThread(st, t)
    ensures Recount(after) == SetRow(Recount(st), t, 0, 0)
  {
    hide Recount, SetRow;
    OnlyOneRowMoves(st, after, t);
    UnknownThreadIsEmpty(after, t);
  }
}
