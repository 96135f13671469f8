/** What the base saver's `put` and `put_writes` store, and how the in-memory
    saver measures it. */
module BaseSaver {
  import opened Prelude
  import opened History
  import opened Stores
  import opened Sizes

  // ------------------------------------------------------------- measuring

  method MeasureGroup(id: string, g: Group) returns (size: int)
    ensures size == GroupSize(id, g)
  {
    if g == map[] { return 0; }
    size := Utf8Len(id);
    var todo := g.Keys;
    ghost var done: Group := map[];
    while todo != {}
      invariant todo <= g.Keys && done == g - todo
      invariant size == Utf8Len(id) + WritesSize(done)
      decreases todo
    {
      var k :| k in todo;
      size := size + WriteSize(k, g[k]);
      TotalAdd(done, WriteSize, k, g[k]);
      todo := todo - {k};
      done := done[k := g[k]];
    }
    assert done == g;
  }

  method MeasureEntries(es: map<string, Entry>) returns (size: int, count: int)
    ensures size == EntriesBytes(es) && count == |es|
  {
    size, count := 0, 0;
    var todo := es.Keys;
    ghost var done: map<string, Entry> := map[];
    while todo != {}
      invariant todo <= es.Keys && done == es - todo
      invariant size == EntriesBytes(done)
      invariant count == |es.Keys| - |todo|
      decreases todo
    {
      var id :| id in todo;
      size := size + EntrySize(id, es[id]);
      count := count + 1;
      TotalAdd(done, EntrySize, id, es[id]);
      assert es - (todo - {id}) == done[id := es[id]];
      todo := todo - {id};
      done := done[id := es[id]];
    }
    assert done == es;
    assert |es.Keys| == |es|;
  }

  /** Size and number of the entries outside `keep`. */
  method MeasureRemoved(es: map<string, Entry>, keep: set<string>) returns (size: int, count: int)
    ensures size == EntriesBytes(es) - EntriesBytes(Only(es, keep))
    ensures count == |es| - |Only(es, keep)|
  {
    size, count := MeasureEntries(es - keep);
    EntriesSplit(es, keep);
  }

  // ------------------------------------------------------------ base saver

  /** The base saver stores a missing value as an empty blob. */
  function BlobFor(values: map<string, Payload>, channel: string): Payload {
    if channel in values then values[channel] else Payload("empty", [])
  }

  function NewBlobs(t: string, ns: string, newVersions: map<string, string>, values: map<string, Payload>)
    : map<BlobKey, Payload>
  {
    map k | k in NewKeys(t, ns, newVersions) :: BlobFor(values, k.channel)
  }

  function NewKeys(t: string, ns: string, newVersions: map<string, string>): set<BlobKey> {
    set c | c in newVersions :: BlobKey(t, ns, c, newVersions[c])
  }

  /** Base `put`: one checkpoint entry, one blob per new version. */
  function WithCheckpoint(st: Store, t: string, ns: string, id: string, e: Entry,
                          newVersions: map<string, string>, values: map<string, Payload>): Store {
    Store(
      st.storage[t := SpacesOf(st, t)[ns := EntriesOf(st.storage, t, ns)[id := e]]],
      st.writes,
      st.blobs + NewBlobs(t, ns, newVersions, values))
  }

  /** Base `put_writes`: an ordinary write (index not negative) that is already
      there is kept. */
  function MergeGroup(g: Group, added: Group): Group {
    map k | k in g.Keys + added.Keys :: if k in g && (k.1 >= 0 || k !in added) then g[k] else added[k]
  }

  function WithWrites(st: Store, k: CheckpointKey, added: Group): Store {
    if added == map[] then st
    else st.(writes := st.writes[k := MergeGroup(if k in st.writes then st.writes[k] else map[], added)])
  }

  /** What a put leaves: the checkpoint, a blob for every new version, and all other
      checkpoints, blobs and writes as they were. */
  lemma PutStores(st: Store, t: string, ns: string, id: string, e: Entry,
                  newVersions: map<string, string>, values: map<string, Payload>)
    ensures var after := WithCheckpoint(st, t, ns, id, e, newVersions, values);
            && (forall u, m :: EntriesOf(after.storage, u, m) ==
                  if u == t && m == ns then EntriesOf(st.storage, t, ns)[id := e] else EntriesOf(st.storage, u, m))
            && (forall c :: c in newVersions ==>
                  Lookup(after.blobs, BlobKey(t, ns, c, newVersions[c])) ==
                  Some(if c in values then values[c] else Payload("empty", [])))
            && (forall k: BlobKey ::
                  !(k.thread == t && k.ns == ns && k.channel in newVersions && newVersions[k.channel] == k.version) ==>
                  Lookup(after.blobs, k) == Lookup(st.blobs, k))
            && after.writes == st.writes
  {
    forall c | c in newVersions ensures BlobKey(t, ns, c, newVersions[c]) in NewKeys(t, ns, newVersions) {}
  }

  /** Put then read: a channel whose new version has a value reads as that value. */
  lemma PutThenRead(st: Store, t: string, ns: string, id: string, e: Entry,
                    newVersions: map<string, string>, values: map<string, Payload>, c: string)
    requires c in newVersions && c in e.versions && e.versions[c] == newVersions[c]
    requires c in values && values[c].tag != "empty"
    ensures var after := WithCheckpoint(st, t, ns, id, e, newVersions, values);
            id in ViewOf(after, t, ns).entries && Reconstruct(ViewOf(after, t, ns), id, c) == Direct(values[c])
  {
    PutStores(st, t, ns, id, e, newVersions, values);
    hide WithCheckpoint;
    var after := WithCheckpoint(st, t, ns, id, e, newVersions, values);
    assert EntriesOf(after.storage, t, ns)[id] == e;
    assert Lookup(after.blobs, BlobKey(t, ns, c, newVersions[c])) == Some(values[c]);
  }

  /** What put_writes leaves: every added write, unless an ordinary one was already
      there, and everything else as it was. */
  lemma WritesAreMerged(st: Store, k: CheckpointKey, added: Group)
    ensures var after := WithWrites(st, k, added);
            && after.storage == st.storage && after.blobs == st.blobs
            && (forall j :: j != k ==> Lookup(after.writes, j) == Lookup(st.writes, j))
            && (forall w: (string, int) ::
                  WriteAt(after.writes, k, w) ==
                  if w in added && !(w.1 >= 0 && WriteAt(st.writes, k, w).Some?) then Some(added[w])
                  else WriteAt(st.writes, k, w))
  {
  }

  function WriteAt(writes: map<CheckpointKey, Group>, k: CheckpointKey, w: (string, int)): Option<Write> {
    if k in writes then Lookup(writes[k], w) else None
  }

  lemma EmptyRecount(st: Store)
    requires st == Store(map[], map[], map[])
    ensures Recount(st) == map[]
  {
  }

  lemma PutSpacesSize(st: Store, t: string, ns: string, id: string, e: Entry)
    ensures var es := EntriesOf(st.storage, t, ns);
            var after := SpacesOf(st, t)[ns := es[id := e]];
            && SpacesBytes(after) == SpacesBytes(SpacesOf(st, t)) + EntrySize(id, e)
                                     - (if id in es then EntrySize(id, es[id]) else 0)
            && SpacesCount(after) == SpacesCount(SpacesOf(st, t)) + (if id in es then 0 else 1)
  {
    var es := EntriesOf(st.storage, t, ns);
    var spaces := SpacesOf(st, t);
    if id in es {
      TotalChange(es, EntrySize, id, e);
      assert es[id := e].Keys == es.Keys;
      assert |es[id := e].Keys| == |es[id := e]| && |es.Keys| == |es|;
    } else {
      TotalAdd(es, EntrySize, id, e);
    }
    if ns in spaces {
      TotalChange(spaces, SpaceBytes, ns, es[id := e]);
      TotalChange(spaces, SpaceCount, ns, es[id := e]);
    } else {
      TotalAdd(spaces, SpaceBytes, ns, es[id := e]);
      TotalAdd(spaces, SpaceCount, ns, es[id := e]);
    }
  }

  lemma PutBlobsSize(blobs: map<BlobKey, Payload>, fresh': map<BlobKey, Payload>, t: string)
    ensures BlobsBytes(blobs + fresh', t) == BlobsBytes(blobs, t)
              - Total(Only(blobs, fresh'.Keys), BlobShare(t)) + Total(fresh', BlobShare(t))
  {
    TotalSplit(blobs, BlobShare(t), fresh'.Keys);
    TotalSplit(blobs + fresh', BlobShare(t), fresh'.Keys);
    assert Only(blobs + fresh', fresh'.Keys) == fresh';
    assert (blobs + fresh') - fresh'.Keys == blobs - fresh'.Keys;
  }

  lemma MeasureBlobsStep(blobs: map<BlobKey, Payload>, t: string, done: set<BlobKey>, key: BlobKey)
    requires key.thread == t && key !in done
    ensures Total(Only(blobs, done + {key}), BlobShare(t))
         == Total(Only(blobs, done), BlobShare(t)) + if key in blobs then BlobSize(key, blobs[key]) else 0
  {
    if key in blobs {
      TotalAdd(Only(blobs, done), BlobShare(t), key, blobs[key]);
      assert Only(blobs, done + {key}) == Only(blobs, done)[key := blobs[key]];
    } else {
      assert Only(blobs, done + {key}) == Only(blobs, done);
    }
  }

  /** The bytes of those blobs of `newVersions` that are stored. */
  method MeasureBlobs(blobs: map<BlobKey, Payload>, t: string, ns: string, newVersions: map<string, string>)
    returns (size: int)
    ensures size == Total(Only(blobs, NewKeys(t, ns, newVersions)), BlobShare(t))
  {
    size := 0;
    var todo := newVersions.Keys;
    ghost var done: set<BlobKey> := {};
    while todo != {}
      invariant todo <= newVersions.Keys
      invariant done == set c | c in newVersions && c !in todo :: BlobKey(t, ns, c, newVersions[c])
      invariant size == Total(Only(blobs, done), BlobShare(t))
      decreases todo
    {
      var channel :| channel in todo;
      var key := BlobKey(t, ns, channel, newVersions[channel]);
      MeasureBlobsStep(blobs, t, done, key);
      if key in blobs {
        size := size + BlobSize(key, blobs[key]);
      }
      todo := todo - {channel};
      done := done + {key};
    }
    assert done == NewKeys(t, ns, newVersions);
  }

  lemma PutMoves(st: Store, t: string, ns: string, id: string, e: Entry,
                 newVersions: map<string, string>, values: map<string, Payload>)
    ensures var es := EntriesOf(st.storage, t, ns);
            var keys := NewKeys(t, ns, newVersions);
            var after := WithCheckpoint(st, t, ns, id, e, newVersions, values);
            && ThreadBytes(after, t) == ThreadBytes(st, t)
                 + EntrySize(id, e) + Total(Only(after.blobs, keys), BlobShare(t))
                 - (if id in es then EntrySize(id, es[id]) else 0) - Total(Only(st.blobs, keys), BlobShare(t))
            && ThreadCount(after, t) == ThreadCount(st, t) + (if id in es then 0 else 1)
  {
    hide Total, SpacesBytes, SpacesCount, WritesBytes, BlobsBytes, BlobShare, EntrySize;
    var after := WithCheckpoint(st, t, ns, id, e, newVersions, values);
    var added := NewBlobs(t, ns, newVersions, values);
    assert added.Keys == NewKeys(t, ns, newVersions);
    PutSpacesSize(st, t, ns, id, e);
    PutBlobsSize(st.blobs, added, t);
    assert Only(after.blobs, added.Keys) == added;
  }

  /** The deltas `put` reports are the true differences. */
  lemma PutAccounting(st: Store, after: Store, t: string, ns: string, id: string, e: Entry,
                      newVersions: map<string, string>, values: map<string, Payload>, size: int, count: int)
    requires after == WithCheckpoint(st, t, ns, id, e, newVersions, values)
    requires size == EntrySize(id, e) + Total(Only(after.blobs, NewKeys(t, ns, newVersions)), BlobShare(t))
                     - (if Stored(st.storage, CheckpointKey(t, ns, id))
                        then EntrySize(id, EntriesOf(st.storage, t, ns)[id]) else 0)
                     - Total(Only(st.blobs, NewKeys(t, ns, newVersions)), BlobShare(t))
    requires count == if Stored(st.storage, CheckpointKey(t, ns, id)) then 0 else 1
    ensures Accounted(st, after, t, size, count)
  {
    hide Recount, ThreadBytes, ThreadCount;
    PutMoves(st, t, ns, id, e, newVersions, values);
    assert OtherThreadsSame(st, after, {t});
    AdjustmentIsExact(st, after, t, size, count);
  }

  lemma WritesMove(st: Store, after: Store, k: CheckpointKey, added: Group)
    requires after == WithWrites(st, k, added)
    ensures ThreadBytes(after, k.thread) == ThreadBytes(st, k.thread)
              + (if k in after.writes then GroupSize(k.id, after.writes[k]) else 0)
              - (if k in st.writes then GroupSize(k.id, st.writes[k]) else 0)
    ensures ThreadCount(after, k.thread) == ThreadCount(st, k.thread)
  {
    hide Total, SpacesBytes, SpacesCount, BlobsBytes, GroupSize, MergeGroup;
    if added != map[] {
      if k in st.writes {
        TotalChange(st.writes, GroupShare(k.thread), k, after.writes[k]);
      } else {
        TotalAdd(st.writes, GroupShare(k.thread), k, after.writes[k]);
      }
    }
  }

  lemma WritesAccounting(st: Store, after: Store, k: CheckpointKey, added: Group, size: int)
    requires after == WithWrites(st, k, added)
    requires size == (if k in after.writes then GroupSize(k.id, after.writes[k]) else 0)
                     - (if k in st.writes then GroupSize(k.id, st.writes[k]) else 0)
    ensures Accounted(st, after, k.thread, size, 0)
  {
    WritesMove(st, after, k, added);
    assert OtherThreadsSame(st, after, {k.thread});
    AdjustmentIsExact(st, after, k.thread, size, 0);
  }
}
