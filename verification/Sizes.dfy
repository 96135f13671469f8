/** Byte accounting for checkpoint stores: the recount from scratch, the cached
    per-thread table, and how single changes move both. */
module Sizes {
  import opened Prelude
  import opened History
  import opened Stores

  /** `len(s.encode())`. */
  function Utf8Len(s: string): nat {
    if s == "" then 0
    else
      (if s[0] as int < 0x80 then 1 else if s[0] as int < 0x800 then 2 else if s[0] as int < 0x1_0000 then 3 else 4)
      + Utf8Len(s[1..])
  }

  function PayloadSize(p: Payload): nat {
    Utf8Len(p.tag) + |p.data|
  }

  function EntrySize(id: string, e: Entry): (r: int)
    ensures r >= 0
  {
    Utf8Len(id) + e.checkpointBytes + e.metadataBytes
    + if e.parent.Some? then Utf8Len(e.parent.value) else 0
  }

  function WriteSize(k: (string, int), w: Write): (r: int)
    ensures r >= 0
  {
    Utf8Len(k.0) + |IntText(k.1)| + Utf8Len(w.task) + Utf8Len(w.channel) + PayloadSize(w.value) + Utf8Len(w.path)
  }

  function BlobSize(k: BlobKey, p: Payload): nat {
    Utf8Len(k.channel) + Utf8Len(k.version) + PayloadSize(p)
  }

  ghost function WritesSize(g: Group): int {
    Total(g, WriteSize)
  }

  /** An empty group owns nothing: readers create them as a side effect. */
  ghost function GroupSize(id: string, g: Group): int {
    if g == map[] then 0 else Utf8Len(id) + WritesSize(g)
  }

  // ------------------------------------------------------- sizes by parts

  /** What `_component_size` measures. */
  datatype Component = Missing | Text(s: string) | Bytes(n: nat) | Number(i: int)

  function ComponentSize(c: Component): nat {
    match c
    case Missing => 0
    case Text(s) => Utf8Len(s)
    case Bytes(n) => n
    case Number(i) => |IntText(i)|
  }

  function PartsSize(parts: seq<Component>): nat {
    if parts == [] then 0 else ComponentSize(parts[0]) + PartsSize(parts[1..])
  }

  lemma PartsOf(c: Component, rest: seq<Component>)
    ensures PartsSize([c] + rest) == ComponentSize(c) + PartsSize(rest)
  {
    assert ([c] + rest)[1..] == rest;
  }

  /** A checkpoint weighs its id, its two payloads and its parent id, if any. */
  lemma EntrySizeByParts(id: string, e: Entry)
    ensures EntrySize(id, e) == PartsSize(
              [Text(id)] + ([Bytes(e.checkpointBytes)] + ([Bytes(e.metadataBytes)] +
              ([if e.parent.Some? then Text(e.parent.value) else Missing] + []))))
  {
    var parent := if e.parent.Some? then Text(e.parent.value) else Missing;
    PartsOf(parent, []);
    PartsOf(Bytes(e.metadataBytes), [parent] + []);
    PartsOf(Bytes(e.checkpointBytes), [Bytes(e.metadataBytes)] + ([parent] + []));
    PartsOf(Text(id), [Bytes(e.checkpointBytes)] + ([Bytes(e.metadataBytes)] + ([parent] + [])));
  }

  /** A blob weighs its channel, version, type tag and bytes. */
  lemma BlobSizeByParts(k: BlobKey, p: Payload)
    ensures BlobSize(k, p) ==
            PartsSize([Text(k.channel)] + ([Text(k.version)] + ([Text(p.tag)] + ([Bytes(|p.data|)] + []))))
  {
    PartsOf(Bytes(|p.data|), []);
    PartsOf(Text(p.tag), [Bytes(|p.data|)] + []);
    PartsOf(Text(k.version), [Text(p.tag)] + ([Bytes(|p.data|)] + []));
    PartsOf(Text(k.channel), [Text(k.version)] + ([Text(p.tag)] + ([Bytes(|p.data|)] + [])));
  }

  /** A write weighs both parts of its key, its task, channel, type tag, bytes and
      path. */
  lemma WriteSizeByParts(k: (string, int), w: Write)
    ensures WriteSize(k, w) == PartsSize([Text(k.0)] + ([Number(k.1)] + ([Text(w.task)] + ([Text(w.channel)] +
              ([Text(w.value.tag)] + ([Bytes(|w.value.data|)] + ([Text(w.path)] + [])))))))
  {
    var path := [Text(w.path)] + [];
    var data := [Bytes(|w.value.data|)] + path;
    var tag := [Text(w.value.tag)] + data;
    var channel := [Text(w.channel)] + tag;
    var task := [Text(w.task)] + channel;
    PartsOf(Text(w.path), []);
    PartsOf(Bytes(|w.value.data|), path);
    PartsOf(Text(w.value.tag), data);
    PartsOf(Text(w.channel), tag);
    PartsOf(Text(w.task), channel);
    PartsOf(Number(k.1), task);
    PartsOf(Text(k.0), [Number(k.1)] + task);
  }

  /** How many characters are at or above a code point. */
  function CountFrom(s: string, point: nat): nat {
    if s == "" then 0 else (if s[0] as int >= point then 1 else 0) + CountFrom(s[1..], point)
  }

  /** UTF-8: a byte for each character, and one more from each of the code points
      0x80, 0x800 and 0x10000 on. */
  lemma {:induction false} Utf8ByRanges(s: string)
    ensures Utf8Len(s) == |s| + CountFrom(s, 0x80) + CountFrom(s, 0x800) + CountFrom(s, 0x1_0000)
  {
    if s != "" { Utf8ByRanges(s[1..]); }
  }

  /** The first write of a group brings in the checkpoint id, every further one only
      itself; an empty group weighs nothing. */
  lemma GroupSizeByWrites(id: string, g: Group, k: (string, int), w: Write)
    requires k !in g
    ensures GroupSize(id, map[]) == 0
    ensures GroupSize(id, g[k := w]) == WriteSize(k, w) + if g == map[] then Utf8Len(id) else GroupSize(id, g)
  {
    TotalAdd(g, WriteSize, k, w);
  }

  // ------------------------------------------------- recount from scratch

  ghost function EntriesBytes(es: map<string, Entry>): int {
    Total(es, EntrySize)
  }

  ghost function SpaceBytes(ns: string, es: map<string, Entry>): int { EntriesBytes(es) }

  ghost function SpaceCount(ns: string, es: map<string, Entry>): int { |es| }

  ghost function SpacesBytes(spaces: Spaces): int {
    Total(spaces, SpaceBytes)
  }

  ghost function SpacesCount(spaces: Spaces): int {
    Total(spaces, SpaceCount)
  }

  /** What a write group or a blob contributes to thread `t`. */
  ghost function GroupShare(t: string): (CheckpointKey, Group) -> int {
    (k: CheckpointKey, g: Group) => if k.thread == t then GroupSize(k.id, g) else 0
  }

  ghost function BlobShare(t: string): (BlobKey, Payload) -> int {
    (k: BlobKey, p: Payload) => if k.thread == t then BlobSize(k, p) else 0
  }

  ghost function WritesBytes(writes: map<CheckpointKey, Group>, t: string): int {
    Total(writes, GroupShare(t))
  }

  ghost function BlobsBytes(blobs: map<BlobKey, Payload>, t: string): int {
    Total(blobs, BlobShare(t))
  }

  function SpacesOf(st: Store, t: string): Spaces {
    if t in st.storage then st.storage[t] else map[]
  }

  ghost function ThreadBytes(st: Store, t: string): int {
    SpacesBytes(SpacesOf(st, t)) + WritesBytes(st.writes, t) + BlobsBytes(st.blobs, t)
  }

  ghost function ThreadCount(st: Store, t: string): int {
    SpacesCount(SpacesOf(st, t))
  }

  type Table = map<string, (int, int)>

  ghost function Threads(st: Store): set<string> {
    st.storage.Keys + (set k | k in st.writes :: k.thread) + (set k | k in st.blobs :: k.thread)
  }

  /** The table `_rebuild_size_tracking` arrives at. */
  ghost function Recount(st: Store): Table {
    map t | t in Threads(st) && (ThreadBytes(st, t), ThreadCount(st, t)) != (0, 0)
      :: (ThreadBytes(st, t), ThreadCount(st, t))
  }

  /** Rows with nothing in them are not stored. */
  function SetRow(table: Table, t: string, size: int, count: int): Table {
    if size != 0 || count != 0 then table[t := (size, count)] else table - {t}
  }

  function Row(table: Table, t: string): (int, int) {
    if t in table then table[t] else (0, 0)
  }

  function RowSize(t: string, row: (int, int)): int { row.0 }

  function RowCount(t: string, row: (int, int)): int { row.1 }

  ghost function TotalBytes(table: Table): int {
    Total(table, RowSize)
  }

  ghost function TotalCount(table: Table): int {
    Total(table, RowCount)
  }

  lemma EntriesSplit(es: map<string, Entry>, keep: set<string>)
    ensures EntriesBytes(es) == EntriesBytes(Only(es, keep)) + EntriesBytes(es - keep)
    ensures |es| == |Only(es, keep)| + |es - keep|
  {
    TotalSplit(es, EntrySize, keep);
    SizeSplit(es, keep);
  }

  // ------------------------------------------------------ the cached table

  lemma GroupSizeNonNegative(id: string, g: Group)
    ensures GroupSize(id, g) >= 0
  {
    assert forall k :: k in g ==> WriteSize(k, g[k]) >= 0;
    TotalNonNegative(g, WriteSize);
  }

  lemma ThreadBytesNonNegative(st: Store, t: string)
    ensures ThreadBytes(st, t) >= 0 && ThreadCount(st, t) >= 0
  {
    var spaces := SpacesOf(st, t);
    forall ns | ns in spaces ensures EntriesBytes(spaces[ns]) >= 0 {
      assert forall id :: id in spaces[ns] ==> EntrySize(id, spaces[ns][id]) >= 0;
      TotalNonNegative(spaces[ns], EntrySize);
    }
    TotalNonNegative(spaces, SpaceBytes);
    TotalNonNegative(spaces, SpaceCount);
    forall k | k in st.writes ensures GroupSize(k.id, st.writes[k]) >= 0 {
      GroupSizeNonNegative(k.id, st.writes[k]);
    }
    TotalNonNegative(st.writes, GroupShare(t));
    TotalNonNegative(st.blobs, BlobShare(t));
  }

  lemma UnknownThreadIsEmpty(st: Store, t: string)
    requires t !in Threads(st)
    ensures ThreadBytes(st, t) == 0 && ThreadCount(st, t) == 0
  {
    forall k | k in st.writes ensures GroupShare(t)(k, st.writes[k]) == 0 {
      assert k.thread in Threads(st);
    }
    forall k | k in st.blobs ensures BlobShare(t)(k, st.blobs[k]) == 0 {
      assert k.thread in Threads(st);
    }
    TotalZero(st.writes, GroupShare(t));
    TotalZero(st.blobs, BlobShare(t));
  }

  /** The recount row of every thread. */
  lemma RecountRow(st: Store, t: string)
    ensures Row(Recount(st), t) == (ThreadBytes(st, t), ThreadCount(st, t))
  {
    if t !in Threads(st) {
      UnknownThreadIsEmpty(st, t);
    }
  }

  lemma RowsDetermineTable(r: Table, r': Table)
    requires forall u :: Row(r, u) == Row(r', u)
    requires forall u :: u in r ==> r[u] != (0, 0)
    requires forall u :: u in r' ==> r'[u] != (0, 0)
    ensures r == r'
  {
    forall u ensures u in r <==> u in r' {
      assert Row(r, u) == Row(r', u);
    }
    forall u | u in r ensures r[u] == r'[u] {
      assert Row(r, u) == Row(r', u);
    }
  }

  /** A change confined to thread `t` replaces one row of the recount. */
  lemma RecountChange(st: Store, st': Store, t: string)
    requires forall u :: u != t ==>
               ThreadBytes(st', u) == ThreadBytes(st, u) && ThreadCount(st', u) == ThreadCount(st, u)
    ensures Recount(st') == SetRow(Recount(st), t, ThreadBytes(st', t), ThreadCount(st', t))
  {
    var r, r' := SetRow(Recount(st), t, ThreadBytes(st', t), ThreadCount(st', t)), Recount(st');
    forall u ensures Row(r, u) == Row(r', u) {
      RecountRow(st, u);
      RecountRow(st', u);
    }
    RowsDetermineTable(r, r');
  }

  /** Row `t` increased. */
  function AddRow(table: Table, t: string, size: int, count: int): Table {
    SetRow(table, t, Row(table, t).0 + size, Row(table, t).1 + count)
  }

  lemma AddRowTwice(table: Table, t: string, size: int, count: int, size': int, count': int)
    ensures AddRow(AddRow(table, t, size, count), t, size', count') == AddRow(table, t, size + size', count + count')
  {
  }

  lemma AddRowNothing(table: Table, t: string)
    requires forall u :: u in table ==> table[u] != (0, 0)
    ensures AddRow(table, t, 0, 0) == table
  {
  }

  lemma AddRowIsAdjust(table: Table, t: string, size: int, count: int)
    requires forall u :: u in table ==> table[u].0 >= 0 && table[u].1 >= 0
    requires size >= 0 && count >= 0
    ensures Row(table, t).0 >= 0 && Row(table, t).1 >= 0
    ensures AddRow(table, t, size, count) ==
            SetRow(table, t, Max(0, Row(table, t).0 + size), Max(0, Row(table, t).1 + count))
  {
  }

  /** Records of other threads have no weight. */
  lemma OtherThreadsBytes(st: Store, st': Store, t: string, u: string)
    requires OtherThreadsSame(st, st', {t}) && u != t
    ensures ThreadBytes(st', u) == ThreadBytes(st, u) && ThreadCount(st', u) == ThreadCount(st, u)
  {
    assert Lookup(st'.storage, u) == Lookup(st.storage, u);
    forall k: CheckpointKey | k.thread == u ensures Lookup(st'.writes, k) == Lookup(st.writes, k) {}
    forall k: BlobKey | k.thread == u ensures Lookup(st'.blobs, k) == Lookup(st.blobs, k) {}
    TotalFrame(st.writes, st'.writes, GroupShare(u));
    TotalFrame(st.blobs, st'.blobs, BlobShare(u));
  }

  lemma OnlyOneRowMoves(st: Store, st': Store, t: string)
    requires OtherThreadsSame(st, st', {t})
    ensures Recount(st') == SetRow(Recount(st), t, ThreadBytes(st', t), ThreadCount(st', t))
  {
    forall u | u != t
      ensures ThreadBytes(st', u) == ThreadBytes(st, u) && ThreadCount(st', u) == ThreadCount(st, u)
    {
      OtherThreadsBytes(st, st', t, u);
    }
    RecountChange(st, st', t);
  }

  /** Moving row `t` of the recount of `st` by the deltas, without clamping, gives
      the recount of `after`. */
  ghost predicate Accounted(st: Store, after: Store, t: string, size: int, count: int) {
    var (s, c) := Row(Recount(st), t);
    && s + size >= 0 && c + count >= 0
    && Recount(after) == SetRow(Recount(st), t, Max(0, s + size), Max(0, c + count))
  }

  /** Adjusting the row of `t` by the true difference keeps the table equal to the
      recount, and no clamp is needed. */
  lemma AdjustmentIsExact(st: Store, st': Store, t: string, size: int, count: int)
    requires OtherThreadsSame(st, st', {t})
    requires ThreadBytes(st', t) == ThreadBytes(st, t) + size
    requires ThreadCount(st', t) == ThreadCount(st, t) + count
    ensures Accounted(st, st', t, size, count)
  {
    RecountRow(st, t);
    ThreadBytesNonNegative(st', t);
    OnlyOneRowMoves(st, st', t);
  }

  /** Totals move with the row. */
  lemma TotalsChange(table: Table, t: string, size: int, count: int)
    ensures TotalBytes(SetRow(table, t, size, count)) == TotalBytes(table) - Row(table, t).0 + size
    ensures TotalCount(SetRow(table, t, size, count)) == TotalCount(table) - Row(table, t).1 + count
  {
    if t in table {
      TotalChange(table, RowSize, t, (size, count));
      TotalChange(table, RowCount, t, (size, count));
    } else {
      TotalAdd(table, RowSize, t, (size, count));
      TotalAdd(table, RowCount, t, (size, count));
      assert table - {t} == table;
    }
  }

  /** `_CheckpointSizeState`: two integers per thread and two totals. */
  class CheckpointSizeState {
    var byThread: Table
    var totalBytes: int
    var totalCheckpoints: int
    /** Whether the `max(0, ...)` of `Adjust` ever changed a value. */
    ghost var clamped: bool

    ghost predicate Consistent()
      reads this
    {
      && totalBytes == TotalBytes(byThread)
      && totalCheckpoints == TotalCount(byThread)
      && forall t :: t in byThread ==>
           byThread[t].0 >= 0 && byThread[t].1 >= 0 && byThread[t] != (0, 0)
    }

    constructor ()
      ensures Consistent() && byThread == map[] && !clamped
    {
      byThread, totalBytes, totalCheckpoints, clamped := map[], 0, 0, false;
    }

    method Adjust(t: string, sizeDelta: int, countDelta: int)
      requires Consistent()
      modifies this
      ensures Consistent()
      ensures var (size, count) := Row(old(byThread), t);
              && byThread == SetRow(old(byThread), t, Max(0, size + sizeDelta), Max(0, count + countDelta))
              && clamped == (old(clamped) || size + sizeDelta < 0 || count + countDelta < 0)
    {
      var (oldSize, oldCount) := Row(byThread, t);
      var newSize := Max(0, oldSize + sizeDelta);
      var newCount := Max(0, oldCount + countDelta);
      clamped := clamped || oldSize + sizeDelta < 0 || oldCount + countDelta < 0;
      TotalsChange(byThread, t, newSize, newCount);
      totalBytes := totalBytes + newSize - oldSize;
      totalCheckpoints := totalCheckpoints + newCount - oldCount;
      if newSize != 0 || newCount != 0 {
        byThread := byThread[t := (newSize, newCount)];
      } else {
        byThread := byThread - {t};
      }
    }

    method RemoveThread(t: string) returns (size: int)
      requires Consistent()
      modifies this
      ensures Consistent() && clamped == old(clamped)
      ensures byThread == SetRow(old(byThread), t, 0, 0)
      ensures size == old(totalBytes) - totalBytes
    {
      var (oldSize, oldCount) := Row(byThread, t);
      TotalsChange(byThread, t, 0, 0);
      size := oldSize;
      byThread := byThread - {t};
      totalBytes := totalBytes - size;
      totalCheckpoints := totalCheckpoints - oldCount;
    }

    /** After the runtime copied all records of `source` to `target`. */
    method CopyThread(source: string, target: string)
      requires Consistent()
      modifies this
      ensures Consistent() && clamped == old(clamped)
      ensures var (size, count) := Row(old(byThread), source);
              byThread == SetRow(old(byThread), target, size, count)
    {
      var (oldSize, oldCount) := Row(byThread, target);
      var (newSize, newCount) := Row(byThread, source);
      TotalsChange(byThread, target, newSize, newCount);
      totalBytes := totalBytes + newSize - oldSize;
      totalCheckpoints := totalCheckpoints + newCount - oldCount;
      if newSize != 0 || newCount != 0 {
        byThread := byThread[target := (newSize, newCount)];
      } else {
        byThread := byThread - {target};
      }
    }

    method Clear()
      modifies this
      ensures Consistent() && byThread == map[] && clamped == old(clamped)
    {
      byThread, totalBytes, totalCheckpoints := map[], 0, 0;
    }
  }
}
