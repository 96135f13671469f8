/** `DiskBackedInMemStore`: items, their TTL records and the size tracker, under
    locked batches and sweeps. */
module ItemStore {
  import opened Prelude

  datatype ItemKey = ItemKey(namespace: seq<string>, key: string)

  /** A stored value with its vectors; `size` is its estimated pickle size. */
  datatype Item = Item(value: seq<bv8>, size: nat)

  datatype Record = Record(expiresAt: int, ttl: int)

  /** A put with no value deletes; a put with no ttl never expires. */
  datatype PutOp = PutOp(value: Option<Item>, ttl: Option<int>)

  // --------------------------------------------------------------- tracker

  function Bytes(k: ItemKey, size: int): int { size }

  /** `SizeTracker`: per-item estimates and their cached total. */
  class SizeTracker {
    var entries: map<ItemKey, int>
    var totalBytes: int

    ghost predicate Consistent()
      reads this
    {
      totalBytes == Total(entries, Bytes)
    }

    constructor ()
      ensures Consistent() && entries == map[]
    {
      entries, totalBytes := map[], 0;
    }

    method Clear()
      modifies this
      ensures Consistent() && entries == map[]
    {
      entries, totalBytes := map[], 0;
    }

    method SetSize(k: ItemKey, size: int)
      requires Consistent()
      modifies this
      ensures Consistent() && entries == old(entries)[k := Max(0, size)]
    {
      var newSize := Max(0, size);
      var oldSize := if k in entries then entries[k] else 0;
      if k in entries {
        TotalChange(entries, Bytes, k, newSize);
      } else {
        TotalAdd(entries, Bytes, k, newSize);
      }
      entries := entries[k := newSize];
      totalBytes := totalBytes + newSize - oldSize;
    }

    method Remove(k: ItemKey) returns (size: int)
      requires Consistent()
      modifies this
      ensures Consistent() && entries == old(entries) - {k}
      ensures size == (if k in old(entries) then old(entries)[k] else 0)
      ensures totalBytes == old(totalBytes) - size
    {
      size := if k in entries then entries[k] else 0;
      if k in entries {
        TotalChange(entries, Bytes, k, entries[k]);
      } else {
        assert entries - {k} == entries;
      }
      entries := entries - {k};
      totalBytes := totalBytes - size;
    }
  }

  // ---------------------------------------------------------- specification

  /** What a user of the store may rely on: an item, and when it was last written
      or refreshed, if it expires. */
  datatype Touch = Touch(at: int, ttl: int)
  datatype Kept = Kept(item: Item, touch: Option<Touch>)
  type Spec = map<ItemKey, Kept>

  datatype Step =
    | Refresh(keys: set<ItemKey>, now: int)
    | Apply(puts: map<ItemKey, PutOp>, now: int)
    | Sweep(now: int)

  predicate Expired(k: Kept, now: int) {
    k.touch.Some? && k.touch.value.at + k.touch.value.ttl <= now
  }

  function Refreshed(k: Kept, now: int): Kept {
    if k.touch.None? then k else k.(touch := Some(k.touch.value.(at := now)))
  }

  function Written(op: PutOp, now: int): Kept
    requires op.value.Some?
  {
    Kept(op.value.value, if op.ttl.None? then None else Some(Touch(now, op.ttl.value)))
  }

  function SpecNext(a: Spec, step: Step): Spec {
    match step
    case Refresh(keys, now) => map k | k in a :: if k in keys then Refreshed(a[k], now) else a[k]
    case Apply(puts, now) =>
      map k | k in a.Keys + puts.Keys && (k in puts ==> puts[k].value.Some?) ::
        if k in puts then Written(puts[k], now) else a[k]
    case Sweep(now) => map k | k in a && !Expired(a[k], now) :: a[k]
  }

  // ---------------------------------------------------------- stored state

  datatype Stored = Stored(items: map<ItemKey, Item>, ttl: map<ItemKey, Record>, tracked: map<ItemKey, int>, total: int)

  function Sizes(items: map<ItemKey, Item>): map<ItemKey, int> {
    map k | k in items :: items[k].size
  }

  function PutItems(items: map<ItemKey, Item>, puts: map<ItemKey, PutOp>): map<ItemKey, Item> {
    map k | k in items.Keys + puts.Keys && (k in puts ==> puts[k].value.Some?) ::
      if k in puts then puts[k].value.value else items[k]
  }

  function PutTtl(ttl: map<ItemKey, Record>, puts: map<ItemKey, PutOp>, now: int): map<ItemKey, Record> {
    map k | k in ttl.Keys + puts.Keys && (k in puts ==> puts[k].value.Some? && puts[k].ttl.Some?) ::
      if k in puts then Record(now + puts[k].ttl.value, puts[k].ttl.value) else ttl[k]
  }

  function RefreshTtl(ttl: map<ItemKey, Record>, keys: set<ItemKey>, now: int): map<ItemKey, Record> {
    map k | k in ttl :: if k in keys then Record(now + ttl[k].ttl, ttl[k].ttl) else ttl[k]
  }

  function Due(ttl: map<ItemKey, Record>, now: int): set<ItemKey> {
    set k | k in ttl && ttl[k].expiresAt <= now
  }

  ghost function Next(s: Stored, step: Step): Stored {
    match step
    case Refresh(keys, now) => s.(ttl := RefreshTtl(s.ttl, keys, now))
    case Apply(puts, now) =>
      var items := PutItems(s.items, puts);
      Stored(items, PutTtl(s.ttl, puts, now), Sizes(items), Total(Sizes(items), Bytes))
    case Sweep(now) =>
      var due := Due(s.ttl, now);
      Stored(s.items - due, s.ttl - due, s.tracked - due, Total(s.tracked - due, Bytes))
  }

  /** The stored state says what the specification says; tracked keys and sizes are
      those of the items, and the total is their sum. */
  ghost predicate Refines(s: Stored, a: Spec) {
    && s.items.Keys == a.Keys
    && (forall k :: k in a ==> s.items[k] == a[k].item)
    && (forall k :: k in s.ttl <==> k in a && a[k].touch.Some?)
    && (forall k :: k in s.ttl ==> s.ttl[k] == Record(a[k].touch.value.at + a[k].touch.value.ttl, a[k].touch.value.ttl))
    && s.tracked == Sizes(s.items)
    && s.total == Total(s.tracked, Bytes)
  }

  lemma RefinesRefresh(s: Stored, a: Spec, keys: set<ItemKey>, now: int)
    requires Refines(s, a)
    ensures Refines(Next(s, Refresh(keys, now)), SpecNext(a, Refresh(keys, now)))
  {
    hide Total;
  }

  lemma RefinesApply(s: Stored, a: Spec, puts: map<ItemKey, PutOp>, now: int)
    requires Refines(s, a)
    ensures Refines(Next(s, Apply(puts, now)), SpecNext(a, Apply(puts, now)))
  {
    hide Total, Sizes;
  }

  lemma RefinesSweep(s: Stored, a: Spec, now: int)
    requires Refines(s, a)
    ensures Refines(Next(s, Sweep(now)), SpecNext(a, Sweep(now)))
  {
    hide Total;
    var s', a' := Next(s, Sweep(now)), SpecNext(a, Sweep(now));
    forall k | k in a ensures Expired(a[k], now) <==> k in Due(s.ttl, now) {}
    assert s'.items.Keys == a'.Keys;
    assert s'.tracked == Sizes(s'.items);
  }

  lemma RefinesStep(s: Stored, a: Spec, step: Step)
    requires Refines(s, a)
    ensures Refines(Next(s, step), SpecNext(a, step))
  {
    hide Refines, Next, SpecNext;
    match step
    case Refresh(keys, now) => RefinesRefresh(s, a, keys, now);
    case Apply(puts, now) => RefinesApply(s, a, puts, now);
    case Sweep(now) => RefinesSweep(s, a, now);
  }

  function AfterSpec(a: Spec, steps: seq<Step>): Spec {
    if steps == [] then a else SpecNext(AfterSpec(a, steps[..|steps| - 1]), steps[|steps| - 1])
  }

  ghost function After(s: Stored, steps: seq<Step>): Stored {
    if steps == [] then s else Next(After(s, steps[..|steps| - 1]), steps[|steps| - 1])
  }

  /** What a store starts with: the loaded items and the TTL records that have one. */
  ghost function Loaded(items: map<ItemKey, Item>, ttl: map<ItemKey, Record>): Stored {
    Stored(items, Only(ttl, items.Keys), Sizes(items), Total(Sizes(items), Bytes))
  }

  /** The specification read from loaded records. */
  function LoadedSpec(items: map<ItemKey, Item>, ttl: map<ItemKey, Record>): Spec {
    map k | k in items ::
      Kept(items[k], if k in ttl then Some(Touch(ttl[k].expiresAt - ttl[k].ttl, ttl[k].ttl)) else None)
  }

  lemma LoadedRefines(items: map<ItemKey, Item>, ttl: map<ItemKey, Record>)
    ensures Refines(Loaded(items, ttl), LoadedSpec(items, ttl))
  {
    hide Total;
  }

  /** Main result: from any loaded records, after any run of batches and sweeps, the
      stored state refines the specification, in which a sweep deletes exactly the
      items whose last write or refresh plus their TTL is at or before now. */
  lemma {:induction false} StoreRefines(items: map<ItemKey, Item>, ttl: map<ItemKey, Record>, steps: seq<Step>)
    ensures Refines(After(Loaded(items, ttl), steps), AfterSpec(LoadedSpec(items, ttl), steps))
    decreases |steps|
  {
    hide Refines, Next, SpecNext, Loaded, LoadedSpec;
    if steps == [] {
      LoadedRefines(items, ttl);
    } else {
      var before := steps[..|steps| - 1];
      StoreRefines(items, ttl, before);
      RefinesStep(After(Loaded(items, ttl), before), AfterSpec(LoadedSpec(items, ttl), before), steps[|steps| - 1]);
    }
  }

  /** TTL records never outlive their items. */
  lemma TtlKeysAreItemKeys(items: map<ItemKey, Item>, ttl: map<ItemKey, Record>, steps: seq<Step>)
    ensures var s := After(Loaded(items, ttl), steps);
            s.ttl.Keys <= s.items.Keys && s.tracked.Keys == s.items.Keys
  {
    hide Loaded, LoadedSpec, After, AfterSpec;
    StoreRefines(items, ttl, steps);
  }

  /** Conservation: what a sweep deletes and what it leaves add up. */
  lemma SweepConserves(items: map<ItemKey, Item>, ttl: map<ItemKey, Record>, steps: seq<Step>, now: int)
    ensures var s := After(Loaded(items, ttl), steps);
            Total(Only(s.tracked, Due(s.ttl, now)), Bytes) + Next(s, Sweep(now)).total == s.total
  {
    hide Loaded, LoadedSpec, After, AfterSpec;
    StoreRefines(items, ttl, steps);
    var s := After(Loaded(items, ttl), steps);
    TotalSplit(s.tracked, Bytes, Due(s.ttl, now));
  }

  // --------------------------------------------------------------- the store

  class DiskBackedInMemStore {
    var items: map<ItemKey, Item>
    var ttl: map<ItemKey, Record>
    const tracker: SizeTracker

    ghost function State(): Stored
      reads this, tracker
    {
      Stored(items, ttl, tracker.entries, tracker.totalBytes)
    }

    ghost predicate Valid()
      reads this, tracker
    {
      tracker.Consistent() && tracker.entries == Sizes(items) && ttl.Keys <= items.Keys
    }

    /** A store over the records loaded from disk, empty on the first start: TTL
        records without an item are dropped and the sizes are rebuilt. */
    constructor (items: map<ItemKey, Item>, ttl: map<ItemKey, Record>)
      ensures Valid() && fresh(tracker) && State() == Loaded(items, ttl)
    {
      this.items, this.ttl := items, ttl;
      tracker := new SizeTracker();
      new;
      DropOrphanedTtlRecords();
      RebuildSizeTracking();
    }

    method DropOrphanedTtlRecords()
      modifies this`ttl
      ensures ttl == Only(old(ttl), items.Keys)
    {
      var todo := ttl.Keys;
      while todo != {}
        invariant todo <= old(ttl).Keys
        invariant ttl == map k | k in old(ttl) && (k in todo || k in items) :: old(ttl)[k]
        decreases todo
      {
        var k :| k in todo;
        if k !in items { ttl := ttl - {k}; }
        todo := todo - {k};
      }
    }

    method RebuildSizeTracking()
      requires tracker.Consistent()
      modifies tracker
      ensures tracker.Consistent() && tracker.entries == Sizes(items)
    {
      tracker.Clear();
      var todo := items.Keys;
      while todo != {}
        invariant todo <= items.Keys
        invariant tracker.Consistent() && tracker.entries == Sizes(items - todo)
        decreases todo
      {
        var k :| k in todo;
        TrackItem(k);
        todo := todo - {k};
      }
      assert items - todo == items;
    }

    /** `_refresh_ttl` for the items a get or search returned. */
    method RefreshKeys(keys: set<ItemKey>, now: int)
      requires Valid()
      modifies this
      ensures Valid() && State() == Next(old(State()), Refresh(keys, now))
    {
      var todo := keys;
      while todo != {}
        invariant todo <= keys && items == old(items)
        invariant ttl == RefreshTtl(old(ttl), keys - todo, now)
        decreases todo
      {
        var k :| k in todo;
        if k in ttl {
          ttl := ttl[k := Record(now + ttl[k].ttl, ttl[k].ttl)];
        }
        todo := todo - {k};
      }
      assert keys - todo == keys;
    }

    method TrackItem(k: ItemKey)
      requires tracker.Consistent()
      modifies tracker
      ensures tracker.Consistent()
      ensures tracker.entries ==
              if k in items then old(tracker.entries)[k := items[k].size] else old(tracker.entries) - {k}
    {
      if k !in items {
        var _ := tracker.Remove(k);
      } else {
        tracker.SetSize(k, items[k].size);
      }
    }

    method UpdateTtl(puts: map<ItemKey, PutOp>, now: int)
      modifies this`ttl
      ensures ttl == PutTtl(old(ttl), puts, now)
    {
      var todo := puts.Keys;
      while todo != {}
        invariant todo <= puts.Keys
        invariant ttl == PutTtl(old(ttl), puts - todo, now)
        decreases todo
      {
        var k :| k in todo;
        PutTtlOneMore(old(ttl), puts - todo, k, puts[k], now);
        if puts[k].value.None? || puts[k].ttl.None? {
          ttl := ttl - {k};
        } else {
          ttl := ttl[k := Record(now + puts[k].ttl.value, puts[k].ttl.value)];
        }
        assert puts - (todo - {k}) == (puts - todo)[k := puts[k]];
        todo := todo - {k};
      }
      assert puts - todo == puts;
    }

    method TrackPuts(puts: map<ItemKey, PutOp>, ghost before: map<ItemKey, Item>)
      requires tracker.Consistent() && tracker.entries == Sizes(before) && items == PutItems(before, puts)
      modifies tracker
      ensures tracker.Consistent() && tracker.entries == Sizes(items)
    {
      var todo := puts.Keys;
      while todo != {}
        invariant todo <= puts.Keys
        invariant tracker.Consistent()
        invariant tracker.entries == Sizes(PutItems(before, puts - todo))
        decreases todo
      {
        var k :| k in todo;
        PutItemsOneMore(before, puts - todo, k, puts[k]);
        assert puts - (todo - {k}) == (puts - todo)[k := puts[k]];
        TrackItem(k);
        todo := todo - {k};
      }
      assert puts - todo == puts;
    }

    /** `_apply_put_ops`. */
    method ApplyPuts(puts: map<ItemKey, PutOp>, now: int)
      requires Valid()
      modifies this, tracker
      ensures Valid() && State() == Next(old(State()), Apply(puts, now))
    {
      ghost var before := items;
      items := PutItems(items, puts);
      UpdateTtl(puts, now);
      TrackPuts(puts, before);
    }

    /** `sweep_ttl`: the number of deleted items and their bytes. */
    method SweepTtl(now: int) returns (deleted: nat, deletedSize: int)
      requires Valid()
      modifies this, tracker
      ensures Valid() && State() == Next(old(State()), Sweep(now))
      ensures deleted == |Due(old(ttl), now)|
      ensures deletedSize + tracker.totalBytes == old(tracker.totalBytes)
    {
      deleted, deletedSize := 0, 0;
      var due := Due(ttl, now);
      var todo := due;
      while todo != {}
        invariant todo <= due <= old(items).Keys
        invariant items == old(items) - (due - todo) && ttl == old(ttl) - (due - todo)
        invariant tracker.Consistent() && tracker.entries == Sizes(old(items)) - (due - todo)
        invariant deleted == |due| - |todo|
        invariant deletedSize + tracker.totalBytes == old(tracker.totalBytes)
        decreases todo
      {
        var k :| k in todo;
        assert due - (todo - {k}) == (due - todo) + {k};
        var size := tracker.Remove(k);
        if k in items {
          items := items - {k};
          deleted := deleted + 1;
          deletedSize := deletedSize + size;
        }
        ttl := ttl - {k};
        todo := todo - {k};
      }
      assert due - todo == due;
    }
  }

  lemma PutTtlOneMore(ttl: map<ItemKey, Record>, puts: map<ItemKey, PutOp>, k: ItemKey, op: PutOp, now: int)
    requires k !in puts
    ensures PutTtl(ttl, puts[k := op], now) ==
            if op.value.None? || op.ttl.None? then PutTtl(ttl, puts, now) - {k}
            else PutTtl(ttl, puts, now)[k := Record(now + op.ttl.value, op.ttl.value)]
  {
  }

  lemma PutItemsOneMore(items: map<ItemKey, Item>, puts: map<ItemKey, PutOp>, k: ItemKey, op: PutOp)
    requires k !in puts
    ensures Sizes(PutItems(items, puts[k := op])) ==
            if op.value.None? then Sizes(PutItems(items, puts)) - {k}
            else Sizes(PutItems(items, puts))[k := op.value.value.size]
  {
  }
}
