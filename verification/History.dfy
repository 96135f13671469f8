/** Checkpoint histories of one namespace of one thread: what a channel's value
    is rebuilt from, and which checkpoints that needs.

    This is the policy both savers implement.  The two imperative algorithms are
    in Saver.dfy and PostgresSaver.dfy. */
module History {
  import opened Prelude

  /** A serialized value: its type tag and its bytes. */
  datatype Payload = Payload(tag: string, data: seq<bv8>)

  /** A stored checkpoint: the fields its two payloads decode to, the lengths of
      the payloads and the parent id.  `delta` holds the keys of
      `counters_since_delta_snapshot`; it is empty when that is no dictionary. */
  datatype Entry = Entry(
    versions: map<string, string>,
    delta: set<string>,
    run: Option<string>,
    parent: Option<string>,
    checkpointBytes: nat,
    metadataBytes: nat)

  datatype BlobKey = BlobKey(thread: string, ns: string, channel: string, version: string)
  datatype CheckpointKey = CheckpointKey(thread: string, ns: string, id: string)

  datatype Write = Write(task: string, channel: string, value: Payload, path: string)
  type Group = map<(string, int), Write>

  /** Everything a reader of one namespace can see. */
  datatype View = View(
    thread: string,
    ns: string,
    entries: map<string, Entry>,
    writes: map<CheckpointKey, Group>,
    blobs: map<BlobKey, Payload>)
  {
    function Slot(channel: string, version: string): BlobKey {
      BlobKey(thread, ns, channel, version)
    }

    function Key(id: string): CheckpointKey {
      CheckpointKey(thread, ns, id)
    }
  }

  // ---------------------------------------------------------- reconstruction

  predicate Materialized(blobs: map<BlobKey, Payload>, k: BlobKey) {
    k in blobs && blobs[k].tag != "empty"
  }

  /** Entry `e` carries a snapshot of `channel`. */
  predicate Settles(v: View, e: Entry, channel: string) {
    channel in e.versions && Materialized(v.blobs, v.Slot(channel, e.versions[channel]))
  }

  /** One stored checkpoint as the reconstruction of a channel sees it. */
  datatype Link = Link(id: string, entry: Entry, group: Option<Group>, blob: Option<Payload>)

  /** Where an ancestor chain stops. */
  datatype End = Snapshot | Root | MissingParent(id: string) | Repeat(id: string)

  datatype Value =
    | Absent                                  // the checkpoint has no such channel
    | Direct(blob: Payload)                   // materialized at the checkpoint
    | Plain(stored: Option<Payload>)          // empty, and not delta-backed
    | Delta(head: Link, links: seq<Link>, end: End)

  ghost function LinkAt(v: View, id: string, channel: string): Link
    requires id in v.entries
  {
    var e := v.entries[id];
    Link(id, e, Lookup(v.writes, v.Key(id)),
         if channel in e.versions then Lookup(v.blobs, v.Slot(channel, e.versions[channel])) else None)
  }

  /** The ancestors a delta channel is replayed from, nearest first, down to the
      first snapshot, a missing parent or a repeated id. */
  ghost function Chain(v: View, channel: string, at: Option<string>, visited: set<string>): (seq<Link>, End)
    decreases v.entries.Keys - visited
  {
    if at.None? then ([], Root)
    else if at.value in visited then ([], Repeat(at.value))
    else if at.value !in v.entries then ([], MissingParent(at.value))
    else
      var link := LinkAt(v, at.value, channel);
      if Settles(v, link.entry, channel) then ([link], Snapshot)
      else
        var (rest, end) := Chain(v, channel, link.entry.parent, visited + {at.value});
        ([link] + rest, end)
  }

  /** What reading `channel` at checkpoint `id` yields. */
  ghost function Reconstruct(v: View, id: string, channel: string): Value
    requires id in v.entries
  {
    var e := v.entries[id];
    if channel !in e.versions then Absent
    else if Settles(v, e, channel) then Direct(v.blobs[v.Slot(channel, e.versions[channel])])
    else if channel !in e.delta then Plain(Lookup(v.blobs, v.Slot(channel, e.versions[channel])))
    else
      var (links, end) := Chain(v, channel, e.parent, {});
      Delta(LinkAt(v, id, channel), links, end)
  }

  // -------------------------------------------------------------- retention

  /** Delta-backed channels of `e` whose blob is missing or empty. */
  function Unsettled(v: View, e: Entry): set<string> {
    set c | c in e.versions && c in e.delta && !Settles(v, e, c)
  }

  function StillNeeded(v: View, e: Entry, needed: set<string>): set<string> {
    set c | c in needed && !Settles(v, e, c)
  }

  /** The ancestors passed while walking parents until every channel of `needed`
      has met a snapshot. */
  function Walk(v: View, at: Option<string>, needed: set<string>, visited: set<string>): (r: set<string>)
    ensures r <= v.entries.Keys
    decreases v.entries.Keys - visited
  {
    if at.None? || needed == {} || at.value in visited || at.value !in v.entries then {}
    else
      var e := v.entries[at.value];
      {at.value} + Walk(v, e.parent, StillNeeded(v, e, needed), visited + {at.value})
  }

  /** The ancestors checkpoint `id` needs. */
  function Ancestors(v: View, id: string): (r: set<string>)
    requires id in v.entries
    ensures r <= v.entries.Keys
  {
    Walk(v, v.entries[id].parent, Unsettled(v, v.entries[id]), {})
  }

  /** The checkpoints `heads`, and every ancestor one of them needs. */
  ghost function Closure(v: View, heads: set<string>): (r: set<string>)
    requires heads <= v.entries.Keys
    ensures heads <= r <= v.entries.Keys
  {
    heads + set x | x in v.entries && exists h :: h in heads && x in Ancestors(v, h)
  }

  /** What keep-latest retains: the newest checkpoint and what it needs. */
  ghost function Keep(v: View): (r: set<string>)
    ensures r <= v.entries.Keys
    ensures v.entries != map[] ==> Greatest(v.entries.Keys) in r
  {
    if v.entries == map[] then {} else Closure(v, {Greatest(v.entries.Keys)})
  }

  /** Checkpoints owned by none of `runs`. */
  function Others(v: View, runs: set<string>): (r: set<string>)
    ensures r <= v.entries.Keys
  {
    set id | id in v.entries && !(v.entries[id].run.Some? && v.entries[id].run.value in runs)
  }

  /** What deleting `runs` retains: every other checkpoint and what it needs. */
  ghost function KeepOthers(v: View, runs: set<string>): (r: set<string>)
    ensures Others(v, runs) <= r <= v.entries.Keys
  {
    Closure(v, Others(v, runs))
  }

  /** `w` is `v` cut down to the checkpoints `keep`, without touching any blob or
      write group of a kept checkpoint. */
  ghost predicate CutTo(v: View, w: View, keep: set<string>)
  {
    && w.thread == v.thread && w.ns == v.ns
    && w.entries == Only(v.entries, keep)
    && (forall id :: id in w.entries ==> Lookup(w.writes, v.Key(id)) == Lookup(v.writes, v.Key(id)))
    && (forall id, c :: id in w.entries && c in w.entries[id].versions ==>
          SameSlot(v, w, v.Slot(c, w.entries[id].versions[c])))
  }

  ghost predicate SameSlot(v: View, w: View, k: BlobKey) {
    Lookup(w.blobs, k) == Lookup(v.blobs, k)
  }

  // ------------------------------------------------------------ walk theory

  lemma SettlesPreserved(v: View, w: View, keep: set<string>, id: string, c: string)
    requires CutTo(v, w, keep) && id in w.entries
    ensures Settles(w, w.entries[id], c) == Settles(v, v.entries[id], c)
    ensures LinkAt(w, id, c) == LinkAt(v, id, c)
  {
    if c in w.entries[id].versions {
      assert SameSlot(v, w, v.Slot(c, w.entries[id].versions[c]));
    }
  }

  /** A walk that stays inside the kept checkpoints is the same afterwards. */
  lemma {:induction false} WalkPreserved(v: View, w: View, keep: set<string>,
                                         at: Option<string>, needed: set<string>, visited: set<string>)
    requires CutTo(v, w, keep)
    requires Walk(v, at, needed, visited) <= keep
    ensures Walk(w, at, needed, visited) == Walk(v, at, needed, visited)
    decreases v.entries.Keys - visited
  {
    if at.None? || needed == {} || at.value in visited || at.value !in v.entries {
    } else {
      var id := at.value;
      assert id in keep && id in w.entries;
      forall c ensures Settles(w, w.entries[id], c) == Settles(v, v.entries[id], c) {
        SettlesPreserved(v, w, keep, id, c);
      }
      assert StillNeeded(w, w.entries[id], needed) == StillNeeded(v, v.entries[id], needed);
      WalkPreserved(v, w, keep, v.entries[id].parent, StillNeeded(v, v.entries[id], needed), visited + {id});
    }
  }

  lemma AncestorsPreserved(v: View, w: View, keep: set<string>, id: string)
    requires CutTo(v, w, keep) && id in w.entries
    requires Ancestors(v, id) <= keep
    ensures Ancestors(w, id) == Ancestors(v, id)
  {
    forall c ensures Settles(w, w.entries[id], c) == Settles(v, v.entries[id], c) {
      SettlesPreserved(v, w, keep, id, c);
    }
    assert Unsettled(w, w.entries[id]) == Unsettled(v, v.entries[id]);
    WalkPreserved(v, w, keep, v.entries[id].parent, Unsettled(v, v.entries[id]), {});
  }

  /** Walking for several channels passes exactly what the channels need one by
      one. */
  lemma {:induction false} WalkIsUnion(v: View, at: Option<string>, needed: set<string>, visited: set<string>)
    ensures forall c :: c in needed ==> Walk(v, at, {c}, visited) <= Walk(v, at, needed, visited)
    ensures forall x :: x in Walk(v, at, needed, visited) ==>
              exists c :: c in needed && x in Walk(v, at, {c}, visited)
    decreases v.entries.Keys - visited
  {
    if at.None? || needed == {} || at.value in visited || at.value !in v.entries {
    } else {
      var id := at.value;
      var e := v.entries[id];
      var still := StillNeeded(v, e, needed);
      WalkIsUnion(v, e.parent, still, visited + {id});
      forall c | c in needed
        ensures Walk(v, at, {c}, visited) == {id} + if c in still then Walk(v, e.parent, {c}, visited + {id}) else {}
      {
        assert StillNeeded(v, e, {c}) == if c in still then {c} else {};
      }
      forall x | x in Walk(v, at, needed, visited)
        ensures exists c :: c in needed && x in Walk(v, at, {c}, visited)
      {
        if x == id {
          var c :| c in needed;
          assert x in Walk(v, at, {c}, visited);
        } else {
          var c :| c in still && x in Walk(v, e.parent, {c}, visited + {id});
          assert x in Walk(v, at, {c}, visited);
        }
      }
    }
  }

  ghost function Ids(links: seq<Link>): set<string> {
    set l | l in links :: l.id
  }

  /** The walk for one channel passes exactly the links of its chain; no link but
      the last carries a snapshot. */
  lemma {:induction false} WalkIsChain(v: View, c: string, at: Option<string>, visited: set<string>)
    ensures Ids(Chain(v, c, at, visited).0) == Walk(v, at, {c}, visited)
    ensures var links := Chain(v, c, at, visited).0;
            forall i :: 0 <= i < |links| - 1 ==> !Settles(v, links[i].entry, c)
    decreases v.entries.Keys - visited
  {
    if at.None? || at.value in visited || at.value !in v.entries {
    } else {
      var id := at.value;
      var link := LinkAt(v, id, c);
      var links := Chain(v, c, at, visited).0;
      if Settles(v, link.entry, c) {
        assert StillNeeded(v, link.entry, {c}) == {};
        assert links == [link];
      } else {
        assert StillNeeded(v, link.entry, {c}) == {c};
        WalkIsChain(v, c, link.entry.parent, visited + {id});
        var rest := Chain(v, c, link.entry.parent, visited + {id}).0;
        assert links == [link] + rest;
        assert Ids(links) == {id} + Ids(rest) by {
          forall l | l in links ensures l.id in {id} + Ids(rest) {}
          forall l | l in rest ensures l in links {}
          assert links[0] == link && link in links;
        }
      }
    }
  }

  lemma {:induction false} ChainPreserved(v: View, w: View, keep: set<string>,
                                          c: string, at: Option<string>, visited: set<string>)
    requires CutTo(v, w, keep)
    requires Walk(v, at, {c}, visited) <= keep
    ensures Chain(w, c, at, visited) == Chain(v, c, at, visited)
    decreases v.entries.Keys - visited
  {
    if at.None? || at.value in visited || at.value !in v.entries {
    } else {
      var id := at.value;
      assert id in keep && id in w.entries;
      SettlesPreserved(v, w, keep, id, c);
      if !Settles(v, v.entries[id], c) {
        assert StillNeeded(v, v.entries[id], {c}) == {c};
        ChainPreserved(v, w, keep, c, v.entries[id].parent, visited + {id});
      }
    }
  }

  // ---------------------------------------------------------- main theorems

  /** Cutting to any set that holds a checkpoint and its needed ancestors leaves
      every channel of that checkpoint readable as before. */
  lemma ReconstructPreserved(v: View, w: View, keep: set<string>, id: string, c: string)
    requires CutTo(v, w, keep) && id in w.entries
    requires Ancestors(v, id) <= keep
    ensures Reconstruct(w, id, c) == Reconstruct(v, id, c)
  {
    SettlesPreserved(v, w, keep, id, c);
    var e := v.entries[id];
    if c in e.versions {
      assert SameSlot(v, w, v.Slot(c, e.versions[c]));
      if c in Unsettled(v, e) {
        WalkIsUnion(v, e.parent, Unsettled(v, e), {});
        ChainPreserved(v, w, keep, c, e.parent, {});
      }
    }
  }

  /** Conversely, if every channel still reads as before, no needed ancestor was
      cut. */
  lemma ReconstructNeeds(v: View, w: View, keep: set<string>, id: string)
    requires CutTo(v, w, keep) && id in w.entries
    requires forall c :: Reconstruct(w, id, c) == Reconstruct(v, id, c)
    ensures Ancestors(v, id) <= keep
  {
    var e := v.entries[id];
    WalkIsUnion(v, e.parent, Unsettled(v, e), {});
    forall x | x in Ancestors(v, id) ensures x in keep {
      var c :| c in Unsettled(v, e) && x in Walk(v, e.parent, {c}, {});
      SettlesPreserved(v, w, keep, id, c);
      WalkIsChain(v, c, e.parent, {});
      WalkIsChain(w, c, e.parent, {});
      assert Reconstruct(w, id, c) == Reconstruct(v, id, c);
      assert x in Ids(Chain(w, c, e.parent, {}).0);
      assert x in w.entries.Keys;
    }
  }

  /** Least retention.  Among all cuts that hold `heads`, those that keep every
      channel of every head readable are exactly those that hold `Closure`. */
  lemma RetentionIsExact(v: View, w: View, keep: set<string>, heads: set<string>)
    requires CutTo(v, w, keep)
    requires heads <= keep && heads <= v.entries.Keys
    ensures (forall h, c :: h in heads ==> Reconstruct(w, h, c) == Reconstruct(v, h, c))
            <==> Closure(v, heads) <= keep
  {
    if Closure(v, heads) <= keep {
      forall h, c | h in heads ensures Reconstruct(w, h, c) == Reconstruct(v, h, c) {
        assert Ancestors(v, h) <= Closure(v, heads);
        ReconstructPreserved(v, w, keep, h, c);
      }
    }
    if forall h, c :: h in heads ==> Reconstruct(w, h, c) == Reconstruct(v, h, c) {
      forall x | x in Closure(v, heads) && x !in heads ensures x in keep {
        var h :| h in heads && x in Ancestors(v, h);
        ReconstructNeeds(v, w, keep, h);
      }
    }
  }

  /** A second look at a cut history finds the same closure. */
  lemma ClosurePreserved(v: View, w: View, keep: set<string>, heads: set<string>)
    requires CutTo(v, w, keep)
    requires heads <= v.entries.Keys && Closure(v, heads) <= keep
    ensures heads <= w.entries.Keys
    ensures Closure(w, heads) == Closure(v, heads)
  {
    assert forall h :: h in heads ==> h in Closure(v, heads);
    forall h | h in heads ensures Ancestors(w, h) == Ancestors(v, h) {
      assert Ancestors(v, h) <= Closure(v, heads);
      AncestorsPreserved(v, w, keep, h);
    }
  }

  /** The same checkpoints, with the same write groups and blobs behind them;
      records that no checkpoint refers to may differ. */
  ghost predicate SameRecords(v: View, w: View) {
    w.entries == v.entries && CutTo(v, w, v.entries.Keys)
  }

  lemma SameRecordsSameClosure(v: View, w: View, heads: set<string>)
    requires SameRecords(v, w) && heads <= v.entries.Keys
    ensures Closure(w, heads) == Closure(v, heads)
  {
    ClosurePreserved(v, w, v.entries.Keys, heads);
  }

  lemma SameRecordsSameReading(v: View, w: View, id: string, c: string)
    requires SameRecords(v, w) && id in v.entries
    ensures Reconstruct(w, id, c) == Reconstruct(v, id, c)
  {
    ReconstructPreserved(v, w, v.entries.Keys, id, c);
  }

  lemma GreatestPreserved(v: View, w: View, keep: set<string>)
    requires CutTo(v, w, keep) && v.entries != map[]
    requires Greatest(v.entries.Keys) in keep
    ensures w.entries != map[] && Greatest(w.entries.Keys) == Greatest(v.entries.Keys)
  {
    assert Greatest(v.entries.Keys) in w.entries;
    GreatestUnique(w.entries.Keys, Greatest(w.entries.Keys), Greatest(v.entries.Keys));
  }

  /** Keep-latest on an already pruned history removes nothing. */
  lemma KeepIdempotent(v: View, w: View)
    requires CutTo(v, w, Keep(v))
    ensures Keep(w) == Keep(v) == w.entries.Keys
  {
    if v.entries == map[] {
      assert w.entries == map[];
    } else {
      GreatestPreserved(v, w, Keep(v));
      ClosurePreserved(v, w, Keep(v), {Greatest(v.entries.Keys)});
    }
  }

  /** Every ancestor keep-latest retains lies on the replay chain of a
      delta-backed channel of the newest checkpoint, and no link before it
      carries a snapshot of that channel. */
  lemma KeptIsNeeded(v: View, x: string) returns (c: string, k: nat)
    requires v.entries != map[] && x in Keep(v) && x != Greatest(v.entries.Keys)
    ensures var value := Reconstruct(v, Greatest(v.entries.Keys), c);
            && value.Delta? && k < |value.links| && value.links[k].id == x
            && forall j :: 0 <= j < k ==> !Settles(v, value.links[j].entry, c)
  {
    var e := v.entries[Greatest(v.entries.Keys)];
    WalkIsUnion(v, e.parent, Unsettled(v, e), {});
    c :| c in Unsettled(v, e) && x in Walk(v, e.parent, {c}, {});
    WalkIsChain(v, c, e.parent, {});
    var links := Chain(v, c, e.parent, {}).0;
    assert x in Ids(links);
    k :| k < |links| && links[k].id == x;
  }

  /** Deleting the same runs again removes nothing. */
  lemma KeepOthersIdempotent(v: View, w: View, runs: set<string>)
    requires CutTo(v, w, KeepOthers(v, runs))
    ensures KeepOthers(w, runs) == KeepOthers(v, runs) == w.entries.Keys
  {
    assert forall id :: id in w.entries ==> w.entries[id] == v.entries[id];
    assert Others(w, runs) == Others(v, runs);
    ClosurePreserved(v, w, KeepOthers(v, runs), Others(v, runs));
  }

  lemma ClosureMonotone(v: View, small: set<string>, big: set<string>)
    requires small <= big <= v.entries.Keys
    ensures Closure(v, small) <= Closure(v, big)
  {
  }

  /** Deleting runs `a` and later runs `b` never removes a checkpoint that one
      call for both would keep. */
  lemma SplitDeletionKeepsMore(v: View, w: View, a: set<string>, b: set<string>)
    requires CutTo(v, w, KeepOthers(v, a))
    ensures KeepOthers(v, a + b) <= KeepOthers(w, b)
  {
    var both := Others(v, a + b);
    assert both <= Others(v, a);
    ClosureMonotone(v, both, Others(v, a));
    ClosurePreserved(v, w, KeepOthers(v, a), both);
    assert forall id :: id in both ==> id in KeepOthers(v, a);
    assert both <= Others(w, b);
    ClosureMonotone(w, both, Others(w, b));
  }
}
