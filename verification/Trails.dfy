/** Retention told on parent links, blob keys and blob tags alone: which trails of
    parents a reading is replayed over, and that the savers keep exactly those. */
module Trails {
  import opened Prelude
  import opened History
  import opened Stores

  /** Checkpoint `id` has no value of channel `c` to start from: it lacks the channel,
      or the blob of its version is missing or tagged "empty". */
  ghost predicate Hollow(v: View, id: string, c: string)
    requires id in v.entries
  {
    var versions := v.entries[id].versions;
    c in versions ==>
      var k := BlobKey(v.thread, v.ns, c, versions[c]);
      k in v.blobs ==> v.blobs[k].tag == "empty"
  }

  /** Channel `c` is delta-backed at `id` and has no value there. */
  ghost predicate HollowDelta(v: View, id: string, c: string)
    requires id in v.entries
  {
    c in v.entries[id].versions && c in v.entries[id].delta && Hollow(v, id, c)
  }

  /** Distinct stored checkpoints, each the parent of the one before, of which only
      the last may have a value of `c`. */
  ghost predicate Trail(v: View, c: string, ids: seq<string>) {
    && ids != []
    && (forall i :: 0 <= i < |ids| ==> ids[i] in v.entries)
    && (forall i :: 0 <= i < |ids| - 1 ==> v.entries[ids[i]].parent == Some(ids[i + 1]) && Hollow(v, ids[i], c))
    && (forall i, j :: 0 <= i < j < |ids| ==> ids[i] != ids[j])
  }

  /** A trail for `c` from the parent of `h` to `x`. */
  ghost predicate TrailFrom(v: View, h: string, c: string, ids: seq<string>, x: string)
    requires h in v.entries
  {
    Trail(v, c, ids) && v.entries[h].parent == Some(ids[0]) && ids[|ids| - 1] == x
  }

  /** Reading some channel at `h` is replayed over `x`. */
  ghost predicate ReplayedOver(v: View, h: string, x: string)
    requires h in v.entries
  {
    exists c, ids :: HollowDelta(v, h, c) && TrailFrom(v, h, c, ids, x)
  }

  lemma SettlesByTag(v: View, id: string, c: string)
    requires id in v.entries
    ensures Settles(v, v.entries[id], c) <==> !Hollow(v, id, c)
  {
  }

  lemma {:induction false} WalkHasTrail(v: View, c: string, at: string, visited: set<string>, x: string)
    returns (ids: seq<string>)
    requires x in Walk(v, Some(at), {c}, visited)
    ensures Trail(v, c, ids) && ids[0] == at && ids[|ids| - 1] == x
    ensures forall i :: 0 <= i < |ids| ==> ids[i] !in visited
    decreases v.entries.Keys - visited
  {
    var e := v.entries[at];
    SettlesByTag(v, at, c);
    assert StillNeeded(v, e, {c}) == if Hollow(v, at, c) then {c} else {};
    if x == at {
      ids := [at];
    } else {
      var rest := WalkHasTrail(v, c, e.parent.value, visited + {at}, x);
      ids := [at] + rest;
    }
  }

  lemma {:induction false} TrailIsWalked(v: View, c: string, ids: seq<string>, visited: set<string>)
    requires Trail(v, c, ids) && forall i :: 0 <= i < |ids| ==> ids[i] !in visited
    ensures ids[|ids| - 1] in Walk(v, Some(ids[0]), {c}, visited)
    decreases |ids|
  {
    if |ids| > 1 {
      SettlesByTag(v, ids[0], c);
      assert StillNeeded(v, v.entries[ids[0]], {c}) == {c};
      TrailIsWalked(v, c, ids[1..], visited + {ids[0]});
    }
  }

  /** The ancestors a checkpoint needs are exactly those one of its channels is
      replayed over. */
  lemma NeededIsReplayedOver(v: View, h: string, x: string)
    requires h in v.entries
    ensures x in Ancestors(v, h) <==> ReplayedOver(v, h, x)
  {
    var e := v.entries[h];
    var u := Unsettled(v, e);
    forall c ensures c in u <==> HollowDelta(v, h, c) { SettlesByTag(v, h, c); }
    WalkIsUnion(v, e.parent, u, {});
    if x in Ancestors(v, h) {
      var c :| c in u && x in Walk(v, e.parent, {c}, {});
      var ids := WalkHasTrail(v, c, e.parent.value, {}, x);
      assert TrailFrom(v, h, c, ids, x);
    }
    if ReplayedOver(v, h, x) {
      var c, ids :| HollowDelta(v, h, c) && TrailFrom(v, h, c, ids, x);
      TrailIsWalked(v, c, ids, {});
      assert x in Walk(v, e.parent, {c}, {});
    }
  }

  /** What is read, by keys and tags: a blob with another tag than "empty" is the
      value; a delta-backed channel without one is replayed over a trail of its
      parents and all their writes, which starts at the stored parent if there is
      one and ends in a snapshot exactly if its last checkpoint has a value. */
  lemma ReadingByTags(v: View, id: string, c: string)
    requires id in v.entries
    ensures var value := Reconstruct(v, id, c);
            && (value.Absent? <==> c !in v.entries[id].versions)
            && (value.Direct? <==> !Hollow(v, id, c))
            && (value.Direct? ==> v.blobs[BlobKey(v.thread, v.ns, c, v.entries[id].versions[c])] == value.blob)
            && (value.Delta? <==> HollowDelta(v, id, c))
    ensures HollowDelta(v, id, c) ==>
              var links := Reconstruct(v, id, c).links;
              && (links == [] <==> v.entries[id].parent.None? || v.entries[id].parent.value !in v.entries)
              && (links != [] ==> Trail(v, c, LinkIds(links)) && v.entries[id].parent == Some(links[0].id))
              && (forall i :: 0 <= i < |links| ==> Carries(v, links[i], c))
              && Carries(v, Reconstruct(v, id, c).head, c) && Reconstruct(v, id, c).head.id == id
              && (Reconstruct(v, id, c).end.Snapshot? <==> links != [] && !Hollow(v, links[|links| - 1].id, c))
  {
    SettlesByTag(v, id, c);
    if HollowDelta(v, id, c) {
      ChainIsTrail(v, c, v.entries[id].parent, {});
      var links := Chain(v, c, v.entries[id].parent, {}).0;
      forall i | 0 <= i < |links| ensures Carries(v, links[i], c) {
        ChainCarries(v, c, v.entries[id].parent, {}, links[i]);
      }
      hide Trail, LinkIds, Chain;
    }
  }

  /** The link is of a stored checkpoint and carries all its pending writes and the
      blob of `c` at its version. */
  ghost predicate Carries(v: View, l: Link, c: string) {
    && l.id in v.entries && l.entry == v.entries[l.id]
    && Found(v.writes, CheckpointKey(v.thread, v.ns, l.id), l.group)
    && if c in l.entry.versions then Found(v.blobs, BlobKey(v.thread, v.ns, c, l.entry.versions[c]), l.blob)
       else l.blob == None
  }

  predicate Found<K, V(==)>(m: map<K, V>, k: K, r: Option<V>) {
    match r
    case Some(value) => k in m && m[k] == value
    case None => k !in m
  }

  ghost function LinkIds(links: seq<Link>): (ids: seq<string>)
    ensures |ids| == |links|
  {
    seq(|links|, i requires 0 <= i < |links| => links[i].id)
  }

  lemma {:induction false} ChainIsTrail(v: View, c: string, at: Option<string>, visited: set<string>)
    ensures var (links, end) := Chain(v, c, at, visited);
            && (links == [] <==> at.None? || at.value in visited || at.value !in v.entries)
            && (links != [] ==> Trail(v, c, LinkIds(links)) && at == Some(links[0].id))
            && (forall i :: 0 <= i < |links| ==> links[i].id !in visited && links[i].id in v.entries)
            && (end.Snapshot? <==> links != [] && !Hollow(v, links[|links| - 1].id, c))
    decreases v.entries.Keys - visited
  {
    if at.None? || at.value in visited || at.value !in v.entries {
    } else {
      SettlesByTag(v, at.value, c);
      var links := Chain(v, c, at, visited).0;
      if !Hollow(v, at.value, c) {
        assert LinkIds(links) == [at.value];
      } else {
        var e := v.entries[at.value];
        ChainIsTrail(v, c, e.parent, visited + {at.value});
        var rest := Chain(v, c, e.parent, visited + {at.value}).0;
        assert links == [LinkAt(v, at.value, c)] + rest;
        assert LinkIds(links) == [at.value] + LinkIds(rest);
      }
    }
  }

  lemma {:induction false} ChainCarries(v: View, c: string, at: Option<string>, visited: set<string>, l: Link)
    requires l in Chain(v, c, at, visited).0
    ensures Carries(v, l, c)
    decreases v.entries.Keys - visited
  {
    var link := LinkAt(v, at.value, c);
    assert Carries(v, link, c);
    if l != link { ChainCarries(v, c, link.entry.parent, visited + {at.value}, l); }
  }

  // ------------------------------------------------------------ what is kept

  /** Main result for keep-latest: a namespace keeps exactly its newest checkpoint and
      the checkpoints a channel of it is replayed over. */
  lemma PruneKeepsTrails(st: Store, t: string, ns: string, x: string)
    ensures var v := ViewOf(st, t, ns);
            x in EntriesOf(Pruned(st, t).storage, t, ns) <==>
            v.entries != map[] && var g := Greatest(v.entries.Keys); x == g || ReplayedOver(v, g, x)
  {
    hide Pruned, ReplayedOver, Ancestors;
    PrunedEntries(st, t, ns);
    var v := ViewOf(st, t, ns);
    if v.entries != map[] { NeededIsReplayedOver(v, Greatest(v.entries.Keys), x); }
  }

  /** A newest checkpoint with an empty or missing delta blob keeps its parent, and
      the reading starts there. */
  lemma EmptyBlobKeepsParent(st: Store, t: string, ns: string, c: string)
    requires EntriesOf(st.storage, t, ns) != map[]
    requires var v := ViewOf(st, t, ns); var g := Greatest(v.entries.Keys);
             HollowDelta(v, g, c) && v.entries[g].parent.Some? && v.entries[g].parent.value in v.entries
    ensures var v := ViewOf(st, t, ns); var g := Greatest(v.entries.Keys); var p := v.entries[g].parent.value;
            && p in EntriesOf(Pruned(st, t).storage, t, ns)
            && Reconstruct(v, g, c).Delta? && Reconstruct(v, g, c).links != [] && Reconstruct(v, g, c).links[0].id == p
  {
    var v := ViewOf(st, t, ns);
    var g := Greatest(v.entries.Keys);
    var p := v.entries[g].parent.value;
    PruneKeepsTrails(st, t, ns, p);
    assert TrailFrom(v, g, c, [p], p);
    ReadingByTags(v, g, c);
  }

  /** If every delta-backed channel of the newest checkpoint has a blob with another
      tag, that checkpoint alone is kept. */
  lemma ValuedHeadStandsAlone(st: Store, t: string, ns: string)
    requires EntriesOf(st.storage, t, ns) != map[]
    requires var v := ViewOf(st, t, ns); forall c :: !HollowDelta(v, Greatest(v.entries.Keys), c)
    ensures EntriesOf(Pruned(st, t).storage, t, ns).Keys == {Greatest(EntriesOf(st.storage, t, ns).Keys)}
  {
    hide Pruned, HollowDelta, TrailFrom;
    forall x { PruneKeepsTrails(st, t, ns, x); }
  }

  /** Main result for run deletion: a stored checkpoint stays exactly if none of the
      runs owns it, or if a channel of such a checkpoint is replayed over it. */
  lemma DeletionKeepsTrails(st: Store, runs: set<string>, t: string, ns: string, x: string)
    ensures var v := ViewOf(st, t, ns);
            x in EntriesOf(RunsDeleted(st, runs).storage, t, ns) <==>
            && x in v.entries
            && (Survives(v, runs, x) || exists h :: h in v.entries && Survives(v, runs, h) && ReplayedOver(v, h, x))
  {
    hide RunsDeleted, ReplayedOver, Ancestors;
    RunsDeletedEntries(st, runs, t, ns);
    var v := ViewOf(st, t, ns);
    forall h | h in v.entries ensures x in Ancestors(v, h) <==> ReplayedOver(v, h, x) {
      NeededIsReplayedOver(v, h, x);
    }
    assert forall h :: h in v.entries ==> (h in Others(v, runs) <==> Survives(v, runs, h));
  }

  /** The checkpoint's metadata names none of the runs. */
  ghost predicate Survives(v: View, runs: set<string>, id: string)
    requires id in v.entries
  {
    match v.entries[id].run
    case None => true
    case Some(run) => run !in runs
  }

  /** A surviving checkpoint with an empty or missing delta blob keeps its parent,
      whoever owns that. */
  lemma EmptyBlobProtectsParent(st: Store, runs: set<string>, t: string, ns: string, h: string, c: string)
    requires var v := ViewOf(st, t, ns);
             && h in v.entries && Survives(v, runs, h) && HollowDelta(v, h, c)
             && v.entries[h].parent.Some? && v.entries[h].parent.value in v.entries
    ensures EntriesOf(st.storage, t, ns)[h].parent.value in EntriesOf(RunsDeleted(st, runs).storage, t, ns)
  {
    var v := ViewOf(st, t, ns);
    var p := v.entries[h].parent.value;
    DeletionKeepsTrails(st, runs, t, ns, p);
    assert TrailFrom(v, h, c, [p], p);
    assert ReplayedOver(v, h, p);
  }

  /** If every delta-backed channel of every survivor has a blob with another tag, no
      targeted checkpoint is kept. */
  lemma ValuedSurvivorsProtectNothing(st: Store, runs: set<string>, t: string, ns: string, x: string)
    requires var v := ViewOf(st, t, ns);
             forall h, c :: h in v.entries && Survives(v, runs, h) ==> !HollowDelta(v, h, c)
    ensures x in EntriesOf(RunsDeleted(st, runs).storage, t, ns) <==>
            x in ViewOf(st, t, ns).entries && Survives(ViewOf(st, t, ns), runs, x)
  {
    hide RunsDeleted, HollowDelta, TrailFrom;
    DeletionKeepsTrails(st, runs, t, ns, x);
  }
}
