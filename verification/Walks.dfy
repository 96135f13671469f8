/** The parent-link loops of the in-memory saver. */
module Walks {
  import opened Prelude
  import opened History

  /** `max(checkpoints, key=str)`. */
  method LatestId(ids: set<string>) returns (latest: string)
    requires ids != {}
    ensures latest == Greatest(ids)
  {
    latest :| latest in ids;
    var todo := ids - {latest};
    StrLeqTotal(latest, latest);
    while todo != {}
      invariant todo <= ids && latest in ids
      invariant forall y :: y in ids - todo ==> StrLeq(y, latest)
      decreases todo
    {
      var y :| y in todo;
      StrLeqTotal(y, latest);
      if !StrLeq(y, latest) {
        StrLeqTotal(y, y);
        forall z | z in ids - todo ensures StrLeq(z, y) {
          StrLeqTransitive(z, latest, y);
        }
        latest := y;
      }
      todo := todo - {y};
    }
    GreatestUnique(ids, latest, Greatest(ids));
  }

  /** One step of a walk: forget the channels that `e` carries a snapshot of. */
  method DropSettled(v: View, e: Entry, needed: set<string>) returns (still: set<string>)
    ensures still == StillNeeded(v, e, needed)
  {
    still := needed;
    var todo := needed;
    while todo != {}
      invariant todo <= needed
      invariant still == set c | c in needed && (c in todo || !Settles(v, e, c))
      decreases todo
    {
      var channel :| channel in todo;
      todo := todo - {channel};
      if channel in e.versions {
        var slot := v.Slot(channel, e.versions[channel]);
        if slot in v.blobs && v.blobs[slot].tag != "empty" {
          still := still - {channel};
        }
      }
    }
  }

  /** The checkpoints keep-latest retains in one namespace. */
  method KeepIds(v: View) returns (keep: set<string>)
    requires v.entries != map[]
    ensures keep == Keep(v)
  {
    var latest := LatestId(v.entries.Keys);
    keep := {latest};
    var entry := v.entries[latest];
    var needed := Unsettled(v, entry);
    var parent := entry.parent;
    var visited := {};
    while parent.Some? && needed != {}
      invariant keep + Walk(v, parent, needed, visited) == {latest} + Ancestors(v, latest)
      decreases v.entries.Keys - visited
    {
      if parent.value in visited { break; }
      if parent.value !in v.entries { break; }
      keep := keep + {parent.value};
      entry := v.entries[parent.value];
      visited := visited + {parent.value};
      needed := DropSettled(v, entry, needed);
      parent := entry.parent;
    }
    assert Closure(v, {latest}) == {latest} + Ancestors(v, latest);
  }

  /** The targeted ancestors that a surviving checkpoint `id` needs. */
  method ProtectedBy(v: View, id: string, candidates: set<CheckpointKey>) returns (protected: set<CheckpointKey>)
    requires id in v.entries
    ensures protected == set x | x in Ancestors(v, id) && v.Key(x) in candidates :: v.Key(x)
  {
    protected := {};
    var entry := v.entries[id];
    var needed := Unsettled(v, entry);
    var parent := entry.parent;
    var visited := {};
    ghost var walked := {};
    while parent.Some? && needed != {}
      invariant walked + Walk(v, parent, needed, visited) == Ancestors(v, id)
      invariant protected == set x | x in walked && v.Key(x) in candidates :: v.Key(x)
      decreases v.entries.Keys - visited
    {
      if parent.value in visited { break; }
      if parent.value !in v.entries { break; }
      if v.Key(parent.value) in candidates {
        protected := protected + {v.Key(parent.value)};
      }
      walked := walked + {parent.value};
      entry := v.entries[parent.value];
      visited := visited + {parent.value};
      needed := DropSettled(v, entry, needed);
      parent := entry.parent;
    }
  }
}
