/** The parent walk of `RuntimePostgresSaver._remove_history`.  It stops on a falsy
    parent id and looks a missing version up as the text "None", so it can stop
    before the in-memory saver's walk does; the module proves exactly when that
    changes what is retained. */
module SqlWalks {
  import opened Prelude
  import opened History

  // --------------------------------------------------------------- its walk

  /** `str((row["versions"] or {}).get(channel))`. */
  function VersionText(e: Entry, channel: string): string {
    if channel in e.versions then e.versions[channel] else "None"
  }

  function SqlStillNeeded(v: View, e: Entry, needed: set<string>): set<string> {
    set c | c in needed && !Materialized(v.blobs, v.Slot(c, VersionText(e, c)))
  }

  /** The parents the SQL saver's walk passes. */
  function SqlWalk(v: View, at: Option<string>, needed: set<string>, visited: set<string>): (r: set<string>)
    ensures r <= v.entries.Keys
    decreases v.entries.Keys - visited
  {
    if at.None? || at.value == "" || needed == {} || at.value in visited || at.value !in v.entries then {}
    else
      var e := v.entries[at.value];
      {at.value} + SqlWalk(v, e.parent, SqlStillNeeded(v, e, needed), visited + {at.value})
  }

  function SqlAncestors(v: View, id: string): (r: set<string>)
    requires id in v.entries
    ensures r <= v.entries.Keys
  {
    SqlWalk(v, v.entries[id].parent, Unsettled(v, v.entries[id]), {})
  }

  ghost function SqlClosure(v: View, heads: set<string>): (r: set<string>)
    requires heads <= v.entries.Keys
    ensures heads <= r <= v.entries.Keys
  {
    heads + set x | x in v.entries && exists h :: h in heads && x in SqlAncestors(v, h)
  }

  // --------------------------------------------- when the walks part company

  lemma {:induction false} WalkAvoids(v: View, at: Option<string>, needed: set<string>, visited: set<string>)
    ensures Walk(v, at, needed, visited) !! visited
    decreases v.entries.Keys - visited
  {
    if at.None? || needed == {} || at.value in visited || at.value !in v.entries {
    } else {
      var e := v.entries[at.value];
      WalkAvoids(v, e.parent, StillNeeded(v, e, needed), visited + {at.value});
    }
  }

  /** On every history the SQL walk passes no checkpoint the other does not. */
  lemma {:induction false} SqlWalkWithin(v: View, at: Option<string>, n: set<string>, m: set<string>,
                                         visited: set<string>)
    requires n <= m
    ensures SqlWalk(v, at, n, visited) <= Walk(v, at, m, visited)
    decreases v.entries.Keys - visited
  {
    if at.None? || n == {} || at.value in visited || at.value !in v.entries {
    } else {
      var e := v.entries[at.value];
      SqlWalkWithin(v, e.parent, SqlStillNeeded(v, e, n), StillNeeded(v, e, m), visited + {at.value});
    }
  }

  /** Following both walks in step, from channels `n` and `m`: the next parent is
      stored, new and needed for a channel of `m`, but the SQL walk has stopped. */
  predicate CutShort(v: View, at: Option<string>, n: set<string>, m: set<string>, visited: set<string>)
    decreases v.entries.Keys - visited
  {
    && at.Some? && at.value !in visited && at.value in v.entries && m != {}
    && (n == {} || at.value == "" ||
        var e := v.entries[at.value];
        CutShort(v, e.parent, SqlStillNeeded(v, e, n), StillNeeded(v, e, m), visited + {at.value}))
  }

  /** The two walks pass the same checkpoints exactly if the SQL walk is not cut
      short. */
  lemma {:induction false} WalkAgreesExactly(v: View, at: Option<string>, n: set<string>, m: set<string>,
                                             visited: set<string>)
    requires n <= m
    ensures SqlWalk(v, at, n, visited) == Walk(v, at, m, visited) <==> !CutShort(v, at, n, m, visited)
    decreases v.entries.Keys - visited
  {
    if at.None? || m == {} || at.value in visited || at.value !in v.entries {
    } else if n == {} || at.value == "" {
      assert at.value in Walk(v, at, m, visited);
    } else {
      var e := v.entries[at.value];
      var n', m', seen := SqlStillNeeded(v, e, n), StillNeeded(v, e, m), visited + {at.value};
      WalkAgreesExactly(v, e.parent, n', m', seen);
      WalkAvoids(v, e.parent, m', seen);
      SqlWalkWithin(v, e.parent, n', m', seen);
    }
  }

  /** What the walks of one checkpoint pass, and exactly when they agree. */
  lemma AncestorsAgreeExactly(v: View, h: string)
    requires h in v.entries
    ensures SqlAncestors(v, h) <= Ancestors(v, h)
    ensures var e := v.entries[h]; var u := Unsettled(v, e);
            SqlAncestors(v, h) == Ancestors(v, h) <==> !CutShort(v, e.parent, u, u, {})
  {
    var e := v.entries[h];
    SqlWalkWithin(v, e.parent, Unsettled(v, e), Unsettled(v, e), {});
    WalkAgreesExactly(v, e.parent, Unsettled(v, e), Unsettled(v, e), {});
  }

  /** Past the point where the SQL walk is cut short there is a needed checkpoint
      outside `spared`. */
  predicate Loses(v: View, spared: set<string>, at: Option<string>, n: set<string>, m: set<string>,
                  visited: set<string>)
    decreases v.entries.Keys - visited
  {
    && at.Some? && at.value !in visited && at.value in v.entries && m != {}
    && if n == {} || at.value == "" then !(Walk(v, at, m, visited) <= spared)
       else
         var e := v.entries[at.value];
         Loses(v, spared, e.parent, SqlStillNeeded(v, e, n), StillNeeded(v, e, m), visited + {at.value})
  }

  lemma {:induction false} LosesExactly(v: View, spared: set<string>,
                                        at: Option<string>, n: set<string>, m: set<string>, visited: set<string>)
    requires n <= m && SqlWalk(v, at, n, visited) <= spared
    ensures Walk(v, at, m, visited) <= spared <==> !Loses(v, spared, at, n, m, visited)
    decreases v.entries.Keys - visited
  {
    if at.None? || m == {} || at.value in visited || at.value !in v.entries || n == {} || at.value == "" {
    } else {
      var e := v.entries[at.value];
      LosesExactly(v, spared, e.parent, SqlStillNeeded(v, e, n), StillNeeded(v, e, m), visited + {at.value});
    }
  }

  /** The walk from `h` is cut short before a checkpoint that is no head and that no
      walk from a head passes. */
  ghost predicate LosesFrom(v: View, heads: set<string>, h: string)
    requires heads <= v.entries.Keys && h in v.entries
  {
    var e := v.entries[h];
    Loses(v, SqlClosure(v, heads), e.parent, Unsettled(v, e), Unsettled(v, e), {})
  }

  ghost predicate NothingLost(v: View, heads: set<string>)
    requires heads <= v.entries.Keys
  {
    forall h :: h in heads ==> !LosesFrom(v, heads, h)
  }

  /** Whichever checkpoints must survive, the SQL saver never retains more than the
      in-memory saver, and it retains the same exactly if no head's walk is cut
      short before a checkpoint nothing else retains. */
  lemma SaversAgreeExactly(v: View, heads: set<string>)
    requires heads <= v.entries.Keys
    ensures SqlClosure(v, heads) <= Closure(v, heads)
    ensures SqlClosure(v, heads) == Closure(v, heads) <==> NothingLost(v, heads)
  {
    var spared := SqlClosure(v, heads);
    forall h | h in heads
      ensures SqlAncestors(v, h) <= Ancestors(v, h)
      ensures Ancestors(v, h) <= spared <==> !LosesFrom(v, heads, h)
    {
      var e := v.entries[h];
      SqlWalkWithin(v, e.parent, Unsettled(v, e), Unsettled(v, e), {});
      LosesExactly(v, spared, e.parent, Unsettled(v, e), Unsettled(v, e), {});
    }
    hide LosesFrom, SqlAncestors, Ancestors;
    if spared == Closure(v, heads) {
      forall h | h in heads ensures Ancestors(v, h) <= spared {}
    }
  }

  /** A walk that comes back to the checkpoint it started from ends there. */
  lemma {:induction false} WalkSkipsStart(v: View, h: string, at: Option<string>, needed: set<string>,
                                          visited: set<string>)
    requires h in v.entries
    requires at == v.entries[h].parent || (v.entries[h].parent.Some? && v.entries[h].parent.value in visited)
    ensures {h} + Walk(v, at, needed, visited + {h}) == {h} + Walk(v, at, needed, visited)
    ensures {h} + SqlWalk(v, at, needed, visited + {h}) == {h} + SqlWalk(v, at, needed, visited)
    decreases v.entries.Keys - visited
  {
    if at.None? || needed == {} || at.value in visited || at.value == h || at.value !in v.entries {
    } else {
      var e, seen := v.entries[at.value], visited + {at.value};
      assert visited + {h} + {at.value} == seen + {h};
      WalkSkipsStart(v, h, e.parent, StillNeeded(v, e, needed), seen);
      WalkSkipsStart(v, h, e.parent, SqlStillNeeded(v, e, needed), seen);
    }
  }

  /** Keep-latest: both savers retain the same exactly if the walk from the newest
      checkpoint is not cut short. */
  lemma LatestAgreesExactly(v: View)
    requires v.entries != map[]
    ensures var g := Greatest(v.entries.Keys); var e := v.entries[g]; var u := Unsettled(v, e);
            && (SqlClosure(v, {g}) == Keep(v) <==> !CutShort(v, e.parent, u, u, {g}))
            && (NothingLost(v, {g}) <==> !CutShort(v, e.parent, u, u, {g}))
  {
    var g := Greatest(v.entries.Keys);
    var e := v.entries[g];
    var u := Unsettled(v, e);
    SaversAgreeExactly(v, {g});
    WalkSkipsStart(v, g, e.parent, u, {});
    assert {} + {g} == {g};
    WalkAvoids(v, e.parent, u, {g});
    SqlWalkWithin(v, e.parent, u, u, {g});
    WalkAgreesExactly(v, e.parent, u, u, {g});
    assert SqlClosure(v, {g}) == {g} + SqlWalk(v, e.parent, u, {g}) by {
      assert SqlClosure(v, {g}) == {g} + SqlAncestors(v, g);
    }
    assert Closure(v, {g}) == {g} + Walk(v, e.parent, u, {g}) by {
      assert Closure(v, {g}) == {g} + Ancestors(v, g);
    }
  }

  // ---------------------------------------------- a condition on the history

  /** No checkpoint has the empty id, and wherever a checkpoint lacks a channel
      that has a snapshot under the version text "None", its parent link leads
      nowhere new. */
  ghost predicate Unambiguous(v: View) {
    && "" !in v.entries
    && forall id, c :: id in v.entries && c !in v.entries[id].versions && Materialized(v.blobs, v.Slot(c, "None")) ==>
         DeadEnd(v, id)
  }

  predicate DeadEnd(v: View, id: string)
    requires id in v.entries
  {
    var p := v.entries[id].parent;
    p.None? || p.value !in v.entries || p.value == id
  }

  lemma {:induction false} WalksAgreeFrom(v: View, at: Option<string>, needed: set<string>, visited: set<string>)
    requires Unambiguous(v)
    ensures SqlWalk(v, at, needed, visited) == Walk(v, at, needed, visited)
    decreases v.entries.Keys - visited
  {
    if at.None? || needed == {} || at.value in visited || at.value !in v.entries {
    } else {
      var id := at.value;
      var e := v.entries[id];
      if DeadEnd(v, id) {
        assert Walk(v, e.parent, StillNeeded(v, e, needed), visited + {id}) == {};
        assert SqlWalk(v, e.parent, SqlStillNeeded(v, e, needed), visited + {id}) == {};
      } else {
        assert SqlStillNeeded(v, e, needed) == StillNeeded(v, e, needed);
        WalksAgreeFrom(v, e.parent, StillNeeded(v, e, needed), visited + {id});
      }
    }
  }

  ghost predicate WalksAgree(v: View, at: Option<string>, needed: set<string>) {
    SqlWalk(v, at, needed, {}) == Walk(v, at, needed, {})
  }

  /** The two walks pass the same checkpoints from every start, for every set of
      channels, exactly when the history is unambiguous: the weakest condition that
      does not look at the heads. */
  lemma WalksAgreeExactly(v: View)
    ensures (forall at, needed :: WalksAgree(v, at, needed)) <==> Unambiguous(v)
  {
    if Unambiguous(v) {
      forall at, needed ensures WalksAgree(v, at, needed) {
        WalksAgreeFrom(v, at, needed, {});
      }
    } else if "" in v.entries {
      assert "" in Walk(v, Some(""), {"c"}, {});
      assert !WalksAgree(v, Some(""), {"c"});
    } else {
      var id, c :| id in v.entries && c !in v.entries[id].versions
                   && Materialized(v.blobs, v.Slot(c, "None")) && !DeadEnd(v, id);
      var e := v.entries[id];
      assert StillNeeded(v, e, {c}) == {c};
      assert SqlStillNeeded(v, e, {c}) == {};
      assert SqlWalk(v, Some(id), {c}, {}) == {id};
      assert e.parent.value in Walk(v, Some(id), {c}, {});
      assert !WalksAgree(v, Some(id), {c});
    }
  }

  /** On an unambiguous history nothing is lost, whichever checkpoints must
      survive: the newest ones or those of other runs. */
  lemma UnambiguousLosesNothing(v: View, heads: set<string>)
    requires Unambiguous(v) && heads <= v.entries.Keys
    ensures NothingLost(v, heads) && SqlClosure(v, heads) == Closure(v, heads)
  {
    hide NothingLost;
    forall h | h in heads ensures SqlAncestors(v, h) == Ancestors(v, h) {
      WalksAgreeFrom(v, v.entries[h].parent, Unsettled(v, v.entries[h]), {});
    }
    SaversAgreeExactly(v, heads);
  }

  /** The history of the next lemma: "3" is delta-backed, "2" lacks the channel,
      "1" has its snapshot; another snapshot is stored under the version "None". */
  const SHORTENED := View(
    "t", "",
    map["1" := Entry(map["c" := "a"], {}, None, None, 0, 0),
        "2" := Entry(map[], {}, None, Some("1"), 0, 0),
        "3" := Entry(map["c" := "b"], {"c"}, None, Some("2"), 0, 0)],
    map[],
    map[BlobKey("t", "", "c", "a") := Payload("bytes", []), BlobKey("t", "", "c", "None") := Payload("bytes", [])])

  lemma ShortenedWalk()
    ensures SqlClosure(SHORTENED, {"3"}) == {"2", "3"}
  {
    var v := SHORTENED;
    assert Unsettled(v, v.entries["3"]) == {"c"};
    assert SqlStillNeeded(v, v.entries["2"], {"c"}) == {};
    assert SqlWalk(v, Some("2"), {"c"}, {}) == {"2"};
  }

  /** Off that condition the SQL saver can cut a chain short: here it forgets the
      snapshot at "1" that the newest checkpoint "3" is replayed from. */
  lemma SqlCanForgetSnapshot(w: View)
    requires CutTo(SHORTENED, w, SqlClosure(SHORTENED, {"3"}))
    ensures Greatest(SHORTENED.entries.Keys) == "3" && "3" in w.entries
    ensures Reconstruct(w, "3", "c") != Reconstruct(SHORTENED, "3", "c")
  {
    var v := SHORTENED;
    assert IsGreatest(v.entries.Keys, "3") by {
      assert StrLeq("1", "3") && StrLeq("2", "3") && StrLeq("3", "3");
    }
    GreatestUnique(v.entries.Keys, "3", Greatest(v.entries.Keys));
    ShortenedWalk();
    SettlesPreserved(v, w, {"2", "3"}, "3", "c");
    ShortenedChains(w);
  }

  lemma ShortenedChains(w: View)
    requires CutTo(SHORTENED, w, {"2", "3"})
    ensures Chain(SHORTENED, "c", Some("2"), {}).1 == Snapshot
    ensures Chain(w, "c", Some("2"), {}).1 == MissingParent("1")
  {
    var v := SHORTENED;
    SettlesPreserved(v, w, {"2", "3"}, "2", "c");
    assert Chain(v, "c", Some("1"), {} + {"2"}).1 == Snapshot;
    assert Chain(w, "c", Some("1"), {} + {"2"}).1 == MissingParent("1");
  }
}
