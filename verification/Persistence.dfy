/** The persistence registry: which live dictionary may write a file. */
module Persistence {
  import opened Prelude

  /** `_langgraph_runtime_persistence_owner`: unset, `True` or `False`. */
  datatype Ownership = Unset | Owner | Denied

  type Data = map<string, seq<bv8>>

  /** One write to disk: by which instance, and who owned the file then. */
  datatype Write = Write(file: string, writer: nat, owner: Option<nat>, data: Data)

  datatype World = World(
    file: map<nat, string>,              // every instance ever created, with its filename
    contents: map<nat, Data>,
    ownership: map<nat, Ownership>,
    alive: set<nat>,
    registry: map<string, nat>,          // weak references: the instance may be dead
    disk: map<string, Data>,
    log: seq<Write>)
  {
    ghost predicate Typed() {
      && contents.Keys == file.Keys && ownership.Keys == file.Keys && alive <= file.Keys
      && forall f :: f in registry ==> registry[f] in file && file[registry[f]] == f
    }

    /** The registered instance, if it is still alive. */
    function LiveOwner(f: string): Option<nat> {
      if f in registry && registry[f] in alive then Some(registry[f]) else None
    }
  }

  datatype Step =
    | Create(d: nat, file: string)
    | Register(d: nat)
    | Mutate(d: nat, data: Data)
    | Flush(files: seq<string>, failing: set<string>)   // the registry snapshot, in its order
    | Die(d: nat)
    | Close(d: nat, ok: bool)

  // ------------------------------------------------------------- operations

  function Registered(w: World, d: nat): World
    requires w.Typed() && d in w.alive
  {
    var f := w.file[d];
    if w.LiveOwner(f).Some? && w.LiveOwner(f).value != d then
      w.(ownership := w.ownership[d := Denied])
    else
      w.(registry := w.registry[f := d], ownership := w.ownership[d := Owner])
  }

  function Synced(w: World, d: nat): World
    requires w.Typed() && d in w.alive
  {
    w.(disk := w.disk[w.file[d] := w.contents[d]],
       log := w.log + [Write(w.file[d], d, w.LiveOwner(w.file[d]), w.contents[d])])
  }

  function Cleared(w: World, d: nat): World {
    w.(contents := w.contents[d := map[]])
  }

  /** `close_persistent_dict`; with `ok` false the final sync raised. */
  function ClosedBy(w: World, d: nat, ok: bool): World
    requires w.Typed() && d in w.alive
  {
    var f := w.file[d];
    if w.ownership[d] == Denied then Cleared(w, d)
    else if w.LiveOwner(f).Some? && w.LiveOwner(f).value != d then
      Cleared(w, d).(ownership := w.ownership[d := Denied])
    else if !ok then w
    else
      Cleared(Synced(w, d), d).(ownership := w.ownership[d := Unset], registry := w.registry - {f})
  }

  /** One file of `_flush_registered_once`. */
  function FlushedFile(w: World, f: string, failing: set<string>): World
    requires w.Typed()
  {
    if f !in w.registry then w
    else if w.registry[f] !in w.alive then w.(registry := w.registry - {f})
    else if f in failing then w
    else Synced(w, w.registry[f])
  }

  lemma FlushedFileTyped(w: World, f: string, failing: set<string>)
    requires w.Typed()
    ensures FlushedFile(w, f, failing).Typed()
  {
  }

  ghost function FlushedFiles(w: World, files: seq<string>, failing: set<string>): World
    requires w.Typed()
    decreases files
  {
    if files == [] then w
    else
      FlushedFileTyped(w, files[0], failing);
      FlushedFiles(FlushedFile(w, files[0], failing), files[1..], failing)
  }

  // ------------------------------------------------------------- invariant

  /** Exactly the registered live instance of a file calls itself its owner. */
  ghost predicate Inv(w: World) {
    && w.Typed()
    && forall d :: d in w.alive ==> (w.ownership[d] == Owner <==> w.LiveOwner(w.file[d]) == Some(d))
  }

  lemma RegisteredInv(w: World, d: nat)
    requires Inv(w) && d in w.alive
    ensures Inv(Registered(w, d)) && Registered(w, d).log == w.log
  {
  }

  lemma FlushedFileInv(w: World, f: string, failing: set<string>)
    requires Inv(w)
    ensures Inv(FlushedFile(w, f, failing))
    ensures FlushedFile(w, f, failing).alive == w.alive && FlushedFile(w, f, failing).ownership == w.ownership
    ensures forall g :: FlushedFile(w, f, failing).LiveOwner(g) == w.LiveOwner(g)
    ensures OwnersOnly(w.log) ==> OwnersOnly(FlushedFile(w, f, failing).log)
  {
  }

  /** Every write was made by the owner of the file at that moment. */
  ghost predicate OwnersOnly(log: seq<Write>) {
    forall i :: 0 <= i < |log| ==> log[i].owner == Some(log[i].writer)
  }

  lemma {:induction false} FlushedFilesInv(w: World, files: seq<string>, failing: set<string>)
    requires Inv(w)
    ensures var w' := FlushedFiles(w, files, failing);
            && Inv(w') && w'.alive == w.alive && w'.ownership == w.ownership
            && (forall g :: w'.LiveOwner(g) == w.LiveOwner(g))
            && (OwnersOnly(w.log) ==> OwnersOnly(w'.log))
    decreases files
  {
    hide FlushedFile, Inv, OwnersOnly;
    if files != [] {
      assert w.Typed() by { InvTyped(w); }
      FlushedFileInv(w, files[0], failing);
      FlushedFilesInv(FlushedFile(w, files[0], failing), files[1..], failing);
    }
  }

  lemma InvTyped(w: World)
    requires Inv(w)
    ensures w.Typed()
  {
  }

  lemma ClosedTyped(w: World, d: nat, ok: bool)
    requires w.Typed() && d in w.alive
    ensures var w' := ClosedBy(w, d, ok); w'.Typed() && w'.file == w.file && w'.alive == w.alive
  {
    assert Cleared(w, d).Typed() && Synced(w, d).Typed();
    assert Cleared(Synced(w, d), d).Typed();
  }

  lemma ClosedInv(w: World, d: nat, ok: bool)
    requires Inv(w) && d in w.alive
    ensures Inv(ClosedBy(w, d, ok))
  {
    ClosedTyped(w, d, ok);
    var w' := ClosedBy(w, d, ok);
    forall e | e in w'.alive ensures w'.ownership[e] == Owner <==> w'.LiveOwner(w'.file[e]) == Some(e) {
      assert w.ownership[e] == Owner <==> w.LiveOwner(w.file[e]) == Some(e);
    }
  }

  /** A close writes as the owner, or not at all, unless the instance was never
      registered since its last close and no live owner exists: exactly then it
      writes without owning the file. */
  lemma CloseWritesExactly(w: World, d: nat, ok: bool)
    requires Inv(w) && d in w.alive && OwnersOnly(w.log)
    ensures OwnersOnly(ClosedBy(w, d, ok).log) <==> !(ok && w.ownership[d] == Unset && w.LiveOwner(w.file[d]).None?)
  {
    var w' := ClosedBy(w, d, ok);
    if ok && w.ownership[d] == Unset && w.LiveOwner(w.file[d]).None? {
      assert w'.log[|w.log|].owner == None;
    }
  }

  // ------------------------------------------------------------ whole runs

  /** Whether the step is possible; an instance is closed only if it was registered
      since its last close. */
  ghost predicate Enabled(w: World, step: Step) {
    match step
    case Create(d, _) => d !in w.file
    case Register(d) => d in w.alive
    case Mutate(d, _) => d in w.alive
    case Flush(files, _) => forall f :: f in files <==> f in w.registry
    case Die(d) => d in w.alive
    case Close(d, _) => d in w.alive && d in w.ownership && w.ownership[d] != Unset
  }

  ghost function Next(w: World, step: Step): World
    requires w.Typed() && Enabled(w, step)
  {
    match step
    case Create(d, f) =>
      w.(file := w.file[d := f], contents := w.contents[d := map[]], ownership := w.ownership[d := Unset],
         alive := w.alive + {d})
    case Register(d) => Registered(w, d)
    case Mutate(d, data) => w.(contents := w.contents[d := data])
    case Flush(files, failing) => FlushedFiles(w, files, failing)
    case Die(d) => w.(alive := w.alive - {d})
    case Close(d, ok) => ClosedBy(w, d, ok)
  }

  lemma InvStep(w: World, step: Step)
    requires Inv(w) && Enabled(w, step)
    ensures Inv(Next(w, step))
    ensures OwnersOnly(w.log) ==> OwnersOnly(Next(w, step).log)
  {
    match step
    case Register(d) => RegisteredInv(w, d);
    case Flush(files, failing) => FlushedFilesInv(w, files, failing);
    case Close(d, ok) =>
      ClosedInv(w, d, ok);
      if OwnersOnly(w.log) { CloseWritesExactly(w, d, ok); }
    case _ =>
  }

  const EMPTY := World(map[], map[], map[], {}, map[], map[], [])

  /** The world after the steps, if each was possible. */
  ghost function After(steps: seq<Step>): (r: Option<World>)
    ensures r.Some? ==> Inv(r.value)
    decreases |steps|
  {
    if steps == [] then Some(EMPTY)
    else
      var p, last := After(steps[..|steps| - 1]), steps[|steps| - 1];
      if p.Some? && Enabled(p.value, last) then
        InvStep(p.value, last);
        Some(Next(p.value, last))
      else None
  }

  /** Main result: in every run, every write to a file is made by its registry
      owner. */
  lemma {:induction false} OnlyOwnersWrite(steps: seq<Step>)
    requires After(steps).Some?
    ensures OwnersOnly(After(steps).value.log)
    decreases |steps|
  {
    if steps != [] {
      OnlyOwnersWrite(steps[..|steps| - 1]);
      InvStep(After(steps[..|steps| - 1]).value, steps[|steps| - 1]);
    }
  }

  lemma {:induction false} FlushWrites(w: World, files: seq<string>, failing: set<string>)
    requires Inv(w)
    ensures var w' := FlushedFiles(w, files, failing);
            && w.log <= w'.log
            && forall i :: |w.log| <= i < |w'.log| ==>
                 w'.log[i].writer in w.alive && w.ownership[w'.log[i].writer] == Owner
    decreases files
  {
    if files != [] {
      FlushedFileInv(w, files[0], failing);
      FlushWrites(FlushedFile(w, files[0], failing), files[1..], failing);
    }
  }

  predicate IsDenied(w: World, d: nat) {
    d in w.ownership && w.ownership[d] == Denied
  }

  /** Writes already made stay; a denied instance adds none and stays denied. */
  lemma DeniedStep(w: World, step: Step, d: nat)
    requires Inv(w) && Enabled(w, step) && IsDenied(w, d) && step != Register(d)
    ensures var w' := Next(w, step);
            && IsDenied(w', d) && w.log <= w'.log
            && forall i :: |w.log| <= i < |w'.log| ==> w'.log[i].writer != d
  {
    match step
    case Flush(files, failing) =>
      FlushWrites(w, files, failing);
      FlushedFilesInv(w, files, failing);
      InvStep(w, step);
    case _ =>
  }

  /** A denied duplicate's contents never reach the disk, even after the owner has
      closed: it writes nothing in any later run that does not register it anew. */
  lemma {:induction false} DeniedNeverWrites(before: seq<Step>, later: seq<Step>, d: nat)
    requires After(before).Some? && After(before + later).Some?
    requires IsDenied(After(before).value, d)
    requires Register(d) !in later
    ensures var w, w' := After(before).value, After(before + later).value;
            && IsDenied(w', d) && w.log <= w'.log
            && forall i :: |w.log| <= i < |w'.log| ==> w'.log[i].writer != d
    decreases later
  {
    hide Next, Inv, Enabled, IsDenied;
    if later == [] {
      assert before + later == before;
    } else {
      var all := before + later;
      var n := |all| - 1;
      assert all[..n] == before + later[..|later| - 1];
      DeniedNeverWrites(before, later[..|later| - 1], d);
      AfterLast(all);
      hide After;
      DeniedStep(After(all[..n]).value, all[n], d);
    }
  }

  lemma AfterLast(steps: seq<Step>)
    requires steps != [] && After(steps).Some?
    ensures var n := |steps| - 1;
            && After(steps[..n]).Some? && Inv(After(steps[..n]).value) && Enabled(After(steps[..n]).value, steps[n])
            && After(steps).value == Next(After(steps[..n]).value, steps[n])
  {
    hide Next, Inv, Enabled;
  }

  /** A flush, whichever syncs fail, leaves every live owner registered. */
  lemma FlushKeepsOwners(w: World, files: seq<string>, failing: set<string>, f: string)
    requires Inv(w) && Enabled(w, Flush(files, failing))
    ensures Next(w, Flush(files, failing)).LiveOwner(f) == w.LiveOwner(f)
  {
    FlushedFilesInv(w, files, failing);
  }

  // -------------------------------------------------------- what is on disk

  /** Registering never evicts a live owner. */
  lemma RegisterNeverEvicts(w: World, d: nat, f: string)
    requires Inv(w) && d in w.alive
    ensures var w' := Registered(w, d);
            && w'.disk == w.disk && w'.contents == w.contents
            && w'.LiveOwner(f) == if f == w.file[d] && w.LiveOwner(f).None? then Some(d) else w.LiveOwner(f)
  {
  }

  /** A close that may write leaves on disk what the instance held just before, empties
      it and gives up its ownership; a denied or superseded one only empties it and
      leaves it denied; a failed one changes nothing. */
  lemma CloseSavesContents(w: World, d: nat, ok: bool)
    requires Inv(w) && d in w.alive
    ensures var w' := ClosedBy(w, d, ok); var f := w.file[d];
            if ok && w.ownership[d] != Denied && (w.LiveOwner(f).None? || w.LiveOwner(f) == Some(d)) then
              && w'.disk == w.disk[f := w.contents[d]] && w'.contents[d] == map[] && w'.LiveOwner(f).None?
              && w'.ownership[d] == Unset
            else if w.ownership[d] == Denied || (w.LiveOwner(f).Some? && w.LiveOwner(f).value != d) then
              w'.disk == w.disk && w'.contents[d] == map[] && w'.ownership[d] == Denied && w'.registry == w.registry
            else w' == w
  {
  }

  /** What one file of a flush leaves on disk. */
  lemma FlushedFileSaves(w: World, f: string, failing: set<string>, g: string)
    requires Inv(w)
    ensures var w' := FlushedFile(w, f, failing);
            && w'.contents == w.contents
            && Lookup(w'.disk, g) ==
               if g == f && w.LiveOwner(f).Some? && f !in failing then Some(w.contents[w.LiveOwner(f).value])
               else Lookup(w.disk, g)
  {
  }

  /** A flush saves exactly the live owners' contents whose sync does not fail. */
  lemma {:induction false} FlushSavesContents(w: World, files: seq<string>, failing: set<string>, g: string)
    requires Inv(w)
    ensures var w' := FlushedFiles(w, files, failing);
            && w'.contents == w.contents
            && Lookup(w'.disk, g) ==
               if g in files && w.LiveOwner(g).Some? && g !in failing then Some(w.contents[w.LiveOwner(g).value])
               else Lookup(w.disk, g)
    decreases files
  {
    if files != [] {
      var w1 := FlushedFile(w, files[0], failing);
      FlushedFileInv(w, files[0], failing);
      FlushedFileSaves(w, files[0], failing, g);
      FlushSavesContents(w1, files[1..], failing, g);
      assert g in files <==> g == files[0] || g in files[1..];
    }
  }

  /** What file `f` holds, told from the steps: the contents its owner held just
      before the last step that closed or flushed it without failing. */
  ghost function Saved(steps: seq<Step>, f: string): Option<Data>
    requires After(steps).Some?
    decreases |steps|
  {
    if steps == [] then None
    else
      var n := |steps| - 1;
      var w := After(steps[..n]).value;
      match steps[n]
      case Close(d, true) =>
        if w.LiveOwner(f) == Some(d) then Some(w.contents[d]) else Saved(steps[..n], f)
      case Flush(_, failing) =>
        if w.LiveOwner(f).Some? && f !in failing then Some(w.contents[w.LiveOwner(f).value]) else Saved(steps[..n], f)
      case _ => Saved(steps[..n], f)
  }

  /** What a step leaves in file `f`. */
  lemma StepSaves(w: World, step: Step, f: string)
    requires Inv(w) && Enabled(w, step)
    ensures Lookup(Next(w, step).disk, f) ==
            match step
            case Close(d, true) => if w.LiveOwner(f) == Some(d) then Some(w.contents[d]) else Lookup(w.disk, f)
            case Flush(_, failing) =>
              if w.LiveOwner(f).Some? && f !in failing then Some(w.contents[w.LiveOwner(f).value])
              else Lookup(w.disk, f)
            case _ => Lookup(w.disk, f)
  {
    match step
    case Close(d, ok) =>
      CloseSavesContents(w, d, ok);
      assert w.ownership[d] == Owner <==> w.LiveOwner(w.file[d]) == Some(d);
      hide ClosedBy;
    case Flush(files, failing) =>
      FlushSavesContents(w, files, failing, f);
      hide FlushedFiles;
      assert w.LiveOwner(f).Some? ==> f in files;
    case _ =>
  }

  /** Main result: in every run each file holds exactly what its owner held at its
      last successful close or flush, and nothing any other instance ever held. */
  lemma {:induction false} DiskIsLastSave(steps: seq<Step>, f: string)
    requires After(steps).Some?
    ensures Lookup(After(steps).value.disk, f) == Saved(steps, f)
    decreases |steps|
  {
    if steps != [] {
      var n := |steps| - 1;
      DiskIsLastSave(steps[..n], f);
      StepSaves(After(steps[..n]).value, steps[n], f);
      hide Next, Enabled;
    }
  }

  // ----------------------------------------------------------- the registry

  /** `_stores`, the ownership attributes and the files, changed in place under the
      registry lock. */
  class Registry {
    var file: map<nat, string>
    var contents: map<nat, Data>
    var ownership: map<nat, Ownership>
    var alive: set<nat>
    var stores: map<string, nat>
    var disk: map<string, Data>
    ghost var log: seq<Write>

    ghost function Now(): World
      reads this
    {
      World(file, contents, ownership, alive, stores, disk, log)
    }

    function LiveOwner(f: string): Option<nat>
      reads this
    {
      if f in stores && stores[f] in alive then Some(stores[f]) else None
    }

    method RegisterPersistentDict(d: nat)
      requires Now().Typed() && d in alive
      modifies this
      ensures Now() == Registered(old(Now()), d)
    {
      var current := LiveOwner(file[d]);
      if current.Some? && current.value != d {
        ownership := ownership[d := Denied];
        return;
      }
      stores := stores[file[d] := d];
      ownership := ownership[d := Owner];
    }

    method Sync(d: nat)
      requires Now().Typed() && d in alive
      modifies this
      ensures Now() == Synced(old(Now()), d)
    {
      log := log + [Write(file[d], d, LiveOwner(file[d]), contents[d])];
      disk := disk[file[d] := contents[d]];
    }

    method ClosePersistentDict(d: nat, ok: bool)
      requires Now().Typed() && d in alive
      modifies this
      ensures Now() == ClosedBy(old(Now()), d, ok)
    {
      if ownership[d] == Denied {
        contents := contents[d := map[]];
        return;
      }
      var current := LiveOwner(file[d]);
      if current.Some? && current.value != d {
        ownership := ownership[d := Denied];
        contents := contents[d := map[]];
        return;
      }
      if !ok { return; }
      Sync(d);
      contents := contents[d := map[]];
      ownership := ownership[d := Unset];
      stores := stores - {file[d]};
    }

    method FlushRegisteredOnce(files: seq<string>, failing: set<string>)
      requires Now().Typed()
      modifies this
      ensures Now() == FlushedFiles(old(Now()), files, failing)
    {
      for i := 0 to |files|
        invariant Now().Typed()
        invariant FlushedFiles(Now(), files[i..], failing) == FlushedFiles(old(Now()), files, failing)
      {
        assert files[i..][1..] == files[i + 1..];
        FlushedFileTyped(Now(), files[i], failing);
        if files[i] in stores {
          if stores[files[i]] !in alive {
            stores := stores - {files[i]};
          } else if files[i] !in failing {
            Sync(stores[files[i]]);
          }
        }
      }
    }
  }
}
