/** The local-first file system: a local tree, a remote one, and the map of unpushed edits. */
module SyncFs {
  import opened Wrappers
  import opened Bytes
  import opened Tree
  import opened SyncPatch
  import opened SyncPull
  import opened SyncImport

  /** Records an edit under a fresh generation. */
  function Marked(dirty: DirtyMap, path: Path, change: DirtyChange, generation: nat): DirtyMap {
    dirty[path := DirtyEntry(change, generation)]
  }

  /** `current` without the entries that `settled` still describes: an entry marked again since
      has a newer generation and stays. */
  function Unsettled(current: DirtyMap, settled: DirtyMap): DirtyMap {
    map p | p in current && !(p in settled && settled[p].generation == current[p].generation) :: current[p]
  }

  /** The loop with which push and pull forget settled entries. */
  method ForgetSettled(current: DirtyMap, settled: DirtyMap) returns (left: DirtyMap)
    ensures left == Unsettled(current, settled)
  {
    left := current;
    var todo := settled.Keys;
    while todo != {}
      invariant todo <= settled.Keys
      invariant left == Unsettled(current, map p | p in settled && p !in todo :: settled[p])
      decreases |todo|
    {
      var p :| p in todo;
      if p in left && left[p].generation == settled[p].generation {
        left := left - {p};
      }
      todo := todo - {p};
    }
    assert settled == map p | p in settled && p !in todo :: settled[p];
  }

  class SyncFs {
    const local: FileTree
    const remote: FileTree
    const policy: PullConflictPolicy
    const retainConflicts: bool
    var nextGeneration: nat
    var dirty: DirtyMap
    var pullConflicts: map<Path, DirtyChange>

    constructor (local: FileTree, remote: FileTree, policy: PullConflictPolicy, retain: bool)
      requires local != remote && WellFormed(local.nodes) && WellFormed(remote.nodes)
      ensures this.local == local && this.remote == remote && this.policy == policy && retainConflicts == retain
      ensures Valid() && dirty == map[] && pullConflicts == map[] && nextGeneration == 0
    {
      this.local, this.remote, this.policy, retainConflicts := local, remote, policy, retain;
      nextGeneration, dirty, pullConflicts := 0, map[], map[];
    }

    ghost predicate Valid()
      reads this, local, remote
    {
      && local != remote && WellFormed(local.nodes) && WellFormed(remote.nodes)
      && forall p :: p in dirty ==> dirty[p].generation <= nextGeneration
    }

    method MarkDirty(path: Path, change: DirtyChange)
      requires Valid()
      modifies this
      ensures Valid() && pullConflicts == old(pullConflicts)
      ensures nextGeneration == old(nextGeneration) + 1
      ensures dirty == Marked(old(dirty), path, change, nextGeneration)
      ensures dirty == old(dirty)[path := DirtyEntry(change, nextGeneration)]
    {
      Mark(path, change);
    }

    // Edits through the file system: the local tree is changed, then the path is marked. A file put below
    // a file, which MemFs allows, leaves a tree that is not well formed.

    method MakeDirectory(path: Path) returns (r: Result<()>)
      requires Valid()
      modifies this, local
      ensures r.Ok? <==>
        path !in old(local.nodes) && path != [] && HoldsEntries(local.kind, old(local.nodes), Parent(path))
      ensures local.nodes == if r.Ok? then old(local.nodes)[path := Dir] else old(local.nodes)
      ensures dirty == if r.Ok? then old(dirty)[path := DirtyEntry(Upsert, nextGeneration)] else old(dirty)
      ensures Valid() <==> r.Err? || DirAt(old(local.nodes), Parent(path))
      ensures Describes(old(dirty), old(local.nodes)) ==> Describes(dirty, local.nodes)
    {
      if path !in local.nodes { AbsentHasNothingBelow(local.nodes, path); }
      r := local.Mkdir(path);
      if r.Ok? {
        if DirAt(old(local.nodes), Parent(path)) { PutKeepsWellFormed(old(local.nodes), path, Dir); }
        Mark(path, Upsert);
      }
    }

    method WriteContents(path: Path, data: seq<Byte>) returns (r: Result<()>)
      requires Valid()
      modifies this, local
      ensures r.Ok? <==>
        path != [] && !DirAt(old(local.nodes), path) && HoldsEntries(local.kind, old(local.nodes), Parent(path))
      ensures local.nodes == if r.Ok? then old(local.nodes)[path := File(data)] else old(local.nodes)
      ensures dirty == if r.Ok? then old(dirty)[path := DirtyEntry(Upsert, nextGeneration)] else old(dirty)
      ensures Valid() <==> r.Err? || DirAt(old(local.nodes), Parent(path))
      ensures Describes(old(dirty), old(local.nodes)) ==> Describes(dirty, local.nodes)
    {
      if path !in local.nodes {
        AbsentHasNothingBelow(local.nodes, path);
      } else if local.nodes[path].File? {
        FileHasNothingBelow(local.nodes, path);
      }
      r := local.WriteFile(path, data);
      if r.Ok? {
        if DirAt(old(local.nodes), Parent(path)) { PutKeepsWellFormed(old(local.nodes), path, File(data)); }
        Mark(path, Upsert);
      }
    }

    method RemoveEntry(path: Path) returns (r: Result<()>)
      requires Valid()
      modifies this, local
      ensures r.Ok? <==> path != [] && path in old(local.nodes) && Under(old(local.nodes), path) == {path}
      ensures local.nodes == if r.Ok? then old(local.nodes) - {path} else old(local.nodes)
      ensures dirty == if r.Ok?
                       then old(dirty)[path := DirtyEntry(Remove(DirAt(old(local.nodes), path)), nextGeneration)]
                       else old(dirty)
      ensures Valid()
      ensures Describes(old(dirty), old(local.nodes)) ==> Describes(dirty, local.nodes)
    {
      var recursive := DirAt(local.nodes, path);
      if path in local.nodes && local.nodes[path].File? { FileHasNothingBelow(local.nodes, path); }
      r := local.Remove(path);
      if r.Ok? {
        OnlySelf(old(local.nodes), path);
        WithoutKeepsWellFormed(old(local.nodes), path);
        Mark(path, Remove(recursive));
      }
    }

    /** Both paths are marked, but nothing that lies below them. */
    method RenameEntry(from: Path, to: Path) returns (r: Result<()>)
      requires Valid() && local.kind.MemFs? && from != [] && to != []
      modifies this, local
      ensures r.Ok? <==> Renamed(old(local.nodes), from, to).Ok?
      ensures local.nodes == if r.Ok? then Renamed(old(local.nodes), from, to).value else old(local.nodes)
      ensures r.Err? ==> dirty == old(dirty)
      ensures Valid() <==> r.Err? || from == to || !Covers(from, to)
      ensures r.Ok? ==> dirty == old(dirty)[from := DirtyEntry(Remove(DirAt(old(local.nodes), from)),
          old(nextGeneration) + 1)][to := DirtyEntry(Upsert, old(nextGeneration) + 2)]
      ensures Describes(old(dirty), old(local.nodes)) && r.Ok? ==>
        (Describes(dirty, local.nodes) <==> RenameFits(old(dirty), old(local.nodes), from, to))
    {
      var recursive := DirAt(local.nodes, from);
      r := local.Rename(from, to);
      if r.Ok? {
        if from != to { RenameKeepsWellFormed(old(local.nodes), from, to); }
        Mark(from, Remove(recursive));
        Mark(to, Upsert);
        if Describes(old(dirty), old(local.nodes)) {
          RenameDescribes(old(dirty), old(local.nodes), from, to, dirty);
        }
      }
    }

    method Mark(path: Path, change: DirtyChange)
      requires forall p :: p in dirty ==> dirty[p].generation <= nextGeneration
      modifies this
      ensures forall p :: p in dirty ==> dirty[p].generation <= nextGeneration
      ensures nextGeneration == old(nextGeneration) + 1 && pullConflicts == old(pullConflicts)
      ensures dirty == old(dirty)[path := DirtyEntry(change, nextGeneration)]
    {
      nextGeneration := nextGeneration + 1;
      dirty := Marked(dirty, path, change, nextGeneration);
    }

    /** Sends the unpushed edits. `fault` is a failure of the transport, before the remote
        side has applied anything. */
    method Push(fault: Option<ErrorKind>) returns (r: Result<()>)
      requires Valid()
      modifies this`dirty, this`pullConflicts, remote
      ensures Valid() && local.nodes == old(local.nodes)
      ensures r.Err? ==> dirty == old(dirty) && pullConflicts == old(pullConflicts)
      ensures r.Ok? ==> dirty == map[] && pullConflicts == old(pullConflicts) - old(dirty).Keys
      ensures r.Ok? ==> forall p :: p in old(dirty) && old(dirty)[p].change.Upsert? ==> p in local.nodes
      ensures r.Ok? && Describes(old(dirty), local.nodes) ==>
        Pushed(local.nodes, old(dirty), old(remote.nodes), remote.nodes)
      ensures
        (&& fault.None? && Describes(old(dirty), local.nodes)
         && RemovalsFit(remote.kind, local.nodes, old(dirty), old(remote.nodes))) ==> r.Ok?
      ensures fault.Some? ==> remote.nodes == old(remote.nodes)
    {
      var snapshot := dirty;
      if snapshot == map[] {
        return Ok(());
      }
      var patch := BuildPatch(local, snapshot);
      if patch.Err? {
        return Err(patch.error);
      }
      if fault.Some? {
        return Err(fault.value);
      }
      if Describes(snapshot, local.nodes) && RemovalsFit(remote.kind, local.nodes, snapshot, remote.nodes) {
        PushSucceeds(remote.kind, local.nodes, remote.nodes, snapshot, patch.value);
      }
      r := ApplyPatch(remote, patch.value);
      if r.Err? {
        return;
      }
      if Describes(snapshot, local.nodes) {
        PushTheorem(remote.kind, local.nodes, old(remote.nodes), snapshot, patch.value);
      }
      pullConflicts := pullConflicts - snapshot.Keys;
      dirty := ForgetSettled(dirty, snapshot);
    }

    /** Brings the local tree to the remote index. `fault` is a failure to read the index. */
    method Pull(fault: Option<ErrorKind>) returns (r: Result<()>)
      requires Valid()
      modifies this`dirty, this`pullConflicts, local
      ensures Sound(local.kind, local.nodes) && remote.nodes == old(remote.nodes)
      ensures fault.Some? ==> r.Err? && local.nodes == old(local.nodes)
      ensures fault.None? ==>
        (r.Ok? <==> policy.PreferRemote? || Importable(local.kind, old(dirty), remote.nodes, old(local.nodes)))
      ensures r.Ok? ==>
        (Valid() <==> policy.PreferRemote? || Unblocked(old(dirty), remote.nodes, old(local.nodes)))
      ensures r.Err? ==> Valid()
      ensures Describes(old(dirty), old(local.nodes)) ==> Describes(dirty, local.nodes)
      ensures r.Ok? ==> Pulled(policy, old(local.nodes), remote.nodes, old(dirty), local.nodes, dirty)
      ensures r.Err? ==> dirty == old(dirty) && pullConflicts == old(pullConflicts) && EditsKept(old(local.nodes),
          old(dirty), local.nodes)
      ensures r.Ok? && !retainConflicts ==> pullConflicts == map[]
      ensures r.Ok? && retainConflicts ==> RetainedFrom(policy, old(dirty), pullConflicts)
      ensures r.Ok? && retainConflicts && policy.KeepLocal? ==> forall d :: d in pullConflicts <==>
        d in old(dirty) && Conflicting(old(local.nodes), remote.nodes, d)
    {
      if fault.Some? {
        return Err(fault.value);
      }
      var original := dirty;
      var left, retained;
      left, retained, r := RunPasses(policy, original, remote.nodes, local);
      if r.Err? {
        if Describes(original, old(local.nodes)) { KeepKeepsDescription(old(local.nodes), original, local.nodes); }
        return;
      }
      dirty := ForgetSettled(dirty, map p | p in original && p !in left :: original[p]);
      KeptOrForgotten(original, left);
      if Describes(original, old(local.nodes)) {
        match policy {
          case PreferRemote => PreferKeepsDescription(old(local.nodes), remote.nodes, original, local.nodes, left);
          case KeepLocal => KeepKeepsDescription(old(local.nodes), original, local.nodes);
        }
      }
      pullConflicts := if retainConflicts then retained else map[];
    }

    /** Push, then pull. */
    method Sync(pushFault: Option<ErrorKind>, pullFault: Option<ErrorKind>) returns (r: Result<()>)
      requires Valid()
      modifies this`dirty, this`pullConflicts, local, remote
      ensures Valid()
      ensures r.Ok? ==> dirty == map[] && local.nodes == remote.nodes
      ensures r.Ok? && Describes(old(dirty), old(local.nodes)) ==>
        Pushed(old(local.nodes), old(dirty), old(remote.nodes), remote.nodes)
      ensures
        (&& pushFault == pullFault == None && Describes(old(dirty), old(local.nodes))
         && RemovalsFit(remote.kind, old(local.nodes), old(dirty), old(remote.nodes))) ==> r.Ok?
    {
      r := Push(pushFault);
      if r.Err? {
        return;
      }
      CleanPullMirrors(local.nodes, remote.nodes);
      r := Pull(pullFault);
    }
  }

  /** Forgetting what is not left leaves what is left. */
  lemma KeptOrForgotten(original: DirtyMap, left: DirtyMap)
    requires forall p :: p in left ==> p in original && left[p] == original[p]
    ensures Unsettled(original, map p | p in original && p !in left :: original[p]) == left
  {
  }

  /** When a rename leaves a dirty map that still says what is there: nothing that was marked below the
      old place may be there to send, and what is marked below the new place must agree with what moved
      there. A rename onto itself must be of something that exists. */
  ghost predicate RenameFits(dirty: DirtyMap, t: Tree, from: Path, to: Path) {
    if from == to then from in t
    else
      forall p :: p in dirty && p != from && p != to ==>
        && (Covers(to, p) ==> (dirty[p].change.Upsert? <==> from + p[|to|..] in t))
        && (Covers(from, p) && !Covers(to, p) ==> dirty[p].change.Remove?)
  }

  lemma RenameDescribes(dirty: DirtyMap, t: Tree, from: Path, to: Path, marked: DirtyMap)
    requires WellFormed(t) && from != [] && to != [] && Renamed(t, from, to).Ok? && Describes(dirty, t)
    requires forall p :: p in marked <==> p in dirty || p == from || p == to
    requires forall p :: p in dirty && p != from && p != to ==> marked[p].change == dirty[p].change
    requires marked[to].change.Upsert? && (from != to ==> marked[from].change.Remove?)
    ensures Describes(marked, Renamed(t, from, to).value) <==> RenameFits(dirty, t, from, to)
  {
    var u := Renamed(t, from, to).value;
    if from != to {
      forall q ensures q in u <==> if Covers(to, q) then from + q[|to|..] in t else q in t && !Covers(from, q) {
        RenamedAt(t, from, to, q);
      }
      assert from + to[|to|..] == from;
      assert Covers(to, from) ==> from !in u by { if Covers(to, from) { TargetIsNotAbove(t, from, to); } }
    }
  }

  lemma TargetIsNotAbove(t: Tree, from: Path, to: Path)
    requires WellFormed(t) && from != [] && to != [] && from != to && Renamed(t, from, to).Ok?
    ensures !Covers(to, from)
  {
    if Covers(to, from) {
      assert from in Under(t, to);
      DirsAbove(t, from, to);
    }
  }

  lemma NothingBelowTarget(t: Tree, from: Path, to: Path, q: Path)
    requires WellFormed(t) && from != [] && to != [] && from != to && Renamed(t, from, to).Ok?
    ensures q in t && Covers(to, q) ==> q == to
  {
    if q in t && Covers(to, q) && q != to {
      assert q in Under(t, to);
      DirsAbove(t, q, to);
    }
  }

  lemma RenamedAt(t: Tree, from: Path, to: Path, q: Path)
    requires WellFormed(t) && from != [] && to != [] && from != to && Renamed(t, from, to).Ok?
    ensures q in Renamed(t, from, to).value
      <==> if Covers(to, q) then from + q[|to|..] in t else q in t && !Covers(from, q)
    ensures q in Renamed(t, from, to).value ==>
      Renamed(t, from, to).value[q] == if Covers(to, q) then t[from + q[|to|..]] else t[q]
  {
    TargetIsNotAbove(t, from, to);
    NothingBelowTarget(t, from, to, q);
    assert q == to ==> from + q[|to|..] == from;
    if t[from].File? {
      FileHasNothingBelow(t, from);
      forall p | p in t && Covers(from, p) ensures p == from { assert p in Under(t, from); }
      if Covers(to, q) && from + q[|to|..] in t { assert from + q[|to|..] == from; }
    } else {
      MovedAt(t, from, to, q);
    }
  }

  /** A tree stays well formed unless a directory is moved below itself, which MemFs does not refuse. */
  lemma RenameKeepsWellFormed(t: Tree, from: Path, to: Path)
    requires WellFormed(t) && from != [] && to != [] && from != to && Renamed(t, from, to).Ok?
    ensures WellFormed(Renamed(t, from, to).value) <==> !Covers(from, to)
  {
    var u := Renamed(t, from, to).value;
    RenamedAt(t, from, to, to);
    assert from + to[|to|..] == from;
    RenamedAt(t, from, to, Parent(to));
    if !Covers(from, to) {
      RenamedAt(t, from, to, []);
      forall q | q in u && q != [] ensures DirAt(u, Parent(q)) {
        RenamedAt(t, from, to, q);
        RenamedAt(t, from, to, Parent(q));
        CoversParent(to, q);
        CoversParent(from, q);
        if Covers(to, q) && q != to {
          assert Parent(from + q[|to|..]) == from + Parent(q)[|to|..];
        }
        if q == to { CoversParent(from, to); }
      }
    }
  }

  /** A pull in which the remote side wins keeps a dirty map that says what is there. */
  lemma PreferKeepsDescription(before: Tree, index: Tree, dirty: DirtyMap, after: Tree, left: DirtyMap)
    requires WellFormed(before) && WellFormed(index) && Describes(dirty, before)
    requires Pulled(PreferRemote, before, index, dirty, after, left)
    ensures Describes(left, after)
  {
    forall d | d in left ensures left[d].change.Upsert? <==> d in after { SurvivorsNameNothing(before, index, d); }
  }

  /** So does one that keeps local edits, and even one that fails half way. */
  lemma KeepKeepsDescription(before: Tree, dirty: DirtyMap, after: Tree)
    requires DirAt(before, []) && DirAt(after, []) && Describes(dirty, before) && EditsKept(before, dirty, after)
    ensures Describes(dirty, after)
  {
    forall d | d in dirty && d != [] ensures dirty[d].change.Upsert? <==> d in after {
      assert PathsOverlap(d, d) && !Free(dirty, d) && Held(dirty, d);
      assert d in before ==> SameAt(before, after, d);
    }
  }

  /** With nothing dirty, either policy makes the local tree a copy of the remote one. */
  lemma CleanPullMirrors(before: Tree, index: Tree)
    requires WellFormed(before) && WellFormed(index)
    ensures Unblocked(map[], index, before) && forall kind :: Importable(kind, map[], index, before)
    ensures forall policy, after, left :: WellFormed(after) && Pulled(policy, before, index, map[], after, left) ==>
      after == index && left == map[]
  {
    forall policy, after, left | WellFormed(after) && Pulled(policy, before, index, map[], after, left)
      ensures after == index && left == map[]
    {
      if policy.KeepLocal? {
        forall q ensures SameAt(index, after, q) { assert Free(map[], q); }
        assert after.Keys == index.Keys by {
          forall q ensures q in after <==> q in index { assert SameAt(index, after, q); }
        }
        forall q | q in after ensures after[q] == index[q] { assert SameAt(index, after, q); }
      }
    }
  }

  /** An edit below a directory that is then renamed: no push can succeed any more, since the old path is
      still to be sent. */
  method RenamedEditIsStuck(data: seq<Byte>, policy: PullConflictPolicy) returns (fs: SyncFs, pushed: Result<()>)
    ensures pushed.Err? && fs.dirty != map[] && fresh(fs)
  {
    var a, b, x: Path := [[97]], [[98]], [[97], [120]];
    assert Parent(a) == Parent(b) == [] && Parent(x) == a;
    var local := new FileTree(MemFs);
    var remote := new FileTree(MemFs);
    fs := new SyncFs(local, remote, policy, false);
    var made := fs.MakeDirectory(a);
    var written := fs.WriteContents(x, data);
    assert DirAt(local.nodes, a) && local.nodes[x] == File(data);
    var renamed := fs.RenameEntry(a, b);
    RenamedAt(map[[] := Dir, a := Dir, x := File(data)], a, b, x);
    assert x in fs.dirty && fs.dirty[x].change.Upsert? && x !in local.nodes;
    pushed := fs.Push(None);
  }

  /** A directory renamed to a place where an entry of the same name had been removed: the patch sends the
      entry and, as the removal of the old one is still in the map, takes it away again; the next pull
      then deletes it locally too. The patch is in the order of the paths. */
  lemma RenameLosesFile(remote: Tree, data: seq<Byte>)
    requires WellFormed(remote)
    ensures var d, y, e: Path := [[100]], [[100], [121]], [[101]];
            var local: Tree := map[[] := Dir, d := Dir, y := File(data)];
            var dirty := map[d := DirtyEntry(Upsert, 4), y := DirtyEntry(Remove(false), 1),
                             e := DirtyEntry(Remove(true), 3)];
            var patch := [DirEntry(d)] + [FileEntry(y, data)] + [DeleteEntry(y, false)] + [DeleteEntry(e, true)];
            && Elements(patch) == PatchSet(local, dirty) && ApplyAll(MemFs, remote, patch).Ok?
            && y in local && y !in ApplyAll(MemFs, remote, patch).value
  {
    var d, y, e: Path := [[100]], [[100], [121]], [[101]];
    assert Parent(y) == d && Covers(d, y) && d[0][0] == y[0][0] == 100 && e[0][0] == 101;
    LostPatch(d, y, e, data);
    LostPatchApplied(remote, d, y, e, data);
  }

  lemma LostPatchApplied(remote: Tree, d: Path, y: Path, e: Path, data: seq<Byte>)
    requires WellFormed(remote) && y != [] && e != [] && !Covers(e, y)
    ensures var r := ApplyAll(MemFs, remote,
              [DirEntry(d)] + [FileEntry(y, data)] + [DeleteEntry(y, false)] + [DeleteEntry(e, true)]);
            r.Ok? && y !in r.value
  {
    OneMoreEntry(remote, [], DirEntry(d));
    assert [] + [DirEntry(d)] == [DirEntry(d)];
    OneMoreEntry(remote, [DirEntry(d)], FileEntry(y, data));
    OneMoreEntry(remote, [DirEntry(d)] + [FileEntry(y, data)], DeleteEntry(y, false));
    OneMoreEntry(remote, [DirEntry(d)] + [FileEntry(y, data)] + [DeleteEntry(y, false)], DeleteEntry(e, true));
    var t1 := ApplyEntry(MemFs, remote, DirEntry(d)).value;
    ApplyKeepsWellFormed(MemFs, remote, DirEntry(d));
    var t2 := ApplyEntry(MemFs, t1, FileEntry(y, data)).value;
    ApplyKeepsWellFormed(MemFs, t1, FileEntry(y, data));
    assert y in t2 && t2[y].File?;
    DeleteEntrySucceeds(MemFs, t2, y, false);
    var t3 := ApplyEntry(MemFs, t2, DeleteEntry(y, false)).value;
    ApplyKeepsWellFormed(MemFs, t2, DeleteEntry(y, false));
    DeleteEntryEffect(MemFs, t2, y, false, y);
    DeleteEntrySucceeds(MemFs, t3, e, true);
    DeleteEntryEffect(MemFs, t3, e, true, y);
  }

  lemma OneMoreEntry(t: Tree, done: seq<Entry>, e: Entry)
    ensures ApplyAll(MemFs, t, done + [e])
         == if ApplyAll(MemFs, t, done).Ok? then ApplyEntry(MemFs, ApplyAll(MemFs, t, done).value, e)
            else ApplyAll(MemFs, t, done)
    ensures ApplyAll(MemFs, t, []) == Ok(t)
  {
    assert (done + [e])[..|done|] == done;
  }

  lemma LostPatch(d: Path, y: Path, e: Path, data: seq<Byte>)
    requires d != [] && y != d && y != [] && e != d && e != y && Covers(d, y)
    ensures var local: Tree := map[[] := Dir, d := Dir, y := File(data)];
            var dirty := map[d := DirtyEntry(Upsert, 4), y := DirtyEntry(Remove(false), 1),
                             e := DirtyEntry(Remove(true), 3)];
            Elements([DirEntry(d)] + [FileEntry(y, data)] + [DeleteEntry(y, false)] + [DeleteEntry(e, true)])
            == PatchSet(local, dirty)
  {
    var local: Tree := map[[] := Dir, d := Dir, y := File(data)];
    var dirty := map[d := DirtyEntry(Upsert, 4), y := DirtyEntry(Remove(false), 1), e := DirtyEntry(Remove(true), 3)];
    assert Under(local, d) == {d, y};
    assert EntriesFor(local, d, Upsert) == {DirEntry(d), FileEntry(y, data)};
    assert EntriesFor(local, y, Remove(false)) == {DeleteEntry(y, false)};
    assert EntriesFor(local, e, Remove(true)) == {DeleteEntry(e, true)};
    PatchSetOneMore(local, dirty, {}, d);
    PatchSetOneMore(local, dirty, {d}, y);
    PatchSetOneMore(local, dirty, {d, y}, e);
    assert dirty.Keys == {d, y} + {e} && {} + {d} == {d} && {d} + {y} == {d, y};
  }
}
