/** The patch that push sends: built from the dirty map, applied to the remote tree. The tar
    container is left out; a patch is the list of its entries. */
module SyncPatch {
  import opened Wrappers
  import opened Bytes
  import opened Tree

  datatype DirtyChange = Upsert | Remove(recursive: bool)
  datatype DirtyEntry = DirtyEntry(change: DirtyChange, generation: nat)
  type DirtyMap = map<Path, DirtyEntry>

  datatype Entry =
    | DirEntry(path: Path)
    | FileEntry(path: Path, data: seq<Byte>)
    | DeleteEntry(path: Path, recursive: bool)

  function EntryOf(p: Path, n: Node): Entry {
    match n
    case Dir => DirEntry(p)
    case File(data) => FileEntry(p, data)
  }

  // ----- applying -----

  /** What one entry does to the tree it is applied to. LocalFs fails even to look for a path
      below a file, so there a removal fails that MemFs takes as done. */
  function ApplyEntry(kind: Kind, t: Tree, e: Entry): Result<Tree> {
    match e
    case DirEntry(p) => Ok(ForceDirs(t, p))
    case FileEntry(p, data) =>
      if p == [] then Err(Invalid) else Ok(Without(ForceDirs(t, Parent(p)), p)[p := File(data)])
    case DeleteEntry(p, recursive) =>
      if kind.LocalFs? && !ClearAbove(t, p) then Err(Other)
      else if p !in t then Ok(t)
      else if p == [] then Err(Invalid)
      else if t[p].Dir? && !recursive && Under(t, p) != {p} then Err(NotEmpty)
      else Ok(Without(t, p))
  }

  function ApplyAll(kind: Kind, t: Tree, patch: seq<Entry>): Result<Tree>
    decreases |patch|
  {
    if patch == [] then Ok(t)
    else
      var before :- ApplyAll(kind, t, patch[..|patch| - 1]);
      ApplyEntry(kind, before, patch[|patch| - 1])
  }

  lemma ApplyKeepsWellFormed(kind: Kind, t: Tree, e: Entry)
    requires WellFormed(t)
    ensures ApplyEntry(kind, t, e).Ok? ==> WellFormed(ApplyEntry(kind, t, e).value)
  {
    match e
    case DirEntry(p) => ForceDirsKeepsWellFormed(t, p);
    case FileEntry(p, data) =>
      if p != [] {
        FilePlaced(t, p, data);
      }
    case DeleteEntry(p, _) =>
      if p != [] { WithoutKeepsWellFormed(t, p); }
  }

  lemma FilePlaced(t: Tree, p: Path, data: seq<Byte>)
    requires WellFormed(t) && p != []
    ensures var cleared := Without(ForceDirs(t, Parent(p)), p);
            WellFormed(cleared) && DirAt(cleared, Parent(p)) && WellFormed(cleared[p := File(data)])
  {
    var forced := ForceDirs(t, Parent(p));
    ForceDirsKeepsWellFormed(t, Parent(p));
    WithoutKeepsWellFormed(forced, p);
    PutKeepsWellFormed(Without(forced, p), p, File(data));
  }

  /** Makes the directories above `p`, replacing any file in the way. */
  method EnsureParentDirs(fsys: FileTree, p: Path)
    requires WellFormed(fsys.nodes) && p != []
    modifies fsys
    ensures fsys.nodes == ForceDirs(old(fsys.nodes), Parent(p))
    ensures WellFormed(fsys.nodes)
  {
    ghost var t := fsys.nodes;
    var parent := Parent(p);
    assert parent[..0] == [];
    assert ForceDirs(t, []) == t;
    for i := 0 to |parent|
      invariant fsys.nodes == ForceDirs(t, parent[..i])
      invariant WellFormed(fsys.nodes) && DirAt(fsys.nodes, parent[..i])
    {
      var cur := parent[..i + 1];
      assert Parent(cur) == parent[..i];
      ForceDirsKeepsWellFormed(t, cur);
      var there := fsys.Exists(cur);
      DirectoriesAreSearched(fsys.nodes, cur);
      if there == Ok(true) {
        if fsys.nodes[cur].File? {
          FileHasNothingBelow(fsys.nodes, cur);
          var _ := RemovePath(fsys, cur);
          var _ := fsys.Mkdir(cur);
        }
      } else {
        var _ := fsys.Mkdir(cur);
      }
    }
    assert parent[..|parent|] == parent;
  }

  /** In a directory everything can be looked for, and what is found there can be replaced. */
  lemma DirectoriesAreSearched(t: Tree, p: Path)
    requires WellFormed(t) && p != [] && DirAt(t, Parent(p))
    ensures ClearAbove(t, p) && Replaceable(t, p)
  {
    WellFormedClears(t, Parent(p));
    WellFormedIsReplaceable(t, p);
  }

  /** Deletes `p` if it exists, with everything below it. */
  method RemovePath(fsys: FileTree, p: Path) returns (r: Result<()>)
    requires WellFormed(fsys.nodes)
    modifies fsys
    ensures WellFormed(fsys.nodes)
    ensures r.Ok? <==> p != [] && (fsys.kind.MemFs? || ClearAbove(old(fsys.nodes), p))
    ensures r.Ok? ==> fsys.nodes == Without(old(fsys.nodes), p)
    ensures r.Err? ==> fsys.nodes == if p == [] then map[[] := Dir] else old(fsys.nodes)
  {
    var there :- fsys.Exists(p);
    WellFormedIsReplaceable(fsys.nodes, p);
    if !there {
      AbsentHasNothingBelow(fsys.nodes, p);
      return Ok(());
    }
    WellFormedClears(fsys.nodes, p);
    if p != [] { WithoutKeepsWellFormed(fsys.nodes, p); }
    if fsys.nodes[p].Dir? {
      r := RemoveAll(fsys, p);
    } else {
      FileHasNothingBelow(fsys.nodes, p);
      r := fsys.Remove(p);
    }
  }

  method ApplyDir(fsys: FileTree, p: Path) returns (r: Result<()>)
    requires WellFormed(fsys.nodes)
    modifies fsys
    ensures WellFormed(fsys.nodes)
    ensures r.Ok? && fsys.nodes == ForceDirs(old(fsys.nodes), p)
  {
    ghost var t := fsys.nodes;
    ForceDirsKeepsWellFormed(t, p);
    if p != [] {
      EnsureParentDirs(fsys, p);
      ForceDirsKeepsWellFormed(t, Parent(p));
      DirectoriesAreSearched(fsys.nodes, p);
      if fsys.Exists(p) == Ok(true) && fsys.nodes[p].File? {
        FileHasNothingBelow(fsys.nodes, p);
        var _ := RemovePath(fsys, p);
      }
    }
    var m := fsys.Mkdir(p);
    return if m == Err(AlreadyExists) then Ok(()) else m;
  }

  method ApplyFile(fsys: FileTree, p: Path, data: seq<Byte>) returns (r: Result<()>)
    requires WellFormed(fsys.nodes)
    modifies fsys
    ensures WellFormed(fsys.nodes)
    ensures r.Ok? <==> p != []
    ensures p != [] ==> fsys.nodes == Without(ForceDirs(old(fsys.nodes), Parent(p)), p)[p := File(data)]
  {
    if p == [] {
      r := RemovePath(fsys, p);
      return;
    }
    EnsureParentDirs(fsys, p);
    FilePlaced(old(fsys.nodes), p, data);
    ForceDirsKeepsWellFormed(old(fsys.nodes), Parent(p));
    DirectoriesAreSearched(fsys.nodes, p);
    if fsys.Exists(p) == Ok(true) {
      if fsys.nodes[p].Dir? {
        var _ := RemovePath(fsys, p);
      } else {
        FileHasNothingBelow(fsys.nodes, p);
      }
    } else {
      AbsentHasNothingBelow(fsys.nodes, p);
    }
    r := fsys.WriteFile(p, data);
  }

  method ApplyDelete(fsys: FileTree, p: Path, recursive: bool) returns (r: Result<()>)
    requires WellFormed(fsys.nodes)
    modifies fsys
    ensures WellFormed(fsys.nodes)
    ensures r.Ok? <==> ApplyEntry(fsys.kind, old(fsys.nodes), DeleteEntry(p, recursive)).Ok?
    ensures r.Ok? ==> fsys.nodes == ApplyEntry(fsys.kind, old(fsys.nodes), DeleteEntry(p, recursive)).value
  {
    var there :- fsys.Exists(p);
    if !there {
      return Ok(());
    }
    WellFormedIsReplaceable(fsys.nodes, p);
    ApplyKeepsWellFormed(fsys.kind, fsys.nodes, DeleteEntry(p, recursive));
    if recursive && fsys.nodes[p].Dir? {
      r := RemoveAll(fsys, p);
    } else {
      if fsys.nodes[p].File? { FileHasNothingBelow(fsys.nodes, p); }
      if Under(fsys.nodes, p) == {p} { OnlySelf(fsys.nodes, p); }
      r := fsys.Remove(p);
    }
  }

  lemma OnlySelf(t: Tree, p: Path)
    requires Under(t, p) == {p}
    ensures t - {p} == Without(t, p)
  {
    forall q | q in t ensures Covers(p, q) <==> q == p {
      assert Covers(p, q) <==> q in Under(t, p);
    }
  }

  method ApplyPatchEntry(fsys: FileTree, e: Entry) returns (r: Result<()>)
    requires WellFormed(fsys.nodes)
    modifies fsys
    ensures WellFormed(fsys.nodes)
    ensures r.Ok? <==> ApplyEntry(fsys.kind, old(fsys.nodes), e).Ok?
    ensures r.Ok? ==> fsys.nodes == ApplyEntry(fsys.kind, old(fsys.nodes), e).value
  {
    match e
    case DirEntry(p) => r := ApplyDir(fsys, p);
    case FileEntry(p, data) => r := ApplyFile(fsys, p, data);
    case DeleteEntry(p, recursive) => r := ApplyDelete(fsys, p, recursive);
  }

  /** Applies the entries in order and stops at the first that fails. */
  method ApplyPatch(fsys: FileTree, patch: seq<Entry>) returns (r: Result<()>)
    requires WellFormed(fsys.nodes)
    modifies fsys
    ensures WellFormed(fsys.nodes)
    ensures r.Ok? ==> ApplyAll(fsys.kind, old(fsys.nodes), patch) == Ok(fsys.nodes)
    ensures r.Err? ==> ApplyAll(fsys.kind, old(fsys.nodes), patch).Err?
  {
    for i := 0 to |patch|
      invariant WellFormed(fsys.nodes)
      invariant ApplyAll(fsys.kind, old(fsys.nodes), patch[..i]) == Ok(fsys.nodes)
    {
      assert patch[..i + 1][..i] == patch[..i];
      var m := ApplyPatchEntry(fsys, patch[i]);
      if m.Err? {
        ApplyPrefixFails(fsys.kind, old(fsys.nodes), patch, i + 1);
        return m;
      }
    }
    assert patch[..|patch|] == patch;
    return Ok(());
  }

  lemma {:induction false} ApplyPrefixFails(kind: Kind, t: Tree, patch: seq<Entry>, i: nat)
    requires i <= |patch| && ApplyAll(kind, t, patch[..i]).Err?
    ensures ApplyAll(kind, t, patch).Err?
    decreases |patch|
  {
    if i < |patch| {
      assert patch[..|patch| - 1][..i] == patch[..i];
      ApplyPrefixFails(kind, t, patch[..|patch| - 1], i);
    } else {
      assert patch[..i] == patch;
    }
  }

  // ----- building -----

  function Elements(es: seq<Entry>): set<Entry> {
    set e | e in es
  }

  /** One entry for every path of `ps` that exists. */
  function Entries(t: Tree, ps: set<Path>): set<Entry> {
    set q | q in ps && q in t :: EntryOf(q, t[q])
  }

  function EntriesFor(t: Tree, p: Path, change: DirtyChange): set<Entry> {
    match change
    case Upsert => Entries(t, Under(t, p))
    case Remove(recursive) => {DeleteEntry(p, recursive)}
  }

  /** What the patch for `dirty` consists of, order aside. */
  function PatchSet(t: Tree, dirty: DirtyMap): set<Entry> {
    PatchSetOf(t, dirty, dirty.Keys)
  }

  function PatchSetOf(t: Tree, dirty: DirtyMap, ps: set<Path>): set<Entry> {
    set p, e | p in ps && p in dirty && e in EntriesFor(t, p, dirty[p].change) :: e
  }

  ghost function Descended(t: Tree, p: Path, roots: set<Path>): set<Path> {
    set q | q in t && (q == p || CoveredBySome(roots, q))
  }

  lemma DescendNone(t: Tree, p: Path, builder: seq<Entry>)
    requires p in t
    ensures Elements(builder + [EntryOf(p, t[p])]) == Elements(builder) + Entries(t, Descended(t, p, {}))
    ensures Entries(t, {p}) == Entries(t, Descended(t, p, {}))
  {
    ElementsConcat(builder, [EntryOf(p, t[p])]);
    assert Descended(t, p, {}) == {p};
    assert Entries(t, {p}) == {EntryOf(p, t[p])};
  }

  lemma DescendAll(t: Tree, p: Path)
    requires WellFormed(t) && p in t
    ensures Descended(t, p, Children(t, p)) == Under(t, p)
  {
    ChildrenCover(t, p);
  }

  lemma DescendOneMore(t: Tree, p: Path, roots: set<Path>, c: Path)
    ensures Descended(t, p, roots + {c}) == Descended(t, p, roots) + Under(t, c)
    ensures Entries(t, Descended(t, p, roots + {c})) == Entries(t, Descended(t, p, roots)) + Entries(t, Under(t, c))
  {
    forall q ensures CoveredBySome(roots + {c}, q) <==> CoveredBySome(roots, q) || Covers(c, q) {
      if CoveredBySome(roots, q) {
        var d :| d in roots && Covers(d, q);
        assert d in roots + {c};
      } else if Covers(c, q) {
        assert c in roots + {c};
      }
    }
  }

  lemma ElementsConcat(a: seq<Entry>, b: seq<Entry>)
    ensures Elements(a + b) == Elements(a) + Elements(b)
  {
  }

  /** Appends the entry of `p` and, for a directory, of everything below it. */
  method AppendPatchPath(fsys: FileTree, p: Path, builder: seq<Entry>)
    returns (out: seq<Entry>, r: Result<()>)
    requires WellFormed(fsys.nodes)
    ensures r.Ok? <==> p in fsys.nodes
    ensures r.Ok? ==> Elements(out) == Elements(builder) + EntriesFor(fsys.nodes, p, Upsert)
    decreases |Under(fsys.nodes, p)|
  {
    var t := fsys.nodes;
    if p !in t {
      return builder, Err(NotFound);
    }
    out := builder + [EntryOf(p, t[p])];
    DescendNone(t, p, builder);
    if t[p].Dir? {
      var kids := Children(t, p);
      ghost var done := {};
      while kids != {}
        invariant done !! kids && done + kids == Children(t, p)
        invariant Elements(out) == Elements(builder) + Entries(t, Descended(t, p, done))
        decreases |kids|
      {
        var c :| c in kids;
        ChildIsSmaller(t, p, c);
        DescendOneMore(t, p, done, c);
        var m;
        out, m := AppendPatchPath(fsys, c, out);
        kids, done := kids - {c}, done + {c};
      }
      DescendAll(t, p);
    } else {
      FileHasNothingBelow(t, p);
    }
    return out, Ok(());
  }

  lemma PatchSetOneMore(t: Tree, dirty: DirtyMap, done: set<Path>, p: Path)
    requires p in dirty
    ensures PatchSetOf(t, dirty, done + {p}) == PatchSetOf(t, dirty, done) + EntriesFor(t, p, dirty[p].change)
  {
    assert p in done + {p};
    forall e | e in PatchSetOf(t, dirty, done) ensures e in PatchSetOf(t, dirty, done + {p}) {
      var q :| q in done && q in dirty && e in EntriesFor(t, q, dirty[q].change);
      assert q in done + {p};
    }
  }

  /** The patch for `dirty`, its paths taken in any order; fails when an upserted path is gone. */
  method BuildPatch(fsys: FileTree, dirty: DirtyMap) returns (r: Result<seq<Entry>>)
    requires WellFormed(fsys.nodes)
    ensures r.Ok? <==> forall p :: p in dirty && dirty[p].change.Upsert? ==> p in fsys.nodes
    ensures r.Ok? ==> Elements(r.value) == PatchSet(fsys.nodes, dirty)
  {
    var out: seq<Entry> := [];
    var todo := dirty.Keys;
    ghost var done := {};
    while todo != {}
      invariant done !! todo && done + todo == dirty.Keys
      invariant Elements(out) == PatchSetOf(fsys.nodes, dirty, done)
      invariant forall p :: p in done && dirty[p].change.Upsert? ==> p in fsys.nodes
      decreases |todo|
    {
      var p :| p in todo;
      PatchSetOneMore(fsys.nodes, dirty, done, p);
      match dirty[p].change {
        case Upsert =>
          var m;
          out, m := AppendPatchPath(fsys, p, out);
          if m.Err? {
            return Err(m.error);
          }
        case Remove(recursive) =>
          ElementsConcat(out, [DeleteEntry(p, recursive)]);
          out := out + [DeleteEntry(p, recursive)];
      }
      todo, done := todo - {p}, done + {p};
    }
    assert done == dirty.Keys;
    return Ok(out);
  }

  // ----- what a pushed patch achieves -----

  /** The dirty map describes the local tree: what it upserts exists, what it removes does not. */
  ghost predicate Describes(dirty: DirtyMap, local: Tree) {
    forall p :: p in dirty ==> (dirty[p].change.Upsert? <==> p in local)
  }

  ghost predicate Touches(dirty: DirtyMap, q: Path) {
    exists d :: d in dirty && (Covers(d, q) || Covers(q, d))
  }

  ghost predicate NothingAtOrBelow(t: Tree, p: Path) {
    forall q :: q in t ==> !Covers(p, q)
  }

  /** Every entry of the patch either copies a local path or deletes a path that is not local,
      and its path lies at or under a dirty one. */
  ghost predicate Justified(e: Entry, local: Tree, dirty: DirtyMap) {
    && (e.DeleteEntry? <==> e.path !in local)
    && (!e.DeleteEntry? ==> e == EntryOf(e.path, local[e.path]))
    && exists d :: d in dirty && Covers(d, e.path)
  }

  lemma PatchIsJustified(local: Tree, dirty: DirtyMap, e: Entry)
    requires Describes(dirty, local) && e in PatchSet(local, dirty)
    ensures Justified(e, local, dirty)
  {
    var d :| d in dirty && e in EntriesFor(local, d, dirty[d].change);
    assert Covers(d, e.path);
  }

  lemma AboveLocalIsDir(local: Tree, p: Path)
    requires WellFormed(local) && p in local
    ensures forall q :: Covers(q, p) && q != p ==> DirAt(local, q)
  {
    forall q | Covers(q, p) && q != p ensures DirAt(local, q) { DirsAbove(local, p, q); }
  }

  /** Paths on which the tree agrees with the local one still agree after any justified entry. */
  lemma AgreementStays(kind: Kind, local: Tree, dirty: DirtyMap, t: Tree, e: Entry, q: Path)
    requires WellFormed(local) && Justified(e, local, dirty) && ApplyEntry(kind, t, e).Ok?
    requires q in local && q in t && t[q] == local[q]
    ensures var after := ApplyEntry(kind, t, e).value; q in after && after[q] == local[q]
  {
    match e
    case DirEntry(p) =>
      ForceDirsAt(t, p);
      AboveLocalIsDir(local, p);
    case FileEntry(p, data) =>
      ForceDirsAt(t, Parent(p));
      AboveLocalIsDir(local, p);
      CoversParent(q, p);
      if Covers(p, q) && q != p { DirsAbove(local, q, p); }
    case DeleteEntry(p, _) =>
      if Covers(p, q) { AboveLocalIsDir(local, q); }
  }

  /** A copied path agrees with the local tree. */
  lemma EntryTakesEffect(kind: Kind, local: Tree, dirty: DirtyMap, t: Tree, e: Entry)
    requires WellFormed(local) && Justified(e, local, dirty) && ApplyEntry(kind, t, e).Ok?
    requires e.DeleteEntry? ==> WellFormed(t)
    ensures var after := ApplyEntry(kind, t, e).value;
            if e.DeleteEntry? then NothingAtOrBelow(after, e.path)
            else e.path in after && after[e.path] == local[e.path]
  {
    match e
    case DirEntry(p) => ForceDirsAt(t, p);
    case FileEntry(p, data) =>
    case DeleteEntry(p, _) =>
      if p !in t { AbsentHasNothingBelow(t, p); }
  }

  /** Nothing new ever appears at or under a path that is not local. */
  lemma NoGrowth(kind: Kind, local: Tree, dirty: DirtyMap, t: Tree, e: Entry, r: Path)
    requires WellFormed(local) && Justified(e, local, dirty) && ApplyEntry(kind, t, e).Ok?
    requires r !in local
    ensures Under(ApplyEntry(kind, t, e).value, r) <= Under(t, r)
  {
    var after := ApplyEntry(kind, t, e).value;
    forall q | q in after && Covers(r, q) ensures q in t {
      if q !in t {
        ForceDirsAt(t, if e.DirEntry? then e.path else Parent(e.path));
        assert Covers(q, e.path);
        CoversTransitive(r, q, e.path);
        AboveLocalIsDir(local, e.path);
      }
    }
  }

  lemma AbsenceStays(kind: Kind, local: Tree, dirty: DirtyMap, t: Tree, e: Entry, r: Path)
    requires WellFormed(local) && Justified(e, local, dirty) && ApplyEntry(kind, t, e).Ok?
    requires r !in local && NothingAtOrBelow(t, r)
    ensures NothingAtOrBelow(ApplyEntry(kind, t, e).value, r)
  {
    NoGrowth(kind, local, dirty, t, e, r);
    forall q | q in ApplyEntry(kind, t, e).value && Covers(r, q) ensures q in Under(t, r) {
      assert q in Under(ApplyEntry(kind, t, e).value, r);
    }
  }

  lemma UntouchedStays(kind: Kind, local: Tree, dirty: DirtyMap, t: Tree, e: Entry, q: Path)
    requires Justified(e, local, dirty) && ApplyEntry(kind, t, e).Ok? && !Touches(dirty, q)
    ensures var after := ApplyEntry(kind, t, e).value;
            (q in after <==> q in t) && (q in t ==> after[q] == t[q])
  {
    var d :| d in dirty && Covers(d, e.path);
    NotRelated(dirty, d, e.path, q);
    match e
    case DirEntry(p) => ForceDirsAt(t, p);
    case FileEntry(p, data) => ForceDirsAt(t, Parent(p));
    case DeleteEntry(p, _) =>
  }

  lemma NotRelated(dirty: DirtyMap, d: Path, p: Path, q: Path)
    requires d in dirty && Covers(d, p) && !Touches(dirty, q)
    ensures !Covers(p, q) && !Covers(q, p)
    ensures p != [] ==> !Covers(q, Parent(p))
  {
    assert !Covers(d, q) && !Covers(q, d);
    if |q| <= |d| {
      assert Covers(q, p) ==> Covers(q, d);
    }
  }

  /** A patch pushed from a tree its dirty map describes does what it claims: upserted paths
      and all local paths below them arrive, removed paths are gone with everything below
      them, and paths unrelated to any dirty path are as before. */
  lemma {:induction false} PushApplies(kind: Kind, local: Tree, remote: Tree, dirty: DirtyMap, patch: seq<Entry>)
    requires WellFormed(local) && WellFormed(remote) && Describes(dirty, local)
    requires Elements(patch) <= PatchSet(local, dirty) && ApplyAll(kind, remote, patch).Ok?
    ensures var after := ApplyAll(kind, remote, patch).value;
      && WellFormed(after)
      && (forall e :: e in patch && !e.DeleteEntry? ==>
            e.path in local && e.path in after && after[e.path] == local[e.path])
      && (forall e :: e in patch && e.DeleteEntry? ==> NothingAtOrBelow(after, e.path))
      && (forall q :: !Touches(dirty, q) ==> (q in after <==> q in remote) && (q in remote ==> after[q] == remote[q]))
    decreases |patch|
  {
    if patch != [] {
      var done, e := patch[..|patch| - 1], patch[|patch| - 1];
      assert patch == done + [e];
      assert forall x :: x in done ==> x in Elements(patch);
      PushApplies(kind, local, remote, dirty, done);
      var t, after := ApplyAll(kind, remote, done).value, ApplyAll(kind, remote, patch).value;
      assert e in Elements(patch);
      PatchIsJustified(local, dirty, e);
      ApplyKeepsWellFormed(kind, t, e);
      EntryTakesEffect(kind, local, dirty, t, e);
      forall x | x in done && !x.DeleteEntry? ensures x.path in after && after[x.path] == local[x.path] {
        AgreementStays(kind, local, dirty, t, e, x.path);
      }
      forall x | x in done && x.DeleteEntry? ensures NothingAtOrBelow(after, x.path) {
        assert x in Elements(patch);
        PatchIsJustified(local, dirty, x);
        AbsenceStays(kind, local, dirty, t, e, x.path);
      }
      forall q | !Touches(dirty, q)
        ensures (q in after <==> q in remote) && (q in remote ==> after[q] == remote[q])
      {
        UntouchedStays(kind, local, dirty, t, e, q);
      }
    }
  }

  /** The effect of a pushed patch on the remote tree, in terms of the dirty map alone. */
  ghost predicate Pushed(local: Tree, dirty: DirtyMap, before: Tree, after: Tree) {
    && (forall p, q :: p in dirty && dirty[p].change.Upsert? && q in local && Covers(p, q)
          ==> q in after && after[q] == local[q])
    && (forall p :: p in dirty && dirty[p].change.Remove? ==> NothingAtOrBelow(after, p))
    && (forall q :: !Touches(dirty, q)
          ==> (q in after <==> q in before) && (q in before ==> after[q] == before[q]))
  }

  lemma PushTheorem(kind: Kind, local: Tree, remote: Tree, dirty: DirtyMap, patch: seq<Entry>)
    requires WellFormed(local) && WellFormed(remote) && Describes(dirty, local)
    requires Elements(patch) == PatchSet(local, dirty) && ApplyAll(kind, remote, patch).Ok?
    ensures Pushed(local, dirty, remote, ApplyAll(kind, remote, patch).value)
  {
    var after := ApplyAll(kind, remote, patch).value;
    PushApplies(kind, local, remote, dirty, patch);
    forall p, q | p in dirty && dirty[p].change.Upsert? && q in local && Covers(p, q)
      ensures q in after && after[q] == local[q]
    {
      assert EntryOf(q, local[q]) in EntriesFor(local, p, dirty[p].change);
      assert EntryOf(q, local[q]) in Elements(patch);
    }
    forall p | p in dirty && dirty[p].change.Remove? ensures NothingAtOrBelow(after, p) {
      assert DeleteEntry(p, dirty[p].change.recursive) in EntriesFor(local, p, dirty[p].change);
      assert DeleteEntry(p, dirty[p].change.recursive) in Elements(patch);
    }
  }

  /** No plain (non-recursive) removal names a directory that still has entries, and on LocalFs
      no removal names a path below a file, be it one that is there or one that is sent. */
  ghost predicate RemovalsFit(kind: Kind, local: Tree, dirty: DirtyMap, t: Tree) {
    forall p :: p in dirty && dirty[p].change.Remove? ==> RemovalFits(kind, local, t, p, dirty[p].change.recursive)
  }

  ghost predicate RemovalFits(kind: Kind, local: Tree, t: Tree, p: Path, recursive: bool) {
    && (recursive || Under(t, p) <= {p})
    && (kind.LocalFs? ==> ClearAbove(t, p) && ClearAbove(local, p))
  }

  /** When applying the patch succeeds: no removed directory has grown behind our back, and what
      is removed can be looked for. */
  lemma {:induction false} PushSucceeds(kind: Kind, local: Tree, remote: Tree, dirty: DirtyMap, patch: seq<Entry>)
    requires WellFormed(local) && WellFormed(remote) && Describes(dirty, local)
    requires Elements(patch) <= PatchSet(local, dirty) && RemovalsFit(kind, local, dirty, remote)
    ensures ApplyAll(kind, remote, patch).Ok?
    ensures RemovalsFit(kind, local, dirty, ApplyAll(kind, remote, patch).value)
    decreases |patch|
  {
    if patch != [] {
      var done, e := patch[..|patch| - 1], patch[|patch| - 1];
      assert patch == done + [e];
      assert forall x :: x in done ==> x in Elements(patch);
      PushSucceeds(kind, local, remote, dirty, done);
      var t := ApplyAll(kind, remote, done).value;
      assert e in Elements(patch);
      PatchIsJustified(local, dirty, e);
      EntrySucceeds(kind, local, dirty, t, e);
      forall p | p in dirty && dirty[p].change.Remove?
        ensures RemovalFits(kind, local, ApplyAll(kind, remote, patch).value, p, dirty[p].change.recursive)
      {
        NoGrowth(kind, local, dirty, t, e, p);
        if kind.LocalFs? { ClearStays(kind, local, dirty, t, e, p); }
      }
    }
  }

  lemma EntrySucceeds(kind: Kind, local: Tree, dirty: DirtyMap, t: Tree, e: Entry)
    requires WellFormed(local) && Describes(dirty, local) && RemovalsFit(kind, local, dirty, t)
    requires e in PatchSet(local, dirty)
    ensures ApplyEntry(kind, t, e).Ok?
  {
    PatchIsJustified(local, dirty, e);
    match e
    case DirEntry(p) =>
    case FileEntry(p, _) =>
    case DeleteEntry(p, recursive) =>
      assert dirty[p].change == Remove(recursive);
      assert RemovalFits(kind, local, t, p, recursive);
      if p in t && !recursive {
        assert Covers(p, p) && p in Under(t, p);
      }
  }

  /** No entry puts a file above a path that has none above it locally. */
  lemma ClearStays(kind: Kind, local: Tree, dirty: DirtyMap, t: Tree, e: Entry, p: Path)
    requires Justified(e, local, dirty) && ApplyEntry(kind, t, e).Ok?
    requires ClearAbove(t, p) && ClearAbove(local, p)
    ensures ClearAbove(ApplyEntry(kind, t, e).value, p)
  {
    var after := ApplyEntry(kind, t, e).value;
    ClearAboveMeans(t, p);
    ClearAboveMeans(local, p);
    ClearAboveMeans(after, p);
    ForceDirsAt(t, if e.FileEntry? then Parent(e.path) else e.path);
    forall q | q in after && Covers(q, p) && q != p ensures after[q].Dir? {
    }
  }

  /** On LocalFs a removal below a file that the same patch brought first is never applied: such
      a patch fails however often it is sent. */
  lemma FileStopsRemoval(local: Tree, remote: Tree, dirty: DirtyMap, patch: seq<Entry>, i: nat, j: nat)
    requires WellFormed(local) && WellFormed(remote) && Describes(dirty, local)
    requires Elements(patch) <= PatchSet(local, dirty)
    requires i < j < |patch| && patch[i].FileEntry? && patch[j].DeleteEntry?
    requires Covers(patch[i].path, patch[j].path) && patch[i].path != patch[j].path
    ensures ApplyAll(LocalFs, remote, patch).Err?
  {
    if ApplyAll(LocalFs, remote, patch[..j + 1]).Ok? {
      var done := patch[..j];
      assert patch[..j + 1][..j] == done;
      assert Elements(done) <= Elements(patch);
      PushApplies(LocalFs, local, remote, dirty, done);
      assert patch[i] == done[i] && patch[i] in Elements(patch);
      PatchIsJustified(local, dirty, patch[i]);
      ClearAboveMeans(ApplyAll(LocalFs, remote, done).value, patch[j].path);
      assert false;
    }
    ApplyPrefixFails(LocalFs, remote, patch, j + 1);
  }
  /** A directory that was emptied, removed and replaced by a file of its name: the map still
      holds the removal of the old entry, and on LocalFs this cannot be pushed. */
  lemma ReplacedDirectoryIsStuck(remote: Tree)
    requires WellFormed(remote)
    ensures var a: Path := [[97]];
            var local: Tree := map[[] := Dir, a := File([])];
            var dirty := map[a := DirtyEntry(Upsert, 3), a + [[99]] := DirtyEntry(Remove(false), 1)];
            var patch := [FileEntry(a, []), DeleteEntry(a + [[99]], false)];
            && WellFormed(local) && Describes(dirty, local) && Elements(patch) == PatchSet(local, dirty)
            && ApplyAll(LocalFs, remote, patch).Err?
  {
    var a: Path := [[97]];
    var local: Tree := map[[] := Dir, a := File([])];
    var dirty := map[a := DirtyEntry(Upsert, 3), a + [[99]] := DirtyEntry(Remove(false), 1)];
    var patch := [FileEntry(a, []), DeleteEntry(a + [[99]], false)];
    assert Parent(a) == [];
    assert Under(local, a) == {a};
    assert EntriesFor(local, a, Upsert) == {patch[0]};
    assert EntriesFor(local, a + [[99]], Remove(false)) == {patch[1]};
    PatchSetOneMore(local, dirty, {}, a);
    PatchSetOneMore(local, dirty, {a}, a + [[99]]);
    assert dirty.Keys == {} + {a} + {a + [[99]]};
    FileStopsRemoval(local, remote, dirty, patch, 0, 1);
  }

  // ----- what each entry does, path by path -----

  /** A directory entry makes directories of its path and all above it, whatever was there. */
  lemma DirEntryEffect(kind: Kind, t: Tree, p: Path, q: Path)
    ensures ApplyEntry(kind, t, DirEntry(p)).Ok?
    ensures var after := ApplyEntry(kind, t, DirEntry(p)).value;
            if q <= p then q in after && after[q] == Dir else (q in after <==> q in t) && (q in t ==> after[q] == t[q])
  {
    ForceDirsAt(t, p);
  }

  /** A file entry puts its contents at its path, directories above and nothing below. */
  lemma FileEntryEffect(kind: Kind, t: Tree, p: Path, data: seq<Byte>, q: Path)
    ensures ApplyEntry(kind, t, FileEntry(p, data)) == Err(Invalid) <==> p == []
    ensures p != [] ==>
      && ApplyEntry(kind, t, FileEntry(p, data)).Ok?
      && var after := ApplyEntry(kind, t, FileEntry(p, data)).value;
         && (q == p ==> q in after && after[q] == File(data))
         && (q < p ==> q in after && after[q] == Dir)
         && (p < q ==> q !in after)
         && (!(p <= q) && !(q <= p) ==> (q in after <==> q in t) && (q in t ==> after[q] == t[q]))
  {
    if p != [] {
      ForceDirsAt(t, Parent(p));
      CoversParent(q, p);
    }
  }

  lemma EntriesBelow(t: Tree, p: Path)
    requires p in t
    ensures Under(t, p) != {p} <==> exists below :: below in t && p < below
  {
    assert p in Under(t, p);
    if Under(t, p) != {p} {
      var below :| below in Under(t, p) && below != p;
      assert p < below;
    }
    if below :| below in t && p < below { assert below in Under(t, p); }
  }

  /** A plain removal refuses a directory that has entries; the root is never removed; on LocalFs
      nothing is removed below a file. */
  lemma DeleteEntrySucceeds(kind: Kind, t: Tree, p: Path, recursive: bool)
    requires WellFormed(t)
    ensures ApplyEntry(kind, t, DeleteEntry(p, recursive)).Ok? <==>
      && p != [] && (kind.LocalFs? ==> ClearAbove(t, p))
      && (recursive || !DirAt(t, p) || !exists below :: below in t && p < below)
  {
    if p in t { EntriesBelow(t, p); }
  }

  /** A removal takes its path with everything below it; what is not there is removed already. */
  lemma DeleteEntryEffect(kind: Kind, t: Tree, p: Path, recursive: bool, q: Path)
    requires WellFormed(t) && ApplyEntry(kind, t, DeleteEntry(p, recursive)).Ok?
    ensures var after := ApplyEntry(kind, t, DeleteEntry(p, recursive)).value;
            if p <= q then q !in after else (q in after <==> q in t) && (q in t ==> after[q] == t[q])
  {
    if p !in t { AbsentHasNothingBelow(t, p); }
  }

  /** What a push leaves at one path `q` of the remote tree. */
  lemma PushedAtPath(local: Tree, dirty: DirtyMap, before: Tree, after: Tree, q: Path)
    requires Pushed(local, dirty, before, after)
    ensures q in local && (exists p :: p in dirty && dirty[p].change.Upsert? && p <= q) ==>
      q in after && after[q] == local[q]
    ensures (exists p :: p in dirty && dirty[p].change.Remove? && p <= q) ==> q !in after
    ensures (forall p :: p in dirty ==> !(p <= q) && !(q <= p)) ==>
      (q in after <==> q in before) && (q in before ==> after[q] == before[q])
  {
    if p :| p in dirty && dirty[p].change.Remove? && p <= q { assert NothingAtOrBelow(after, p) && Covers(p, q); }
    if forall p :: p in dirty ==> !(p <= q) && !(q <= p) { assert !Touches(dirty, q); }
  }
}
