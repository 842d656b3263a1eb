/** File trees as the sync code sees them: a finite map from clean paths to directories and
    file contents. A path is the list of its components, so `[]` is the root, written "."
    by the program; module Paths relates component lists to the program's strings. */
module Tree {
  import opened Wrappers
  import opened Bytes

  type Name = seq<Byte>
  type Path = seq<Name>
  datatype Node = Dir | File(data: seq<Byte>)
  type Tree = map<Path, Node>

  /** The two writable file systems differ below a file. LocalFs fails even to look there: the
      host answers ENOTDIR, which is no "not found". MemFs finds nothing there, and creates a
      node below any node that exists. */
  datatype Kind = LocalFs | MemFs

  predicate DirAt(t: Tree, p: Path) {
    p in t && t[p].Dir?
  }

  function Parent(p: Path): Path
    requires p != []
  {
    p[..|p| - 1]
  }

  /** `a` is `d` or lies above it. */
  predicate Covers(a: Path, d: Path) {
    a <= d
  }

  ghost predicate WellFormed(t: Tree) {
    && DirAt(t, [])
    && forall p {:trigger Parent(p)} :: p in t && p != [] ==> DirAt(t, Parent(p))
  }

  /** Every path has its parent, though perhaps as a file: what MemFs guarantees. */
  ghost predicate Rooted(t: Tree) {
    && DirAt(t, [])
    && forall p {:trigger Parent(p)} :: p in t && p != [] ==> Parent(p) in t
  }

  /** Below `p` only directories have entries. */
  ghost predicate FormedUnder(t: Tree, p: Path) {
    forall q {:trigger Parent(q)} :: q in t && q != p && Covers(p, q) ==> DirAt(t, Parent(q))
  }

  /** What a tree must satisfy for `p` and everything below it to be replaced. */
  ghost predicate Replaceable(t: Tree, p: Path) {
    Rooted(t) && FormedUnder(t, p)
  }

  ghost predicate Sound(kind: Kind, t: Tree) {
    if kind.LocalFs? then WellFormed(t) else Rooted(t)
  }

  /** No path strictly above `p` is a file of `t`. */
  predicate ClearAbove(t: Tree, p: Path)
    decreases |p|
  {
    p == [] || (ClearAbove(t, Parent(p)) && (Parent(p) in t ==> t[Parent(p)].Dir?))
  }

  function Under(t: Tree, p: Path): set<Path> {
    set q | q in t && Covers(p, q)
  }

  /** `t` with everything at or under `p` gone. */
  function Without(t: Tree, p: Path): Tree {
    map q | q in t && !Covers(p, q) :: t[q]
  }

  /** `t` with the missing ones among `p` and the paths above it made directories. */
  function WithDirs(t: Tree, p: Path): Tree
    decreases |p|
  {
    var u := if p == [] then t else WithDirs(t, Parent(p));
    if p in u then u else u[p := Dir]
  }

  /** `t` with `p` and every path above it made directories, whatever was there. */
  function ForceDirs(t: Tree, p: Path): Tree
    decreases |p|
  {
    (if p == [] then t else ForceDirs(t, Parent(p)))[p := Dir]
  }

  lemma CoversParent(q: Path, p: Path)
    requires p != []
    ensures Covers(q, p) <==> q == p || Covers(q, Parent(p))
  {
  }

  lemma CoversTransitive(a: Path, b: Path, c: Path)
    requires Covers(a, b) && Covers(b, c)
    ensures Covers(a, c)
  {
  }

  lemma {:induction false} WithDirsAt(t: Tree, p: Path)
    ensures forall q :: q in WithDirs(t, p) <==> q in t || Covers(q, p)
    ensures forall q :: q in WithDirs(t, p) ==> WithDirs(t, p)[q] == if q in t then t[q] else Dir
    decreases |p|
  {
    if p != [] {
      WithDirsAt(t, Parent(p));
      forall q ensures Covers(q, p) <==> q == p || Covers(q, Parent(p)) { CoversParent(q, p); }
    }
  }

  lemma {:induction false} ForceDirsAt(t: Tree, p: Path)
    ensures forall q :: q in ForceDirs(t, p) <==> q in t || Covers(q, p)
    ensures forall q :: q in ForceDirs(t, p) ==> ForceDirs(t, p)[q] == if Covers(q, p) then Dir else t[q]
    decreases |p|
  {
    if p != [] {
      ForceDirsAt(t, Parent(p));
      forall q ensures Covers(q, p) <==> q == p || Covers(q, Parent(p)) { CoversParent(q, p); }
    }
  }

  lemma {:induction false} ClearAboveMeans(t: Tree, p: Path)
    ensures ClearAbove(t, p) <==> forall q :: q in t && Covers(q, p) && q != p ==> t[q].Dir?
    decreases |p|
  {
    if p != [] {
      ClearAboveMeans(t, Parent(p));
      forall q ensures Covers(q, p) <==> q == p || Covers(q, Parent(p)) { CoversParent(q, p); }
    }
  }

  lemma WellFormedIsReplaceable(t: Tree, p: Path)
    requires WellFormed(t)
    ensures Replaceable(t, p)
  {
  }

  lemma {:induction false} NodesAbove(t: Tree, p: Path, q: Path)
    requires Rooted(t) && p in t && Covers(q, p)
    ensures q in t
    decreases |p|
  {
    if q != p { NodesAbove(t, Parent(p), q); }
  }

  lemma {:induction false} RootedHasDirs(t: Tree, p: Path)
    requires Rooted(t) && p in t
    ensures WithDirs(t, p) == t
    decreases |p|
  {
    if p != [] { RootedHasDirs(t, Parent(p)); }
  }

  lemma WithoutKeepsRooted(t: Tree, p: Path)
    requires Rooted(t) && p != []
    ensures Rooted(Without(t, p))
  {
    forall q | q in Without(t, p) && q != [] ensures Parent(q) in Without(t, p) {
      CoversParent(p, q);
    }
  }

  lemma {:induction false} WithDirsKeepsRooted(t: Tree, p: Path)
    requires Rooted(t)
    ensures Rooted(WithDirs(t, p)) && p in WithDirs(t, p)
    decreases |p|
  {
    if p != [] { WithDirsKeepsRooted(t, Parent(p)); }
  }

  lemma {:induction false} DirsAbove(t: Tree, p: Path, q: Path)
    requires WellFormed(t) && p in t && Covers(q, p) && q != p
    ensures DirAt(t, q)
    decreases |p|
  {
    if q != Parent(p) {
      DirsAbove(t, Parent(p), q);
    }
  }

  lemma {:induction false} WellFormedClears(t: Tree, p: Path)
    requires WellFormed(t) && p in t
    ensures ClearAbove(t, p) && WithDirs(t, p) == t
    decreases |p|
  {
    if p != [] { WellFormedClears(t, Parent(p)); }
  }

  lemma FileHasNothingBelow(t: Tree, p: Path)
    requires Replaceable(t, p) && p in t && t[p].File?
    ensures Under(t, p) == {p}
    ensures t == map q | q in t && (q == p || !Covers(p, q)) :: t[q]
  {
    forall q | q in t && Covers(p, q) ensures q == p {
      if q != p {
        var c := q[..|p| + 1];
        assert Parent(c) == p;
        NodesAbove(t, q, c);
      }
    }
  }

  lemma WithoutKeepsWellFormed(t: Tree, p: Path)
    requires WellFormed(t) && p != []
    ensures WellFormed(Without(t, p))
  {
    forall q | q in Without(t, p) && q != [] ensures DirAt(Without(t, p), Parent(q)) {
      CoversParent(p, q);
    }
  }

  lemma {:induction false} WithDirsKeepsWellFormed(t: Tree, p: Path)
    requires WellFormed(t) && ClearAbove(t, p)
    ensures WellFormed(WithDirs(t, p))
    ensures p != [] ==> DirAt(WithDirs(t, Parent(p)), Parent(p))
    decreases |p|
  {
    if p != [] {
      WithDirsKeepsWellFormed(t, Parent(p));
      WithDirsAt(t, Parent(p));
    }
  }

  lemma {:induction false} ForceDirsKeepsWellFormed(t: Tree, p: Path)
    requires WellFormed(t)
    ensures WellFormed(ForceDirs(t, p)) && DirAt(ForceDirs(t, p), p)
    decreases |p|
  {
    if p != [] { ForceDirsKeepsWellFormed(t, Parent(p)); }
  }

  lemma PutKeepsWellFormed(t: Tree, p: Path, n: Node)
    requires WellFormed(t) && p != [] && DirAt(t, Parent(p))
    requires n.File? ==> Under(t, p) <= {p}
    ensures WellFormed(t[p := n])
  {
    forall q | q in t[p := n] && q != [] ensures DirAt(t[p := n], Parent(q)) {
      if Parent(q) == p && q != p {
        assert q in Under(t, p);
      }
    }
  }

  /** The tree a `FileSystem` object holds. Only the operations the sync code calls. */
  class FileTree {
    const kind: Kind
    var nodes: Tree

    constructor (kind: Kind)
      ensures this.kind == kind && nodes == map[[] := Dir]
    {
      this.kind := kind;
      nodes := map[[] := Dir];
    }

    /** Looks for `p`. */
    function Exists(p: Path): Result<bool>
      reads this
    {
      if kind.LocalFs? && !ClearAbove(nodes, p) then Err(Other) else Ok(p in nodes)
    }

    method Mkdir(p: Path) returns (r: Result<()>)
      modifies this
      ensures r.Ok? <==> p !in old(nodes) && p != [] && HoldsEntries(kind, old(nodes), Parent(p))
      ensures r == Err(AlreadyExists) <==> p in old(nodes)
      ensures nodes == if r.Ok? then old(nodes)[p := Dir] else old(nodes)
    {
      if p in nodes {
        return Err(AlreadyExists);
      }
      if p == [] || Parent(p) !in nodes {
        return Err(NotFound);
      }
      if !HoldsEntries(kind, nodes, Parent(p)) {
        return Err(Other);
      }
      nodes := nodes[p := Dir];
      return Ok(());
    }

    method Remove(p: Path) returns (r: Result<()>)
      modifies this
      ensures r == RemoveOutcome(old(nodes), p)
      ensures r == Err(Invalid) <==> p == []
      ensures r == Err(NotFound) <==> p != [] && p !in old(nodes)
      ensures r == Err(NotEmpty) <==>
        p != [] && DirAt(old(nodes), p) && exists q :: q in old(nodes) && q != p && Covers(p, q)
      ensures r.Err? ==> r.error in {Invalid, NotFound, NotEmpty}
      ensures nodes == if r.Ok? then old(nodes) - {p} else old(nodes)
    {
      r := RemoveOutcome(nodes, p);
      assert p in nodes ==> p in Under(nodes, p) && Covers(p, p);
      if q :| q in nodes && q != p && Covers(p, q) { assert q in Under(nodes, p); }
      if r.Ok? {
        nodes := nodes - {p};
      }
    }

    method Rename(from: Path, to: Path) returns (r: Result<()>)
      requires kind.MemFs? && from != [] && to != []
      modifies this
      ensures r.Ok? <==> Renamed(old(nodes), from, to).Ok?
      ensures nodes == if r.Ok? then Renamed(old(nodes), from, to).value else old(nodes)
    {
      var renamed := Renamed(nodes, from, to);
      if renamed.Err? {
        return Err(renamed.error);
      }
      nodes := renamed.value;
      return Ok(());
    }

    method WriteFile(p: Path, data: seq<Byte>) returns (r: Result<()>)
      modifies this
      ensures r.Ok? <==> p != [] && !DirAt(old(nodes), p) && HoldsEntries(kind, old(nodes), Parent(p))
      ensures nodes == if r.Ok? then old(nodes)[p := File(data)] else old(nodes)
    {
      if p == [] || DirAt(nodes, p) {
        return Err(ErrorKind.IsDir);
      }
      if !HoldsEntries(kind, nodes, Parent(p)) {
        return Err(NotFound);
      }
      nodes := nodes[p := File(data)];
      return Ok(());
    }
  }

  /** What a rename of MemFs does: a file leaves its place and replaces what is at the new one; a directory
      takes along what lies below it. LocalFs leaves renaming to the host. */
  function Renamed(t: Tree, from: Path, to: Path): Result<Tree>
    requires from != [] && to != []
  {
    if from == to then Ok(t)
    else if !DirAt(t, Parent(to)) || from !in t then Err(NotFound)
    else if DirAt(t, to) && Under(t, to) != {to} then Err(AlreadyExists)
    else if t[from].File? then Ok((t - {from, to})[to := t[from]])
    else Ok(Without(t, from) + MovedSubtree(t, from, to))
  }

  /** The places of `from` and what lies below it, moved to `to`. */
  function MovedSubtree(t: Tree, from: Path, to: Path): Tree {
    var places := set p | p in Under(t, from) :: to + p[|from|..];
    map q | q in places && Covers(to, q) && from + q[|to|..] in t :: t[from + q[|to|..]]
  }

  /** Pointwise: what is moved, and from where. */
  lemma MovedAt(t: Tree, from: Path, to: Path, q: Path)
    ensures q in MovedSubtree(t, from, to) <==> Covers(to, q) && from + q[|to|..] in t
    ensures q in MovedSubtree(t, from, to) ==> MovedSubtree(t, from, to)[q] == t[from + q[|to|..]]
  {
    if Covers(to, q) && from + q[|to|..] in t {
      var p := from + q[|to|..];
      assert p in Under(t, from) && p[|from|..] == q[|to|..] && to + p[|from|..] == q;
    }
  }

  /** Something can be created directly below `p`. */
  predicate HoldsEntries(kind: Kind, t: Tree, p: Path) {
    p in t && (kind.MemFs? || t[p].Dir?)
  }

  function RemoveOutcome(t: Tree, p: Path): Result<()> {
    if p == [] then Err(Invalid)
    else if p !in t then Err(NotFound)
    else if t[p].Dir? && Under(t, p) != {p} then Err(NotEmpty)
    else Ok(())
  }

  /** The entries of directory `p`. */
  function Children(t: Tree, p: Path): (r: set<Path>)
    ensures forall q :: q in r <==> q in t && q != [] && Parent(q) == p
  {
    set q | q in t && q != [] && Parent(q) == p
  }

  lemma ChildIsSmaller(t: Tree, p: Path, c: Path)
    requires p in t && c in Children(t, p)
    ensures |Under(t, c)| < |Under(t, p)|
  {
    assert p <= c;
    assert Under(t, c) <= Under(t, p) - {p};
    SubsetSize(Under(t, c), Under(t, p) - {p});
  }

  lemma {:induction false} SubsetSize<T>(a: set<T>, b: set<T>)
    requires a <= b
    ensures |a| <= |b|
  {
    if a != {} {
      var x :| x in a;
      SubsetSize(a - {x}, b - {x});
    }
  }

  lemma {:induction false} ClearAboveShorter(t: Tree, p: Path, i: nat)
    requires i <= |p| && ClearAbove(t, p)
    ensures ClearAbove(t, p[..i])
    decreases |p|
  {
    if i < |p| {
      assert Parent(p)[..i] == p[..i];
      ClearAboveShorter(t, Parent(p), i);
    } else {
      assert p[..i] == p;
    }
  }

  /** Creates `p` and whatever is missing above it. A file in the way stops LocalFs; MemFs goes
      on below it. */
  method MkdirAll(fsys: FileTree, p: Path) returns (r: Result<()>)
    requires Sound(fsys.kind, fsys.nodes)
    modifies fsys
    ensures r.Ok? <==> fsys.kind.MemFs? || ClearAbove(old(fsys.nodes), p)
    ensures fsys.nodes == if r.Ok? then WithDirs(old(fsys.nodes), p) else old(fsys.nodes)
    ensures Sound(fsys.kind, fsys.nodes)
  {
    ghost var t := fsys.nodes;
    assert p[..0] == [];
    for i := 0 to |p|
      invariant fsys.nodes == WithDirs(t, p[..i])
      invariant fsys.kind.LocalFs? ==> ClearAbove(t, p[..i])
      invariant Sound(fsys.kind, fsys.nodes)
    {
      var cur := p[..i + 1];
      assert Parent(cur) == p[..i];
      WithDirsAt(t, p[..i]);
      var m := fsys.Mkdir(cur);
      if m.Err? && m.error != AlreadyExists {
        assert !ClearAbove(t, cur);
        if ClearAbove(t, p) { ClearAboveShorter(t, p, i + 1); }
        WellFormedClears(t, p[..i]);
        return m;
      }
      MadeOneMore(fsys.kind, t, cur);
    }
    assert p[..|p|] == p;
    return Ok(());
  }

  lemma MadeOneMore(kind: Kind, t: Tree, p: Path)
    requires Sound(kind, t) && p != []
    requires kind.LocalFs? ==> ClearAbove(t, Parent(p)) && (p in t || DirAt(WithDirs(t, Parent(p)), Parent(p)))
    ensures Sound(kind, WithDirs(t, p))
    ensures kind.LocalFs? ==> ClearAbove(t, p)
  {
    if kind.MemFs? {
      WithDirsKeepsRooted(t, p);
    } else {
      if p in t { WellFormedClears(t, p); } else { WithDirsAt(t, Parent(p)); }
      WithDirsKeepsWellFormed(t, p);
    }
  }

  ghost predicate CoveredBySome(roots: set<Path>, q: Path) {
    exists c :: c in roots && Covers(c, q)
  }

  ghost function WithoutAll(t: Tree, roots: set<Path>): Tree {
    map q | q in t && !CoveredBySome(roots, q) :: t[q]
  }

  lemma WithoutOneMore(t: Tree, roots: set<Path>, c: Path)
    ensures Without(WithoutAll(t, roots), c) == WithoutAll(t, roots + {c})
  {
    forall q ensures CoveredBySome(roots + {c}, q) <==> CoveredBySome(roots, q) || Covers(c, q) {
      if CoveredBySome(roots, q) {
        var d :| d in roots && Covers(d, q);
        assert d in roots + {c};
      } else if Covers(c, q) {
        assert c in roots + {c};
      }
    }
  }

  lemma SameDepthCovers(a: Path, b: Path)
    requires |a| == |b|
    ensures Covers(a, b) <==> a == b
  {
  }

  lemma BelowChild(t: Tree, p: Path, c: Path, q: Path)
    requires c in Children(t, p) && Covers(c, q)
    ensures Covers(p, q) && q != p
  {
  }

  lemma SiblingStays(t: Tree, p: Path, gone: set<Path>, c: Path)
    requires gone <= Children(t, p) && c in Children(t, p) - gone
    ensures c in WithoutAll(t, gone)
  {
    forall d | d in gone ensures !Covers(d, c) {
      SameDepthCovers(d, c);
    }
  }

  /** Deletes `p` with everything below it, children first. The root itself cannot go. */
  method RemoveAll(fsys: FileTree, p: Path) returns (r: Result<()>)
    requires Replaceable(fsys.nodes, p)
    modifies fsys
    ensures r.Ok? <==> p in old(fsys.nodes) && p != []
    ensures fsys.nodes == if p == [] then map[[] := Dir] else Without(old(fsys.nodes), p)
    decreases |Under(fsys.nodes, p)|, 1
  {
    ghost var t := fsys.nodes;
    if p !in fsys.nodes {
      AbsentHasNothingBelow(t, p);
      return Err(NotFound);
    }
    if fsys.nodes[p].Dir? {
      RemoveEntries(fsys, p);
    } else {
      FileHasNothingBelow(t, p);
    }
    OnlySelfLeft(t, fsys.nodes, p);
    r := fsys.Remove(p);
  }

  /** Deletes everything below the directory `p`, one entry at a time. */
  method RemoveEntries(fsys: FileTree, p: Path)
    requires Replaceable(fsys.nodes, p) && p in fsys.nodes
    modifies fsys
    ensures fsys.nodes == map q | q in old(fsys.nodes) && (q == p || !Covers(p, q)) :: old(fsys.nodes)[q]
    decreases |Under(fsys.nodes, p)|, 0
  {
    ghost var t := fsys.nodes;
    var kids := Children(fsys.nodes, p);
    ghost var gone := {};
    while kids != {}
      invariant gone !! kids && gone + kids == Children(t, p)
      invariant Rooted(fsys.nodes) && fsys.nodes == WithoutAll(t, gone)
      decreases |kids|
    {
      var c :| c in kids;
      NextEntry(t, p, gone, c);
      WithoutKeepsRooted(fsys.nodes, c);
      var _ := RemoveAll(fsys, c);
      kids, gone := kids - {c}, gone + {c};
    }
    ChildrenCover(t, p);
  }

  lemma NextEntry(t: Tree, p: Path, gone: set<Path>, c: Path)
    requires Replaceable(t, p) && p in t && gone <= Children(t, p) && c in Children(t, p) - gone
    ensures c in WithoutAll(t, gone) && c != []
    ensures |Under(WithoutAll(t, gone), c)| < |Under(t, p)|
    ensures Without(WithoutAll(t, gone), c) == WithoutAll(t, gone + {c})
    ensures FormedUnder(WithoutAll(t, gone), c)
  {
    SiblingStays(t, p, gone, c);
    ChildIsSmaller(t, p, c);
    SubsetSize(Under(WithoutAll(t, gone), c), Under(t, c));
    WithoutOneMore(t, gone, c);
    ChildStaysFormed(t, p, gone, c);
  }

  lemma ChildStaysFormed(t: Tree, p: Path, gone: set<Path>, c: Path)
    requires FormedUnder(t, p) && gone <= Children(t, p) && c in Children(t, p) - gone
    ensures FormedUnder(WithoutAll(t, gone), c)
  {
    forall q | q in WithoutAll(t, gone) && q != c && Covers(c, q) ensures DirAt(WithoutAll(t, gone), Parent(q)) {
      BelowChild(t, p, c, q);
      CoversParent(c, q);
      forall d | d in gone ensures !Covers(d, Parent(q)) {
        if Covers(d, Parent(q)) { SameDepthCovers(d, c); }
      }
    }
  }

  lemma AbsentHasNothingBelow(t: Tree, p: Path)
    requires Rooted(t) && p !in t
    ensures Without(t, p) == t
  {
    forall q | q in t ensures !Covers(p, q) {
      if Covers(p, q) { NodesAbove(t, q, p); }
    }
  }

  lemma ChildrenCover(t: Tree, p: Path)
    requires Rooted(t) && p in t
    ensures forall q :: q in t ==> (CoveredBySome(Children(t, p), q) <==> Covers(p, q) && q != p)
  {
    forall q | q in t ensures CoveredBySome(Children(t, p), q) <==> Covers(p, q) && q != p {
      if Covers(p, q) && q != p {
        var c := q[..|p| + 1];
        assert Parent(c) == p && Covers(c, q);
        NodesAbove(t, q, c);
        assert c in Children(t, p);
      }
      if CoveredBySome(Children(t, p), q) {
        var c :| c in Children(t, p) && Covers(c, q);
        BelowChild(t, p, c, q);
      }
    }
  }

  lemma OnlySelfLeft(t: Tree, now: Tree, p: Path)
    requires p in t && now == map q | q in t && (q == p || !Covers(p, q)) :: t[q]
    ensures p in now && Under(now, p) == {p} && now - {p} == Without(t, p)
    ensures p == [] ==> now.Keys == {[]} && now[[]] == t[[]]
  {
    assert Covers(p, p);
  }

  /** When a rename succeeds: onto itself always; otherwise into a directory, of something that is there,
      and not over a directory that has entries. */
  lemma RenameSucceeds(t: Tree, from: Path, to: Path)
    requires from != [] && to != []
    ensures Renamed(t, from, to).Ok? <==>
      || from == to
      || (from in t && DirAt(t, Parent(to))
          && (!DirAt(t, to) || forall q :: q in t && Covers(to, q) ==> q == to))
  {
    if to in t {
      assert to in Under(t, to);
      if q :| q in t && Covers(to, q) && q != to { assert q in Under(t, to); }
    }
  }
}
