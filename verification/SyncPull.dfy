/** Pull: the local tree is brought to the remote index in two ordered passes, deepest local
    paths first for deletion and shallowest remote paths first for import, under one of two
    policies for paths with unpushed edits. */
module SyncPull {
  import opened Wrappers
  import opened Bytes
  import opened Seqs
  import opened Tree
  import Paths
  import opened SyncPatch

  datatype PullConflictPolicy = KeepLocal | PreferRemote
  datatype PullPathAction = DeleteLocal | SyncRemoteDir | SyncRemoteLeaf

  /** `ancestor` is `descendant` or above it; the root contains only itself, because the
      program tests for the prefix "./". */
  predicate PathContains(ancestor: Path, descendant: Path) {
    descendant == ancestor || (ancestor != [] && Covers(ancestor, descendant))
  }

  /** On the program's path strings this is exactly its test. */
  lemma PathContainsIsTheTextTest(ancestor: Text, descendant: Text)
    requires Paths.ValidPath(ancestor) && Paths.ValidPath(descendant)
    ensures PathContains(Paths.Components(ancestor), Paths.Components(descendant))
            <==> Paths.PathContainsText(ancestor, descendant)
  {
    Paths.ContainmentIsOnComponents(ancestor, descendant);
  }

  predicate PathsOverlap(left: Path, right: Path) {
    PathContains(left, right) || PathContains(right, left)
  }

  function ConflictingDirtyPaths(dirty: DirtyMap, path: Path, action: PullPathAction, local: Tree): set<Path> {
    if action.SyncRemoteDir? && DirAt(local, path) then
      set d | d in dirty && PathContains(d, path)
    else
      set d | d in dirty && PathsOverlap(d, path)
  }

  function ActionFor(n: Node): PullPathAction {
    if n.Dir? then SyncRemoteDir else SyncRemoteLeaf
  }

  function ClearDirtySubtree(dirty: DirtyMap, path: Path): DirtyMap {
    map d | d in dirty && !PathContains(path, d) :: dirty[d]
  }

  function ClearDirtyForRemoteSync(dirty: DirtyMap, path: Path, action: PullPathAction): DirtyMap {
    if action.SyncRemoteDir? then dirty - {path} else ClearDirtySubtree(dirty, path)
  }

  function RecordConflicts(retained: map<Path, DirtyChange>, dirty: DirtyMap, conflicts: set<Path>)
      : map<Path, DirtyChange> {
    retained + map d | d in conflicts && d in dirty :: dirty[d].change
  }

  // ----- single paths -----

  /** The local tree once `p` carries the remote node `n`. */
  function SyncedPath(t: Tree, p: Path, n: Node): Tree
    requires p != []
  {
    if n.Dir? && DirAt(t, p) then t else WithDirs(Without(t, p), Parent(p))[p := n]
  }

  lemma {:induction false} ClearAboveWithout(t: Tree, p: Path, q: Path)
    requires ClearAbove(t, q)
    ensures ClearAbove(Without(t, p), q)
    decreases |q|
  {
    if q != [] { ClearAboveWithout(t, p, Parent(q)); }
  }

  lemma SyncedKeepsWellFormed(t: Tree, p: Path, n: Node)
    requires WellFormed(t) && p != [] && ClearAbove(t, p)
    ensures WellFormed(SyncedPath(t, p, n))
  {
    if !(n.Dir? && DirAt(t, p)) {
      var u := Without(t, p);
      WithoutKeepsWellFormed(t, p);
      ClearAboveWithout(t, p, p);
      WithDirsKeepsWellFormed(u, p);
      WithDirsKeepsWellFormed(u, Parent(p));
      WithDirsAt(u, Parent(p));
      forall q | q in WithDirs(u, Parent(p)) ensures !Covers(p, q) {
        if Covers(p, q) { SameOrLonger(p, q, Parent(p)); }
      }
      PutKeepsWellFormed(WithDirs(u, Parent(p)), p, n);
    }
  }

  lemma SameOrLonger(p: Path, q: Path, r: Path)
    requires Covers(p, q) && |r| < |p|
    ensures !Covers(q, r)
  {
  }

  method RemoveLocalPath(local: FileTree, p: Path) returns (r: Result<()>)
    requires Replaceable(local.nodes, p) && p in local.nodes && p != []
    modifies local
    ensures r.Ok? && local.nodes == Without(old(local.nodes), p)
  {
    if local.nodes[p].Dir? {
      r := RemoveAll(local, p);
    } else {
      FileHasNothingBelow(local.nodes, p);
      OnlySelf(local.nodes, p);
      r := local.Remove(p);
    }
  }

  lemma SyncedWhenPresent(t: Tree, p: Path, n: Node)
    requires Replaceable(t, p) && p in t && p != []
    ensures Rooted(Without(t, p)) && Parent(p) in Without(t, p)
    ensures WithDirs(Without(t, p), p) == Without(t, p)[p := Dir]
    ensures SyncedPath(t, p, n) == if n.Dir? && DirAt(t, p) then t else Without(t, p)[p := n]
    ensures t[p].File? ==> Without(t, p)[p := n] == t[p := n]
  {
    WithoutKeepsRooted(t, p);
    RootedHasDirs(Without(t, p), Parent(p));
    if t[p].File? { FileHasNothingBelow(t, p); }
  }

  lemma ClearWhenPresent(t: Tree, p: Path)
    requires WellFormed(t) && p in t && p != []
    ensures ClearAbove(t, p) && WellFormed(Without(t, p)) && ClearAbove(Without(t, p), p)
  {
    WellFormedClears(t, p);
    WithoutKeepsWellFormed(t, p);
    WellFormedClears(Without(t, p), Parent(p));
  }

  lemma SyncedWhenAbsent(t: Tree, p: Path, n: Node)
    requires Rooted(t) && p !in t && p != []
    ensures SyncedPath(t, p, n) == WithDirs(t, Parent(p))[p := n]
    ensures WithDirs(t, p) == WithDirs(t, Parent(p))[p := Dir]
    ensures p !in WithDirs(t, Parent(p)) && Parent(p) in WithDirs(t, Parent(p))
  {
    AbsentHasNothingBelow(t, p);
    WithDirsAt(t, Parent(p));
  }

  /** Where the local file system can be asked about `p`. */
  ghost predicate Reachable(kind: Kind, t: Tree, p: Path) {
    kind.MemFs? || ClearAbove(t, p)
  }

  lemma SyncedKeepsSound(kind: Kind, t: Tree, p: Path, n: Node)
    requires Sound(kind, t) && p != [] && Reachable(kind, t, p)
    ensures Sound(kind, SyncedPath(t, p, n))
  {
    if kind.LocalFs? {
      SyncedKeepsWellFormed(t, p, n);
    } else {
      SyncedKeepsRooted(t, p, n);
    }
  }

  lemma SyncedKeepsRooted(t: Tree, p: Path, n: Node)
    requires Rooted(t) && p != []
    ensures Rooted(SyncedPath(t, p, n))
  {
    if !(n.Dir? && DirAt(t, p)) {
      WithoutKeepsRooted(t, p);
      WithDirsKeepsRooted(Without(t, p), Parent(p));
    }
  }

  method SyncRemoteDirectory(local: FileTree, p: Path) returns (r: Result<()>)
    requires Sound(local.kind, local.nodes) && FormedUnder(local.nodes, p) && p != []
    modifies local
    ensures r.Ok? <==> Reachable(local.kind, old(local.nodes), p)
    ensures local.nodes == if r.Ok? then SyncedPath(old(local.nodes), p, Dir) else old(local.nodes)
  {
    var there :- local.Exists(p);
    if !there {
      SyncedWhenAbsent(local.nodes, p, Dir);
      r := MkdirAll(local, p);
    } else {
      SyncedWhenPresent(local.nodes, p, Dir);
      if local.nodes[p].File? {
        if local.kind.LocalFs? { ClearWhenPresent(local.nodes, p); }
        var _ := RemoveLocalPath(local, p);
        var _ := MkdirAll(local, p);
      }
      return Ok(());
    }
  }

  method SyncRemoteFile(local: FileTree, p: Path, data: seq<Byte>) returns (r: Result<()>)
    requires Sound(local.kind, local.nodes) && FormedUnder(local.nodes, p) && p != []
    modifies local
    ensures r.Ok? <==> Reachable(local.kind, old(local.nodes), p)
    ensures local.nodes == if r.Ok? then SyncedPath(old(local.nodes), p, File(data)) else old(local.nodes)
  {
    var there :- local.Exists(p);
    if there {
      SyncedWhenPresent(local.nodes, p, File(data));
      if local.kind.LocalFs? { ClearWhenPresent(local.nodes, p); }
      if local.nodes[p].Dir? {
        var _ := RemoveLocalPath(local, p);
      } else if local.nodes[p].data == data {
        return Ok(());
      }
    } else {
      SyncedWhenAbsent(local.nodes, p, File(data));
      if local.kind.LocalFs? { WithDirsKeepsWellFormed(local.nodes, p); }
      var _ := MkdirAll(local, Parent(p));
    }
    r := local.WriteFile(p, data);
  }

  /** Brings `p` to the remote node `n`. On LocalFs it fails, changing nothing, exactly when a
      file lies above `p`; MemFs puts `p` below that file. */
  method SyncPathFromRemote(n: Node, local: FileTree, p: Path) returns (r: Result<()>)
    requires Sound(local.kind, local.nodes) && FormedUnder(local.nodes, p) && p != []
    modifies local
    ensures Sound(local.kind, local.nodes)
    ensures r.Ok? <==> Reachable(local.kind, old(local.nodes), p)
    ensures local.nodes == if r.Ok? then SyncedPath(old(local.nodes), p, n) else old(local.nodes)
  {
    if Reachable(local.kind, local.nodes, p) { SyncedKeepsSound(local.kind, local.nodes, p, n); }
    match n
    case Dir => r := SyncRemoteDirectory(local, p);
    case File(data) => r := SyncRemoteFile(local, p, data);
  }

  // ----- the order of the passes -----

  /** `order` lists the non-root paths of `t`, each once, no path before a shallower one. */
  ghost predicate DepthOrder(order: seq<Path>, t: Tree) {
    && (forall p :: p in order <==> p in t && p != [])
    && (forall i, j :: 0 <= i < j < |order| ==> |order[i]| <= |order[j]| && order[i] != order[j])
  }

  /** Collects and sorts the paths of a tree by depth. */
  method CollectPaths(t: Tree) returns (order: seq<Path>)
    ensures DepthOrder(order, t)
  {
    order := [];
    var todo := t.Keys - {[]};
    while todo != {}
      invariant todo <= t.Keys - {[]}
      invariant forall p :: p in order <==> p in t.Keys - {[]} - todo
      invariant forall i, j :: 0 <= i < j < |order| ==> |order[i]| <= |order[j]| && order[i] != order[j]
      invariant forall i, p :: 0 <= i < |order| && p in todo ==> |order[i]| <= |p|
      decreases |todo|
    {
      var p := Shallowest(todo);
      assert p !in order;
      order := order + [p];
      todo := todo - {p};
    }
  }

  method Shallowest(ps: set<Path>) returns (p: Path)
    requires ps != {}
    ensures p in ps && forall q :: q in ps ==> |p| <= |q|
  {
    p :| p in ps;
    var rest := ps - {p};
    while rest != {}
      invariant rest <= ps && p in ps
      invariant forall q :: q in ps - rest ==> |p| <= |q|
      decreases |rest|
    {
      var q :| q in rest;
      if |q| < |p| { p := q; }
      rest := rest - {q};
    }
  }

  /** No dirty path overlaps `q`. */
  ghost predicate Free(dirty: DirtyMap, q: Path) {
    forall d :: d in dirty ==> !PathsOverlap(d, q)
  }

  lemma NoConflictsMeansFree(dirty: DirtyMap, p: Path, action: PullPathAction, t: Tree)
    ensures action != SyncRemoteDir || !DirAt(t, p) ==>
      (ConflictingDirtyPaths(dirty, p, action, t) == {} <==> Free(dirty, p))
    ensures Free(dirty, p) ==> ConflictingDirtyPaths(dirty, p, action, t) == {}
    ensures Free(dirty, p) ==> ClearDirtySubtree(dirty, p) == dirty
  {
    if action != SyncRemoteDir || !DirAt(t, p) {
      forall d | d in dirty ensures d in ConflictingDirtyPaths(dirty, p, action, t) <==> PathsOverlap(d, p) {
      }
    }
  }

  // ----- the delete pass -----

  /** What the delete pass removes: paths only the local side has, except, when local edits
      win, those that overlap a dirty path. */
  ghost predicate Deletable(policy: PullConflictPolicy, dirty: DirtyMap, remote: Tree, t: Tree, q: Path) {
    q in t && q != [] && q !in remote && (policy.PreferRemote? || Free(dirty, q))
  }

  lemma DeletableBelow(policy: PullConflictPolicy, dirty: DirtyMap, remote: Tree, t: Tree, p: Path, q: Path)
    requires WellFormed(remote) && Deletable(policy, dirty, remote, t, p)
    requires q in t && Covers(p, q)
    ensures Deletable(policy, dirty, remote, t, q)
  {
    if q in remote && q != p { DirsAbove(remote, q, p); }
    if policy.KeepLocal? {
      forall d | d in dirty ensures !PathsOverlap(d, q) {
        assert !PathsOverlap(d, p);
        if Covers(d, q) { Comparable(d, p, q); }
        if Covers(q, d) { CoversTransitive(p, q, d); }
      }
    }
  }

  lemma Comparable(a: Path, b: Path, c: Path)
    requires Covers(a, c) && Covers(b, c)
    ensures Covers(a, b) || Covers(b, a)
  {
    if |a| <= |b| {
      assert a == b[..|a|];
    } else {
      assert b == a[..|b|];
    }
  }

  ghost predicate DeletedFrom(policy: PullConflictPolicy, dirty: DirtyMap, remote: Tree, t: Tree, order: seq<Path>,
      i: nat, q: Path)
    requires i <= |order|
  {
    Deletable(policy, dirty, remote, t, q) && q in order[i..]
  }

  /** The tree and the dirty map once the paths from position `i` on have been visited. */
  ghost predicate DeletePassAt(policy: PullConflictPolicy, dirty: DirtyMap, remote: Tree, t: Tree,
                               order: seq<Path>, i: nat, now: Tree, left: DirtyMap)
    requires i <= |order|
  {
    && WellFormed(now)
    && now == (map q | q in t && !DeletedFrom(policy, dirty, remote, t, order, i, q) :: t[q])
    && left == map d | d in dirty
       && !(exists q :: DeletedFrom(policy, dirty, remote, t, order, i, q) && Covers(q, d)) :: dirty[d]
  }

  lemma OrderedOnce(order: seq<Path>, t: Tree, i: nat, q: Path)
    requires DepthOrder(order, t) && i < |order| && q in t && q != []
    ensures q in order[i..] <==> q == order[i] || q in order[i + 1..]
    ensures |q| > |order[i]| ==> q in order[i + 1..]
    ensures order[i] !in order[i + 1..] && order[i] !in order[..i]
    ensures |q| < |order[i]| ==> q in order[..i]
  {
    DropStep(order, i);
    var k :| 0 <= k < |order| && order[k] == q;
    if |q| > |order[i]| {
      assert k > i;
      assert order[i + 1..][k - i - 1] == q;
    }
    if |q| < |order[i]| {
      assert k < i;
      assert order[..i][k] == q;
    }
  }

  /** Visiting one deletable path removes exactly it: everything below went before. */
  lemma DeleteStep(policy: PullConflictPolicy, dirty: DirtyMap, remote: Tree, t: Tree,
                   order: seq<Path>, i: nat, now: Tree, left: DirtyMap)
    requires WellFormed(remote) && WellFormed(t) && DepthOrder(order, t) && i < |order|
    requires DeletePassAt(policy, dirty, remote, t, order, i + 1, now, left)
    requires Deletable(policy, dirty, remote, t, order[i])
    ensures order[i] in now
    ensures DeletePassAt(policy, dirty, remote, t, order, i, Without(now, order[i]), ClearDirtySubtree(left, order[i]))
  {
    var p := order[i];
    assert p in order;
    OrderedOnce(order, t, i, p);
    WithoutKeepsWellFormed(now, p);
    forall q | q in t && q != []
      ensures DeletedFrom(policy, dirty, remote, t, order, i, q) <==>
        q == p || DeletedFrom(policy, dirty, remote, t, order, i + 1, q)
      ensures Covers(p, q) ==> q == p || DeletedFrom(policy, dirty, remote, t, order, i + 1, q)
    {
      OrderedOnce(order, t, i, q);
      if Covers(p, q) { DeletableBelow(policy, dirty, remote, t, p, q); }
    }
    DirtyClearedOneMore(policy, dirty, remote, t, order, i, left);
  }

  lemma DirtyClearedOneMore(policy: PullConflictPolicy, dirty: DirtyMap, remote: Tree, t: Tree,
                            order: seq<Path>, i: nat, left: DirtyMap)
    requires i < |order| && Deletable(policy, dirty, remote, t, order[i])
    requires forall q :: DeletedFrom(policy, dirty, remote, t, order, i, q) <==>
      q == order[i] || DeletedFrom(policy, dirty, remote, t, order, i + 1, q)
    requires left == map d | d in dirty
             && !(exists q :: DeletedFrom(policy, dirty, remote, t, order, i + 1, q) && Covers(q, d)) :: dirty[d]
    ensures ClearDirtySubtree(left, order[i])
         == map d | d in dirty
         && !(exists q :: DeletedFrom(policy, dirty, remote, t, order, i, q) && Covers(q, d)) :: dirty[d]
  {
    forall d | d in dirty
      ensures (exists q :: DeletedFrom(policy, dirty, remote, t, order, i, q) && Covers(q, d))
        <==> Covers(order[i], d) || (exists q :: DeletedFrom(policy, dirty, remote, t, order, i + 1, q) && Covers(q, d))
    {
    }
  }

  lemma KeepStep(policy: PullConflictPolicy, dirty: DirtyMap, remote: Tree, t: Tree,
                 order: seq<Path>, i: nat, now: Tree, left: DirtyMap)
    requires DepthOrder(order, t) && i < |order|
    requires DeletePassAt(policy, dirty, remote, t, order, i + 1, now, left)
    requires !Deletable(policy, dirty, remote, t, order[i])
    ensures order[i] in now
    ensures DeletePassAt(policy, dirty, remote, t, order, i, now, left)
  {
    assert order[i] in order;
    DropStep(order, i);
    forall q
      ensures DeletedFrom(policy, dirty, remote, t, order, i, q)
        <==> DeletedFrom(policy, dirty, remote, t, order, i + 1, q)
    {
    }
  }

  /** With local edits winning nothing at or below a deleted path is dirty. */
  lemma KeepLocalClearsNothing(dirty: DirtyMap, remote: Tree, t: Tree, order: seq<Path>, i: nat, now: Tree,
      left: DirtyMap)
    requires i <= |order| && DeletePassAt(KeepLocal, dirty, remote, t, order, i, now, left)
    ensures left == dirty
  {
    forall q, d | d in dirty && DeletedFrom(KeepLocal, dirty, remote, t, order, i, q) ensures !Covers(q, d) {
      assert !PathsOverlap(d, q);
    }
  }

  /** Decides about one path that only the local side has. */
  method VisitLocalOnly(policy: PullConflictPolicy, dirty: DirtyMap, retained: map<Path, DirtyChange>,
                        local: FileTree, p: Path)
    returns (left: DirtyMap, recorded: map<Path, DirtyChange>)
    requires WellFormed(local.nodes) && p in local.nodes && p != []
    modifies local
    ensures WellFormed(local.nodes)
    ensures policy.PreferRemote? || Free(dirty, p) ==>
      local.nodes == Without(old(local.nodes), p) && left == ClearDirtySubtree(dirty, p) && recorded == retained
    ensures policy.KeepLocal? && !Free(dirty, p) ==>
      && local.nodes == old(local.nodes) && left == dirty
      && recorded == RecordConflicts(retained, dirty, ConflictingDirtyPaths(dirty, p, DeleteLocal, old(local.nodes)))
  {
    left, recorded := dirty, retained;
    WellFormedIsReplaceable(local.nodes, p);
    WithoutKeepsWellFormed(local.nodes, p);
    var conflicts := ConflictingDirtyPaths(dirty, p, DeleteLocal, local.nodes);
    NoConflictsMeansFree(dirty, p, DeleteLocal, local.nodes);
    if conflicts == {} {
      var _ := RemoveLocalPath(local, p);
    } else if policy.KeepLocal? {
      recorded := RecordConflicts(retained, dirty, conflicts);
    } else {
      var _ := RemoveLocalPath(local, p);
      left := ClearDirtySubtree(dirty, p);
    }
  }

  ghost predicate RetainedFrom(policy: PullConflictPolicy, dirty: DirtyMap, retained: map<Path, DirtyChange>) {
    forall d :: d in retained ==> policy.KeepLocal? && d in dirty && retained[d] == dirty[d].change
  }

  lemma RecordedFrom(dirty: DirtyMap, retained: map<Path, DirtyChange>, p: Path, action: PullPathAction, t: Tree)
    requires RetainedFrom(KeepLocal, dirty, retained)
    ensures var recorded := RecordConflicts(retained, dirty, ConflictingDirtyPaths(dirty, p, action, t));
            && RetainedFrom(KeepLocal, dirty, recorded) && retained.Keys <= recorded.Keys
            && (p in dirty ==> p in recorded)
  {
  }

  /** The path `p`, which only the local side has, conflicts with the dirty path `d`. */
  ghost predicate DeleteConflict(before: Tree, remote: Tree, d: Path, p: Path) {
    p in before && p != [] && p !in remote && PathsOverlap(d, p)
  }

  /** What has been recorded once the paths from position `i` on have been visited. */
  ghost predicate DeleteRecorded(before: Tree, remote: Tree, dirty: DirtyMap, order: seq<Path>, i: nat,
      retained: map<Path, DirtyChange>)
    requires i <= |order|
  {
    forall d :: d in retained <==> d in dirty && exists p :: p in order[i..] && DeleteConflict(before, remote, d, p)
  }

  lemma DeleteRecordsMore(before: Tree, remote: Tree, dirty: DirtyMap, order: seq<Path>, i: nat,
      retained: map<Path, DirtyChange>, recorded: map<Path, DirtyChange>, now: Tree)
    requires i < |order| && order[i] in before && order[i] != []
    requires DeleteRecorded(before, remote, dirty, order, i + 1, retained)
    requires recorded == if order[i] in remote then retained
                         else RecordConflicts(retained, dirty, ConflictingDirtyPaths(dirty, order[i], DeleteLocal, now))
    ensures DeleteRecorded(before, remote, dirty, order, i, recorded)
  {
    DropStep(order, i);
    forall d | d in dirty
      ensures (exists p :: p in order[i..] && DeleteConflict(before, remote, d, p))
        <==> DeleteConflict(before, remote, d, order[i])
             || exists p :: p in order[i + 1..] && DeleteConflict(before, remote, d, p)
    {
    }
  }

  /** Walks the local paths deepest first and deletes what the remote side does not have. */
  method DeletePass(policy: PullConflictPolicy, dirty: DirtyMap, remote: Tree, local: FileTree, order: seq<Path>)
    returns (left: DirtyMap, retained: map<Path, DirtyChange>)
    requires WellFormed(remote) && WellFormed(local.nodes) && DepthOrder(order, local.nodes)
    modifies local
    ensures DeletePassAt(policy, dirty, remote, old(local.nodes), order, 0, local.nodes, left)
    ensures RetainedFrom(policy, dirty, retained)
    ensures policy.KeepLocal? ==> forall d :: d in dirty && d in order && d !in remote ==> d in retained
    ensures policy.KeepLocal? ==> DeleteRecorded(old(local.nodes), remote, dirty, order, 0, retained)
  {
    ghost var t := local.nodes;
    left, retained := dirty, map[];
    var i := |order|;
    DeletePassStarts(policy, dirty, remote, t, order);
    while i > 0
      invariant 0 <= i <= |order|
      invariant DeletePassAt(policy, dirty, remote, t, order, i, local.nodes, left)
      invariant RetainedFrom(policy, dirty, retained)
      invariant policy.KeepLocal? ==> forall d :: d in dirty && d in order[i..] && d !in remote ==> d in retained
      invariant policy.KeepLocal? ==> DeleteRecorded(t, remote, dirty, order, i, retained)
    {
      i := i - 1;
      var p := order[i];
      assert p in order;
      DropStep(order, i);
      if policy.KeepLocal? { KeepLocalClearsNothing(dirty, remote, t, order, i + 1, local.nodes, left); }
      if Deletable(policy, dirty, remote, t, p) {
        DeleteStep(policy, dirty, remote, t, order, i, local.nodes, left);
      } else {
        KeepStep(policy, dirty, remote, t, order, i, local.nodes, left);
      }
      ghost var now, was := local.nodes, retained;
      if p !in remote {
        if policy.KeepLocal? { RecordedFrom(dirty, retained, p, DeleteLocal, local.nodes); }
        left, retained := VisitLocalOnly(policy, left, retained, local, p);
      }
      if policy.KeepLocal? {
        if Free(dirty, p) { NothingRecorded(dirty, was, p, now); }
        DeleteRecordsMore(t, remote, dirty, order, i, was, retained, now);
      }
    }
  }

  lemma NothingRecorded(dirty: DirtyMap, retained: map<Path, DirtyChange>, p: Path, now: Tree)
    requires Free(dirty, p)
    ensures RecordConflicts(retained, dirty, ConflictingDirtyPaths(dirty, p, DeleteLocal, now)) == retained
  {
    NoConflictsMeansFree(dirty, p, DeleteLocal, now);
  }

  lemma DeletePassStarts(policy: PullConflictPolicy, dirty: DirtyMap, remote: Tree, t: Tree, order: seq<Path>)
    requires WellFormed(t)
    ensures DeletePassAt(policy, dirty, remote, t, order, |order|, t, dirty)
  {
  }
}
