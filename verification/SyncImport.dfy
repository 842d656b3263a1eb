/** The import pass of pull, and what both passes together achieve under each policy. */
module SyncImport {
  import opened Wrappers
  import opened Bytes
  import opened Seqs
  import opened Tree
  import opened SyncPatch
  import opened SyncPull

  /** Decides about one remote path, once it has looked for it locally. */
  method VisitRemote(policy: PullConflictPolicy, dirty: DirtyMap, retained: map<Path, DirtyChange>,
                     remote: Tree, local: FileTree, p: Path)
    returns (left: DirtyMap, recorded: map<Path, DirtyChange>, r: Result<()>)
    requires Sound(local.kind, local.nodes) && FormedUnder(local.nodes, p) && p in remote && p != []
    modifies local
    ensures Sound(local.kind, local.nodes)
    ensures r.Ok? <==> Reachable(local.kind, old(local.nodes), p)
    ensures r.Err? ==> local.nodes == old(local.nodes) && left == dirty && recorded == retained
    ensures r.Ok? ==>
      var t := old(local.nodes);
      var conflicts := ConflictingDirtyPaths(dirty, p, ActionFor(remote[p]), t);
      if policy.PreferRemote? || conflicts == {} then
        && local.nodes == SyncedPath(t, p, remote[p]) && recorded == retained
        && left == if policy.PreferRemote? then ClearDirtyForRemoteSync(dirty, p, ActionFor(remote[p])) else dirty
      else
        local.nodes == t && left == dirty && recorded == RecordConflicts(retained, dirty, conflicts)
  {
    left, recorded := dirty, retained;
    var action := ActionFor(remote[p]);
    var there := local.Exists(p);
    if there.Err? {
      return left, recorded, Err(there.error);
    }
    var conflicts := ConflictingDirtyPaths(dirty, p, action, local.nodes);
    if conflicts == {} {
      NothingToClear(dirty, p, action, local.nodes);
      r := SyncPathFromRemote(remote[p], local, p);
      return;
    }
    if policy.KeepLocal? {
      return left, RecordConflicts(retained, dirty, conflicts), Ok(());
    }
    r := SyncPathFromRemote(remote[p], local, p);
    if r.Ok? {
      left := ClearDirtyForRemoteSync(dirty, p, action);
    }
  }

  lemma NothingToClear(dirty: DirtyMap, p: Path, action: PullPathAction, t: Tree)
    requires ConflictingDirtyPaths(dirty, p, action, t) == {}
    ensures ClearDirtyForRemoteSync(dirty, p, action) == dirty
  {
    if action.SyncRemoteDir? {
      assert p in dirty ==> p in ConflictingDirtyPaths(dirty, p, action, t);
    } else {
      NoConflictsMeansFree(dirty, p, action, t);
    }
  }

  // ----- the remote side wins -----

  ghost predicate PreferAt(remote: Tree, order: seq<Path>, i: nat, now: Tree)
    requires i <= |order|
  {
    && WellFormed(now) && now.Keys <= remote.Keys
    && forall p :: p in order[..i] ==> p in now && p in remote && now[p] == remote[p]
  }

  /** Remote paths that have claimed the dirty entries at or under them. */
  ghost predicate Claims(remote: Tree, p: Path, d: Path) {
    p in remote && p != [] && if remote[p].Dir? then d == p else Covers(p, d)
  }

  ghost function Unclaimed(remote: Tree, claimed: seq<Path>, dirty: DirtyMap): DirtyMap {
    map d | d in dirty && !(exists p :: p in claimed && Claims(remote, p, d)) :: dirty[d]
  }

  lemma UnclaimedOneMore(remote: Tree, order: seq<Path>, i: nat, dirty: DirtyMap)
    requires i < |order| && order[i] in remote && order[i] != []
    ensures ClearDirtyForRemoteSync(Unclaimed(remote, order[..i], dirty), order[i], ActionFor(remote[order[i]]))
         == Unclaimed(remote, order[..i + 1], dirty)
  {
    TakeStep(order, i);
    forall d | d in dirty
      ensures (exists p :: p in order[..i + 1] && Claims(remote, p, d))
        <==> Claims(remote, order[i], d) || (exists p :: p in order[..i] && Claims(remote, p, d))
    {
      if Claims(remote, order[i], d) { assert order[i] in order[..i + 1]; }
    }
  }

  lemma PreferStep(remote: Tree, order: seq<Path>, i: nat, now: Tree)
    requires WellFormed(remote) && DepthOrder(order, remote) && i < |order| && PreferAt(remote, order, i, now)
    ensures order[i] in remote && order[i] != [] && ClearAbove(now, order[i])
    ensures PreferAt(remote, order, i + 1, SyncedPath(now, order[i], remote[order[i]]))
  {
    var p := order[i];
    assert p in order;
    TakeStep(order, i);
    forall q | Covers(q, p) && q != p ensures DirAt(now, q) {
      if q != [] {
        DirsAbove(remote, p, q);
        OrderedOnce(order, remote, i, q);
      }
    }
    ClearAboveMeans(now, p);
    OrderedOnce(order, remote, i, p);
    PreferSynced(remote, now, p);
    SyncedKeepsWellFormed(now, p, remote[p]);
  }

  lemma PreferSynced(remote: Tree, now: Tree, p: Path)
    requires WellFormed(remote) && WellFormed(now) && now.Keys <= remote.Keys
    requires p in remote && p != [] && DirAt(now, Parent(p))
    ensures SyncedPath(now, p, remote[p]) == now[p := remote[p]]
  {
    if !(remote[p].Dir? && DirAt(now, p)) {
      forall q | q in now && Covers(p, q) ensures q == p {
        if q != p {
          DirsAbove(now, q, p);
          DirsAbove(remote, q, p);
        }
      }
      assert Without(now, p) == now - {p};
      WellFormedIsReplaceable(now, p);
      if p in now { SyncedWhenPresent(now, p, remote[p]); }
      else { AbsentHasNothingBelow(now, p); WellFormedClears(now, Parent(p)); }
    }
  }

  lemma PreferDone(remote: Tree, order: seq<Path>, now: Tree)
    requires WellFormed(remote) && DepthOrder(order, remote) && PreferAt(remote, order, |order|, now)
    ensures now == remote
  {
    TakeAll(order);
    forall q | q in remote ensures q in now && now[q] == remote[q] {
      if q != [] { assert q in order; }
    }
  }

  /** After the delete pass only remote paths are left locally. */
  lemma PreferStarts(dirty: DirtyMap, remote: Tree, t: Tree, order: seq<Path>, remoteOrder: seq<Path>, now: Tree,
      left: DirtyMap)
    requires WellFormed(remote) && DepthOrder(order, t)
    requires DeletePassAt(PreferRemote, dirty, remote, t, order, 0, now, left)
    ensures PreferAt(remote, remoteOrder, 0, now)
  {
    TakeAll(order);
    forall q | q in now ensures q in remote {
      assert q != [] ==> q in order;
      assert !DeletedFrom(PreferRemote, dirty, remote, t, order, 0, q);
    }
  }

  /** Exactly the dirty entries that survive a pull in which the remote side wins: those under
      no path that only the local side had, and claimed by no remote path. */
  ghost predicate SurvivesPreferRemote(local: Tree, remote: Tree, d: Path) {
    && (forall q :: q in local && q != [] && q !in remote ==> !Covers(q, d))
    && (forall p :: !Claims(remote, p, d))
  }

  /** An entry that survives names nothing that was on either side, unless it names the root; the
      root's entry always survives. */
  lemma SurvivorsNameNothing(before: Tree, index: Tree, d: Path)
    ensures SurvivesPreferRemote(before, index, d) && d != [] ==> d !in before && d !in index
    ensures SurvivesPreferRemote(before, index, [])
  {
    if d in index && d != [] { assert Claims(index, d, d); }
    if d in before && d != [] && d !in index { assert Covers(d, d); }
  }

  lemma PreferDirty(dirty: DirtyMap, remote: Tree, t: Tree, order: seq<Path>, remoteOrder: seq<Path>, now: Tree,
      left: DirtyMap)
    requires DepthOrder(order, t) && DepthOrder(remoteOrder, remote)
    requires DeletePassAt(PreferRemote, dirty, remote, t, order, 0, now, left)
    ensures Unclaimed(remote, remoteOrder, left) == map d | d in dirty && SurvivesPreferRemote(t, remote, d) :: dirty[d]
  {
    TakeAll(order);
    forall d | d in dirty
      ensures d in left <==> forall q :: q in t && q != [] && q !in remote ==> !Covers(q, d)
    {
      forall q ensures DeletedFrom(PreferRemote, dirty, remote, t, order, 0, q) <==> q in t && q != [] && q !in remote {
      }
    }
    forall p, d | Claims(remote, p, d) ensures p in remoteOrder {
    }
  }

  // ----- local edits win -----

  /** `q` lies at or under a dirty path other than the root. */
  ghost predicate Held(dirty: DirtyMap, q: Path) {
    exists d :: d in dirty && d != [] && Covers(d, q)
  }

  /** No local file that overlaps a dirty path stands above `p`. */
  ghost predicate UnblockedAt(dirty: DirtyMap, t: Tree, p: Path) {
    forall q :: q in t && Covers(q, p) && q != p && !Free(dirty, q) ==> t[q].Dir?
  }

  /** No remote path that is imported lies below a local file that is kept. */
  ghost predicate Unblocked(dirty: DirtyMap, remote: Tree, t: Tree) {
    forall p :: p in remote && p != [] && Free(dirty, p) ==> UnblockedAt(dirty, t, p)
  }

  /** When a pull that keeps local edits succeeds: on LocalFs no remote path at all, imported or
      not, may lie below a local file that is kept, because each is looked for; MemFs stops at
      nothing. */
  ghost predicate Importable(kind: Kind, dirty: DirtyMap, remote: Tree, t: Tree) {
    kind.MemFs? || forall p :: p in remote && p != [] ==> UnblockedAt(dirty, t, p)
  }

  ghost predicate SameAt(a: Tree, b: Tree, q: Path) {
    (q in a <==> q in b) && (q in a ==> a[q] == b[q])
  }

  /** Paths that overlap a dirty path keep what they had; all that may appear among them is a
      directory above a dirty path. */
  ghost predicate EditsKept(before: Tree, dirty: DirtyMap, now: Tree) {
    && (forall q :: !Free(dirty, q) && q in before ==> SameAt(before, now, q))
    && (forall q :: !Free(dirty, q) && q !in before && q in now ==> now[q].Dir? && !Held(dirty, q))
  }

  /** The state of the pass once the first `i` remote paths have been visited. */
  ghost predicate KeepAt(kind: Kind, before: Tree, remote: Tree, dirty: DirtyMap, order: seq<Path>, i: nat, now: Tree)
    requires i <= |order|
  {
    && KeepShape(kind, before, remote, dirty, order, i, now) && EditsKept(before, dirty, now)
    && (forall q :: q in now && q != [] && Free(dirty, q) ==> q in remote)
    && (forall p :: p in order[..i] && Free(dirty, p) ==> SameAt(remote, now, p))
    && (kind.LocalFs? ==> forall p :: p in order[..i] ==> UnblockedAt(dirty, before, p))
  }

  /** Even where MemFs put paths below a file, what is still to be visited can be replaced; and what was
      not there before, and must not be imported, is not there yet. */
  ghost predicate KeepShape(kind: Kind, before: Tree, remote: Tree, dirty: DirtyMap, order: seq<Path>, i: nat,
      now: Tree)
    requires i <= |order|
  {
    && Sound(kind, now)
    && (Unblocked(dirty, remote, before) ==> WellFormed(now))
    && (forall k :: i <= k < |order| ==> FormedUnder(now, order[k]))
    && (forall k :: i <= k < |order| && order[k] !in before && !Free(dirty, order[k]) ==> order[k] !in now)
  }

  lemma KeepStarts(kind: Kind, dirty: DirtyMap, remote: Tree, t: Tree, order: seq<Path>, remoteOrder: seq<Path>,
      now: Tree, left: DirtyMap)
    requires WellFormed(remote) && DepthOrder(order, t)
    requires DeletePassAt(KeepLocal, dirty, remote, t, order, 0, now, left)
    ensures KeepAt(kind, t, remote, dirty, remoteOrder, 0, now)
  {
    TakeAll(order);
    forall q | q in now && q != [] && Free(dirty, q) ensures q in remote {
      assert !DeletedFrom(KeepLocal, dirty, remote, t, order, 0, q);
    }
    WellFormedIsReplaceable(now, []);
  }

  /** Nothing dirty lies at, under or above anything at or under a free path. */
  lemma BelowFree(dirty: DirtyMap, p: Path, q: Path)
    requires Free(dirty, p) && p != [] && Covers(p, q)
    ensures Free(dirty, q)
  {
    forall d | d in dirty ensures !PathsOverlap(d, q) {
      assert !PathsOverlap(d, p);
      if Covers(d, q) { Comparable(d, p, q); }
      if Covers(q, d) { CoversTransitive(p, q, d); }
    }
  }

  lemma AboveFreeNotHeld(dirty: DirtyMap, p: Path, q: Path)
    requires Free(dirty, p) && Covers(q, p)
    ensures !Held(dirty, q)
  {
    forall d | d in dirty && d != [] ensures !Covers(d, q) {
      assert !PathsOverlap(d, p);
      if Covers(d, q) { CoversTransitive(d, q, p); }
    }
  }

  lemma KeepClear(kind: Kind, before: Tree, remote: Tree, dirty: DirtyMap, order: seq<Path>, i: nat, now: Tree)
    requires WellFormed(remote) && DepthOrder(order, remote) && i < |order|
    requires KeepAt(kind, before, remote, dirty, order, i, now)
    ensures UnblockedAt(dirty, before, order[i]) <==> ClearAbove(now, order[i])
  {
    var p := order[i];
    assert p in order;
    ClearAboveMeans(now, p);
    forall q | q in before && Covers(q, p) && q != p && !Free(dirty, q) ensures SameAt(before, now, q) {
    }
    if UnblockedAt(dirty, before, p) {
      forall q | q in now && Covers(q, p) && q != p ensures now[q].Dir? {
        DirsAbove(remote, p, q);
        if q != [] && Free(dirty, q) {
          OrderedOnce(order, remote, i, q);
          assert SameAt(remote, now, q);
        }
      }
    }
  }

  /** What still has to be visited stays replaceable: it is no shallower than what was placed. */
  lemma StaysFormed(t: Tree, p: Path, n: Node, u: Tree, x: Path)
    requires Lands(t, p, n, u) && FormedUnder(t, x) && |p| <= |x| && p != x
    ensures FormedUnder(u, x)
  {
    if u != t {
      forall q | q in u && q != x && Covers(x, q) ensures DirAt(u, Parent(q)) {
        assert !Covers(p, q);
        assert !Covers(q, p) && !Covers(Parent(q), p) && !Covers(p, Parent(q));
        assert SameAt(t, u, q) && SameAt(t, u, Parent(q));
      }
    }
  }

  /** Placing one path does not make another appear that is no shallower. */
  lemma StaysAbsent(t: Tree, p: Path, n: Node, u: Tree, x: Path)
    requires Lands(t, p, n, u) && x !in t && |p| <= |x| && p != x
    ensures x !in u
  {
    assert !Covers(x, p);
    if !Covers(p, x) { assert SameAt(t, u, x); }
  }

  lemma KeepShapeStep(kind: Kind, before: Tree, remote: Tree, dirty: DirtyMap, order: seq<Path>, i: nat, now: Tree)
    requires WellFormed(remote) && DepthOrder(order, remote) && i < |order|
    requires KeepAt(kind, before, remote, dirty, order, i, now)
    requires order[i] in remote && order[i] != [] && Free(dirty, order[i]) && Reachable(kind, now, order[i])
    requires Lands(now, order[i], remote[order[i]], SyncedPath(now, order[i], remote[order[i]]))
    ensures KeepShape(kind, before, remote, dirty, order, i + 1, SyncedPath(now, order[i], remote[order[i]]))
  {
    var p := order[i];
    var u := SyncedPath(now, p, remote[p]);
    SyncedKeepsSound(kind, now, p, remote[p]);
    if Unblocked(dirty, remote, before) {
      KeepClear(kind, before, remote, dirty, order, i, now);
      SyncedKeepsWellFormed(now, p, remote[p]);
    }
    forall k | i + 1 <= k < |order|
      ensures FormedUnder(u, order[k]) && (order[k] !in now ==> order[k] !in u)
    {
      StaysFormed(now, p, remote[p], u, order[k]);
      if order[k] !in now { StaysAbsent(now, p, remote[p], u, order[k]); }
    }
  }

  lemma KeepSyncStep(kind: Kind, before: Tree, remote: Tree, dirty: DirtyMap, order: seq<Path>, i: nat, now: Tree)
    requires WellFormed(remote) && DepthOrder(order, remote) && i < |order|
    requires KeepAt(kind, before, remote, dirty, order, i, now)
    requires order[i] in remote && order[i] != [] && Free(dirty, order[i]) && Reachable(kind, now, order[i])
    ensures KeepAt(kind, before, remote, dirty, order, i + 1, SyncedPath(now, order[i], remote[order[i]]))
  {
    var p := order[i];
    KeepClear(kind, before, remote, dirty, order, i, now);
    SyncedAt(now, p, remote[p]);
    KeepShapeStep(kind, before, remote, dirty, order, i, now);
    var u := SyncedPath(now, p, remote[p]);
    KeepFrames(before, dirty, p, remote[p], now, u);
    TakeStep(order, i);
    forall q | q in u && q != [] && Free(dirty, q) ensures q in remote {
      if q !in now && q != p { assert !Covers(p, q); DirsAbove(remote, p, q); }
    }
    forall x | x in order[..i] && Free(dirty, x) ensures SameAt(remote, u, x) {
      KeepImported(remote, order, i, now, u, x);
    }
  }

  /** Only `p`, what lies under it and what was missing above it may differ between `t` and `u`. */
  ghost predicate Lands(t: Tree, p: Path, n: Node, u: Tree) {
    && p in u && u[p] == n
    && (forall q :: q != p && !Covers(q, p) && !Covers(p, q) ==> SameAt(t, u, q))
    && (forall q :: q != p && Covers(q, p) ==> q in u && u[q] == if q in t then t[q] else Dir)
    && (u == t || forall q :: q != p && Covers(p, q) ==> q !in u)
  }

  lemma KeepFrames(before: Tree, dirty: DirtyMap, p: Path, n: Node, now: Tree, u: Tree)
    requires p != [] && Free(dirty, p) && Lands(now, p, n, u) && EditsKept(before, dirty, now)
    ensures EditsKept(before, dirty, u)
  {
    forall q | !Free(dirty, q)
      ensures q in before ==> SameAt(before, u, q)
      ensures q !in before && q in u ==> u[q].Dir? && !Held(dirty, q)
    {
      assert !Covers(p, q) by { if Covers(p, q) { BelowFree(dirty, p, q); } }
      if Covers(q, p) {
        AboveFreeNotHeld(dirty, p, q);
      } else {
        assert SameAt(now, u, q);
      }
      assert q in before ==> SameAt(before, now, q);
    }
  }

  lemma KeepImported(remote: Tree, order: seq<Path>, i: nat, now: Tree, u: Tree, x: Path)
    requires DepthOrder(order, remote) && i < |order| && x in order[..i]
    requires order[i] in remote && Lands(now, order[i], remote[order[i]], u)
    requires SameAt(remote, now, x)
    ensures SameAt(remote, u, x)
  {
    assert x in order;
    ShallowerFirst(order, remote, i, x);
    if !Covers(x, order[i]) { assert SameAt(now, u, x); }
  }

  lemma ShallowerFirst(order: seq<Path>, t: Tree, i: nat, x: Path)
    requires DepthOrder(order, t) && i < |order| && x in order[..i]
    ensures !Covers(order[i], x)
  {
    var k :| 0 <= k < i && order[k] == x;
    assert |order[k]| <= |order[i]|;
    if |x| == |order[i]| { SameDepthCovers(order[i], x); }
  }

  /** Pointwise reading of `SyncedPath`. */
  lemma SyncedAt(t: Tree, p: Path, n: Node)
    requires Rooted(t) && p != []
    ensures Lands(t, p, n, SyncedPath(t, p, n))
  {
    if n.Dir? && DirAt(t, p) {
      forall q | q != p && Covers(q, p) ensures q in t { NodesAbove(t, p, q); }
    } else {
      PlacedAt(Without(t, p), p, n);
    }
  }

  lemma PlacedAt(u: Tree, p: Path, n: Node)
    requires p != [] && p !in u
    ensures var v := WithDirs(u, Parent(p))[p := n];
      forall q :: q in v <==> q in u || Covers(q, p)
    ensures var v := WithDirs(u, Parent(p))[p := n];
      forall q :: q in v ==> v[q] == if q == p then n else if q in u then u[q] else Dir
  {
    WithDirsAt(u, Parent(p));
    forall q ensures Covers(q, p) <==> q == p || Covers(q, Parent(p)) { CoversParent(q, p); }
  }

  /** A remote path that overlaps a dirty one changes nothing locally. */
  lemma KeepSkipStep(kind: Kind, before: Tree, remote: Tree, dirty: DirtyMap, order: seq<Path>, i: nat, now: Tree)
    requires WellFormed(remote) && DepthOrder(order, remote) && i < |order|
    requires KeepAt(kind, before, remote, dirty, order, i, now)
    requires order[i] in remote && order[i] != [] && !Free(dirty, order[i]) && Reachable(kind, now, order[i])
    ensures KeepAt(kind, before, remote, dirty, order, i + 1, now)
    ensures ConflictingDirtyPaths(dirty, order[i], ActionFor(remote[order[i]]), now) == {}
      ==> SyncedPath(now, order[i], remote[order[i]]) == now
  {
    var p := order[i];
    TakeStep(order, i);
    KeepClear(kind, before, remote, dirty, order, i, now);
    NoConflictsMeansFree(dirty, p, ActionFor(remote[p]), now);
  }

  lemma KeepVisit(kind: Kind, before: Tree, remote: Tree, dirty: DirtyMap, order: seq<Path>, i: nat, now: Tree)
    requires WellFormed(remote) && DepthOrder(order, remote) && i < |order|
    requires KeepAt(kind, before, remote, dirty, order, i, now)
    requires order[i] in remote && order[i] != []
    ensures var p := order[i];
            if !Reachable(kind, now, p) then !Importable(kind, dirty, remote, before)
            else if ConflictingDirtyPaths(dirty, p, ActionFor(remote[p]), now) == {} then
              KeepAt(kind, before, remote, dirty, order, i + 1, SyncedPath(now, p, remote[p]))
            else KeepAt(kind, before, remote, dirty, order, i + 1, now)
  {
    var p := order[i];
    NoConflictsMeansFree(dirty, p, ActionFor(remote[p]), now);
    if !Reachable(kind, now, p) {
      KeepClear(kind, before, remote, dirty, order, i, now);
    } else if Free(dirty, p) {
      KeepSyncStep(kind, before, remote, dirty, order, i, now);
    } else {
      KeepSkipStep(kind, before, remote, dirty, order, i, now);
    }
  }

  // ----- the pass -----

  /** The remote path `p` conflicts with the dirty path `d`: a directory that is one on both sides only
      with what is dirty at or above it. */
  ghost predicate ImportConflict(before: Tree, remote: Tree, d: Path, p: Path) {
    p in remote && p != [] && if remote[p].Dir? && DirAt(before, p) then PathContains(d, p) else PathsOverlap(d, p)
  }

  /** The dirty path `d` is in conflict with one of the first `i` remote paths. */
  ghost predicate ConflictsBefore(before: Tree, remote: Tree, order: seq<Path>, i: nat, d: Path)
    requires i <= |order|
  {
    i > 0 && (ImportConflict(before, remote, d, order[i - 1]) || ConflictsBefore(before, remote, order, i - 1, d))
  }

  lemma {:induction false} ConflictsBeforeMeans(before: Tree, remote: Tree, order: seq<Path>, i: nat, d: Path)
    requires i <= |order|
    ensures ConflictsBefore(before, remote, order, i, d)
      <==> exists k :: 0 <= k < i && ImportConflict(before, remote, d, order[k])
  {
    if i > 0 { ConflictsBeforeMeans(before, remote, order, i - 1, d); }
  }

  /** What has been recorded once the first `i` remote paths have been visited. */
  ghost predicate ImportRecorded(before: Tree, remote: Tree, dirty: DirtyMap, order: seq<Path>, i: nat,
      soFar: map<Path, DirtyChange>, retained: map<Path, DirtyChange>)
    requires i <= |order|
  {
    forall d :: d in retained <==>
      d in soFar || (d in dirty && ConflictsBefore(before, remote, order, i, d))
  }

  lemma ConflictsAreThose(kind: Kind, before: Tree, remote: Tree, dirty: DirtyMap, order: seq<Path>, i: nat, now: Tree)
    requires DepthOrder(order, remote) && i < |order| && KeepAt(kind, before, remote, dirty, order, i, now)
    requires order[i] in remote && order[i] != []
    ensures forall d :: d in ConflictingDirtyPaths(dirty, order[i], ActionFor(remote[order[i]]), now) <==>
      d in dirty && ImportConflict(before, remote, d, order[i])
  {
    var p := order[i];
    if Free(dirty, p) {
      NoConflictsMeansFree(dirty, p, ActionFor(remote[p]), now);
      forall d | d in dirty ensures !ImportConflict(before, remote, d, p) { assert !PathsOverlap(d, p); }
    } else {
      assert p in before ==> SameAt(before, now, p);
    }
  }

  lemma ImportRecordsMore(before: Tree, remote: Tree, dirty: DirtyMap, order: seq<Path>, i: nat,
      soFar: map<Path, DirtyChange>, retained: map<Path, DirtyChange>, conflicts: set<Path>)
    requires i < |order| && order[i] in remote && ImportRecorded(before, remote, dirty, order, i, soFar, retained)
    requires forall d :: d in conflicts <==> d in dirty && ImportConflict(before, remote, d, order[i])
    ensures ImportRecorded(before, remote, dirty, order, i + 1, soFar, RecordConflicts(retained, dirty, conflicts))
    ensures conflicts == {} ==> RecordConflicts(retained, dirty, conflicts) == retained
  {
    forall d
      ensures ConflictsBefore(before, remote, order, i + 1, d)
        <==> ImportConflict(before, remote, d, order[i]) || ConflictsBefore(before, remote, order, i, d)
    {
    }
  }

  lemma DirtyRemoteIsRecorded(dirty: DirtyMap, retained: map<Path, DirtyChange>, remote: Tree, p: Path, t: Tree)
    requires RetainedFrom(KeepLocal, dirty, retained) && p in remote
    ensures var conflicts := ConflictingDirtyPaths(dirty, p, ActionFor(remote[p]), t);
            RetainedFrom(KeepLocal, dirty, RecordConflicts(retained, dirty, conflicts))
  {
    RecordedFrom(dirty, retained, p, ActionFor(remote[p]), t);
  }

  /** Walks the remote paths shallowest first and imports them. */
  method ImportPass(policy: PullConflictPolicy, dirty: DirtyMap, conflictsSoFar: map<Path, DirtyChange>,
                    remote: Tree, local: FileTree, order: seq<Path>, ghost before: Tree)
    returns (left: DirtyMap, retained: map<Path, DirtyChange>, r: Result<()>)
    requires WellFormed(remote) && DepthOrder(order, remote)
    requires policy.PreferRemote? ==> PreferAt(remote, order, 0, local.nodes)
    requires policy.KeepLocal? ==> KeepAt(local.kind, before, remote, dirty, order, 0, local.nodes)
    requires RetainedFrom(policy, dirty, conflictsSoFar)
    modifies local
    ensures Sound(local.kind, local.nodes)
    ensures policy.PreferRemote? ==> r.Ok? && PreferAt(remote, order, |order|, local.nodes)
    ensures policy.PreferRemote? ==> left == Unclaimed(remote, order, dirty) && retained == conflictsSoFar
    ensures policy.KeepLocal? ==> (r.Ok? <==> Importable(local.kind, dirty, remote, before)) && left == dirty
    ensures policy.KeepLocal? && r.Ok? ==>
      KeepAt(local.kind, before, remote, dirty, order, |order|, local.nodes)
    ensures policy.KeepLocal? ==> EditsKept(before, dirty, local.nodes)
    ensures policy.KeepLocal? ==> RetainedFrom(policy, dirty, retained)
    ensures policy.KeepLocal? && r.Ok? ==>
      ImportRecorded(before, remote, dirty, order, |order|, conflictsSoFar, retained)
  {
    left, retained := dirty, conflictsSoFar;
    assert Unclaimed(remote, order[..0], dirty) == dirty;
    for i := 0 to |order|
      invariant policy.PreferRemote? ==> PreferAt(remote, order, i, local.nodes)
      invariant policy.PreferRemote? ==> left == Unclaimed(remote, order[..i], dirty) && retained == conflictsSoFar
      invariant policy.KeepLocal? ==> KeepAt(local.kind, before, remote, dirty, order, i, local.nodes) && left == dirty
      invariant policy.KeepLocal? ==> RetainedFrom(policy, dirty, retained)
      invariant policy.KeepLocal? ==> ImportRecorded(before, remote, dirty, order, i, conflictsSoFar, retained)
    {
      var p := order[i];
      assert p in order;
      TakeStep(order, i);
      match policy {
        case PreferRemote =>
          PreferStep(remote, order, i, local.nodes);
          UnclaimedOneMore(remote, order, i, dirty);
          WellFormedIsReplaceable(local.nodes, p);
        case KeepLocal =>
          KeepVisit(local.kind, before, remote, dirty, order, i, local.nodes);
          ConflictsAreThose(local.kind, before, remote, dirty, order, i, local.nodes);
          ImportRecordsMore(before, remote, dirty, order, i, conflictsSoFar, retained,
              ConflictingDirtyPaths(dirty, p, ActionFor(remote[p]), local.nodes));
          DirtyRemoteIsRecorded(dirty, retained, remote, p, local.nodes);
      }
      left, retained, r := VisitRemote(policy, left, retained, remote, local, p);
      if r.Err? {
        return;
      }
    }
    TakeAll(order);
    if policy.PreferRemote? { WellFormedIsReplaceable(local.nodes, []); }
    return left, retained, Ok(());
  }

  // ----- both passes -----

  /** What a pull leaves behind, by policy. `index` is the remote tree that was read. */
  ghost predicate Pulled(policy: PullConflictPolicy, before: Tree, index: Tree, dirty: DirtyMap, after: Tree,
      left: DirtyMap) {
    match policy
    case PreferRemote =>
      && after == index
      && left == map d | d in dirty && SurvivesPreferRemote(before, index, d) :: dirty[d]
    case KeepLocal =>
      && left == dirty && EditsKept(before, dirty, after)
      && forall q :: Free(dirty, q) && q != [] ==> SameAt(index, after, q)
  }

  lemma PassesJoin(kind: Kind, policy: PullConflictPolicy, dirty: DirtyMap, index: Tree, before: Tree,
                   localOrder: seq<Path>, remoteOrder: seq<Path>, mid: Tree, left: DirtyMap)
    requires WellFormed(index) && DepthOrder(localOrder, before)
    requires DeletePassAt(policy, dirty, index, before, localOrder, 0, mid, left)
    ensures policy.PreferRemote? ==> PreferAt(index, remoteOrder, 0, mid)
    ensures policy.KeepLocal? ==> KeepAt(kind, before, index, dirty, remoteOrder, 0, mid) && left == dirty
  {
    match policy
    case PreferRemote => PreferStarts(dirty, index, before, localOrder, remoteOrder, mid, left);
    case KeepLocal =>
      KeepLocalClearsNothing(dirty, index, before, localOrder, 0, mid, left);
      KeepStarts(kind, dirty, index, before, localOrder, remoteOrder, mid, left);
  }

  lemma KeepDone(kind: Kind, before: Tree, index: Tree, dirty: DirtyMap, order: seq<Path>, now: Tree)
    requires DepthOrder(order, index) && KeepAt(kind, before, index, dirty, order, |order|, now)
    ensures forall q :: Free(dirty, q) && q != [] ==> SameAt(index, now, q)
    ensures WellFormed(now) <==> Unblocked(dirty, index, before)
  {
    TakeAll(order);
    forall q | Free(dirty, q) && q != [] ensures SameAt(index, now, q) {
      if q in index { assert q in order; }
    }
    if WellFormed(now) { SoundTreeWasUnblocked(before, index, dirty, now); }
  }

  /** An imported path below a file that was kept leaves a tree in which a file has entries. */
  lemma SoundTreeWasUnblocked(before: Tree, index: Tree, dirty: DirtyMap, now: Tree)
    requires EditsKept(before, dirty, now) && forall q :: Free(dirty, q) && q != [] ==> SameAt(index, now, q)
    requires WellFormed(now)
    ensures Unblocked(dirty, index, before)
  {
    forall p, q | p in index && p != [] && Free(dirty, p) && q in before && Covers(q, p) && q != p && !Free(dirty, q)
      ensures before[q].Dir?
    {
      assert SameAt(index, now, p) && SameAt(before, now, q);
      DirsAbove(now, p, q);
    }
  }

  lemma AllRecorded(before: Tree, index: Tree, dirty: DirtyMap, localOrder: seq<Path>, remoteOrder: seq<Path>,
      soFar: map<Path, DirtyChange>, retained: map<Path, DirtyChange>)
    requires DepthOrder(localOrder, before) && DepthOrder(remoteOrder, index)
    requires DeleteRecorded(before, index, dirty, localOrder, 0, soFar)
    requires ImportRecorded(before, index, dirty, remoteOrder, |remoteOrder|, soFar, retained)
    ensures forall d :: d in retained <==>
      d in dirty && Conflicting(before, index, d)
  {
    TakeAll(localOrder);
    forall d ensures d in retained <==> d in dirty && Conflicting(before, index, d) {
      if p :| DeleteConflict(before, index, d, p) { assert p in localOrder[0..]; }
      ConflictsBeforeMeans(before, index, remoteOrder, |remoteOrder|, d);
      if p :| ImportConflict(before, index, d, p) { assert p in remoteOrder; }
    }
  }

  /** The dirty path `d` is in conflict with some path that a pull would delete or import. */
  ghost predicate Conflicting(before: Tree, index: Tree, d: Path) {
    exists p :: DeleteConflict(before, index, d, p) || ImportConflict(before, index, d, p)
  }

  /** When two paths conflict: one must lie at or under the other; and a directory that is one on both
      sides is in conflict only with what is dirty at or above it. The root never is. */
  lemma ConflictMeans(before: Tree, index: Tree, d: Path, p: Path)
    ensures DeleteConflict(before, index, d, p) || ImportConflict(before, index, d, p) <==>
      && p != [] && (p in before || p in index)
      && (PathContains(d, p) || (PathContains(p, d) && !(DirAt(before, p) && DirAt(index, p))))
  {
  }

  /** Both passes over the local tree, with the local copy of the dirty map they leave. */
  method RunPasses(policy: PullConflictPolicy, dirty: DirtyMap, index: Tree, local: FileTree)
    returns (left: DirtyMap, retained: map<Path, DirtyChange>, r: Result<()>)
    requires WellFormed(index) && WellFormed(local.nodes)
    modifies local
    ensures Sound(local.kind, local.nodes) && RetainedFrom(policy, dirty, retained)
    ensures r.Ok? <==> policy.PreferRemote? || Importable(local.kind, dirty, index, old(local.nodes))
    ensures r.Ok? ==> Pulled(policy, old(local.nodes), index, dirty, local.nodes, left)
    ensures r.Ok? ==> (WellFormed(local.nodes) <==> policy.PreferRemote? || Unblocked(dirty, index, old(local.nodes)))
    ensures r.Err? ==> EditsKept(old(local.nodes), dirty, local.nodes)
    ensures r.Ok? && policy.KeepLocal? ==> forall d :: d in retained <==>
      d in dirty && Conflicting(old(local.nodes), index, d)
  {
    ghost var before := local.nodes;
    var remoteOrder := CollectPaths(index);
    var localOrder := CollectPaths(local.nodes);
    left, retained := DeletePass(policy, dirty, index, local, localOrder);
    ghost var mid, leftMid, midRetained := local.nodes, left, retained;
    PassesJoin(local.kind, policy, dirty, index, before, localOrder, remoteOrder, mid, left);
    left, retained, r := ImportPass(policy, left, retained, index, local, remoteOrder, before);
    if r.Ok? {
      if policy.PreferRemote? {
        PreferDone(index, remoteOrder, local.nodes);
        PreferDirty(dirty, index, before, localOrder, remoteOrder, mid, leftMid);
      } else {
        KeepDone(local.kind, before, index, dirty, remoteOrder, local.nodes);
        AllRecorded(before, index, dirty, localOrder, remoteOrder, midRetained, retained);
      }
    }
  }
  /** A pull that keeps an edit below what is now a local file, from a remote side where that
      file is a directory: LocalFs refuses it, MemFs puts the new entry below the file. */
  lemma EntryBelowFile(data: seq<Byte>)
    ensures var a: Path := [[97]];
            var before: Tree := map[[] := Dir, a := File(data)];
            var index: Tree := map[[] := Dir, a := Dir, a + [[121]] := File(data)];
            var dirty: DirtyMap := map[a + [[120]] := DirtyEntry(Remove(false), 1)];
            && WellFormed(before) && WellFormed(index)
            && !Importable(LocalFs, dirty, index, before) && Importable(MemFs, dirty, index, before)
            && forall after, left :: Pulled(KeepLocal, before, index, dirty, after, left) ==>
                 SameAt(before, after, a) && SameAt(index, after, a + [[121]]) && !WellFormed(after)
  {
    var a: Path, x: Path, y: Path := [[97]], [[97], [120]], [[97], [121]];
    assert Parent(a) == [] && Parent(x) == Parent(y) == a && x == a + [[120]] && y == a + [[121]];
    var before: Tree := map[[] := Dir, a := File(data)];
    var index: Tree := map[[] := Dir, a := Dir, y := File(data)];
    var dirty: DirtyMap := map[x := DirtyEntry(Remove(false), 1)];
    assert x[1] != y[1];
    assert PathsOverlap(x, a) && !Free(dirty, a);
    assert Free(dirty, y);
    assert Covers(a, y) && y in index && !UnblockedAt(dirty, before, y);
  }

  /** A file edited locally where the remote side has a directory: on LocalFs the pull that should
      keep the edit fails, although there is nothing to import; on MemFs it succeeds. */
  lemma ConflictStopsPull(data: seq<Byte>)
    ensures var a: Path := [[97]];
            var before: Tree := map[[] := Dir, a := File(data)];
            var index: Tree := map[[] := Dir, a := Dir, a + [[120]] := File(data)];
            var dirty: DirtyMap := map[a := DirtyEntry(Upsert, 1)];
            && WellFormed(before) && WellFormed(index) && Unblocked(dirty, index, before)
            && !Importable(LocalFs, dirty, index, before) && Importable(MemFs, dirty, index, before)
  {
    var a: Path, x: Path := [[97]], [[97], [120]];
    assert Parent(a) == [] && Parent(x) == a && x == a + [[120]];
    var before: Tree := map[[] := Dir, a := File(data)];
    var index: Tree := map[[] := Dir, a := Dir, x := File(data)];
    var dirty: DirtyMap := map[a := DirtyEntry(Upsert, 1)];
    assert PathsOverlap(a, a) && !Free(dirty, a);
    assert PathsOverlap(a, x) && !Free(dirty, x);
    assert Covers(a, x) && x in index && !UnblockedAt(dirty, before, x);
  }

  // ----- the same, path by path -----

  /** What a pull leaves at one path `q`: under PreferRemote what the index has; under KeepLocal what was
      there if something dirty lies at, above or below it, and otherwise what the index has. */
  lemma PulledAtPath(policy: PullConflictPolicy, before: Tree, index: Tree, dirty: DirtyMap, after: Tree,
      left: DirtyMap, q: Path)
    requires Pulled(policy, before, index, dirty, after, left) && q != []
    ensures policy.PreferRemote? ==> (q in after <==> q in index) && (q in index ==> after[q] == index[q])
    ensures policy.KeepLocal? && (exists d :: d in dirty && (PathContains(d, q) || PathContains(q, d))) ==>
      if q in before then q in after && after[q] == before[q]
      else q in after ==> after[q].Dir? && forall d :: d in dirty && d != [] ==> !(d <= q)
    ensures policy.KeepLocal? && !(exists d :: d in dirty && (PathContains(d, q) || PathContains(q, d))) ==>
      (q in after <==> q in index) && (q in index ==> after[q] == index[q])
  {
    if policy.KeepLocal? {
      if d :| d in dirty && (PathContains(d, q) || PathContains(q, d)) {
        assert PathsOverlap(d, q) && !Free(dirty, q);
        if q in before { assert SameAt(before, after, q); }
      } else {
        assert Free(dirty, q) by { forall d | d in dirty ensures !PathsOverlap(d, q) {} }
        assert SameAt(index, after, q);
      }
    }
  }

  /** What stays dirty: everything under KeepLocal; under PreferRemote what lies neither under a path that
      was deleted, nor at a directory that was imported, nor at or under a file that was imported. */
  lemma StillDirty(policy: PullConflictPolicy, before: Tree, index: Tree, dirty: DirtyMap, after: Tree,
      left: DirtyMap, d: Path)
    requires Pulled(policy, before, index, dirty, after, left) && d in dirty
    ensures d in left ==> left[d] == dirty[d]
    ensures policy.KeepLocal? ==> d in left
    ensures policy.PreferRemote? ==>
      (d in left <==>
        && (forall p :: p in before && p != [] && p !in index ==> !(p <= d))
        && (forall p :: p in index && p != [] && index[p].Dir? ==> p != d)
        && (forall p :: p in index && p != [] && index[p].File? ==> !(p <= d)))
  {
    if policy.PreferRemote? {
      assert (forall p :: !Claims(index, p, d)) <==>
        && (forall p :: p in index && p != [] && index[p].Dir? ==> p != d)
        && (forall p :: p in index && p != [] && index[p].File? ==> !(p <= d)) by {
        forall p ensures Claims(index, p, d) <==>
          p in index && p != [] && ((index[p].Dir? && p == d) || (index[p].File? && p <= d)) {}
      }
    }
  }

  /** On LocalFs a pull that keeps local edits is stopped exactly by a file above a remote path, when
      something dirty lies at, above or below that file. */
  lemma StoppedByFile(dirty: DirtyMap, index: Tree, t: Tree)
    ensures Importable(MemFs, dirty, index, t)
    ensures !Importable(LocalFs, dirty, index, t) <==>
      exists p, q :: p in index && q in t && q < p && t[q].File? && !Free(dirty, q)
  {
    if !Importable(LocalFs, dirty, index, t) {
      var p :| p in index && p != [] && !UnblockedAt(dirty, t, p);
      var q :| q in t && Covers(q, p) && q != p && !Free(dirty, q) && !t[q].Dir?;
      assert q < p;
    }
    if p, q :| p in index && q in t && q < p && t[q].File? && !Free(dirty, q) {
      assert Covers(q, p) && !UnblockedAt(dirty, t, p);
    }
  }
}
