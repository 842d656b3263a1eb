/** Edits made while a push or a pull is under way. A push takes a snapshot of the dirty map, applies
    its patch without holding the state lock, and later forgets what the snapshot still describes; a
    pull takes a snapshot, runs its passes, and later forgets what the passes cleared. Edits may be
    marked between any two of these steps. */
module EditLog {
  import opened Tree
  import opened SyncPatch
  import opened SyncPull
  import opened SyncImport
  import opened SyncFs

  datatype Edit = Edit(path: Path, entry: DirtyEntry)

  datatype Phase =
    | Idle
    | Taken(snapshot: DirtyMap)
    | Applied(snapshot: DirtyMap)
    | Pulling(snapshot: DirtyMap)
    | Passed(cleared: DirtyMap)

  /** The shared state, with the history of all edits, of all applied snapshots, and of all entries
      that a pull's passes cleared. */
  datatype Log = Log(policy: PullConflictPolicy, nextGeneration: nat, dirty: DirtyMap, phase: Phase,
                     recorded: set<Edit>, sent: seq<DirtyMap>, overruled: seq<DirtyMap>)

  datatype Step =
    | Mark(path: Path, change: DirtyChange)
    | TakeSnapshot
    | ApplySucceeds
    | ApplyFails
    | Clear
    | StartPull
    | RunsPasses(before: Tree, index: Tree)
    | PullFails
    | ClearPulled

  function Start(policy: PullConflictPolicy): Log {
    Log(policy, 0, map[], Idle, {}, [], [])
  }

  /** What the passes of a pull clear of the snapshot they work with. */
  ghost function ClearedBy(policy: PullConflictPolicy, before: Tree, index: Tree, snapshot: DirtyMap): DirtyMap {
    if policy.KeepLocal? then map[]
    else map d | d in snapshot && !SurvivesPreferRemote(before, index, d) :: snapshot[d]
  }

  /** One atomic step; the lock that serialises pushes and pulls makes a step of another phase idle. */
  ghost function Next(s: Log, step: Step): Log {
    match step
    case Mark(path, change) =>
      var generation := s.nextGeneration + 1;
      s.(nextGeneration := generation,
         dirty := Marked(s.dirty, path, change, generation),
         recorded := s.recorded + {Edit(path, DirtyEntry(change, generation))})
    case TakeSnapshot =>
      if s.phase.Idle? && s.dirty != map[] then s.(phase := Taken(s.dirty)) else s
    case ApplySucceeds =>
      if s.phase.Taken? then s.(phase := Applied(s.phase.snapshot), sent := s.sent + [s.phase.snapshot]) else s
    case ApplyFails =>
      if s.phase.Taken? then s.(phase := Idle) else s
    case Clear =>
      if s.phase.Applied? then s.(phase := Idle, dirty := Unsettled(s.dirty, s.phase.snapshot)) else s
    case StartPull =>
      if s.phase.Idle? then s.(phase := Pulling(s.dirty)) else s
    case RunsPasses(before, index) =>
      if s.phase.Pulling? then
        var cleared := ClearedBy(s.policy, before, index, s.phase.snapshot);
        s.(phase := Passed(cleared), overruled := s.overruled + [cleared])
      else s
    case PullFails =>
      if s.phase.Pulling? then s.(phase := Idle) else s
    case ClearPulled =>
      if s.phase.Passed? then s.(phase := Idle, dirty := Unsettled(s.dirty, s.phase.cleared)) else s
  }

  ghost function Run(policy: PullConflictPolicy, steps: seq<Step>): Log {
    if steps == [] then Start(policy) else Next(Run(policy, steps[..|steps| - 1]), steps[|steps| - 1])
  }

  predicate Holds(m: DirtyMap, e: Edit) {
    e.path in m && m[e.path] == e.entry
  }

  ghost predicate Superseded(s: Log, e: Edit) {
    exists later :: later in s.recorded && later.path == e.path && later.entry.generation > e.entry.generation
  }

  ghost predicate WasIn(history: seq<DirtyMap>, e: Edit) {
    exists m :: m in history && Holds(m, e)
  }

  ghost predicate Accounted(s: Log, e: Edit) {
    Holds(s.dirty, e) || Superseded(s, e) || WasIn(s.sent, e) || WasIn(s.overruled, e)
  }

  ghost predicate FromRecorded(s: Log, m: DirtyMap) {
    forall p :: p in m ==> Edit(p, m[p]) in s.recorded
  }

  /** The entries that the current push or pull works with. */
  function WorksWith(phase: Phase): DirtyMap {
    match phase
    case Idle => map[]
    case Taken(m) => m
    case Applied(m) => m
    case Pulling(m) => m
    case Passed(m) => m
  }

  ghost predicate Inv(s: Log) {
    && (forall e :: e in s.recorded ==> e.entry.generation <= s.nextGeneration)
    && (forall e, f :: e in s.recorded && f in s.recorded && e.entry.generation == f.entry.generation ==> e == f)
    && FromRecorded(s, s.dirty) && FromRecorded(s, WorksWith(s.phase))
    && (s.phase.Applied? ==> s.phase.snapshot in s.sent)
    && (s.phase.Passed? ==> s.phase.cleared in s.overruled)
    && (s.policy.KeepLocal? ==> forall m :: m in s.overruled ==> m == map[])
    && (forall e :: e in s.recorded ==> Accounted(s, e))
  }

  lemma MarkKeepsInv(s: Log, path: Path, change: DirtyChange)
    requires Inv(s)
    ensures Inv(Next(s, Mark(path, change)))
  {
    var t := Next(s, Mark(path, change));
    var marked := Edit(path, DirtyEntry(change, t.nextGeneration));
    forall e | e in t.recorded ensures Accounted(t, e) {
      if e in s.recorded {
        assert Accounted(s, e);
        if Superseded(s, e) {
          var later :| later in s.recorded && later.path == e.path && later.entry.generation > e.entry.generation;
          assert later in t.recorded;
        } else if Holds(s.dirty, e) && e.path == path {
          assert marked in t.recorded;
        }
      }
    }
  }

  /** Forgetting entries that the history remembers loses nothing. */
  lemma ForgetKeepsAccounts(s: Log, settled: DirtyMap, t: Log)
    requires Inv(s) && FromRecorded(s, settled) && (settled in s.sent || settled in s.overruled)
    requires t == s.(phase := Idle, dirty := Unsettled(s.dirty, settled))
    ensures forall e :: e in t.recorded ==> Accounted(t, e)
  {
    forall e | e in t.recorded ensures Accounted(t, e) {
      assert Accounted(s, e);
      if Holds(s.dirty, e) && !Holds(t.dirty, e) {
        assert Edit(e.path, settled[e.path]) in s.recorded;
        assert Holds(settled, e);
      }
      if Superseded(s, e) { assert Superseded(t, e); }
    }
  }

  /** Steps that leave the edits alone and forget no history lose nothing. */
  lemma SameEdits(s: Log, t: Log)
    requires Inv(s) && t.recorded == s.recorded && t.dirty == s.dirty && s.sent <= t.sent && s.overruled <= t.overruled
    ensures forall e :: e in t.recorded ==> Accounted(t, e)
  {
    forall e | e in t.recorded ensures Accounted(t, e) {
      assert Accounted(s, e);
      StillIn(s.sent, t.sent, e);
      StillIn(s.overruled, t.overruled, e);
      if Superseded(s, e) { assert Superseded(t, e); }
    }
  }

  lemma StillIn(history: seq<DirtyMap>, longer: seq<DirtyMap>, e: Edit)
    requires history <= longer
    ensures WasIn(history, e) ==> WasIn(longer, e)
  {
    if WasIn(history, e) {
      var m :| m in history && Holds(m, e);
      assert m in longer;
    }
  }

  lemma StepKeepsInv(s: Log, step: Step)
    requires Inv(s)
    ensures Inv(Next(s, step))
  {
    match step
    case Mark(path, change) => MarkKeepsInv(s, path, change);
    case Clear => if s.phase.Applied? { ForgetKeepsAccounts(s, s.phase.snapshot, Next(s, step)); }
    case ClearPulled => if s.phase.Passed? { ForgetKeepsAccounts(s, s.phase.cleared, Next(s, step)); }
    case _ => SameEdits(s, Next(s, step));
  }

  /** At every moment of every interleaving, each edit ever made is still dirty, was replaced by a
      later edit of its path, was part of a snapshot whose patch was applied, or was overruled by a
      pull in which the remote side wins. When local edits win, nothing is ever overruled. */
  lemma {:induction false} NoEditIsLost(policy: PullConflictPolicy, steps: seq<Step>)
    ensures Inv(Run(policy, steps)) && Run(policy, steps).policy == policy
    ensures forall e :: e in Run(policy, steps).recorded ==> Accounted(Run(policy, steps), e)
    ensures policy.KeepLocal? ==>
      forall e :: e in Run(policy, steps).recorded ==> !WasIn(Run(policy, steps).overruled, e)
    decreases |steps|
  {
    if steps != [] {
      NoEditIsLost(policy, steps[..|steps| - 1]);
      StepKeepsInv(Run(policy, steps[..|steps| - 1]), steps[|steps| - 1]);
    }
  }

  /** Once nothing is dirty, the last edit of every path has been applied remotely or overruled. */
  lemma CleanMeansSettled(policy: PullConflictPolicy, steps: seq<Step>, e: Edit)
    requires Run(policy, steps).dirty == map[] && e in Run(policy, steps).recorded && !Superseded(Run(policy, steps), e)
    ensures WasIn(Run(policy, steps).sent, e) || (policy.PreferRemote? && WasIn(Run(policy, steps).overruled, e))
  {
    NoEditIsLost(policy, steps);
  }

  /** The end of a pull forgets an edit exactly when it was in the pull's snapshot and the passes
      cleared it. So an edit marked after the snapshot stays dirty. */
  lemma PullForgetsExactly(policy: PullConflictPolicy, steps: seq<Step>, e: Edit)
    requires var s := Run(policy, steps); s.phase.Passed? && e in s.recorded && Holds(s.dirty, e)
    ensures var s := Run(policy, steps); Holds(Next(s, ClearPulled).dirty, e) <==> !Holds(s.phase.cleared, e)
  {
    NoEditIsLost(policy, steps);
    var s := Run(policy, steps);
    if e.path in s.phase.cleared { assert Edit(e.path, s.phase.cleared[e.path]) in s.recorded; }
  }

  // ----- the contents behind an edit -----

  /** At the end of a pull, in any run: an edit made before the passes ran, with something at its path
      then, is still dirty exactly when local edits win or it missed the pull's snapshot; but what was
      at its path is still there exactly when local edits win and the snapshot, not the edit, protects
      the path, or the remote tree has the same. */
  lemma {:induction false} ContentsSurvive(policy: PullConflictPolicy, steps: seq<Step>, e: Edit, before: Tree,
      index: Tree, after: Tree, left: DirtyMap)
    requires var s := Run(policy, steps);
             && s.phase.Pulling? && Holds(s.dirty, e) && e.path in before && e.path != []
             && Pulled(policy, before, index, s.phase.snapshot, after, left)
    ensures var snapshot := Run(policy, steps).phase.snapshot;
            var t := Run(policy, steps + [RunsPasses(before, index)] + [ClearPulled]);
            && (Holds(t.dirty, e) <==> policy.KeepLocal? || !Holds(snapshot, e))
            && (SameAt(before, after, e.path)
                <==> (policy.KeepLocal? && !Free(snapshot, e.path)) || SameAt(before, index, e.path))
  {
    var s, passes, settle := Run(policy, steps), RunsPasses(before, index), ClearPulled;
    RunThen(policy, steps, passes);
    RunThen(policy, steps + [passes], settle);
    NoEditIsLost(policy, steps);
    assert e in s.recorded;
    PullForgetsExactly(policy, steps + [passes], e);
    SurvivorsNameNothing(before, index, e.path);
  }

  lemma RunThen(policy: PullConflictPolicy, steps: seq<Step>, step: Step)
    ensures Run(policy, steps + [step]) == Next(Run(policy, steps), step)
  {
    assert (steps + [step])[..|steps|] == steps;
  }

  lemma RunFour(policy: PullConflictPolicy, a: Step, b: Step, c: Step, d: Step)
    ensures Run(policy, [a, b, c, d]) == Next(Next(Next(Next(Start(policy), a), b), c), d)
  {
    assert [a][..0] == [] && [a, b][..1] == [a] && [a, b, c][..2] == [a, b] && [a, b, c, d][..3] == [a, b, c];
    assert Run(policy, [a]) == Next(Start(policy), a);
    assert Run(policy, [a, b]) == Next(Run(policy, [a]), b);
    assert Run(policy, [a, b, c]) == Next(Run(policy, [a, b]), c);
  }

  /** An edit that falls between a pull's snapshot and its passes: the file is written and marked, the
      passes work with the snapshot and delete it, and the edit stays dirty with nothing behind it,
      although local edits are to win. */
  lemma LateEditLosesItsContents(p: Path)
    requires |p| == 1
    ensures var before, index: Tree := map[[] := Dir, p := File([1])], map[[] := Dir];
            var s := Run(KeepLocal, [StartPull, Mark(p, Upsert), RunsPasses(before, index), ClearPulled]);
            && Pulled(KeepLocal, before, index, map[], index, map[]) && WellFormed(before) && WellFormed(index)
            && Holds(s.dirty, Edit(p, DirtyEntry(Upsert, 1))) && p in before && p !in index
  {
    var before, index: Tree := map[[] := Dir, p := File([1])], map[[] := Dir];
    var steps := [StartPull, Mark(p, Upsert), RunsPasses(before, index), ClearPulled];
    RunFour(KeepLocal, StartPull, Mark(p, Upsert), RunsPasses(before, index), ClearPulled);
    assert Parent(p) == [];
  }

  /** The same for a push: its end forgets an edit exactly when the snapshot that was sent had it; so an
      edit marked since the snapshot stays dirty. */
  lemma PushForgetsExactly(policy: PullConflictPolicy, steps: seq<Step>, e: Edit)
    requires var s := Run(policy, steps); s.phase.Applied? && Holds(s.dirty, e)
    ensures var s := Run(policy, steps); Holds(Next(s, Clear).dirty, e) <==> !Holds(s.phase.snapshot, e)
  {
    NoEditIsLost(policy, steps);
    var s := Run(policy, steps);
    if e.path in s.phase.snapshot { assert Edit(e.path, s.phase.snapshot[e.path]) in s.recorded; }
  }

  /** An undisturbed push sends all that is dirty and leaves nothing dirty; one that fails leaves all. */
  lemma UndisturbedPush(policy: PullConflictPolicy, steps: seq<Step>)
    requires Run(policy, steps).phase.Idle? && Run(policy, steps).dirty != map[]
    ensures var s, t := Run(policy, steps), Run(policy, steps + [TakeSnapshot] + [ApplySucceeds] + [Clear]);
            t.dirty == map[] && t.sent == s.sent + [s.dirty] && t.phase.Idle? && t.recorded == s.recorded
    ensures var s, t := Run(policy, steps), Run(policy, steps + [TakeSnapshot] + [ApplyFails]);
            t.dirty == s.dirty && t.sent == s.sent && t.phase.Idle?
  {
    RunThen(policy, steps, TakeSnapshot);
    RunThen(policy, steps + [TakeSnapshot], ApplySucceeds);
    RunThen(policy, steps + [TakeSnapshot] + [ApplySucceeds], Clear);
    RunThen(policy, steps + [TakeSnapshot], ApplyFails);
  }
}
