/** Many writers update one directory listing by compare and swap. A writer reads the object,
    computes the next listing, and swaps it in if the parent is still the one it read; after three
    conflicts it gives up. Reading and swapping are separate steps, in any interleaving. */
module ListingUpdates {
  import opened Wrappers
  import opened Seqs
  import opened Modes
  import opened Listing

  /** A stored object: its metadata, told apart by a stamp, and its text. */
  datatype Object = Object(stamp: nat, body: string)

  datatype Update = Insert(name: string, mode: Mode) | Delete(name: string)

  const RETRIES: nat := 3

  function Apply(es: seq<Entry>, u: Update): seq<Entry> {
    match u
    case Insert(name, mode) => Put(es, name, mode)
    case Delete(name) => Drop(es, name)
  }

  function ApplyAll(es: seq<Entry>, us: seq<Update>): seq<Entry> {
    if us == [] then es else Apply(ApplyAll(es, us[..|us| - 1]), us[|us| - 1])
  }

  /** A new name and mode that a listing can hold; anything may be deleted. */
  predicate ListableUpdate(u: Update) {
    u.Insert? ==> Listable(Entry(u.name, u.mode))
  }

  function NextObject(seen: Object, u: Update, stamp: nat): Object {
    Object(stamp, FormatListing(Apply(ParseListing(seen.body), u)))
  }

  lemma {:induction false} LookupPutSame(es: seq<Entry>, name: string, mode: Mode)
    ensures exists i :: 0 <= i < |Put(es, name, mode)| && Put(es, name, mode)[i] == Entry(name, mode)
  {
    var after := Put(es, name, mode);
    if es == [] || Below(name, es[0].name) || name == es[0].name {
      assert after[0] == Entry(name, mode);
    } else {
      LookupPutSame(es[1..], name, mode);
      var i :| 0 <= i < |Put(es[1..], name, mode)| && Put(es[1..], name, mode)[i] == Entry(name, mode);
      assert after[i + 1] == Entry(name, mode);
    }
  }

  lemma DropIsListable(es: seq<Entry>, name: string)
    requires AllListable(es)
    ensures AllListable(Drop(es, name))
  {
  }

  /** One update sets or removes the entry of its name, and leaves the others. */
  lemma {:induction false} ApplySets(es: seq<Entry>, u: Update, e: Entry)
    requires Sorted(es)
    ensures Sorted(Apply(es, u))
    ensures e in Apply(es, u) <==> if e.name == u.name then u == Insert(e.name, e.mode) else e in es
  {
    match u
    case Insert(name, mode) =>
      PutMembers(es, name, mode, e);
      PutSets(es, name, mode, []);
    case Delete(name) =>
      DropMembers(es, name, e);
      DropRemoves(es, name, []);
  }

  /** The next object's text says the updated listing exactly when the update can be listed: then its
      name has the new mode, or none after a deletion, and every other entry is as before. */
  lemma NextListing(seen: Object, u: Update, stamp: nat)
    ensures ParseListing(NextObject(seen, u, stamp).body) == Apply(ParseListing(seen.body), u) <==> ListableUpdate(u)
    ensures ListableUpdate(u) ==>
      forall e :: e in ParseListing(NextObject(seen, u, stamp).body)
                  <==> if e.name == u.name then u == Insert(e.name, e.mode) else e in ParseListing(seen.body)
  {
    var es := ParseListing(seen.body);
    ParsedIsListable(Lines(seen.body));
    forall e ensures e in Apply(es, u) <==> if e.name == u.name then u == Insert(e.name, e.mode) else e in es {
      ApplySets(es, u, e);
    }
    match u
    case Insert(name, mode) =>
      PutSets(es, name, mode, []);
      ListingRoundTrip(Put(es, name, mode));
      LookupPutSame(es, name, mode);
      if ListableUpdate(u) { PutIsListable(es, Entry(name, mode)); }
    case Delete(name) =>
      DropRemoves(es, name, []);
      DropIsListable(es, name);
      ListingRoundTrip(Drop(es, name));
  }

  // ----- the protocol, on values -----

  /** `at` counts the swaps made when the object was read; it is there to state what a conflict means. */
  datatype Phase = Fresh | Holding(seen: Object, at: nat) | Succeeded | Failed(error: ErrorKind)

  datatype Writer = Writer(update: Update, attempts: nat, phase: Phase)

  /** The parent's object, if there is one, the writers, and the writers whose swap succeeded, in
      the order of their swaps. */
  datatype State = State(parent: Option<Object>, isRoot: bool, writers: map<nat, Writer>, history: seq<nat>)

  datatype Step = Read(writer: nat, stamp: nat) | Swap(writer: nat, stamp: nat)

  function SetPhase(s: State, w: nat, attempts: nat, phase: Phase): State
    requires w in s.writers
  {
    s.(writers := s.writers[w := Writer(s.writers[w].update, attempts, phase)])
  }

  /** Reads the parent. A missing root stands for an empty listing; any other missing parent fails. */
  function AfterRead(s: State, w: nat, stamp: nat): State
    requires w in s.writers
  {
    var n := s.writers[w].attempts;
    if s.writers[w].phase != Fresh then s
    else if s.parent.Some? then SetPhase(s, w, n, Holding(s.parent.value, |s.history|))
    else if s.isRoot then SetPhase(s, w, n, Holding(Object(stamp, FormatListing([])), |s.history|))
    else SetPhase(s, w, n, Failed(NotFound))
  }

  /** Swaps the next listing in if the object is still the one that was read. */
  function AfterSwap(s: State, w: nat, stamp: nat): State
    requires w in s.writers
  {
    var writer := s.writers[w];
    if !writer.phase.Holding? then s
    else if s.parent == Some(writer.phase.seen) then
      SetPhase(s, w, writer.attempts, Succeeded).(parent := Some(NextObject(writer.phase.seen, writer.update, stamp)),
          history := s.history + [w])
    else SetPhase(s, w, writer.attempts + 1, if writer.attempts + 1 == RETRIES then Failed(Other) else Fresh)
  }

  function After(s: State, step: Step): State {
    if step.writer !in s.writers then s
    else match step
      case Read(w, stamp) => AfterRead(s, w, stamp)
      case Swap(w, stamp) => AfterSwap(s, w, stamp)
  }

  predicate Starting(s: State) {
    && s.history == []
    && forall w :: w in s.writers ==>
         s.writers[w].phase == Fresh && s.writers[w].attempts == 0 && ListableUpdate(s.writers[w].update)
  }

  /** The updates of the writers in `history`. */
  function Updates(writers: map<nat, Writer>, history: seq<nat>): seq<Update>
    requires forall i :: 0 <= i < |history| ==> history[i] in writers
  {
    if history == [] then []
    else Updates(writers, history[..|history| - 1]) + [writers[history[|history| - 1]].update]
  }

  /** Each conflict had a winner: a writer has had no more of them than swaps succeeded before it
      last read. */
  predicate ConflictsHadWinners(s: State, writer: Writer) {
    writer.attempts <= if writer.phase.Holding? then writer.phase.at else |s.history|
  }

  /** A writer's own part of the invariant. */
  ghost predicate WriterOk(s: State, w: nat)
    requires w in s.writers
  {
    var writer := s.writers[w];
    && ListableUpdate(writer.update) && (writer.phase == Succeeded <==> w in s.history)
    && (s.parent.Some? ==> ConflictsHadWinners(s, writer))
    && match writer.phase
       case Fresh => writer.attempts < RETRIES
       case Holding(seen, at) => writer.attempts < RETRIES && at <= |s.history|
       && (at == |s.history| && s.parent.Some? ==> s.parent == Some(seen))
       case Succeeded => writer.attempts < RETRIES
       case Failed(e) => if e == Other then writer.attempts == RETRIES else s.parent == None
  }

  /** The listing is the initial one with the successful updates applied in the order of their
      swaps, each once. */
  ghost predicate Inv(start: State, s: State) {
    && s.writers.Keys == start.writers.Keys && (s.parent.Some? <==> start.parent.Some?)
    && (forall w :: w in s.writers ==> s.writers[w].update == start.writers[w].update && WriterOk(s, w))
    && (forall i :: 0 <= i < |s.history| ==> s.history[i] in s.writers)
    && (forall i, j :: 0 <= i < j < |s.history| ==> s.history[i] != s.history[j])
    && (s.parent.Some? ==> ParseListing(s.parent.value.body) == ApplyAll(ParseListing(start.parent.value.body),
        Updates(start.writers, s.history)))
    && (s.parent.None? ==> s.history == [])
  }

  lemma StartsOk(start: State)
    requires Starting(start)
    ensures Inv(start, start)
  {
  }

  /** Success appends the writer's update to those applied. */
  lemma SwapApplies(start: State, s: State, w: nat, stamp: nat)
    requires Inv(start, s) && w in s.writers && s.writers[w].phase.Holding? && s.parent == Some(s.writers[w].phase.seen)
    ensures var after := AfterSwap(s, w, stamp);
      && (forall i :: 0 <= i < |after.history| ==> after.history[i] in start.writers)
      && ParseListing(after.parent.value.body)
          == ApplyAll(ParseListing(start.parent.value.body), Updates(start.writers, after.history))
  {
    var u := s.writers[w].update;
    assert WriterOk(s, w);
    NextListing(s.parent.value, u, stamp);
    var history := s.history + [w];
    assert history[..|history| - 1] == s.history;
    var us, more := Updates(start.writers, s.history), Updates(start.writers, history);
    assert more == us + [u] && more[..|more| - 1] == us;
  }

  /** A step that changes one writer, and neither the listing nor the history. */
  lemma QuietStepKeepsInv(start: State, s: State, w: nat, attempts: nat, phase: Phase)
    requires Inv(start, s) && w in s.writers && WriterOk(SetPhase(s, w, attempts, phase), w)
    ensures Inv(start, SetPhase(s, w, attempts, phase))
  {
    var after := SetPhase(s, w, attempts, phase);
    forall v | v in after.writers ensures after.writers[v].update == start.writers[v].update && WriterOk(after, v) {
      if v != w { assert WriterOk(s, v); }
    }
  }

  lemma SwapKeepsInv(start: State, s: State, w: nat, stamp: nat)
    requires Inv(start, s) && w in s.writers && s.writers[w].phase.Holding? && s.parent == Some(s.writers[w].phase.seen)
    ensures Inv(start, AfterSwap(s, w, stamp))
  {
    var after := AfterSwap(s, w, stamp);
    SwapApplies(start, s, w, stamp);
    forall v | v in after.writers ensures after.writers[v].update == start.writers[v].update && WriterOk(after, v) {
      SwapKeepsWriter(start, s, w, stamp, v);
    }
    assert WriterOk(s, w);
  }

  lemma SwapKeepsWriter(start: State, s: State, w: nat, stamp: nat, v: nat)
    requires Inv(start, s) && w in s.writers && s.writers[w].phase.Holding? && s.parent == Some(s.writers[w].phase.seen)
    requires v in s.writers
    ensures var after := AfterSwap(s, w, stamp);
            v in after.writers && after.writers[v].update == s.writers[v].update && WriterOk(after, v)
  {
    assert WriterOk(s, v);
  }

  lemma StepKeepsInv(start: State, s: State, step: Step)
    requires Inv(start, s)
    ensures Inv(start, After(s, step))
  {
    var w := step.writer;
    if w in s.writers {
      assert WriterOk(s, w);
      if step.Swap? && s.writers[w].phase.Holding? && s.parent == Some(s.writers[w].phase.seen) {
        SwapKeepsInv(start, s, w, step.stamp);
      } else if After(s, step) != s {
        var writer := After(s, step).writers[w];
        QuietStepKeepsInv(start, s, w, writer.attempts, writer.phase);
      }
    }
  }

  function Run(s: State, steps: seq<Step>): State {
    if steps == [] then s else After(Run(s, steps[..|steps| - 1]), steps[|steps| - 1])
  }

  /** In every interleaving no successful update is lost and a writer that failed changed nothing. */
  lemma {:induction false} EveryRun(start: State, steps: seq<Step>)
    requires Starting(start)
    ensures Inv(start, Run(start, steps))
  {
    if steps == [] {
      StartsOk(start);
    } else {
      EveryRun(start, steps[..|steps| - 1]);
      StepKeepsInv(start, Run(start, steps[..|steps| - 1]), steps[|steps| - 1]);
    }
  }

  /** Of several updates the last that names an entry decides about it. */
  lemma {:induction false} LastDecides(es: seq<Entry>, us: seq<Update>, e: Entry, i: nat)
    requires Sorted(es) && (i < |us| ==> us[i].name == e.name)
    requires forall j :: 0 <= j < |us| && (i < |us| ==> i < j) ==> us[j].name != e.name
    ensures Sorted(ApplyAll(es, us))
    ensures e in ApplyAll(es, us) <==> if i < |us| then us[i] == Insert(e.name, e.mode) else e in es
    decreases |us|
  {
    if us != [] {
      var n := |us| - 1;
      var before := us[..n];
      if i == n { ApplyAllSorted(es, before); } else { LastDecides(es, before, e, if i < n then i else n); }
      ApplySets(ApplyAll(es, before), us[n], e);
    }
  }

  lemma {:induction false} ApplyAllSorted(es: seq<Entry>, us: seq<Update>)
    requires Sorted(es)
    ensures Sorted(ApplyAll(es, us))
    decreases |us|
  {
    if us != [] {
      ApplyAllSorted(es, us[..|us| - 1]);
      ApplySets(ApplyAll(es, us[..|us| - 1]), us[|us| - 1], Entry("", Mode(Regular, 0)));
    }
  }

  lemma {:induction false} UpdatesAt(writers: map<nat, Writer>, history: seq<nat>)
    requires forall i :: 0 <= i < |history| ==> history[i] in writers
    ensures |Updates(writers, history)| == |history|
    ensures forall i :: 0 <= i < |history| ==> Updates(writers, history)[i] == writers[history[i]].update
    decreases |history|
  {
    if history != [] { UpdatesAt(writers, history[..|history| - 1]); }
  }

  /** At any moment of any run on an existing parent: an entry is listed exactly when the last
      successful update of its name, the `i`-th success, put it there; or, when no successful update has
      its name, when it was listed at the start. */
  lemma {:induction false} LastUpdateWins(start: State, steps: seq<Step>, e: Entry, i: nat)
    requires Starting(start) && start.parent.Some?
    requires var s := Run(start, steps);
             forall j :: 0 <= j < |s.history| && s.history[j] in s.writers && (i < |s.history| ==> i < j) ==>
               s.writers[s.history[j]].update.name != e.name
    requires var s := Run(start, steps);
             i < |s.history| && s.history[i] in s.writers ==> s.writers[s.history[i]].update.name == e.name
    ensures var s := Run(start, steps);
            && s.parent.Some? && (i < |s.history| ==> s.history[i] in s.writers)
            && (e in ParseListing(s.parent.value.body)
                <==> if i < |s.history| then s.writers[s.history[i]].update == Insert(e.name, e.mode)
                     else e in ParseListing(start.parent.value.body))
  {
    EveryRun(start, steps);
    var s, es := Run(start, steps), ParseListing(start.parent.value.body);
    UpdatesAt(start.writers, s.history);
    ParsedIsListable(Lines(start.parent.value.body));
    LastDecides(es, Updates(start.writers, s.history), e, i);
  }

  /** In every run on an existing parent: a writer that gave up was beaten by three swaps of others,
      and a swap that is about to fail was overtaken by one since its read. */
  lemma {:induction false} ConflictMeansProgress(start: State, steps: seq<Step>, w: nat, stamp: nat)
    requires Starting(start) && start.parent.Some? && w in start.writers
    ensures var s := Run(start, steps);
            && w in s.writers
            && (s.writers[w].phase.Failed? ==> |s.history| >= RETRIES && w !in s.history)
            && (s.writers[w].phase.Holding? && AfterSwap(s, w, stamp).writers[w].phase != Succeeded ==>
                  s.writers[w].phase.at < |s.history|)
  {
    EveryRun(start, steps);
    assert WriterOk(Run(start, steps), w);
  }

  /** So with no more writers than attempts no update is ever given up. */
  lemma {:induction false} FewWritersSucceed(start: State, steps: seq<Step>, w: nat)
    requires Starting(start) && start.parent.Some? && w in start.writers && |start.writers| <= RETRIES
    ensures var s := Run(start, steps); w in s.writers && !s.writers[w].phase.Failed?
  {
    var s := Run(start, steps);
    EveryRun(start, steps);
    ConflictMeansProgress(start, steps, w, 0);
    if s.writers[w].phase.Failed? { DistinctCount(s.history, start.writers.Keys - {w}); }
  }

  lemma {:induction false} DistinctCount(history: seq<nat>, ids: set<nat>)
    requires forall i :: 0 <= i < |history| ==> history[i] in ids
    requires forall i, j :: 0 <= i < j < |history| ==> history[i] != history[j]
    ensures |history| <= |ids|
    decreases |history|
  {
    if history != [] { DistinctCount(history[1..], ids - {history[0]}); }
  }

  /** A writer that reads and swaps with nobody in between succeeds; on a missing parent other than the
      root the read already fails. */
  lemma {:induction false} UndisturbedSucceeds(start: State, steps: seq<Step>, w: nat, a: nat, b: nat)
    requires Starting(start) && w in start.writers && w in Run(start, steps).writers
    requires Run(start, steps).writers[w].phase == Fresh
    ensures start.parent.Some? ==>
      var s, t := Run(start, steps), Run(start, steps + [Read(w, a)] + [Swap(w, b)]);
      w in t.writers && t.writers[w].phase == Succeeded && t.history == s.history + [w]
    ensures start.parent.None? && !start.isRoot ==>
      var t := Run(start, steps + [Read(w, a)]);
      w in t.writers && t.writers[w].phase == Failed(NotFound)
  {
    EveryRun(start, steps);
    SameRoot(start, steps);
    RunThen(start, steps, Read(w, a));
    RunThen(start, steps + [Read(w, a)], Swap(w, b));
  }

  lemma RunThen(start: State, steps: seq<Step>, step: Step)
    ensures Run(start, steps + [step]) == After(Run(start, steps), step)
  {
    assert (steps + [step])[..|steps|] == steps;
  }

  lemma {:induction false} SameRoot(start: State, steps: seq<Step>)
    ensures Run(start, steps).isRoot == start.isRoot
    decreases |steps|
  {
    if steps != [] { SameRoot(start, steps[..|steps| - 1]); }
  }

  /** On a missing parent, the root included, no update ever succeeds. */
  lemma {:induction false} MissingParentStaysMissing(start: State, steps: seq<Step>, w: nat)
    requires Starting(start) && start.parent == None && w in start.writers
    ensures var s := Run(start, steps); s.parent == None && w in s.writers && s.writers[w].phase != Succeeded
  {
    EveryRun(start, steps);
    assert WriterOk(Run(start, steps), w);
  }

  /** A writer alone on a missing root: three attempts, three conflicts with nobody, and it gives up. */
  lemma {:induction false} MissingRootFails(name: string, mode: Mode)
    ensures var start := State(None, true, map[0 := Writer(Insert(name, mode), 0, Fresh)], []);
            var s := Run(start, [Read(0, 1), Swap(0, 2), Read(0, 3), Swap(0, 4), Read(0, 5), Swap(0, 6)]);
            s.parent == None && 0 in s.writers && s.writers[0].phase == Failed(Other)
  {
    var start := State(None, true, map[0 := Writer(Insert(name, mode), 0, Fresh)], []);
    var steps := [Read(0, 1), Swap(0, 2), Read(0, 3), Swap(0, 4), Read(0, 5), Swap(0, 6)];
    assert steps[..0] == [];
    var s1 := RunOneMore(start, steps, 0);
    var s2 := RunOneMore(start, steps, 1);
    var s3 := RunOneMore(start, steps, 2);
    var s4 := RunOneMore(start, steps, 3);
    var s5 := RunOneMore(start, steps, 4);
    var s6 := RunOneMore(start, steps, 5);
    TakeAll(steps);
  }

  lemma {:induction false} RunOneMore(start: State, steps: seq<Step>, i: nat) returns (s: State)
    requires i < |steps|
    ensures s == Run(start, steps[..i + 1]) == After(Run(start, steps[..i]), steps[i])
  {
    assert steps[..i + 1][..i] == steps[..i];
    s := Run(start, steps[..i + 1]);
  }

  // ----- the store and the writers as they run -----

  class InMemoryObjectStore {
    var objects: map<string, Object>

    constructor ()
      ensures objects == map[]
    {
      objects := map[];
    }

    method Get(key: string) returns (r: Option<Object>)
      ensures r == if key in objects then Some(objects[key]) else None
    {
      return if key in objects then Some(objects[key]) else None;
    }

    method CompareAndSwap(key: string, expected: Option<Object>, replacement: Option<Object>) returns (ok: bool)
      modifies this
      ensures ok <==> expected == if key in old(objects) then Some(old(objects)[key]) else None
      ensures objects == if !ok then old(objects)
                         else if replacement.Some? then old(objects)[key := replacement.value] else old(objects) - {key}
    {
      var current := Get(key);
      if current != expected {
        return false;
      }
      if replacement.Some? {
        objects := objects[key := replacement.value];
      } else {
        objects := objects - {key};
      }
      return true;
    }
  }

  /** The writers of one parent's listing. */
  class ListingWriters {
    const store: InMemoryObjectStore
    const key: string
    const isRoot: bool
    var writers: map<nat, Writer>
    /** The writers whose swap succeeded, in order. Nothing decides by it. */
    var history: seq<nat>

    constructor (store: InMemoryObjectStore, key: string, isRoot: bool, updates: seq<Update>)
      ensures this.store == store && this.key == key && this.isRoot == isRoot && history == []
      ensures writers == map w: nat | 0 <= w < |updates| :: Writer(updates[w], 0, Fresh)
    {
      this.store, this.key, this.isRoot, history := store, key, isRoot, [];
      writers := map w: nat | 0 <= w < |updates| :: Writer(updates[w], 0, Fresh);
    }

    ghost function Snapshot(): State
      reads this, store
    {
      State(if key in store.objects then Some(store.objects[key]) else None, isRoot, writers, history)
    }

    method SetWriter(w: nat, attempts: nat, phase: Phase)
      requires w in writers
      modifies this`writers
      ensures Snapshot() == SetPhase(old(Snapshot()), w, attempts, phase)
    {
      writers := writers[w := Writer(writers[w].update, attempts, phase)];
    }

    /** The first half of an attempt. */
    method ReadParent(w: nat, stamp: nat)
      modifies this
      ensures Snapshot() == After(old(Snapshot()), Read(w, stamp))
    {
      if w !in writers || writers[w].phase != Fresh {
        return;
      }
      var parent := store.Get(key);
      match parent
      case Some(found) => SetWriter(w, writers[w].attempts, Holding(found, |history|));
      case None =>
        if isRoot {
          SetWriter(w, writers[w].attempts, Holding(Object(stamp, FormatListing([])), |history|));
        } else {
          SetWriter(w, writers[w].attempts, Failed(NotFound));
        }
    }

    /** The second half: no other object of the store is touched. */
    method SwapParent(w: nat, stamp: nat)
      modifies this, store
      ensures Snapshot() == After(old(Snapshot()), Swap(w, stamp))
      ensures store.objects - {key} == old(store.objects) - {key}
    {
      if w !in writers || !writers[w].phase.Holding? {
        return;
      }
      var writer := writers[w];
      var next := NextObject(writer.phase.seen, writer.update, stamp);
      var swapped := store.CompareAndSwap(key, Some(writer.phase.seen), Some(next));
      if swapped {
        history := history + [w];
        SetWriter(w, writer.attempts, Succeeded);
      } else {
        SetWriter(w, writer.attempts + 1, if writer.attempts + 1 == RETRIES then Failed(Other) else Fresh);
      }
    }

    /** Any interleaving of the writers' steps. */
    method Drive(schedule: seq<Step>)
      modifies this, store
      ensures Snapshot() == Run(old(Snapshot()), schedule)
      ensures Starting(old(Snapshot())) ==> Inv(old(Snapshot()), Snapshot())
    {
      for i := 0 to |schedule|
        invariant Snapshot() == Run(old(Snapshot()), schedule[..i])
      {
        TakeStep(schedule, i);
        match schedule[i]
        case Read(w, stamp) => ReadParent(w, stamp);
        case Swap(w, stamp) => SwapParent(w, stamp);
      }
      TakeAll(schedule);
      if Starting(old(Snapshot())) { EveryRun(old(Snapshot()), schedule); }
    }
  }
}
