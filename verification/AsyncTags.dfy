/** The asynchronous 9P server: each accepted request runs on a worker and is settled by tag,
    claimed by its worker or cancelled by a flush or a duplicate tag. A worker decides under the
    `pending` lock and enqueues its reply later; these are two steps, and steps of all threads
    interleave freely. (9P: flush(5).) */
module AsyncTags {
  import opened Wrappers
  import opened Seqs

  type Tag = n: int | 0 <= n < 0x1_0000

  /** A request is known by the identity of its cancellation cell, never by its tag. */
  type Request = nat

  datatype Settlement = Claimed | Cancelled
  datatype Event = Event(request: Request, how: Settlement)
  datatype Verdict = Send | Drop

  datatype State = State(
    tags: seq<Tag>,                  // tag of each accepted request, by request number
    pending: map<Tag, Request>,
    cells: set<Request>,             // cancellation cells that have been set
    verdicts: map<Request, Verdict>, // what each worker decided
    responses: seq<Request>,         // replies queued and not yet taken
    enqueued: seq<Request>,          // history: every reply ever queued
    log: seq<Event>)                 // history: every settlement

  datatype Step =
    | Receive(tag: Tag)
    | Flush(oldtag: Tag)
    | Decide(worker: Request)
    | Enqueue(worker: Request)
    | TakeResponse

  const START := State([], map[], {}, map[], [], [], [])

  function CancelTag(s: State, tag: Tag): State {
    if tag in s.pending then
      s.(pending := s.pending - {tag}, cells := s.cells + {s.pending[tag]},
          log := s.log + [Event(s.pending[tag], Cancelled)])
    else s
  }

  /** Does the worker find its own, uncancelled entry under its tag? */
  predicate FindsItself(s: State, r: Request)
    requires r < |s.tags|
  {
    s.tags[r] in s.pending && s.pending[s.tags[r]] == r && r !in s.cells
  }

  function Next(s: State, step: Step): State {
    match step
    case Receive(tag) =>
      if tag in s.pending then CancelTag(s, tag)
      else s.(tags := s.tags + [tag], pending := s.pending[tag := |s.tags|])
    case Flush(oldtag) => CancelTag(s, oldtag)
    case Decide(r) =>
      if r >= |s.tags| || r in s.verdicts then s
      else if FindsItself(s, r) then
        s.(pending := s.pending - {s.tags[r]}, verdicts := s.verdicts[r := Send], log := s.log + [Event(r, Claimed)])
      else s.(verdicts := s.verdicts[r := Drop])
    case Enqueue(r) =>
      if r in s.verdicts && s.verdicts[r].Send? && r !in s.enqueued then
        s.(responses := s.responses + [r], enqueued := s.enqueued + [r])
      else s
    case TakeResponse =>
      if s.responses == [] then s else s.(responses := s.responses[1..])
  }

  function Run(steps: seq<Step>): State {
    if steps == [] then START else Next(Run(steps[..|steps| - 1]), steps[|steps| - 1])
  }

  ghost predicate SettledAs(s: State, r: Request, how: Settlement) {
    Event(r, how) in s.log
  }

  ghost predicate Settled(s: State, r: Request) {
    SettledAs(s, r, Claimed) || SettledAs(s, r, Cancelled)
  }

  /** Pending is exactly the accepted requests that are unsettled, each under its own tag. */
  ghost predicate PendingExact(s: State) {
    && (forall t :: t in s.pending ==> s.pending[t] < |s.tags| && s.tags[s.pending[t]] == t && !Settled(s,
        s.pending[t]))
    && (forall r :: 0 <= r < |s.tags| && !Settled(s, r) ==> s.tags[r] in s.pending && s.pending[s.tags[r]] == r)
  }

  ghost predicate SettledOnce(s: State) {
    && (forall e :: e in s.log ==> e.request < |s.tags|)
    && (forall i, j :: 0 <= i < j < |s.log| ==> s.log[i].request != s.log[j].request)
  }

  ghost predicate CellsMatch(s: State) {
    forall r :: r in s.cells <==> SettledAs(s, r, Cancelled)
  }

  ghost predicate VerdictsMatch(s: State) {
    && (forall r :: r in s.verdicts ==> r < |s.tags| && Settled(s, r))
    && (forall r :: r in s.verdicts && s.verdicts[r].Send? <==> SettledAs(s, r, Claimed))
  }

  ghost predicate RepliesSound(s: State) {
    && (forall r :: r in s.enqueued ==> SettledAs(s, r, Claimed))
    && (forall i, j :: 0 <= i < j < |s.enqueued| ==> s.enqueued[i] != s.enqueued[j])
    && |s.responses| <= |s.enqueued| && s.responses == s.enqueued[|s.enqueued| - |s.responses|..]
  }

  ghost predicate Inv(s: State) {
    PendingExact(s) && SettledOnce(s) && CellsMatch(s) && VerdictsMatch(s) && RepliesSound(s)
  }

  lemma NeverBoth(s: State, r: Request)
    requires SettledOnce(s)
    ensures !(SettledAs(s, r, Claimed) && SettledAs(s, r, Cancelled))
  {
    if SettledAs(s, r, Claimed) && SettledAs(s, r, Cancelled) {
      var i :| 0 <= i < |s.log| && s.log[i] == Event(r, Claimed);
      var j :| 0 <= j < |s.log| && s.log[j] == Event(r, Cancelled);
    }
  }

  function Settle(s: State, t: Tag, how: Settlement): State
    requires t in s.pending
  {
    s.(pending := s.pending - {t}, log := s.log + [Event(s.pending[t], how)])
  }

  /** Settling the entry of a tag adds one event, about a request that had none. */
  lemma SettleOnce(s: State, t: Tag, how: Settlement)
    requires PendingExact(s) && SettledOnce(s) && t in s.pending
    ensures SettledOnce(Settle(s, t, how)) && PendingExact(Settle(s, t, how))
    ensures forall q, h :: SettledAs(Settle(s, t, how), q, h) <==> SettledAs(s, q, h) || (q == s.pending[t] && h == how)
  {
    var r := s.pending[t];
    var m := Settle(s, t, how);
    forall q, h ensures SettledAs(m, q, h) <==> SettledAs(s, q, h) || (q == r && h == how) {
    }
    forall e | e in s.log ensures e.request != r {
      assert !Settled(s, r);
      assert e == Event(e.request, Claimed) || e == Event(e.request, Cancelled);
    }
  }

  lemma ClaimKeepsInv(s: State, t: Tag)
    requires Inv(s) && t in s.pending
    ensures Inv(Settle(s, t, Claimed).(verdicts := s.verdicts[s.pending[t] := Send]))
  {
    SettleOnce(s, t, Claimed);
    var m := Settle(s, t, Claimed);
    var u := m.(verdicts := s.verdicts[s.pending[t] := Send]);
    forall q, h ensures SettledAs(u, q, h) <==> SettledAs(m, q, h) {
    }
  }

  lemma CancelKeepsInv(s: State, t: Tag)
    requires Inv(s) && t in s.pending
    ensures Inv(CancelTag(s, t))
  {
    SettleOnce(s, t, Cancelled);
    var m, u := Settle(s, t, Cancelled), CancelTag(s, t);
    forall q, h ensures SettledAs(u, q, h) <==> SettledAs(m, q, h) {
    }
  }

  lemma ReceiveKeepsInv(s: State, tag: Tag)
    requires Inv(s) && tag !in s.pending
    ensures Inv(Next(s, Receive(tag)))
  {
    var m := Next(s, Receive(tag));
    forall r, h ensures SettledAs(m, r, h) <==> SettledAs(s, r, h) {
    }
  }

  lemma DropKeepsInv(s: State, r: Request)
    requires Inv(s) && r < |s.tags| && r !in s.verdicts && !FindsItself(s, r)
    ensures Inv(s.(verdicts := s.verdicts[r := Drop]))
  {
    var m := s.(verdicts := s.verdicts[r := Drop]);
    forall q, h ensures SettledAs(m, q, h) <==> SettledAs(s, q, h) {
    }
  }

  lemma StepKeepsInv(s: State, step: Step)
    requires Inv(s)
    ensures Inv(Next(s, step))
  {
    match step
    case Receive(tag) =>
      if tag in s.pending { CancelKeepsInv(s, tag); } else { ReceiveKeepsInv(s, tag); }
    case Flush(oldtag) =>
      if oldtag in s.pending { CancelKeepsInv(s, oldtag); }
    case Decide(r) =>
      if r < |s.tags| && r !in s.verdicts {
        if FindsItself(s, r) { ClaimKeepsInv(s, s.tags[r]); } else { DropKeepsInv(s, r); }
      }
    case Enqueue(r) => RepliesKeepInv(s, step);
    case TakeResponse => RepliesKeepInv(s, step);
  }

  lemma RepliesKeepInv(s: State, step: Step)
    requires Inv(s) && (step.Enqueue? || step.TakeResponse?)
    ensures Inv(Next(s, step))
  {
    var m := Next(s, step);
    forall q, h ensures SettledAs(m, q, h) <==> SettledAs(s, q, h) {
    }
  }

  /** The invariant holds in every interleaving. */
  lemma {:induction false} EveryRun(steps: seq<Step>)
    ensures Inv(Run(steps))
    decreases |steps|
  {
    if steps != [] {
      EveryRun(steps[..|steps| - 1]);
      StepKeepsInv(Run(steps[..|steps| - 1]), steps[|steps| - 1]);
    }
  }

  /** Histories only grow, so a settlement or a reply once recorded stays recorded. */
  lemma {:induction false} HistoryGrows(steps: seq<Step>, more: seq<Step>)
    ensures Run(steps).log <= Run(steps + more).log && Run(steps).enqueued <= Run(steps + more).enqueued
    decreases |more|
  {
    if more == [] {
      assert steps + more == steps;
    } else {
      HistoryGrows(steps, more[..|more| - 1]);
      ConcatFront(steps, more);
      StepGrows(Run(steps + more[..|more| - 1]), more[|more| - 1]);
    }
  }

  lemma StepGrows(s: State, step: Step)
    ensures s.log <= Next(s, step).log && s.enqueued <= Next(s, step).enqueued
  {
  }

  /** A request cancelled while it was pending never has its reply queued, whatever follows. */
  lemma CancelledStaysSilent(steps: seq<Step>, cancel: Step, more: seq<Step>, tag: Tag)
    requires cancel == Flush(tag) || cancel == Receive(tag)
    requires tag in Run(steps).pending
    ensures Run(steps).pending[tag] !in Run(steps + [cancel] + more).enqueued
  {
    var s, r := Run(steps), Run(steps).pending[tag];
    assert (steps + [cancel])[..|steps + [cancel]| - 1] == steps;
    var t := Run(steps + [cancel]);
    assert t.log == s.log + [Event(r, Cancelled)];
    HistoryGrows(steps + [cancel], more);
    EveryRun(steps + [cancel] + more);
    var u := Run(steps + [cancel] + more);
    assert t.log[|s.log|] == Event(r, Cancelled) && u.log[|s.log|] == Event(r, Cancelled);
    NeverBoth(u, r);
  }

  /** The two states differ at most in that `worker` has decided, in the first, to drop its reply. */
  ghost predicate SameButDrop(a: State, b: State, worker: Request) {
    && a == b.(verdicts := b.verdicts[worker := Drop])
    && worker in b.cells && (worker in b.verdicts ==> b.verdicts[worker].Drop?)
  }

  lemma DropsCommute(verdicts: map<Request, Verdict>, worker: Request, r: Request, v: Verdict)
    requires r != worker
    ensures verdicts[worker := Drop][r := v] == verdicts[r := v][worker := Drop]
  {
  }

  lemma DecideKeepsSame(a: State, b: State, worker: Request, r: Request)
    requires SameButDrop(a, b, worker)
    ensures SameButDrop(Next(a, Decide(r)), Next(b, Decide(r)), worker)
  {
    if r != worker {
      DropsCommute(b.verdicts, worker, r, Send);
      DropsCommute(b.verdicts, worker, r, Drop);
      assert r in a.verdicts <==> r in b.verdicts;
    } else if r !in b.verdicts {
      assert b.verdicts[r := Drop][r := Drop] == b.verdicts[r := Drop];
    }
  }

  lemma OtherStepKeepsSame(a: State, b: State, worker: Request, step: Step)
    requires SameButDrop(a, b, worker) && !step.Decide?
    ensures SameButDrop(Next(a, step), Next(b, step), worker)
  {
  }

  lemma {:induction false} SameButDropForever(a: State, b: State, worker: Request, more: seq<Step>)
    requires SameButDrop(a, b, worker)
    ensures SameButDrop(RunFrom(a, more), RunFrom(b, more), worker)
    decreases |more|
  {
    if more != [] {
      var done, step := more[..|more| - 1], more[|more| - 1];
      SameButDropForever(a, b, worker, done);
      if step.Decide? {
        DecideKeepsSame(RunFrom(a, done), RunFrom(b, done), worker, step.worker);
      } else {
        OtherStepKeepsSame(RunFrom(a, done), RunFrom(b, done), worker, step);
      }
    }
  }

  function RunFrom(s: State, steps: seq<Step>): State {
    if steps == [] then s else Next(RunFrom(s, steps[..|steps| - 1]), steps[|steps| - 1])
  }

  lemma {:induction false} RunInTwo(steps: seq<Step>, more: seq<Step>)
    ensures Run(steps + more) == RunFrom(Run(steps), more)
    decreases |more|
  {
    if more == [] {
      assert steps + more == steps;
    } else {
      RunInTwo(steps, more[..|more| - 1]);
      ConcatFront(steps, more);
    }
  }

  /** A worker that decides while a newer request has its tag makes no difference, ever: every run that
      continues has the same pending entries, settlements and replies as if it had not decided, and its
      own reply is not among them. */
  lemma {:induction false} LateWorkerIsHarmless(steps: seq<Step>, worker: Request, more: seq<Step>)
    requires var s := Run(steps);
      && worker < |s.tags| && worker !in s.verdicts
      && s.tags[worker] in s.pending && s.pending[s.tags[worker]] != worker
    ensures var a, b := Run(steps + [Decide(worker)] + more), Run(steps + more);
      && a.pending == b.pending && a.log == b.log && a.enqueued == b.enqueued && a.responses == b.responses
      && worker !in a.enqueued
  {
    var s := Run(steps);
    EveryRun(steps);
    assert SettledAs(s, worker, Cancelled);
    assert (steps + [Decide(worker)])[..|steps|] == steps;
    SameButDropForever(Next(s, Decide(worker)), s, worker, more);
    RunInTwo(steps, more);
    RunInTwo(steps + [Decide(worker)], more);
    EveryRun(steps + more);
    NeverBoth(Run(steps + more), worker);
    CancelledStaysSettled(steps, more, worker);
  }

  lemma CancelledStaysSettled(steps: seq<Step>, more: seq<Step>, r: Request)
    requires SettledAs(Run(steps), r, Cancelled)
    ensures SettledAs(Run(steps + more), r, Cancelled)
  {
    HistoryGrows(steps, more);
  }

  /** The flag test a worker makes is never what stops it: a cancelled entry is gone already. */
  lemma PendingEntriesAreLive(steps: seq<Step>, t: Tag)
    requires t in Run(steps).pending
    ensures Run(steps).pending[t] !in Run(steps).cells && Run(steps).pending[t] !in Run(steps).verdicts
  {
    EveryRun(steps);
  }

  /** What each step does where it applies, in any run. A request under a free tag is pending; under a
      taken tag it is dropped and the pending one cancelled. A worker that finds its own entry claims it.
      A claimed reply is queued, behind those that wait, and replies leave in the order of the queue. */
  lemma StepsTakeEffect(steps: seq<Step>, t: Tag, r: Request)
    ensures var s, u := Run(steps), Run(steps + [Receive(t)]);
            if t in s.pending then
              && u == Run(steps + [Flush(t)])
              && u.pending == s.pending - {t} && u.tags == s.tags && u.log == s.log + [Event(s.pending[t], Cancelled)]
            else u.pending == s.pending[t := |s.tags|] && u.tags == s.tags + [t] && u.log == s.log
    ensures var s := Run(steps);
            t in s.pending ==>
              var u := Run(steps + [Decide(s.pending[t])]);
              && u.pending == s.pending - {t} && u.log == s.log + [Event(s.pending[t], Claimed)]
              && SettledAs(u, s.pending[t], Claimed)
    ensures var s, u := Run(steps), Run(steps + [Enqueue(r)]);
            SettledAs(s, r, Claimed) && r !in s.enqueued ==>
              u.responses == s.responses + [r] && u.enqueued == s.enqueued + [r]
    ensures var s, u := Run(steps), Run(steps + [TakeResponse]);
            s.responses != [] ==> u.responses == s.responses[1..]
  {
    EveryRun(steps);
    RunThen(steps, Receive(t));
    RunThen(steps, Flush(t));
    RunThen(steps, Enqueue(r));
    RunThen(steps, TakeResponse);
    var s := Run(steps);
    if t in s.pending {
      RunThen(steps, Decide(s.pending[t]));
      PendingEntriesAreLive(steps, t);
      var log := Run(steps + [Decide(s.pending[t])]).log;
      assert log[|s.log|] == Event(s.pending[t], Claimed);
    }
  }

  lemma RunThen(steps: seq<Step>, step: Step)
    ensures Run(steps + [step]) == Next(Run(steps), step)
  {
    assert (steps + [step])[..|steps|] == steps;
  }

  /** The server object. Each method is what one thread does while it holds a lock. */
  class AsyncNinePServer {
    var pending: map<Tag, Request>
    var cells: set<Request>
    var responses: seq<Request>
    var accepted: nat
    ghost var tags: seq<Tag>
    ghost var verdicts: map<Request, Verdict>
    ghost var enqueued: seq<Request>
    ghost var log: seq<Event>

    ghost function View(): State
      reads this
    {
      State(tags, pending, cells, verdicts, responses, enqueued, log)
    }

    ghost predicate Valid()
      reads this
    {
      Inv(View()) && |tags| == accepted
    }

    constructor ()
      ensures Valid() && View() == START
    {
      pending, cells, responses, accepted := map[], {}, [], 0;
      tags, verdicts, enqueued, log := [], map[], [], [];
    }

    /** Accepts a request, or refuses it and cancels the one that holds its tag. */
    method Receive(tag: Tag) returns (worker: Option<Request>)
      requires Valid()
      modifies this
      ensures Valid() && View() == Next(old(View()), Step.Receive(tag))
      ensures worker == if tag in old(pending) then None else Some(|old(tags)|)
    {
      StepKeepsInv(View(), Step.Receive(tag));
      if tag in pending {
        var _ := Cancel(tag);
        return None;
      }
      pending := pending[tag := accepted];
      tags := tags + [tag];
      accepted := accepted + 1;
      return Some(accepted - 1);
    }

    method Cancel(tag: Tag) returns (found: bool)
      requires Valid()
      modifies this`pending, this`cells, this`log
      ensures Valid() && View() == Next(old(View()), Flush(tag))
      ensures found <==> tag in old(pending)
    {
      StepKeepsInv(View(), Flush(tag));
      found := tag in pending;
      if found {
        log := log + [Event(pending[tag], Cancelled)];
        cells := cells + {pending[tag]};
        pending := pending - {tag};
      }
    }

    /** A worker that has its reply looks for its own entry. */
    method WorkerDecides(worker: Request, tag: Tag) returns (send: bool)
      requires Valid() && worker < |tags| && tags[worker] == tag && worker !in verdicts
      modifies this`pending, this`verdicts, this`log
      ensures Valid() && View() == Next(old(View()), Decide(worker))
      ensures send <==> old(tag in pending && pending[tag] == worker)
    {
      StepKeepsInv(View(), Decide(worker));
      send := tag in pending && pending[tag] == worker && worker !in cells;
      if send {
        pending := pending - {tag};
        log := log + [Event(worker, Claimed)];
      }
      verdicts := verdicts[worker := if send then Send else Drop];
    }

    method WorkerEnqueues(worker: Request)
      requires Valid() && worker in verdicts && verdicts[worker].Send? && worker !in enqueued
      modifies this`responses, this`enqueued
      ensures Valid() && View() == Next(old(View()), Enqueue(worker))
    {
      StepKeepsInv(View(), Enqueue(worker));
      responses := responses + [worker];
      enqueued := enqueued + [worker];
    }

    method NextResponse() returns (r: Option<Request>)
      requires Valid()
      modifies this`responses
      ensures Valid() && View() == Next(old(View()), TakeResponse)
      ensures r == if old(responses) == [] then None else Some(old(responses)[0])
    {
      StepKeepsInv(View(), TakeResponse);
      if responses == [] {
        return None;
      }
      r := Some(responses[0]);
      responses := responses[1..];
    }
  }
}
