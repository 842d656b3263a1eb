/** The debounced sync scheduler: requests, any number of foreground attempts (`run_due`,
    `flush`) and one background worker interleave freely. An attempt captures the request
    serial, runs a sync without holding the lock, and reports its outcome under the serial it
    captured. Time is an input. */
module Scheduler {
  import opened Wrappers

  const WRAP: nat := 0x1_0000_0000_0000_0000
  type Time = int
  type AttemptId = nat

  datatype Outcome = Succeeds | Fails

  /** `capturedAt`, `beganAt` count steps of the run; they are history, not program state. */
  datatype Attempt =
    | Captured(serial: nat, background: bool, capturedAt: nat)
    | Syncing(serial: nat, background: bool, capturedAt: nat, beganAt: nat)
    | Synced(serial: nat, background: bool, capturedAt: nat, beganAt: nat, outcome: Outcome)
    | Finished(serial: nat, background: bool, capturedAt: nat, beganAt: nat, outcome: Outcome)

  /** What the scheduler's lock protects. */
  datatype Core = Core(requestedAt: Option<Time>, hasError: bool, serial: nat, failedSerial: Option<nat>)

  datatype State = State(
    core: Core,
    worker: Option<AttemptId>,    // the attempt the background worker is busy with
    attempts: seq<Attempt>,
    steps: nat,                   // history: steps taken so far
    requests: nat,                // history: requests made so far
    lastRequestAt: nat)           // history: the step of the latest request

  datatype Step =
    | Request(now: Time)
    | RunDue(now: Time)
    | Flush
    | WorkerDecides(now: Time)
    | BeginSync(attempt: AttemptId)
    | EndSync(attempt: AttemptId, outcome: Outcome)
    | Finish(attempt: AttemptId)

  const IDLE := Core(None, false, 0, None)
  const START := State(IDLE, None, [], 0, 0, 0)

  /** `requested_at + debounce`, or the request time itself when the clock cannot represent it. */
  function DueAt(requestedAt: Time, debounce: nat, clockEnd: Time): Time {
    if requestedAt + debounce <= clockEnd then requestedAt + debounce else requestedAt
  }

  datatype Clock = Clock(debounce: nat, end: Time)

  predicate IsDue(c: Clock, k: Core, now: Time) {
    k.requestedAt.Some? && DueAt(k.requestedAt.value, c.debounce, c.end) <= now
  }

  /** The background worker leaves its inner loop only for a due request that has not failed. */
  predicate WorkerGoes(c: Clock, k: Core, now: Time) {
    IsDue(c, k, now) && k.failedSerial != Some(k.serial)
  }

  function Requested(k: Core, now: Time): Core {
    Core(Some(now), false, (k.serial + 1) % WRAP, None)
  }

  /** `finish_sync_attempt`: the outcome counts only if no request came in since the capture. */
  function Settled(k: Core, serial: nat, outcome: Outcome): Core {
    if k.serial != serial then k
    else match outcome
      case Succeeds => k.(requestedAt := None, hasError := false, failedSerial := None)
      case Fails => k.(hasError := true, failedSerial := Some(serial))
  }

  function Capture(s: State, background: bool): State {
    s.(attempts := s.attempts + [Captured(s.core.serial, background, s.steps)])
  }

  function Act(c: Clock, s: State, step: Step): State {
    match step
    case Request(now) => s.(core := Requested(s.core, now), requests := s.requests + 1, lastRequestAt := s.steps)
    case RunDue(now) => if IsDue(c, s.core, now) then Capture(s, false) else s
    case Flush => Capture(s, false)
    case WorkerDecides(now) =>
      if s.worker.None? && WorkerGoes(c, s.core, now) then Capture(s, true).(worker := Some(|s.attempts|)) else s
    case BeginSync(a) =>
      if a < |s.attempts| && s.attempts[a].Captured? then
        var t := s.attempts[a];
        s.(attempts := s.attempts[a := Syncing(t.serial, t.background, t.capturedAt, s.steps)])
      else s
    case EndSync(a, outcome) =>
      if a < |s.attempts| && s.attempts[a].Syncing? then
        var t := s.attempts[a];
        s.(attempts := s.attempts[a := Synced(t.serial, t.background, t.capturedAt, t.beganAt, outcome)])
      else s
    case Finish(a) =>
      if a < |s.attempts| && s.attempts[a].Synced? then
        var t := s.attempts[a];
        var done := Finished(t.serial, t.background, t.capturedAt, t.beganAt, t.outcome);
        s.(core := Settled(s.core, t.serial, t.outcome), attempts := s.attempts[a := done],
           worker := if s.worker == Some(a) then None else s.worker)
      else s
  }

  /** One step; the step counter is history. */
  function Next(c: Clock, s: State, step: Step): State {
    Act(c, s, step).(steps := s.steps + 1)
  }

  function Run(c: Clock, steps: seq<Step>): State {
    if steps == [] then START else Next(c, Run(c, steps[..|steps| - 1]), steps[|steps| - 1])
  }

  /** Background attempts that came back with a failure for request serial `serial`. */
  predicate FailedInBackground(t: Attempt, serial: nat) {
    t.background && t.serial == serial && (t.Synced? || t.Finished?) && t.outcome.Fails?
  }

  ghost predicate AttemptSound(s: State, a: AttemptId)
    requires a < |s.attempts|
  {
    var t := s.attempts[a];
    && t.serial <= s.core.serial && t.capturedAt < s.steps
    && (!t.Captured? ==> t.capturedAt < t.beganAt < s.steps)
    && (s.requests > 0 ==> (t.serial == s.core.serial <==> s.lastRequestAt < t.capturedAt))
    && (t.background && !t.Finished? <==> s.worker == Some(a))
    && (t.background && t.Finished? && t.serial == s.core.serial ==>
          s.core.requestedAt.None? || s.core.failedSerial == Some(s.core.serial))
  }

  /** Each background attempt captured a later request serial than every one before it. */
  ghost predicate OneWorker(s: State) {
    && (s.worker.Some? ==> s.worker.value < |s.attempts|)
    && forall a, b :: 0 <= a < b < |s.attempts| && s.attempts[a].background && s.attempts[b].background
         ==> s.attempts[a].serial < s.attempts[b].serial
  }

  /** An attempt that began after the latest request came back with this outcome and was reported. */
  ghost predicate Reported(s: State, outcome: Outcome) {
    exists a :: 0 <= a < |s.attempts| && s.attempts[a].Finished? && s.attempts[a].outcome == outcome
                && s.lastRequestAt < s.attempts[a].capturedAt
  }

  /** What the lock protects, in terms of what happened since the latest request. */
  ghost predicate CoreExact(s: State) {
    && (s.requests > 0 ==> (s.core.requestedAt.Some? <==> !Reported(s, Succeeds)))
    && (s.core.requestedAt.Some? ==>
          && (s.core.failedSerial == Some(s.core.serial) <==> Reported(s, Fails))
          && (s.core.hasError <==> Reported(s, Fails)))
  }

  ghost predicate Inv(s: State) {
    && s.core.serial == s.requests && (s.requests > 0 ==> s.lastRequestAt < s.steps)
    && (s.requests == 0 ==> s.core.requestedAt.None?)
    && (forall a :: 0 <= a < |s.attempts| ==> AttemptSound(s, a))
    && OneWorker(s) && CoreExact(s)
  }

  lemma AttemptsStaySound(c: Clock, s: State, step: Step, a: AttemptId)
    requires Inv(s) && s.requests < WRAP - 1 && a < |Next(c, s, step).attempts|
    ensures AttemptSound(Next(c, s, step), a)
  {
    if a < |s.attempts| { assert AttemptSound(s, a); }
  }

  lemma WorkerStaysAlone(c: Clock, s: State, step: Step)
    requires Inv(s)
    ensures OneWorker(Next(c, s, step))
  {
    if step.WorkerDecides? && s.worker.None? && WorkerGoes(c, s.core, step.now) {
      forall a | 0 <= a < |s.attempts| && s.attempts[a].background ensures s.attempts[a].serial < s.core.serial {
        assert AttemptSound(s, a);
      }
    }
  }

  lemma CoreStaysExact(c: Clock, s: State, step: Step)
    requires Inv(s) && s.requests < WRAP - 1
    ensures CoreExact(Next(c, s, step))
  {
    var t := Next(c, s, step);
    forall outcome | t.lastRequestAt == s.lastRequestAt && !step.Finish?
      ensures Reported(t, outcome) <==> Reported(s, outcome)
    {
      SameReports(s, t, outcome);
    }
    match step
    case Request(_) => NothingReported(s, t);
    case Finish(a) =>
      if a < |s.attempts| && s.attempts[a].Synced? {
        assert AttemptSound(s, a);
        OneMoreReport(s, t, a);
      } else {
        SameReports(s, t, Succeeds);
        SameReports(s, t, Fails);
      }
    case _ =>
  }

  lemma SameReports(s: State, t: State, outcome: Outcome)
    requires t.lastRequestAt == s.lastRequestAt
    requires forall a :: 0 <= a < |s.attempts| && s.attempts[a].Finished? ==>
      a < |t.attempts| && t.attempts[a] == s.attempts[a]
    requires forall a :: 0 <= a < |t.attempts| && t.attempts[a].Finished? ==>
      a < |s.attempts| && t.attempts[a] == s.attempts[a]
    ensures Reported(t, outcome) <==> Reported(s, outcome)
  {
    if Reported(s, outcome) {
      var a :| 0 <= a < |s.attempts| && s.attempts[a].Finished? && s.attempts[a].outcome == outcome
               && s.lastRequestAt < s.attempts[a].capturedAt;
      assert t.attempts[a] == s.attempts[a];
    }
  }

  lemma NothingReported(s: State, t: State)
    requires Inv(s) && t.attempts == s.attempts && t.lastRequestAt == s.steps
    ensures forall outcome :: !Reported(t, outcome)
  {
    forall a | 0 <= a < |t.attempts| ensures t.attempts[a].capturedAt < t.lastRequestAt {
      assert AttemptSound(s, a);
    }
  }

  lemma OneMoreReport(s: State, t: State, a: AttemptId)
    requires a < |s.attempts| == |t.attempts| && s.attempts[a].Synced? && t.lastRequestAt == s.lastRequestAt
    requires t.attempts == s.attempts[a := t.attempts[a]] && t.attempts[a].Finished?
    requires t.attempts[a].outcome == s.attempts[a].outcome && t.attempts[a].capturedAt == s.attempts[a].capturedAt
    ensures forall outcome :: Reported(t, outcome) <==>
      Reported(s, outcome) || (outcome == s.attempts[a].outcome && s.lastRequestAt < s.attempts[a].capturedAt)
  {
    forall outcome ensures Reported(t, outcome) <==>
      Reported(s, outcome) || (outcome == s.attempts[a].outcome && s.lastRequestAt < s.attempts[a].capturedAt)
    {
      if Reported(s, outcome) {
        var b :| 0 <= b < |s.attempts| && s.attempts[b].Finished? && s.attempts[b].outcome == outcome
                 && s.lastRequestAt < s.attempts[b].capturedAt;
        assert t.attempts[b] == s.attempts[b];
      }
    }
  }

  lemma StepKeepsInv(c: Clock, s: State, step: Step)
    requires Inv(s) && s.requests < WRAP - 1
    ensures Inv(Next(c, s, step))
  {
    WorkerStaysAlone(c, s, step);
    CoreStaysExact(c, s, step);
    forall a | 0 <= a < |Next(c, s, step).attempts| ensures AttemptSound(Next(c, s, step), a) {
      AttemptsStaySound(c, s, step, a);
    }
  }

  lemma {:induction false} RequestsCounted(c: Clock, steps: seq<Step>)
    ensures Run(c, steps).requests <= |steps| && Run(c, steps).steps == |steps|
    decreases |steps|
  {
    if steps != [] { RequestsCounted(c, steps[..|steps| - 1]); }
  }

  /** The invariant holds in every interleaving, before the serial wraps. */
  lemma {:induction false} EveryRun(c: Clock, steps: seq<Step>)
    requires |steps| < WRAP
    ensures Inv(Run(c, steps))
    decreases |steps|
  {
    if steps != [] {
      EveryRun(c, steps[..|steps| - 1]);
      RequestsCounted(c, steps[..|steps| - 1]);
      StepKeepsInv(c, Run(c, steps[..|steps| - 1]), steps[|steps| - 1]);
    }
  }

  /** Pending becomes false only when an attempt finishes whose sync succeeded and began after
      the latest request. */
  lemma PendingClearsOnlyAfterSync(c: Clock, steps: seq<Step>, step: Step)
    requires |steps| < WRAP
    requires Run(c, steps).core.requestedAt.Some? && Next(c, Run(c, steps), step).core.requestedAt.None?
    ensures var s := Run(c, steps);
            && step.Finish? && step.attempt < |s.attempts| && s.attempts[step.attempt].Synced?
            && s.attempts[step.attempt].outcome.Succeeds?
            && s.lastRequestAt < s.attempts[step.attempt].beganAt
  {
    EveryRun(c, steps);
    var s := Run(c, steps);
    assert AttemptSound(s, step.attempt);
  }

  /** For each request serial the background worker makes at most one attempt that fails. */
  lemma OneFailurePerRequest(c: Clock, steps: seq<Step>, a: AttemptId, b: AttemptId, serial: nat)
    requires |steps| < WRAP
    requires a < |Run(c, steps).attempts| && b < |Run(c, steps).attempts|
    requires FailedInBackground(Run(c, steps).attempts[a], serial)
    requires FailedInBackground(Run(c, steps).attempts[b], serial)
    ensures a == b
  {
    EveryRun(c, steps);
  }

  /** The time of the latest request. */
  function LatestRequest(steps: seq<Step>): Option<Time> {
    if steps == [] then None
    else if steps[|steps| - 1].Request? then Some(steps[|steps| - 1].now)
    else LatestRequest(steps[..|steps| - 1])
  }

  lemma {:induction false} PendingIsLatest(c: Clock, steps: seq<Step>)
    ensures var s := Run(c, steps);
            && (s.requests > 0 <==> LatestRequest(steps).Some?)
            && (s.core.requestedAt.Some? ==> s.core.requestedAt == LatestRequest(steps))
    decreases |steps|
  {
    if steps != [] { PendingIsLatest(c, steps[..|steps| - 1]); }
  }

  /** In every run, whether a step starts an attempt is a matter of the latest request, made at time `t`:
      `t` and the debounce must be over, or `t` alone if the clock cannot represent their sum, and no
      attempt since may have come back with success. The background worker must also be idle, and no
      attempt since may have come back with a failure. Without a request nothing starts. */
  lemma WorkerStartsOnlyWhenDue(c: Clock, steps: seq<Step>, now: Time, t: Time)
    requires |steps| < WRAP
    ensures var s := Run(c, steps);
            var over := (t + c.debounce <= c.end ==> t + c.debounce <= now) && (t + c.debounce > c.end ==> t <= now);
            LatestRequest(steps) == Some(t) ==>
              && (|Next(c, s, RunDue(now)).attempts| > |s.attempts| <==> over && !Reported(s, Succeeds))
              && (|Next(c, s, WorkerDecides(now)).attempts| > |s.attempts|
                  <==> over && s.worker.None? && !Reported(s, Succeeds) && !Reported(s, Fails))
    ensures LatestRequest(steps) == None ==>
      var s := Run(c, steps);
      Next(c, s, RunDue(now)).attempts == Next(c, s, WorkerDecides(now)).attempts == s.attempts
  {
    EveryRun(c, steps);
    PendingIsLatest(c, steps);
  }

  /** A flush always starts an attempt, for the latest request; and an attempt that was started runs
      through its steps, whatever other steps came before. */
  lemma AttemptsRunThrough(c: Clock, steps: seq<Step>, a: AttemptId, outcome: Outcome)
    ensures var s := Run(c, steps);
            Next(c, s, Flush).attempts == s.attempts + [Captured(s.core.serial, false, s.steps)]
    ensures var s := Run(c, steps);
            a < |s.attempts| && s.attempts[a].Captured? ==>
              var t := Next(c, Next(c, Next(c, s, BeginSync(a)), EndSync(a, outcome)), Finish(a));
              && |t.attempts| == |s.attempts| && t.attempts[a].Finished? && t.attempts[a].outcome == outcome
              && t.attempts[a].serial == s.attempts[a].serial && t.attempts[a].beganAt == s.steps
              && (s.attempts[a].serial == s.core.serial ==>
                    t.core.requestedAt == if outcome.Succeeds? then None else s.core.requestedAt)
  {
  }

  /** The scheduler object; each method is one critical section. */
  class DebouncedSyncScheduler {
    const clock: Clock
    var requestedAt: Option<Time>
    var hasError: bool
    var requestSerial: nat
    var failedRequestSerial: Option<nat>

    function View(): Core
      reads this
    {
      Core(requestedAt, hasError, requestSerial, failedRequestSerial)
    }

    constructor (clock: Clock)
      ensures this.clock == clock && View() == IDLE
    {
      this.clock := clock;
      requestedAt, hasError, requestSerial, failedRequestSerial := None, false, 0, None;
    }

    method Request(now: Time)
      modifies this
      ensures View() == Requested(old(View()), now)
      ensures requestedAt == Some(now) && !hasError && failedRequestSerial == None
      ensures requestSerial == if old(requestSerial) == WRAP - 1 then 0 else (old(requestSerial) + 1) % WRAP
    {
      requestedAt := Some(now);
      hasError := false;
      requestSerial := (requestSerial + 1) % WRAP;
      failedRequestSerial := None;
    }

    /** The serial a due foreground run captures, if any. */
    method CaptureDue(now: Time) returns (serial: Option<nat>)
      ensures serial == if IsDue(clock, View(), now) then Some(requestSerial) else None
      ensures serial.Some? <==>
        && requestedAt.Some?
        && (requestedAt.value + clock.debounce <= clock.end ==> requestedAt.value + clock.debounce <= now)
        && (requestedAt.value + clock.debounce > clock.end ==> requestedAt.value <= now)
    {
      if requestedAt.Some? && DueAt(requestedAt.value, clock.debounce, clock.end) <= now {
        return Some(requestSerial);
      }
      return None;
    }

    /** One look of the background worker at the shared state. */
    method WorkerLooks(now: Time) returns (serial: Option<nat>)
      ensures serial == if WorkerGoes(clock, View(), now) then Some(requestSerial) else None
      ensures serial.Some? <==>
        && requestedAt.Some? && failedRequestSerial != Some(requestSerial)
        && (requestedAt.value + clock.debounce <= clock.end ==> requestedAt.value + clock.debounce <= now)
        && (requestedAt.value + clock.debounce > clock.end ==> requestedAt.value <= now)
    {
      if requestedAt.None? || failedRequestSerial == Some(requestSerial) {
        return None;
      }
      var due := DueAt(requestedAt.value, clock.debounce, clock.end);
      var delay := if due > now then due - now else 0;
      return if delay == 0 then Some(requestSerial) else None;
    }

    method FinishSyncAttempt(serial: nat, outcome: Outcome)
      modifies this
      ensures View() == Settled(old(View()), serial, outcome)
    {
      if requestSerial == serial {
        match outcome {
          case Succeeds =>
            requestedAt := None;
            hasError := false;
            failedRequestSerial := None;
          case Fails =>
            hasError := true;
            failedRequestSerial := Some(serial);
        }
      }
    }
  }
}
