/** The wall-clock containment of src/sandbox.rs as interleaved timed steps, and what the host
    makes of a finished guest. Times are nanoseconds. */
module Deadline {
  import opened Bytes
  import opened ToolPolicy
  import opened PolicyProperties

  const EPOCH_TICK_MS := 100
  const JOIN_GRACE_MS := 2_000
  const MS := 1_000_000

  /** `set_epoch_deadline`: how many ticks after the current one the guest is interrupted. */
  function TicksBeyond(timeoutMs: nat): nat {
    timeoutMs / EPOCH_TICK_MS + 2
  }

  /** What `run_guest` is willing to wait, in milliseconds. */
  function JoinBudget(timeoutMs: nat): nat {
    timeoutMs + 2 * EPOCH_TICK_MS + JOIN_GRACE_MS
  }

  datatype Worker =
    | Starting
    | Computing(setAt: int, setEpoch: nat)        // the epoch deadline is set and the guest runs
    | Interrupted(setAt: int, at: int)            // trapped by the epoch deadline
    | Finished

  datatype Joiner =
    | NotWaiting
    | Waiting(since: int)                         // blocked in recv_timeout
    | Received
    | Expired(since: int, at: int)

  datatype State = State(now: int, lastTick: int, epoch: nat, worker: Worker, joiner: Joiner)

  /** How the environment may behave: whether ticks come exactly on time rather than merely not
      early, and whether the guest keeps computing, so that a due interrupt strikes at once. */
  datatype Mode = Mode(exactTicks: bool, guestComputes: bool)

  predicate Due(timeoutMs: nat, s: State) {
    s.worker.Computing? && s.epoch >= s.worker.setEpoch + TicksBeyond(timeoutMs)
  }

  datatype Action = Pass(d: nat) | Tick | SetDeadline | Interrupt | Finish | BeginWait | Receive | Expire

  predicate Enabled(m: Mode, timeoutMs: nat, s: State, a: Action) {
    match a
    case Pass(d) =>
      // recv_timeout returns on time; an exact ticker does not oversleep; a due interrupt does not wait
      && (s.joiner.Waiting? ==> s.now + d <= s.joiner.since + JoinBudget(timeoutMs) * MS)
      && (m.exactTicks ==> s.now + d <= s.lastTick + EPOCH_TICK_MS * MS)
      && (m.guestComputes && Due(timeoutMs, s) ==> d == 0)
    case Tick => s.now >= s.lastTick + EPOCH_TICK_MS * MS
    case SetDeadline => s.worker.Starting?
    case Interrupt => Due(timeoutMs, s)
    case Finish => s.worker.Starting? || s.worker.Computing?
    case BeginWait => s.joiner.NotWaiting?
    case Receive => s.joiner.Waiting? && (s.worker.Interrupted? || s.worker.Finished?)
    case Expire => s.joiner.Waiting? && s.now == s.joiner.since + JoinBudget(timeoutMs) * MS
  }

  function After(m: Mode, timeoutMs: nat, s: State, a: Action): State
    requires Enabled(m, timeoutMs, s, a)
  {
    match a
    case Pass(d) => s.(now := s.now + d)
    case Tick => s.(epoch := s.epoch + 1, lastTick := s.now)
    case SetDeadline => s.(worker := Computing(s.now, s.epoch))
    case Interrupt => s.(worker := Interrupted(s.worker.setAt, s.now))
    case Finish => s.(worker := Finished)
    case BeginWait => s.(joiner := Waiting(s.now))
    case Receive => s.(joiner := Received)
    case Expire => s.(joiner := Expired(s.joiner.since, s.now))
  }

  /** The worker has just been spawned; the ticker is anywhere in its period. */
  predicate Initial(m: Mode, s: State) {
    && s.worker == Starting && s.joiner == NotWaiting && s.lastTick <= s.now
    && (m.exactTicks ==> s.now <= s.lastTick + EPOCH_TICK_MS * MS)
  }

  ghost predicate IsRun(m: Mode, timeoutMs: nat, states: seq<State>, actions: seq<Action>) {
    && |states| == |actions| + 1
    && Initial(m, states[0])
    && forall i :: 0 <= i < |actions| ==>
         Enabled(m, timeoutMs, states[i], actions[i]) && states[i + 1] == After(m, timeoutMs, states[i], actions[i])
  }

  // ---------------------------------------------------------------------------------------
  // What every step keeps
  // ---------------------------------------------------------------------------------------

  /** The ticks since the deadline was set are spread out: n of them take at least n - 1 periods,
      and exactly timed ones end within n. */
  predicate TicksSpread(m: Mode, s: State) {
    s.worker.Computing? ==>
      var n := s.epoch - s.worker.setEpoch;
      && n >= 0 && s.worker.setAt <= s.now
      && (n >= 1 ==> s.lastTick >= s.worker.setAt + (n - 1) * EPOCH_TICK_MS * MS)
      && (m.exactTicks ==> s.lastTick <= s.worker.setAt + n * EPOCH_TICK_MS * MS)
  }

  predicate Invariant(m: Mode, timeoutMs: nat, s: State) {
    && s.lastTick <= s.now
    && (m.exactTicks ==> s.now <= s.lastTick + EPOCH_TICK_MS * MS)
    && TicksSpread(m, s)
    && (s.worker.Interrupted? ==> s.worker.at - s.worker.setAt > timeoutMs * MS && s.worker.at <= s.now)
    && (s.joiner.Waiting? ==> s.joiner.since <= s.now <= s.joiner.since + JoinBudget(timeoutMs) * MS)
    && (s.joiner.Expired? ==> s.joiner.at == s.joiner.since + JoinBudget(timeoutMs) * MS && s.joiner.at <= s.now)
    && (m.guestComputes && Due(timeoutMs, s) ==>
          s.epoch == s.worker.setEpoch + TicksBeyond(timeoutMs) && s.now == s.lastTick)
    && (m.exactTicks && m.guestComputes ==> EpochFirst(timeoutMs, s))
  }

  /** If the deadline was set within the grace after waiting began and the wait has expired, the
      guest is no longer computing, and if it was interrupted that came first. */
  predicate EpochFirst(timeoutMs: nat, s: State) {
    && (s.worker.Interrupted? ==> s.worker.at <= s.worker.setAt + (timeoutMs + 2 * EPOCH_TICK_MS) * MS)
    && (s.joiner.Expired? && s.worker.Computing? ==> s.worker.setAt >= s.joiner.since + JOIN_GRACE_MS * MS)
  }

  lemma TickArithmetic(timeoutMs: nat)
    ensures (TicksBeyond(timeoutMs) - 1) * EPOCH_TICK_MS > timeoutMs
    ensures TicksBeyond(timeoutMs) * EPOCH_TICK_MS <= timeoutMs + 2 * EPOCH_TICK_MS
  {
  }

  lemma StepKeepsInvariant(m: Mode, timeoutMs: nat, s: State, a: Action)
    requires Invariant(m, timeoutMs, s) && Enabled(m, timeoutMs, s, a)
    ensures Invariant(m, timeoutMs, After(m, timeoutMs, s, a))
  {
    TickArithmetic(timeoutMs);
    match a
    case Pass(d) =>
    case Tick =>
    case SetDeadline =>
    case Interrupt =>
    case Finish =>
    case BeginWait =>
    case Receive =>
    case Expire =>
  }

  lemma {:induction false} RunKeepsInvariant(m: Mode, timeoutMs: nat, states: seq<State>, actions: seq<Action>, i: nat)
    requires IsRun(m, timeoutMs, states, actions) && i < |states|
    ensures Invariant(m, timeoutMs, states[i])
  {
    hide Invariant, Enabled, After;
    if i == 0 {
      InitialInvariant(m, timeoutMs, states[0]);
    } else {
      RunKeepsInvariant(m, timeoutMs, states, actions, i - 1);
      StepKeepsInvariant(m, timeoutMs, states[i - 1], actions[i - 1]);
    }
  }

  lemma InitialInvariant(m: Mode, timeoutMs: nat, s: State)
    requires Initial(m, s)
    ensures Invariant(m, timeoutMs, s)
  {
  }

  // ---------------------------------------------------------------------------------------
  // The guarantees
  // ---------------------------------------------------------------------------------------

  /** However the ticks fall, no guest is interrupted before it has had its full timeout. */
  lemma NeverInterruptedEarly(m: Mode, timeoutMs: nat, states: seq<State>, actions: seq<Action>, i: nat)
    requires IsRun(m, timeoutMs, states, actions) && i < |states| && states[i].worker.Interrupted?
    ensures states[i].worker.at - states[i].worker.setAt > timeoutMs * 1_000_000
  {
    RunKeepsInvariant(m, timeoutMs, states, actions, i);
  }

  /** Time never locks: while the joiner waits, something other than standing still can happen,
      however exact the ticks and however prompt the interrupt. */
  lemma NeverStuck(m: Mode, timeoutMs: nat, s: State) returns (a: Action)
    requires Invariant(m, timeoutMs, s) && s.joiner.Waiting?
    ensures a != Pass(0) && Enabled(m, timeoutMs, s, a)
  {
    if m.guestComputes && Due(timeoutMs, s) {
      a := Interrupt;
    } else if s.now == s.joiner.since + JoinBudget(timeoutMs) * MS {
      a := Expire;
    } else if m.exactTicks && s.now == s.lastTick + EPOCH_TICK_MS * MS {
      a := Tick;
    } else {
      a := Pass(1);
    }
  }

  /** What can still happen before the wait ends: the worker's stages, the time left, and at most
      one tick for every moment. */
  function StepsLeft(timeoutMs: nat, s: State): int
    requires s.joiner.Waiting?
  {
    (if s.worker.Starting? then 2 else if s.worker.Computing? then 1 else 0)
    + 2 * (s.joiner.since + JoinBudget(timeoutMs) * MS - s.now)
    + (if s.now >= s.lastTick + EPOCH_TICK_MS * MS then 1 else 0)
  }

  lemma StepMakesProgress(m: Mode, timeoutMs: nat, s: State, a: Action)
    requires Enabled(m, timeoutMs, s, a) && s.joiner.Waiting? && a != Pass(0)
    ensures var t := After(m, timeoutMs, s, a);
      && (t.joiner.Waiting? ==> t.joiner == s.joiner && StepsLeft(timeoutMs, t) < StepsLeft(timeoutMs, s))
      && (!t.joiner.Waiting? ==> t.now == s.now)
  {
  }

  /** A wait of so many proper steps is impossible. */
  function StepBound(timeoutMs: nat): nat {
    2 * JoinBudget(timeoutMs) * MS + 3
  }

  /** Whatever happens, as long as things do happen, the wait that is on at state i ends, and no
      later than its budget: j is the first state after it. */
  lemma WaitEnds(m: Mode, timeoutMs: nat, states: seq<State>, actions: seq<Action>, i: nat) returns (j: nat)
    requires IsRun(m, timeoutMs, states, actions) && i + StepBound(timeoutMs) < |actions| && states[i].joiner.Waiting?
    requires forall k :: i <= k < |actions| ==> actions[k] != Pass(0)
    ensures i < j < |states| && !states[j].joiner.Waiting?
    ensures forall k :: i <= k < j ==> states[k].joiner == states[i].joiner
    ensures states[j].now - states[i].joiner.since <= (timeoutMs + 2_200) * 1_000_000
  {
    hide Enabled, After, StepsLeft;
    j := i;
    RunKeepsInvariant(m, timeoutMs, states, actions, i);
    StepsLeftBounds(m, timeoutMs, states[i]);
    while states[j].joiner.Waiting?
      invariant i <= j < |states| && states[j].joiner.Waiting?
      invariant states[j].joiner == states[i].joiner
      invariant j - i <= StepsLeft(timeoutMs, states[i]) - StepsLeft(timeoutMs, states[j])
      invariant forall k :: i <= k <= j ==> states[k].joiner == states[i].joiner
      decreases |states| - j
    {
      RunKeepsInvariant(m, timeoutMs, states, actions, j);
      StepsLeftBounds(m, timeoutMs, states[j]);
      StepMakesProgress(m, timeoutMs, states[j], actions[j]);
      if !states[j + 1].joiner.Waiting? {
        j := j + 1;
        return;
      }
      j := j + 1;
      RunKeepsInvariant(m, timeoutMs, states, actions, j);
      StepsLeftBounds(m, timeoutMs, states[j]);
    }
  }

  lemma StepsLeftBounds(m: Mode, timeoutMs: nat, s: State)
    requires Invariant(m, timeoutMs, s) && s.joiner.Waiting?
    ensures 0 <= StepsLeft(timeoutMs, s) <= StepBound(timeoutMs)
  {
  }

  /** And things can always happen: every run that has come to a wait extends to one that leaves
      it, within the budget. */
  lemma {:induction false} WaitCanEnd(m: Mode, timeoutMs: nat, states: seq<State>, actions: seq<Action>)
      returns (later: seq<State>, further: seq<Action>)
    requires IsRun(m, timeoutMs, states, actions) && states[|actions|].joiner.Waiting?
    ensures IsRun(m, timeoutMs, states + later, actions + further) && later != [] && Pass(0) !in further
    ensures !later[|later| - 1].joiner.Waiting?
    ensures later[|later| - 1].now - states[|actions|].joiner.since <= JoinBudget(timeoutMs) * MS
    decreases StepsLeft(timeoutMs, states[|actions|])
  {
    hide Invariant, Enabled, After, StepsLeft, Initial;
    var s := states[|actions|];
    RunKeepsInvariant(m, timeoutMs, states, actions, |actions|);
    var a := NeverStuck(m, timeoutMs, s);
    var t := After(m, timeoutMs, s, a);
    StepMakesProgress(m, timeoutMs, s, a);
    StepsLeftBounds(m, timeoutMs, s);
    OneMoreStep(m, timeoutMs, states, actions, a);
    if t.joiner.Waiting? {
      later, further := WaitCanEnd(m, timeoutMs, states + [t], actions + [a]);
      assert states + ([t] + later) == states + [t] + later;
      assert actions + ([a] + further) == actions + [a] + further;
      later, further := [t] + later, [a] + further;
    } else {
      WaitWithinBudget(m, timeoutMs, s);
      later, further := [t], [a];
    }
  }

  lemma WaitWithinBudget(m: Mode, timeoutMs: nat, s: State)
    requires Invariant(m, timeoutMs, s) && s.joiner.Waiting?
    ensures s.now - s.joiner.since <= JoinBudget(timeoutMs) * MS
  {
  }

  lemma OneMoreStep(m: Mode, timeoutMs: nat, states: seq<State>, actions: seq<Action>, a: Action)
    requires IsRun(m, timeoutMs, states, actions) && Enabled(m, timeoutMs, states[|actions|], a)
    ensures IsRun(m, timeoutMs, states + [After(m, timeoutMs, states[|actions|], a)], actions + [a])
  {
    hide Enabled, After, Initial;
  }

  /** On every interleaving `run_guest` waits no longer than its budget, gives up only then, and
      until then is never stuck. */
  lemma WaitIsBounded(m: Mode, timeoutMs: nat, states: seq<State>, actions: seq<Action>, i: nat)
    requires IsRun(m, timeoutMs, states, actions) && i < |states|
    ensures states[i].joiner.Waiting? ==> states[i].now - states[i].joiner.since <= (timeoutMs + 2_200) * 1_000_000
    ensures states[i].joiner.Waiting? ==> exists a :: a != Pass(0) && Enabled(m, timeoutMs, states[i], a)
    ensures states[i].joiner.Expired? ==> states[i].joiner.at - states[i].joiner.since == (timeoutMs + 2_200) * 1_000_000
  {
    RunKeepsInvariant(m, timeoutMs, states, actions, i);
    if states[i].joiner.Waiting? {
      var a := NeverStuck(m, timeoutMs, states[i]);
    }
  }

  /** With exact ticks, a computing guest whose deadline was set within the grace is interrupted
      before the wait expires: the epoch deadline is the inner net, the join timeout the outer. */
  lemma EpochBeforeJoin(timeoutMs: nat, states: seq<State>, actions: seq<Action>, i: nat)
    requires IsRun(Mode(true, true), timeoutMs, states, actions) && i < |states| && states[i].joiner.Expired?
    ensures states[i].worker.Computing? ==> states[i].worker.setAt - states[i].joiner.since >= 2_000 * 1_000_000
    ensures states[i].worker.Interrupted? && states[i].worker.setAt - states[i].joiner.since < 2_000 * 1_000_000 ==>
      states[i].worker.at < states[i].joiner.at
  {
    RunKeepsInvariant(Mode(true, true), timeoutMs, states, actions, i);
  }

  /** Neither sum overflows for limits a policy can hold. */
  lemma NoOverflow(l: Limits)
    requires InRange(l)
    ensures JoinBudget(l.timeoutMs) < USIZE_LIMIT && TicksBeyond(l.timeoutMs) < USIZE_LIMIT
  {
  }
}

/** From a finished guest run to the call's outcome. */
module Outcome {
  import opened Wrappers
  import opened Bytes
  import opened ToolPolicy
  import opened PolicyProperties
  import opened Json
  import opened Rpc
  import opened Runner

  const OUTPUT_SLACK_BYTES := 4_096

  datatype ExitKind = Clean | Exit(code: int) | Trapped(failure: FailClass, detail: Text) | HostError(detail: Text)

  datatype RunOutput = RunOutput(stdout: Text, stderrBytes: nat, exit: ExitKind, fuelUsed: Option<nat>, durationMs: nat)

  /** What the guest may print, and what the pipe keeps of it. */
  function OutputBudget(outputMaxKb: nat): nat { SaturatingMul(outputMaxKb, 1024) }
  function PipeCapacity(outputMaxKb: nat): nat { SaturatingAdd(OutputBudget(outputMaxKb), OUTPUT_SLACK_BYTES) }

  /** The slack makes the pipe long enough to tell an overflow from output that just fits. */
  lemma OverflowIsVisible(l: Limits, printed: nat)
    requires InRange(l)
    ensures OutputBudget(l.outputMaxKb) == 1024 * l.outputMaxKb
    ensures Min(printed, PipeCapacity(l.outputMaxKb)) > OutputBudget(l.outputMaxKb) <==> printed > 1024 * l.outputMaxKb
  {
  }

  /** Why a run without an answer failed. */
  function FailureOf(exit: ExitKind): FailClass {
    match exit
    case Trapped(failure, _) => failure
    case HostError(_) => Internal
    case Exit(code) => if code != 0 then GuestExit else NoResponse
    case Clean => NoResponse
  }

  predicate OverBudget(run: RunOutput, outputMaxKb: nat) {
    |run.stdout| > Min(1024 * outputMaxKb, USIZE_LIMIT - 1)
  }

  /** What is reported of a guest run: the answer in its output, unless there is too much of it or
      none, in which case the way it ended tells why; and all its figures. */
  predicate Reports(parse: Parser, run: RunOutput, outputMaxKb: nat, r: CallResult) {
    var over, scan := OverBudget(run, outputMaxKb), Extract(parse, 2, run.stdout);
    var exitCode := match run.exit case Clean => Some(0) case Exit(code) => Some(code) case _ => None;
    && r.stats == CallStats(run.durationMs, run.fuelUsed, |run.stdout|, run.stderrBytes,
                            if over then 0 else scan.garbage, exitCode)
    && if over then r.outcome.Failed? && r.outcome.failure == OutputOverflow
       else if scan.found.Some? then r.outcome == Completed(scan.found.value)
       else
         match run.exit
         case Trapped(failure, detail) => r.outcome == Failed(failure, detail)
         case HostError(detail) => r.outcome == Failed(Internal, detail)
         case Exit(code) => r.outcome.Failed? && r.outcome.failure == if code == 0 then NoResponse else GuestExit
         case Clean => r.outcome.Failed? && r.outcome.failure == NoResponse
  }

  /** `WasmRunner::call`, after the guest has run. */
  method CallResultOf(parse: Parser, run: RunOutput, outputMaxKb: nat) returns (r: CallResult)
    ensures Reports(parse, run, outputMaxKb, r)
    ensures |run.stdout| > OutputBudget(outputMaxKb) ==> r.outcome.Failed? && r.outcome.failure == OutputOverflow
    ensures r.outcome.Completed? <==>
      |run.stdout| <= OutputBudget(outputMaxKb) && Extract(parse, GUEST_CALL_ID, run.stdout).found.Some?
    ensures r.outcome.Completed? ==> Some(r.outcome.response) == Extract(parse, GUEST_CALL_ID, run.stdout).found
    ensures |run.stdout| <= OutputBudget(outputMaxKb) && r.outcome.Failed? ==> r.outcome.failure == FailureOf(run.exit)
    ensures r.stats.stdoutBytes == |run.stdout| && r.stats.durationMs == run.durationMs && r.stats.fuelUsed == run.fuelUsed
    ensures r.stats.garbageLines ==
      if |run.stdout| > OutputBudget(outputMaxKb) then 0 else Extract(parse, GUEST_CALL_ID, run.stdout).garbage
    ensures r.stats.exitCode.Some? <==> run.exit.Clean? || run.exit.Exit?
  {
    var exitCode := None;
    match run.exit {
      case Clean => exitCode := Some(0);
      case Exit(c) => exitCode := Some(c);
      case _ =>
    }
    var stats := CallStats(run.durationMs, run.fuelUsed, |run.stdout|, run.stderrBytes, 0, exitCode);
    if stats.stdoutBytes > OutputBudget(outputMaxKb) {
      return CallResult(Failed(OutputOverflow, []), stats);
    }
    var response, garbage, _ := ExtractResponse(parse, run.stdout, GUEST_CALL_ID);
    stats := stats.(garbageLines := garbage);
    if response.Some? {
      return CallResult(Completed(response.value), stats);
    }
    match run.exit {
      case Trapped(failure, detail) => return CallResult(Failed(failure, detail), stats);
      case HostError(detail) => return CallResult(Failed(Internal, detail), stats);
      case Exit(code) =>
        if code != 0 {
          return CallResult(Failed(GuestExit, []), stats);
        }
        return CallResult(Failed(NoResponse, []), stats);
      case Clean => return CallResult(Failed(NoResponse, []), stats);
    }
  }
}
