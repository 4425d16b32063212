/**
  The netfilter committer: one worker goroutine, callers that send requests and mode
  commands, a latch and a safety timer. Every step below is one atomic action of one party;
  a run is any interleaving of enabled steps.

  Requests are numbered in the order they are sent. A queue token, the latch and the timer
  carry the number of the request they stem from.
 */
module Committer {
  import opened Text

  datatype Mode = Starting | Ready | Paused | Stopping
  {
    /** Commands that drop what is pending. */
    predicate Drops() { Paused? || Stopping? }
  }

  datatype Pc =
    | AtSelect
    | GotCommand(m: Mode)   // received, queue not drained yet
    | Acking(m: Mode)       // handled, not yet acknowledged
    | Dispatch(src: nat)    // took a request or the timer, context not checked yet
    | Decided(src: nat)     // context was alive, mode not looked at yet
    | Passing(src: nat)
    | Exited                // `done` is closed

  datatype State = State(
    pc: Pc,
    mode: Mode,
    latched: Option<nat>,
    timer: Option<nat>,
    req: Option<nat>,
    wake: bool,
    cancelled: bool,
    stopReturned: bool,
    wakers: nat,      // requesters between their two sends
    sent: nat,        // requests sent so far
    pausedAt: nat,    // `sent` when the last dropping command was received
    ackedAt: nat)     // `sent` when the last dropping command was acknowledged

  const INIT := State(AtSelect, Starting, None, None, None, false, false, false, 0, 0, 0, 0)

  datatype Step =
    // callers
    | SendRequest | SendWake | Cancel | StopReturn
    // the worker
    | SelectDone | SelectCommand(m: Mode) | SelectRequest | SelectTimer
    | HandleCommand | Acknowledge
    | CheckContext | Decide
    | PassConsumesWake | PassEnds(failed: bool)

  /** What a step does; None when it is not enabled. */
  function Next(s: State, step: Step): Option<State>
  {
    match step
    case SendRequest =>
      Some(s.(req := if s.req.None? then Some(s.sent) else s.req, sent := s.sent + 1, wakers := s.wakers + 1))
    case SendWake => if s.wakers == 0 then None else Some(s.(wake := true, wakers := s.wakers - 1))
    case Cancel => Some(s.(cancelled := true))
    case StopReturn => if s.cancelled && s.pc.Exited? then Some(s.(stopReturned := true)) else None
    case SelectDone => if s.pc.AtSelect? && s.cancelled then Some(s.(pc := Exited)) else None
    case SelectCommand(m) =>
      if !s.pc.AtSelect? then None
      else Some(s.(pc := GotCommand(m), pausedAt := if m.Drops() then s.sent else s.pausedAt))
    case SelectRequest =>
      if s.pc.AtSelect? && s.req.Some? then Some(s.(pc := Dispatch(s.req.value), req := None, timer := None)) else None
    case SelectTimer =>
      if s.pc.AtSelect? && s.timer.Some? then Some(s.(pc := Dispatch(s.timer.value), timer := None)) else None
    case HandleCommand => if s.pc.GotCommand? then Some(Handle(s, s.pc.m)) else None
    case Acknowledge =>
      if !s.pc.Acking? then None
      else Some(s.(pc := AtSelect, mode := s.pc.m, ackedAt := if s.pc.m.Drops() then s.sent else s.ackedAt))
    case CheckContext =>
      if !s.pc.Dispatch? then None
      else Some(s.(pc := if s.cancelled then Exited else Decided(s.pc.src)))
    case Decide => if s.pc.Decided? then Some(DecideByMode(s, s.pc.src)) else None
    case PassConsumesWake => if s.pc.Passing? && s.wake then Some(s.(wake := false)) else None
    case PassEnds(failed) =>
      if !s.pc.Passing? then None
      else if !failed then Some(s.(pc := AtSelect))
      else if s.cancelled then Some(s.(pc := Exited))
      else Some(s.(pc := AtSelect, timer := Some(s.pc.src)))
  }

  function Handle(s: State, m: Mode): State
  {
    match m
    case Starting => s.(pc := Acking(m))
    case Ready =>
      if s.latched.None? then s.(pc := Acking(m))
      else s.(pc := Acking(m), latched := None, req := if s.req.None? then s.latched else s.req, wake := true)
    case _ => s.(pc := Acking(m), latched := None, timer := None, req := None)
  }

  function DecideByMode(s: State, src: nat): State
  {
    match s.mode
    case Stopping => s.(pc := Exited)
    case Starting => s.(pc := AtSelect, latched := Some(src))
    case Paused => s.(pc := AtSelect)
    case Ready => s.(pc := Passing(src), wake := false)
  }

  predicate BeginsPass(s: State, step: Step)
  {
    step.Decide? && Next(s, step).Some? && Next(s, step).value.pc.Passing?
  }

  function Run(steps: seq<Step>): Option<State>
  {
    if steps == [] then Some(INIT)
    else
      match Run(steps[..|steps| - 1])
      case None => None
      case Some(s) => Next(s, steps[|steps| - 1])
  }

  function Sends(steps: seq<Step>): nat
  {
    if steps == [] then 0
    else Sends(steps[..|steps| - 1]) + if steps[|steps| - 1].SendRequest? then 1 else 0
  }

  /** Every part of a run is a run. */
  lemma {:induction false} RunPrefix(steps: seq<Step>, n: nat)
    requires Run(steps).Some? && n <= |steps|
    ensures Run(steps[..n]).Some?
  {
    if n < |steps| {
      RunPrefix(steps[..|steps| - 1], n);
      assert steps[..|steps| - 1][..n] == steps[..n];
    } else {
      assert steps[..n] == steps;
    }
  }

  // ---- The invariant ----

  predicate Fresh(s: State, token: Option<nat>)
  {
    token.Some? ==> s.pausedAt <= token.value < s.sent
  }

  /** Until the queue is drained, what is pending may be older than the pause. */
  predicate Draining(s: State) { s.pc.GotCommand? && s.pc.m.Drops() }

  function Held(pc: Pc): Option<nat>
  {
    match pc
    case Dispatch(n) => Some(n)
    case Decided(n) => Some(n)
    case Passing(n) => Some(n)
    case _ => None
  }

  predicate Inv(s: State)
  {
    && s.pausedAt <= s.sent
    && (!Draining(s) ==> Fresh(s, s.req) && Fresh(s, s.latched) && Fresh(s, s.timer))
    && Fresh(s, Held(s.pc))
    && (s.latched.Some? ==> s.mode == Starting && !(s.pc.Acking? && s.pc.m != Starting))
    && (s.pc.Passing? ==> s.mode == Ready)
    && (s.stopReturned ==> s.pc == Exited)
    && (s.pc.Acking? && s.pc.m.Drops() ==> s.timer.None?)
  }

  predicate ByWorker(step: Step)
  {
    !step.SendRequest? && !step.SendWake? && !step.Cancel? && !step.StopReturn?
  }

  lemma CallerKeepsInv(s: State, step: Step)
    requires Inv(s) && Next(s, step).Some?
    requires !ByWorker(step)
    ensures Inv(Next(s, step).value)
  {
  }

  lemma SelectKeepsInv(s: State, step: Step)
    requires Inv(s) && Next(s, step).Some?
    requires step.SelectDone? || step.SelectCommand? || step.SelectRequest? || step.SelectTimer?
    ensures Inv(Next(s, step).value)
  {
  }

  lemma HandleKeepsInv(s: State, step: Step)
    requires Inv(s) && Next(s, step).Some?
    requires step.HandleCommand?
    ensures Inv(Next(s, step).value)
  {
    HandledInv(s, s.pc.m);
  }

  lemma HandledInv(s: State, m: Mode)
    requires Inv(s) && s.pc == GotCommand(m)
    ensures Inv(Handle(s, m))
  {
  }

  lemma AcknowledgeKeepsInv(s: State, step: Step)
    requires Inv(s) && Next(s, step).Some?
    requires step.Acknowledge?
    ensures Inv(Next(s, step).value)
  {
  }

  lemma CheckKeepsInv(s: State, step: Step)
    requires Inv(s) && Next(s, step).Some?
    requires step.CheckContext?
    ensures Inv(Next(s, step).value)
  {
  }

  lemma DecideKeepsInv(s: State, step: Step)
    requires Inv(s) && Next(s, step).Some?
    requires step.Decide?
    ensures Inv(Next(s, step).value)
  {
    DecidedInv(s, s.pc.src);
  }

  lemma DecidedInv(s: State, src: nat)
    requires Inv(s) && s.pc == Decided(src)
    ensures Inv(DecideByMode(s, src))
  {
  }

  lemma PassKeepsInv(s: State, step: Step)
    requires Inv(s) && Next(s, step).Some?
    requires step.PassConsumesWake? || step.PassEnds?
    ensures Inv(Next(s, step).value)
  {
  }

  lemma StepKeepsInv(s: State, step: Step)
    requires Inv(s) && Next(s, step).Some?
    ensures Inv(Next(s, step).value)
  {
    match step
    case HandleCommand => HandleKeepsInv(s, step);
    case Acknowledge => AcknowledgeKeepsInv(s, step);
    case CheckContext => CheckKeepsInv(s, step);
    case Decide => DecideKeepsInv(s, step);
    case PassConsumesWake => PassKeepsInv(s, step);
    case PassEnds(_) => PassKeepsInv(s, step);
    case _ =>
      if ByWorker(step) {
        SelectKeepsInv(s, step);
      } else {
        CallerKeepsInv(s, step);
      }
  }

  lemma {:induction false} RunInv(steps: seq<Step>)
    requires Run(steps).Some?
    ensures Inv(Run(steps).value)
  {
    if steps != [] {
      var before := steps[..|steps| - 1];
      RunInv(before);
      StepKeepsInv(Run(before).value, steps[|steps| - 1]);
    }
  }

  /** `sent` and `pausedAt` count sends in the run itself. */
  lemma {:induction false} SentCounts(steps: seq<Step>)
    requires Run(steps).Some?
    ensures Run(steps).value.sent == Sends(steps)
  {
    if steps != [] {
      SentCounts(steps[..|steps| - 1]);
    }
  }

  lemma {:induction false} PausedAtCounts(steps: seq<Step>, i: nat)
    requires Run(steps).Some? && i < |steps| && steps[i].SelectCommand? && steps[i].m.Drops()
    ensures Sends(steps[..i]) <= Run(steps).value.pausedAt
  {
    var before := steps[..|steps| - 1];
    if i < |before| {
      assert before[..i] == steps[..i];
      PausedAtCounts(before, i);
      RunInv(before);
      PausedAtGrows(Run(before).value, steps[|before|]);
    } else {
      SentCounts(before);
      assert steps[..i] == before;
    }
  }

  lemma PausedAtGrows(s: State, step: Step)
    requires Next(s, step).Some? && s.pausedAt <= s.sent
    ensures s.pausedAt <= Next(s, step).value.pausedAt
  {
  }

  lemma {:induction false} NthSend(steps: seq<Step>, n: nat) returns (j: nat)
    requires n < Sends(steps)
    ensures j < |steps| && steps[j].SendRequest? && Sends(steps[..j]) == n
  {
    var before := steps[..|steps| - 1];
    if n < Sends(before) {
      j := NthSend(before, n);
      assert before[..j] == steps[..j];
    } else {
      j := |steps| - 1;
    }
  }

  lemma {:induction false} SendsGrow(steps: seq<Step>, i: nat, j: nat)
    requires i <= j <= |steps|
    ensures Sends(steps[..i]) <= Sends(steps[..j])
    decreases j
  {
    if i < j {
      assert steps[..j][..j - 1] == steps[..j - 1];
      SendsGrow(steps, i, j - 1);
    }
  }

  // ---- The mode ----

  /** The command the worker is busy with after these steps. */
  function Taken(steps: seq<Step>): Option<Mode>
  {
    if steps == [] then None
    else
      var last := steps[|steps| - 1];
      if last.SelectCommand? then Some(last.m)
      else if last.Acknowledge? then None
      else Taken(steps[..|steps| - 1])
  }

  /** The last command acknowledged in these steps. */
  function LastAcked(steps: seq<Step>): Option<Mode>
  {
    if steps == [] then None
    else
      var before := steps[..|steps| - 1];
      if steps[|steps| - 1].Acknowledge? then Taken(before) else LastAcked(before)
  }

  function ModeOf(acked: Option<Mode>): Mode { if acked.Some? then acked.value else Starting }

  function InHand(pc: Pc): Option<Mode>
  {
    match pc
    case GotCommand(m) => Some(m)
    case Acking(m) => Some(m)
    case _ => None
  }

  /** In every run the mode is that of the last acknowledged command, Starting if there is none. */
  lemma {:induction false} ModeIsLastAcked(run: seq<Step>)
    requires Run(run).Some?
    ensures Run(run).value.mode == ModeOf(LastAcked(run)) && InHand(Run(run).value.pc) == Taken(run)
  {
    if run != [] {
      ModeIsLastAcked(run[..|run| - 1]);
      CommandStep(Run(run[..|run| - 1]).value, run[|run| - 1]);
    }
  }

  lemma CommandStep(s: State, step: Step)
    requires Next(s, step).Some?
    ensures var t := Next(s, step).value;
            && InHand(t.pc) == (if step.SelectCommand? then Some(step.m) else if step.Acknowledge? then None
                                else InHand(s.pc))
            && t.mode == (if step.Acknowledge? && InHand(s.pc).Some? then InHand(s.pc).value else s.mode)
            && (step.Acknowledge? ==> InHand(s.pc).Some?)
  {
  }

  /** A pass begins only if the last acknowledged command was to be ready. */
  lemma PassOnlyWhenLastAckedReady(run: seq<Step>)
    requires Run(run).Some? && BeginsPass(Run(run).value, Decide)
    ensures LastAcked(run) == Some(Ready)
  {
    ModeIsLastAcked(run);
  }

  /** Step `i` acknowledges a pause: no pass begins until a later step acknowledges Ready. */
  lemma NoPassWhilePaused(run: seq<Step>, i: nat)
    requires Run(run).Some? && i < |run| && run[i].Acknowledge? && Taken(run[..i]) == Some(Paused)
    requires forall j | i < j < |run| && run[j].Acknowledge? :: Taken(run[..j]) != Some(Ready)
    ensures !BeginsPass(Run(run).value, Decide)
  {
    NotReadySince(run, i);
    ModeIsLastAcked(run);
  }

  lemma {:induction false} NotReadySince(run: seq<Step>, i: nat)
    requires i < |run| && run[i].Acknowledge? && Taken(run[..i]) == Some(Paused)
    requires forall j | i < j < |run| && run[j].Acknowledge? :: Taken(run[..j]) != Some(Ready)
    ensures LastAcked(run) != Some(Ready)
    decreases |run|
  {
    var n := |run| - 1;
    if i < n {
      var before := run[..n];
      assert before[..i] == run[..i];
      forall j | i < j < |before| && before[j].Acknowledge?
        ensures Taken(before[..j]) != Some(Ready)
      {
        assert before[..j] == run[..j];
      }
      NotReadySince(before, i);
    }
  }

  /** After a context check that comes after the cancellation the worker has exited: only a
      pass whose check came before can still begin. */
  lemma {:induction false} NoPassAfterCancel(run: seq<Step>, i: nat, j: nat)
    requires Run(run).Some? && i < j < |run| && run[i].Cancel? && run[j].CheckContext?
    ensures Run(run).value.pc.Exited? && !BeginsPass(Run(run).value, Decide)
    decreases |run|
  {
    var n := |run| - 1;
    if j < n {
      assert run[..n][i] == run[i] && run[..n][j] == run[j];
      NoPassAfterCancel(run[..n], i, j);
      ExitedIsFinal(Run(run[..n]).value, run[n]);
    } else {
      assert run[..n][i] == run[i];
      StaysCancelled(run[..n], i);
      CancelledCheckExits(Run(run[..n]).value);
    }
  }

  lemma CancelledCheckExits(s: State)
    requires s.cancelled && Next(s, CheckContext).Some?
    ensures Next(s, CheckContext).value.pc.Exited?
  {
  }

  lemma {:induction false} StaysCancelled(run: seq<Step>, i: nat)
    requires Run(run).Some? && i < |run| && run[i].Cancel?
    ensures Run(run).value.cancelled
    decreases |run|
  {
    if i < |run| - 1 {
      StaysCancelled(run[..|run| - 1], i);
    }
  }

  // ---- What passes come from ----

  function Begins(steps: seq<Step>): nat
  {
    if steps == [] then 0
    else
      var before := steps[..|steps| - 1];
      Begins(before) + if Run(before).Some? && BeginsPass(Run(before).value, steps[|steps| - 1]) then 1 else 0
  }

  function Failures(steps: seq<Step>): nat
  {
    if steps == [] then 0
    else Failures(steps[..|steps| - 1]) + if steps[|steps| - 1] == PassEnds(true) then 1 else 0
  }

  function One(token: Option<nat>): nat { if token.Some? then 1 else 0 }

  /** What can still lead to a pass. */
  function Tokens(s: State): nat
  {
    One(s.req) + One(s.latched) + One(s.timer) + if s.pc.Dispatch? || s.pc.Decided? then 1 else 0
  }

  /** Every pass answers a request or a failed pass, and none is answered twice. */
  lemma {:induction false} PassesHaveCauses(run: seq<Step>)
    requires Run(run).Some?
    ensures Begins(run) + Tokens(Run(run).value) <= Sends(run) + Failures(run)
  {
    if run != [] {
      PassesHaveCauses(run[..|run| - 1]);
      TokensStep(Run(run[..|run| - 1]).value, run[|run| - 1]);
    }
  }

  lemma TokensStep(s: State, step: Step)
    requires Next(s, step).Some?
    ensures Tokens(Next(s, step).value) + (if BeginsPass(s, step) then 1 else 0)
            <= Tokens(s) + (if step.SendRequest? || step == PassEnds(true) then 1 else 0)
  {
    match step
    case HandleCommand => HandleTokens(s, s.pc.m);
    case Decide => DecideTokens(s, s.pc.src);
    case _ =>
  }

  lemma HandleTokens(s: State, m: Mode)
    requires s.pc == GotCommand(m)
    ensures Tokens(Handle(s, m)) <= Tokens(s)
  {
  }

  lemma DecideTokens(s: State, src: nat)
    requires s.pc == Decided(src)
    ensures Tokens(DecideByMode(s, src)) + (if DecideByMode(s, src).pc.Passing? then 1 else 0) <= Tokens(s)
  {
  }

  // ---- Safety over all runs ----

  /** A pass begins only when ready, and stems from a request sent after every pause (or
      stop) command received so far: request number `n` of the run, sent at step `j`. */
  lemma PassStemsFromLaterRequest(steps: seq<Step>, i: nat) returns (j: nat)
    requires Run(steps).Some? && BeginsPass(Run(steps).value, Decide)
    requires i < |steps| && steps[i].SelectCommand? && steps[i].m.Drops()
    ensures Run(steps).value.mode == Ready && LastAcked(steps) == Some(Ready)
    ensures i < j < |steps| && steps[j].SendRequest?
    ensures Sends(steps[..j]) == Next(Run(steps).value, Decide).value.pc.src
  {
    RunInv(steps);
    PassOnlyWhenLastAckedReady(steps);
    SentCounts(steps);
    PausedAtCounts(steps, i);
    var s := Run(steps).value;
    j := NthSend(steps, s.pc.src);
    if j <= i {
      assert steps[..j + 1][..j] == steps[..j];
      assert Sends(steps[..j + 1]) == s.pc.src + 1;
      if j < i {
        SendsGrow(steps, j + 1, i);
      }
      assert false;
    }
  }

  lemma ExitedIsFinal(s: State, step: Step)
    requires s.pc.Exited?
    ensures ByWorker(step) ==> Next(s, step).None?
    ensures Next(s, step).Some? ==> Next(s, step).value.pc.Exited?
  {
  }

  /** Once `stop` has returned, no step of the worker is enabled, at any later point: in
      particular no pass begins or goes on. */
  lemma {:induction false} NothingRunsAfterStop(steps: seq<Step>, i: nat)
    requires Run(steps).Some? && i < |steps| && steps[i].StopReturn?
    ensures Run(steps).value.pc.Exited?
    ensures forall step: Step :: ByWorker(step) ==> Next(Run(steps).value, step).None?
  {
    var before := steps[..|steps| - 1];
    if i < |before| {
      NothingRunsAfterStop(before, i);
      ExitedIsFinal(Run(before).value, steps[|before|]);
    }
    forall step | ByWorker(step)
      ensures Next(Run(steps).value, step).None?
    {
      ExitedIsFinal(Run(steps).value, step);
    }
  }

  /** The same about acknowledgement instead of receipt is false: a request that arrives
      between the drain and the acknowledgement survives the pause and runs after resuming. */
  lemma RequestDuringAckSurvives() returns (steps: seq<Step>)
    ensures Run(steps).Some? && BeginsPass(Run(steps).value, Decide)
    ensures Next(Run(steps).value, Decide).value.pc.src < Run(steps).value.ackedAt
  {
    var paused := INIT.(pc := AtSelect, mode := Paused, req := Some(0), sent := 1, wakers := 1, ackedAt := 1);
    steps := RequestMeetsAck(paused);
    steps := CommandTaken(steps, paused, Ready);
    var ready := paused.(mode := Ready);
    Extend(steps, ready, SelectRequest, ready.(pc := Dispatch(0), req := None));
    steps := steps + [SelectRequest];
    Extend(steps, ready.(pc := Dispatch(0), req := None), CheckContext, ready.(pc := Decided(0), req := None));
    steps := steps + [CheckContext];
  }

  lemma PauseReceived() returns (steps: seq<Step>)
    ensures Run(steps) == Some(INIT.(pc := Acking(Paused)))
  {
    Extend([], INIT, SelectCommand(Paused), INIT.(pc := GotCommand(Paused)));
    steps := [] + [SelectCommand(Paused)];
    Extend(steps, INIT.(pc := GotCommand(Paused)), HandleCommand, INIT.(pc := Acking(Paused)));
    steps := steps + [HandleCommand];
  }

  lemma RequestMeetsAck(paused: State) returns (steps: seq<Step>)
    requires paused == INIT.(pc := AtSelect, mode := Paused, req := Some(0), sent := 1, wakers := 1, ackedAt := 1)
    ensures Run(steps) == Some(paused)
  {
    steps := PauseReceived();
    var arrived := INIT.(pc := Acking(Paused), req := Some(0), sent := 1, wakers := 1);
    Extend(steps, INIT.(pc := Acking(Paused)), SendRequest, arrived);
    steps := steps + [SendRequest];
    Extend(steps, arrived, Acknowledge, paused);
    steps := steps + [Acknowledge];
  }

  /** A command that drops nothing and finds nothing latched only changes the mode. */
  lemma CommandTaken(steps: seq<Step>, s: State, m: Mode) returns (more: seq<Step>)
    requires Run(steps) == Some(s) && s.pc.AtSelect? && s.latched.None? && m == Ready
    ensures Run(more) == Some(s.(mode := m))
  {
    Extend(steps, s, SelectCommand(m), s.(pc := GotCommand(m)));
    more := steps + [SelectCommand(m)];
    Extend(more, s.(pc := GotCommand(m)), HandleCommand, s.(pc := Acking(m)));
    more := more + [HandleCommand];
    Extend(more, s.(pc := Acking(m)), Acknowledge, s.(mode := m));
    more := more + [Acknowledge];
  }

  lemma Extend(steps: seq<Step>, s: State, step: Step, next: State)
    requires Run(steps) == Some(s) && Next(s, step) == Some(next)
    ensures Run(steps + [step]) == Some(next)
  {
    assert (steps + [step])[..|steps|] == steps;
  }

  // ---- Runs from a state on ----

  function RunFrom(s: State, steps: seq<Step>): Option<State>
    decreases |steps|
  {
    if steps == [] then Some(s)
    else
      match Next(s, steps[0])
      case None => None
      case Some(next) => RunFrom(next, steps[1..])
  }

  /** A run is its first part and what follows from there. */
  lemma {:induction false} RunSplits(steps: seq<Step>, i: nat)
    requires Run(steps).Some? && i <= |steps|
    ensures Run(steps[..i]).Some? && RunFrom(Run(steps[..i]).value, steps[i..]) == Run(steps)
    decreases |steps| - i
  {
    if i == |steps| {
      assert steps[..i] == steps;
    } else {
      RunSplits(steps, i + 1);
      RunPrefix(steps, i);
      assert steps[..i + 1][..i] == steps[..i] && steps[i..][0] == steps[i] && steps[i..][1..] == steps[i + 1..];
    }
  }

  // ---- Pauses and their acknowledgement ----

  /** Whatever is pending or in the worker's hand, and all that is to come, is number `at` or later. */
  predicate AllFrom(s: State, at: nat)
  {
    && at <= s.sent
    && (s.req.Some? ==> at <= s.req.value) && (s.latched.Some? ==> at <= s.latched.value)
    && (s.timer.Some? ==> at <= s.timer.value) && (Held(s.pc).Some? ==> at <= Held(s.pc).value)
  }

  /** After the steps the worker is about to begin a pass for a request older than `at`. */
  predicate LeadsToOldPass(s: State, steps: seq<Step>, at: nat)
  {
    var end := RunFrom(s, steps);
    end.Some? && BeginsPass(end.value, Decide) && Next(end.value, Decide).value.pc.src < at
  }

  lemma CallerKeepsFrom(s: State, step: Step, at: nat)
    requires AllFrom(s, at) && Next(s, step).Some?
    requires !ByWorker(step)
    ensures AllFrom(Next(s, step).value, at)
  {
  }

  lemma SelectKeepsFrom(s: State, step: Step, at: nat)
    requires AllFrom(s, at) && Next(s, step).Some?
    requires step.SelectDone? || step.SelectCommand? || step.SelectRequest? || step.SelectTimer?
    ensures AllFrom(Next(s, step).value, at)
  {
  }

  lemma HandleKeepsFrom(s: State, step: Step, at: nat)
    requires AllFrom(s, at) && Next(s, step).Some?
    requires step.HandleCommand? || step.Acknowledge?
    ensures AllFrom(Next(s, step).value, at)
  {
  }

  lemma DecideKeepsFrom(s: State, step: Step, at: nat)
    requires AllFrom(s, at) && Next(s, step).Some?
    requires step.CheckContext? || step.Decide?
    ensures AllFrom(Next(s, step).value, at)
  {
  }

  lemma PassKeepsFrom(s: State, step: Step, at: nat)
    requires AllFrom(s, at) && Next(s, step).Some?
    requires step.PassConsumesWake? || step.PassEnds?
    ensures AllFrom(Next(s, step).value, at)
  {
  }

  lemma StepKeepsFrom(s: State, step: Step, at: nat)
    requires AllFrom(s, at) && Next(s, step).Some?
    ensures AllFrom(Next(s, step).value, at)
  {
    if !ByWorker(step) {
      CallerKeepsFrom(s, step, at);
    } else {
      match step
      case HandleCommand => HandleKeepsFrom(s, step, at);
      case Acknowledge => HandleKeepsFrom(s, step, at);
      case CheckContext => DecideKeepsFrom(s, step, at);
      case Decide => DecideKeepsFrom(s, step, at);
      case PassConsumesWake => PassKeepsFrom(s, step, at);
      case PassEnds(_) => PassKeepsFrom(s, step, at);
      case _ => SelectKeepsFrom(s, step, at);
    }
  }

  lemma {:induction false} NoOldPass(s: State, steps: seq<Step>, at: nat)
    requires AllFrom(s, at)
    ensures !LeadsToOldPass(s, steps, at)
    decreases |steps|
  {
    if steps != [] && Next(s, steps[0]).Some? {
      StepKeepsFrom(s, steps[0], at);
      NoOldPass(Next(s, steps[0]).value, steps[1..], at);
    }
  }

  /** Nothing new begins once the context is cancelled. */
  lemma {:induction false} NoPassWhenCancelled(s: State, steps: seq<Step>, at: nat)
    requires s.cancelled && !s.pc.Decided?
    ensures !LeadsToOldPass(s, steps, at)
    decreases |steps|
  {
    if steps != [] && Next(s, steps[0]).Some? {
      NoPassWhenCancelled(Next(s, steps[0]).value, steps[1..], at);
    }
  }

  /** The next mode change to ready lets the queued request through. */
  lemma ResumeRunsQueued(s: State) returns (steps: seq<Step>)
    requires s.pc.AtSelect? && s.req.Some? && s.latched.None? && !s.cancelled
    ensures RunFrom(s, steps).Some? && BeginsPass(RunFrom(s, steps).value, Decide)
    ensures Next(RunFrom(s, steps).value, Decide).value.pc.src == s.req.value
  {
    var s1 := s.(pc := GotCommand(Ready));
    var s2 := s.(pc := Acking(Ready));
    var s3 := s.(mode := Ready);
    var s4 := s3.(pc := Dispatch(s.req.value), req := None, timer := None);
    var s5 := s4.(pc := Decided(s.req.value));
    steps := FromStep(s4, CheckContext, s5, [], s5);
    steps := FromStep(s3, SelectRequest, s4, steps, s5);
    steps := FromStep(s2, Acknowledge, s3, steps, s5);
    steps := FromStep(s1, HandleCommand, s2, steps, s5);
    steps := FromStep(s, SelectCommand(Ready), s1, steps, s5);
  }

  lemma FromStep(s: State, step: Step, next: State, rest: seq<Step>, end: State) returns (steps: seq<Step>)
    requires Next(s, step) == Some(next) && RunFrom(next, rest) == Some(end)
    ensures RunFrom(s, steps) == Some(end)
  {
    steps := [step] + rest;
    assert steps[1..] == rest;
  }

  /** Exactly when the guarantee relative to the acknowledgement fails: in every run, at
      the acknowledgement of a pause, an older request can still begin a pass if and only if
      one was queued since the drain and the context is alive. */
  lemma OldPassAfterAckIff(run: seq<Step>)
    requires Run(run).Some? && Run(run).value.pc.Acking? && Run(run).value.pc.m.Drops()
    ensures var s := Run(run).value;
            var acked := Next(s, Acknowledge).value;
            (exists steps :: LeadsToOldPass(acked, steps, acked.ackedAt)) <==> s.req.Some? && !s.cancelled
  {
    RunInv(run);
    var s := Run(run).value;
    var acked := Next(s, Acknowledge).value;
    if s.req.Some? && !s.cancelled {
      var steps := ResumeRunsQueued(acked);
      assert LeadsToOldPass(acked, steps, acked.ackedAt);
    } else {
      forall steps
        ensures !LeadsToOldPass(acked, steps, acked.ackedAt)
      {
        if s.cancelled {
          NoPassWhenCancelled(acked, steps, acked.ackedAt);
        } else {
          NoOldPass(acked, steps, acked.ackedAt);
        }
      }
    }
  }

  // ---- Nothing is lost ----

  /** A request is on its way: in the queue, in the latch, or in the worker's hand. */
  predicate Pending(s: State)
  {
    s.req.Some? || s.latched.Some? || s.pc.Dispatch? || s.pc.Decided?
  }

  predicate Armed(s: State) { Pending(s) || s.timer.Some? }

  /** Requests count: starting or ready, and no dropping command received. */
  predicate Listening(s: State)
  {
    && !s.mode.Drops()
    && !((s.pc.GotCommand? || s.pc.Acking?) && s.pc.m.Drops())
  }

  /** No pass begins, no dropping command is received, and the worker has not exited. */
  predicate Quiet(s: State, steps: seq<Step>)
    decreases |steps|
  {
    && !s.pc.Exited?
    && (steps != [] ==>
          && !BeginsPass(s, steps[0])
          && !(steps[0].SelectCommand? && steps[0].m.Drops())
          && (Next(s, steps[0]).Some? ==> Quiet(Next(s, steps[0]).value, steps[1..])))
  }

  lemma ListeningKept(s: State, step: Step)
    requires Listening(s) && Next(s, step).Some?
    requires !BeginsPass(s, step) && !(step.SelectCommand? && step.m.Drops())
    requires !Next(s, step).value.pc.Exited?
    ensures Listening(Next(s, step).value)
    ensures Pending(s) ==> Pending(Next(s, step).value)
    ensures Armed(s) ==> Armed(Next(s, step).value)
  {
  }

  lemma {:induction false} PendingStays(s: State, steps: seq<Step>)
    requires Listening(s) && RunFrom(s, steps).Some? && Quiet(s, steps)
    ensures Listening(RunFrom(s, steps).value)
    ensures Pending(s) ==> Pending(RunFrom(s, steps).value)
    ensures Armed(s) ==> Armed(RunFrom(s, steps).value)
    decreases |steps|
  {
    if steps != [] {
      ListeningKept(s, steps[0]);
      PendingStays(Next(s, steps[0]).value, steps[1..]);
    }
  }

  lemma QuietTail(s: State, steps: seq<Step>, i: nat)
    requires i < |steps| && Quiet(s, steps[i..]) && Next(s, steps[i]).Some?
    ensures Quiet(Next(s, steps[i]).value, steps[i + 1..])
  {
    assert steps[i..][0] == steps[i] && steps[i..][1..] == steps[i + 1..];
  }

  /** Step `i` of a run sends a request while the worker listens: the request stays pending
      until a pass begins, a dropping command is received, or the worker exits. */
  lemma RequestIsNeverLost(run: seq<Step>, i: nat)
    requires Run(run).Some? && i < |run| && run[i].SendRequest?
    requires Run(run[..i]).Some? && Listening(Run(run[..i]).value) && Quiet(Run(run[..i]).value, run[i..])
    ensures Listening(Run(run).value) && Pending(Run(run).value)
  {
    RunSplits(run, i);
    RunSplits(run, i + 1);
    assert run[..i + 1][..i] == run[..i];
    QuietTail(Run(run[..i]).value, run, i);
    PendingStays(Run(run[..i + 1]).value, run[i + 1..]);
  }

  /** Step `i` of a run is the end of a failed pass: a retry stays armed under the same proviso. */
  lemma FailedPassIsRetried(run: seq<Step>, i: nat)
    requires Run(run).Some? && i < |run| && run[i] == PassEnds(true)
    requires Run(run[..i]).Some? && Quiet(Run(run[..i]).value, run[i..])
    ensures Listening(Run(run).value) && Armed(Run(run).value)
  {
    RunSplits(run, i);
    RunSplits(run, i + 1);
    assert run[..i + 1][..i] == run[..i];
    RunInv(run[..i]);
    QuietTail(Run(run[..i]).value, run, i);
    PendingStays(Run(run[..i + 1]).value, run[i + 1..]);
  }

  /** What is armed when ready can be run at once: three worker steps begin a pass. */
  lemma ArmedRunsWhenReady(s: State) returns (steps: seq<Step>)
    requires Inv(s) && s.mode == Ready && s.pc.AtSelect? && !s.cancelled && Armed(s)
    ensures |steps| == 3 && RunFrom(s, steps).Some? && RunFrom(s, steps).value.pc.Passing?
  {
    var first := if s.req.Some? then SelectRequest else SelectTimer;
    steps := [first, CheckContext, Decide];
    var s1 := Next(s, first).value;
    var s2 := Next(s1, CheckContext).value;
    assert steps[1..] == [CheckContext, Decide] && [CheckContext, Decide][1..] == [Decide] && [Decide][1..] == [];
    assert RunFrom(s2, [Decide]) == Next(s2, Decide);
    assert RunFrom(s1, [CheckContext, Decide]) == RunFrom(s2, [Decide]);
  }
}
