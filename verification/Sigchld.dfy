/**
 The parent that reaps its children from a SIGCHLD handler, waiting for the
 signal with sigsuspend(). SIGCHLD is blocked except inside sigsuspend(), and
 signals that arrive while one is pending coalesce with it.
 */
module Sigchld {

  /** Where the parent is: in its own code, asleep, or in the handler. */
  datatype Where =
    | Forking            // children are still to be started
    | Testing            // about to test numLiveChildren > 0
    | Suspended          // in sigsuspend(), SIGCHLD unblocked
    | Reaping            // in the handler's waitpid() loop
    | Lingering          // in the handler, after that loop
    | Finished

  datatype State = State(
    total: nat, at: Where, started: nat, running: set<nat>, zombies: set<nat>, reaped: seq<nat>,
    numLiveChildren: int, sigCnt: nat, pending: bool)

  /** The child that exits, or that waitpid() returns, is any of those that can. */
  datatype Step =
    | Fork
    | ForkLoopEnds
    | Exits(child: nat)
    | Test
    | Deliver
    | Reap(child: nat)
    | NothingToReap
    | HandlerReturns

  function Start(total: nat): State {
    State(total, Forking, 0, {}, {}, [], total, 0, false)
  }

  predicate CanStep(s: State, step: Step) {
    match step
    case Fork => s.at.Forking? && s.started < s.total
    case ForkLoopEnds => s.at.Forking? && s.started == s.total
    case Exits(child) => child in s.running
    case Test => s.at.Testing?
    case Deliver => s.at.Suspended? && s.pending
    case Reap(child) => s.at.Reaping? && child in s.zombies
    case NothingToReap => s.at.Reaping? && s.zombies == {}
    case HandlerReturns => s.at.Lingering?
  }

  function Next(s: State, step: Step): State
    requires CanStep(s, step)
  {
    match step
    case Fork => s.(running := s.running + {s.started}, started := s.started + 1)
    case ForkLoopEnds => s.(at := Testing)
    case Exits(child) => s.(running := s.running - {child}, zombies := s.zombies + {child}, pending := true)
    case Test => s.(at := if s.numLiveChildren > 0 then Suspended else Finished)
    case Deliver => s.(at := Reaping, pending := false)
    case Reap(child) => s.(zombies := s.zombies - {child}, reaped := s.reaped + [child], numLiveChildren := s.numLiveChildren - 1)
    case NothingToReap => s.(at := Lingering)
    case HandlerReturns => s.(at := Testing, sigCnt := s.sigCnt + 1)
  }

  // ----- the invariant -----

  ghost predicate Distinct(s: seq<nat>) {
    forall i, j :: 0 <= i < j < |s| ==> s[i] != s[j]
  }

  function Bit(b: bool): nat { if b then 1 else 0 }

  /** Each child that was started is running, a zombie or reaped, and only one of these. */
  ghost predicate Children(s: State) {
    && s.started <= s.total
    && Distinct(s.reaped)
    && s.running !! s.zombies
    && (forall c :: c in s.reaped ==> c !in s.running && c !in s.zombies)
    && (forall c: nat :: c in s.running || c in s.zombies || c in s.reaped <==> c < s.started)
    && s.started == |s.running| + |s.zombies| + |s.reaped|
  }

  /** An exit that is not yet dealt with is signalled: no wakeup is lost. */
  ghost predicate Signalled(s: State) {
    s.zombies != {} && !s.at.Reaping? ==> s.pending
  }

  /** Each handler run answers at least one exit that no other run answers. */
  ghost predicate Counted(s: State) {
    && s.sigCnt + Bit(s.pending) + Bit(s.at.Reaping? || s.at.Lingering?) <= |s.zombies| + |s.reaped|
    && (s.reaped != [] && !s.at.Reaping? && !s.at.Lingering? ==> s.sigCnt >= 1)
  }

  ghost predicate Inv(s: State) {
    && Children(s) && Signalled(s) && Counted(s)
    && s.numLiveChildren == s.total - |s.reaped|
    && (!s.at.Forking? ==> s.started == s.total)
    && (s.at.Suspended? ==> s.numLiveChildren > 0)
    && (s.at.Finished? ==> s.numLiveChildren == 0)
  }

  lemma ForkInv(s: State)
    requires Inv(s) && CanStep(s, Fork)
    ensures Inv(Next(s, Fork))
  {
  }

  lemma ExitInv(s: State, child: nat)
    requires Inv(s) && CanStep(s, Exits(child))
    ensures Inv(Next(s, Exits(child)))
  {
  }

  lemma ReapInv(s: State, child: nat)
    requires Inv(s) && CanStep(s, Reap(child))
    ensures Inv(Next(s, Reap(child)))
  {
  }

  lemma StepInv(s: State, step: Step)
    requires Inv(s) && CanStep(s, step)
    ensures Inv(Next(s, step))
  {
    match step {
      case Fork => ForkInv(s);
      case Exits(child) => ExitInv(s, child);
      case Reap(child) => ReapInv(s, child);
      case _ =>
    }
  }

  // ----- progress -----

  /** What is left to happen; every step makes it smaller. */
  function Left(s: State): nat
    requires s.started <= s.total
  {
    7 * (s.total - s.started) + 6 * |s.running| + |s.zombies| + 4 * Bit(s.pending)
    + match s.at { case Forking => 4 case Reaping => 3 case Lingering => 2 case Testing => 1 case _ => 0 }
  }

  lemma StepDecreases(s: State, step: Step)
    requires Inv(s) && CanStep(s, step)
    ensures Next(s, step).started <= s.total && Left(Next(s, step)) < Left(s)
  {
  }

  /** Until the parent has finished something can happen; asleep with no signal pending, a child is still running. */
  lemma NeverStuck(s: State) returns (step: Step)
    requires Inv(s) && !s.at.Finished?
    ensures CanStep(s, step)
    ensures s.at.Suspended? && !s.pending ==> step.Exits?
  {
    match s.at {
      case Forking => step := if s.started < s.total then Fork else ForkLoopEnds;
      case Testing => step := Test;
      case Suspended =>
        if s.pending {
          step := Deliver;
        } else {
          assert s.running != {};
          var child :| child in s.running;
          step := Exits(child);
        }
      case Reaping =>
        if s.zombies == {} {
          step := NothingToReap;
        } else {
          var child :| child in s.zombies;
          step := Reap(child);
        }
      case Lingering => step := HandlerReturns;
    }
  }

  // ----- whole runs -----

  ghost predicate IsRun(states: seq<State>, steps: seq<Step>, total: nat) {
    && |states| == |steps| + 1 && states[0] == Start(total)
    && forall i :: 0 <= i < |steps| ==> CanStep(states[i], steps[i]) && states[i + 1] == Next(states[i], steps[i])
  }

  lemma {:induction false} RunInv(states: seq<State>, steps: seq<Step>, total: nat, i: nat)
    requires IsRun(states, steps, total) && i < |states|
    ensures Inv(states[i]) && states[i].total == total
    ensures Left(states[i]) + i <= 7 * total + 4
  {
    if i > 0 {
      RunInv(states, steps, total, i - 1);
      StepInv(states[i - 1], steps[i - 1]);
      StepDecreases(states[i - 1], steps[i - 1]);
    }
  }

  function Deliveries(steps: seq<Step>): nat {
    if steps == [] then 0 else Deliveries(steps[..|steps| - 1]) + if steps[|steps| - 1].Deliver? then 1 else 0
  }

  /** The count of handler runs is the number of signals delivered, but for one whose handler is still running. */
  lemma {:induction false} EachDeliveryCounted(states: seq<State>, steps: seq<Step>, total: nat, i: nat)
    requires IsRun(states, steps, total) && i < |states|
    ensures Deliveries(steps[..i]) == states[i].sigCnt + Bit(states[i].at.Reaping? || states[i].at.Lingering?)
  {
    if i > 0 {
      EachDeliveryCounted(states, steps, total, i - 1);
      assert steps[..i][..i - 1] == steps[..i - 1];
    }
  }

  /**
   No run is longer than 7n + 4 steps, and a run that cannot go on has finished:
   every child was reaped, once; none counts as live; and the handler ran at
   least once and at most n times.
   */
  lemma RunsFinish(states: seq<State>, steps: seq<Step>, total: nat)
    requires IsRun(states, steps, total)
    ensures |steps| <= 7 * total + 4
    ensures var last := states[|steps|];
      (forall step :: !CanStep(last, step)) ==>
        && last.at.Finished? && last.numLiveChildren == 0
        && Distinct(last.reaped) && (forall c: nat :: c in last.reaped <==> c < total)
        && last.sigCnt <= total && (total > 0 ==> last.sigCnt >= 1)
  {
    RunInv(states, steps, total, |steps|);
    var last := states[|steps|];
    if !last.at.Finished? {
      var step := NeverStuck(last);
      assert CanStep(last, step);
    } else if forall step :: !CanStep(last, step) {
      AllReaped(last);
    }
  }

  lemma AllReaped(s: State)
    requires Inv(s) && s.numLiveChildren == 0 && s.started == s.total
    ensures s.running == {} && s.zombies == {} && forall c: nat :: c in s.reaped <==> c < s.total
  {
  }
}
