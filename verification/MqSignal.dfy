/**
 Message notification by signal: the handler only sets a flag; main clears it,
 registers again, and drains the queue. The flag is set at start.
 */
module MqSignal {

  type Message = nat

  /** Where main is in its endless loop. */
  datatype Where =
    | AtTest    // about to test gotSig
    | AtClear   // gotSig was seen set, about to clear it
    | AtArm     // cleared, about to call mq_notify()
    | AtDrain   // in the mq_receive() loop
    | AtWork    // after the loop, or when gotSig was not set

  datatype State = State(at: Where, gotSig: bool, pending: bool, registered: bool, queue: seq<Message>, failed: bool,
                         sent: multiset<Message>, received: multiset<Message>)

  datatype Step =
    | Send(m: Message)   // another process sends a message
    | Handler            // the pending signal is delivered
    | Main               // main's next action
    | Stray              // another process sends the signal itself

  function Start(queue: seq<Message>): State {
    State(AtTest, true, false, false, queue, false, multiset(queue), multiset{})
  }

  predicate CanStep(s: State, step: Step) {
    !s.failed && (step.Handler? ==> s.pending)
  }

  /** Main's next action; mq_notify() fails when the process is registered already. */
  function MainStep(s: State): State {
    match s.at
    case AtTest => s.(at := if s.gotSig then AtClear else AtWork)
    case AtClear => s.(at := AtArm, gotSig := false)
    case AtArm => if s.registered then s.(failed := true) else s.(at := AtDrain, registered := true)
    case AtDrain =>
      if s.queue == [] then s.(at := AtWork)
      else s.(queue := s.queue[1..], received := s.received + multiset{s.queue[0]})
    case AtWork => s.(at := AtTest)
  }

  function Next(s: State, step: Step): State
    requires CanStep(s, step)
  {
    match step
    case Send(m) =>
      var s' := s.(queue := s.queue + [m], sent := s.sent + multiset{m});
      if s.queue == [] && s.registered then s'.(registered := false, pending := true) else s'
    case Handler => s.(pending := false, gotSig := true)
    case Main => MainStep(s)
    case Stray => s.(pending := true)
  }

  function Bit(b: bool): nat { if b then 1 else 0 }

  /** Exactly one of: registered, signal pending, flag set, main about to register. */
  function Tokens(s: State): nat {
    Bit(s.registered) + Bit(s.pending) + Bit(s.gotSig) + Bit(s.at.AtArm?)
  }

  ghost predicate Inv(s: State) {
    && !s.failed
    && Tokens(s) == 1
    && (s.at.AtClear? ==> s.gotSig)
    && (s.queue != [] ==> s.gotSig || s.pending || s.at.AtArm? || s.at.AtDrain?)
    && s.sent == s.received + multiset(s.queue)
  }

  lemma SendInv(s: State, m: Message)
    requires Inv(s)
    ensures Inv(Next(s, Send(m)))
  {
    assert multiset(s.queue + [m]) == multiset(s.queue) + multiset{m};
  }

  lemma MainInv(s: State)
    requires Inv(s)
    ensures Inv(MainStep(s))
  {
    if s.at.AtDrain? && s.queue != [] { assert s.queue == [s.queue[0]] + s.queue[1..]; }
  }

  lemma StepInv(s: State, step: Step)
    requires Inv(s) && CanStep(s, step) && !step.Stray?
    ensures Inv(Next(s, step))
  {
    match step {
      case Send(m) => SendInv(s, m);
      case Main => MainInv(s);
      case Handler =>
    }
  }

  // ----- progress -----

  /** How many actions of main, at most, until the queue is found empty. */
  function Distance(s: State): nat {
    |s.queue| + match s.at { case AtWork => 4 case AtTest => 3 case AtClear => 2 case AtArm => 1 case AtDrain => 0 }
  }

  /** With messages waiting and no signal on its way, each action of main brings the end of the queue nearer. */
  lemma MainProgress(s: State)
    requires Inv(s) && s.queue != [] && !s.pending
    ensures Inv(MainStep(s)) && !MainStep(s).pending && Distance(MainStep(s)) < Distance(s)
  {
    StepInv(s, Main);
  }

  function MainSteps(s: State, n: nat): State
    decreases n
  {
    if n == 0 then s else MainSteps(MainStep(s), n - 1)
  }

  /** The state once a pending signal is delivered. */
  function Delivered(s: State): State {
    if s.pending then s.(pending := false, gotSig := true) else s
  }

  /** Left alone, once a pending signal is delivered, main empties the queue, whatever it was doing. */
  lemma MainDrains(s: State) returns (n: nat)
    requires Inv(s)
    ensures n <= Distance(s) && MainSteps(Delivered(s), n).queue == [] && MainSteps(Delivered(s), n).received == s.sent
    ensures Inv(MainSteps(Delivered(s), n))
  {
    if s.pending { StepInv(s, Handler); }
    n := QueueEnds(Delivered(s));
  }

  lemma {:induction false} QueueEnds(s: State) returns (n: nat)
    requires Inv(s) && !s.pending
    ensures n <= Distance(s) && MainSteps(s, n).queue == [] && MainSteps(s, n).received == s.sent
    ensures Inv(MainSteps(s, n))
    decreases Distance(s)
  {
    if s.queue == [] {
      n := 0;
    } else {
      MainProgress(s);
      assert MainStep(s).sent == s.sent;
      n := QueueEnds(MainStep(s));
      n := n + 1;
    }
  }

  // ----- whole runs -----

  ghost predicate IsRun(states: seq<State>, steps: seq<Step>) {
    && |states| == |steps| + 1
    && forall i :: 0 <= i < |steps| ==> CanStep(states[i], steps[i]) && states[i + 1] == Next(states[i], steps[i])
  }

  /** As long as nobody else sends the signal: one token, and a waiting message is never forgotten. */
  lemma {:induction false} RunInv(states: seq<State>, steps: seq<Step>, queue: seq<Message>, i: nat)
    requires IsRun(states, steps) && states[0] == Start(queue) && i < |states|
    requires forall n :: 0 <= n < i ==> !steps[n].Stray?
    ensures Inv(states[i])
  {
    if i > 0 {
      RunInv(states, steps, queue, i - 1);
      StepInv(states[i - 1], steps[i - 1]);
    }
  }

  // ----- a signal that is not a notification -----

  /** The steps lead from `s` to `t`. */
  ghost predicate Path(s: State, steps: seq<Step>, t: State)
    decreases |steps|
  {
    if steps == [] then s == t else CanStep(s, steps[0]) && Path(Next(s, steps[0]), steps[1..], t)
  }

  ghost predicate NoStray(steps: seq<Step>) {
    forall i :: 0 <= i < |steps| ==> !steps[i].Stray?
  }

  lemma PathFirst(s: State, step: Step, rest: seq<Step>, t: State)
    requires CanStep(s, step) && Path(Next(s, step), rest, t)
    ensures Path(s, [step] + rest, t)
  {
    assert ([step] + rest)[1..] == rest;
  }

  lemma {:induction false} PathInv(s: State, steps: seq<Step>, t: State)
    requires Inv(s) && Path(s, steps, t) && NoStray(steps)
    ensures Inv(t)
    decreases |steps|
  {
    if steps != [] {
      StepInv(s, steps[0]);
      PathInv(Next(s, steps[0]), steps[1..], t);
    }
  }

  /** There are two tokens, one of them a registration or a pending signal. */
  ghost predicate TwoTokens(s: State) {
    && !s.failed && (s.at.AtClear? ==> s.gotSig)
    && if s.registered then s.pending != s.gotSig || s.at.AtArm? else s.pending && s.gotSig != s.at.AtArm?
  }

  /** How far main is from registering again. */
  function ToArm(s: State): nat {
    match s.at case AtDrain => 5 + |s.queue| case AtWork => 4 case AtTest => 3 case AtClear => 2 case AtArm => 1
  }

  /** Then a run without any further signal of others leads to a failure. */
  lemma {:induction false} TwoTokensFail(s: State) returns (steps: seq<Step>, t: State)
    requires TwoTokens(s)
    ensures Path(s, steps, t) && NoStray(steps) && t.failed
    decreases !s.registered, s.pending, ToArm(s)
  {
    var step := if s.registered && s.pending && !s.at.AtArm? then Handler else Main;
    var s1 := Next(s, step);
    if s1.failed {
      assert Path(s1, [], s1);
      steps, t := [step], s1;
      PathFirst(s, step, [], s1);
    } else {
      steps, t := TwoTokensFail(s1);
      PathFirst(s, step, steps, t);
      steps := [step] + steps;
    }
  }

  /** A run without any further signal of others leads from `s` to a failure of mq_notify(). */
  ghost predicate MayFail(s: State) {
    exists steps, t :: Path(s, steps, t) && NoStray(steps) && t.failed
  }

  /**
   A signal that is not a notification makes a failure of mq_notify(), and with
   it the end of the program, possible if and only if no signal was pending when
   it came. One that finds another pending coalesces with it and does no harm.
   */
  lemma StrayFails(s: State)
    requires Inv(s)
    ensures MayFail(Next(s, Stray)) <==> !s.pending
  {
    if s.pending {
      assert Next(s, Stray) == s;
      forall steps, t | Path(s, steps, t) && NoStray(steps) ensures !t.failed { PathInv(s, steps, t); }
    } else {
      var steps, t := TwoTokensFail(Next(s, Stray));
    }
  }

  /** It does happen: a run from the start, with one such signal, to the failure. */
  lemma FailureReached() returns (before: seq<Step>, after: seq<Step>, s: State, t: State)
    ensures Path(Start([]), before, s) && NoStray(before) && Inv(s)
    ensures Path(Next(s, Stray), after, t) && NoStray(after) && t.failed
  {
    var s0 := Start([]);
    var s1 := MainStep(s0);
    var s2 := MainStep(s1);
    s := MainStep(s2);
    assert Path(s, [], s);
    PathFirst(s2, Main, [], s);
    PathFirst(s1, Main, [Main], s);
    PathFirst(s0, Main, [Main] + [Main], s);
    before := [Main] + ([Main] + [Main]);
    assert Inv(s0);
    PathInv(s0, before, s);
    after, t := TwoTokensFail(Next(s, Stray));
  }
}
