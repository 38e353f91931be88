/**
 Message notification by thread: registration is used up when a message reaches
 an empty queue, and the thread started then registers again before it drains
 the queue. Main starts the same way, with whatever is in the queue.
 */
module MqThread {

  type Message = nat
  type Thread = nat

  /** Where a thread is in threadFunc(); main is thread 0 and runs the same two calls. */
  datatype Phase =
    | Arming     // yet to call mq_notify()
    | Draining   // in the mq_receive() loop
    | Ended      // after EAGAIN; main then pauses

  /** Threads are numbered in the order they start. `failed` is the errExit() of an mq_notify() that found a registration. */
  datatype State = State(queue: seq<Message>, registered: bool, threads: seq<Phase>, failed: bool,
                         sent: multiset<Message>, received: multiset<Message>)

  datatype Step =
    | Send(m: Message)        // another process sends
    | Arm(t: Thread)
    | Receive(t: Thread)      // one mq_receive() of the loop, EAGAIN included

  function Start(queue: seq<Message>): State {
    State(queue, false, [Arming], false, multiset(queue), multiset{})
  }

  predicate CanStep(s: State, step: Step) {
    !s.failed &&
    match step
    case Send(_) => true
    case Arm(t) => t < |s.threads| && s.threads[t].Arming?
    case Receive(t) => t < |s.threads| && s.threads[t].Draining?
  }

  /** The kernel notifies only when the queue was empty; a new thread starts, the registration is gone. */
  function Next(s: State, step: Step): State
    requires CanStep(s, step)
  {
    match step
    case Send(m) =>
      var s' := s.(queue := s.queue + [m], sent := s.sent + multiset{m});
      if s.queue == [] && s.registered
      then s'.(registered := false, threads := s.threads + [Arming])
      else s'
    case Arm(t) =>
      if s.registered then s.(failed := true)
      else s.(registered := true, threads := s.threads[t := Draining])
    case Receive(t) =>
      if s.queue == [] then s.(threads := s.threads[t := Ended])
      else s.(queue := s.queue[1..], received := s.received + multiset{s.queue[0]})
  }

  // ----- the invariant -----

  ghost predicate NoArmer(threads: seq<Phase>) {
    forall t :: 0 <= t < |threads| ==> !threads[t].Arming?
  }

  ghost predicate OnlyArmer(threads: seq<Phase>, t: nat) {
    && t < |threads| && threads[t].Arming?
    && forall u :: 0 <= u < |threads| && u != t ==> !threads[u].Arming?
  }

  /** Exactly one of: the process is registered, or one thread is yet to register. */
  ghost predicate OneToken(s: State) {
    if s.registered then NoArmer(s.threads) else exists t: nat :: OnlyArmer(s.threads, t)
  }

  /** A message in the queue has somebody who will drain it. */
  ghost predicate Attended(s: State) {
    s.queue != [] ==> exists t :: 0 <= t < |s.threads| && !s.threads[t].Ended?
  }

  /** Every message sent was received, once, or is in the queue. */
  ghost predicate Conserved(s: State) {
    s.sent == s.received + multiset(s.queue)
  }

  ghost predicate Inv(s: State) {
    !s.failed && OneToken(s) && Attended(s) && Conserved(s)
  }

  lemma StartInv(queue: seq<Message>)
    ensures Inv(Start(queue))
  {
    assert OnlyArmer(Start(queue).threads, 0);
  }

  lemma StepConserves(s: State, step: Step)
    requires Conserved(s) && CanStep(s, step)
    ensures Conserved(Next(s, step))
  {
    match step {
      case Send(m) => assert multiset(s.queue + [m]) == multiset(s.queue) + multiset{m};
      case Receive(t) => if s.queue != [] { assert s.queue == [s.queue[0]] + s.queue[1..]; }
      case _ =>
    }
  }

  lemma SendInv(s: State, m: Message)
    requires Inv(s) && CanStep(s, Send(m))
    ensures var s' := Next(s, Send(m)); OneToken(s') && Attended(s') && !s'.failed
  {
    hide Conserved;
    var s' := Next(s, Send(m));
    if s.registered {
      if s.queue == [] {
        assert OnlyArmer(s'.threads, |s.threads|);
      }
    } else {
      var t: nat :| OnlyArmer(s.threads, t);
      assert s'.threads[t].Arming?;
    }
  }

  lemma ArmInv(s: State, t: Thread)
    requires Inv(s) && CanStep(s, Arm(t))
    ensures var s' := Next(s, Arm(t)); OneToken(s') && Attended(s') && !s'.failed
  {
    hide Conserved;
    var s' := Next(s, Arm(t));
    assert !s.registered;
    var u: nat :| OnlyArmer(s.threads, u);
    assert u == t && NoArmer(s'.threads) && s'.threads[t].Draining?;
  }

  lemma ReceiveInv(s: State, t: Thread)
    requires Inv(s) && CanStep(s, Receive(t))
    ensures var s' := Next(s, Receive(t)); OneToken(s') && Attended(s') && !s'.failed
  {
    hide Conserved;
    var s' := Next(s, Receive(t));
    if s.queue != [] {
      assert s'.threads[t].Draining?;
    } else if !s.registered {
      var u: nat :| OnlyArmer(s.threads, u);
      assert OnlyArmer(s'.threads, u);
    }
  }

  lemma StepInv(s: State, step: Step)
    requires Inv(s) && CanStep(s, step)
    ensures Inv(Next(s, step))
  {
    StepConserves(s, step);
    hide Next; hide OneToken; hide Attended; hide Conserved;
    match step {
      case Send(m) => SendInv(s, m);
      case Arm(t) => ArmInv(s, t);
      case Receive(t) => ReceiveInv(s, t);
    }
  }

  // ----- progress -----

  function Weight(p: Phase): nat {
    match p case Arming => 2 case Draining => 1 case Ended => 0
  }

  function Weights(threads: seq<Phase>): nat {
    if threads == [] then 0 else Weight(threads[0]) + Weights(threads[1..])
  }

  /** What the threads have left to do, if nobody sends. */
  function Left(s: State): nat {
    |s.queue| + Weights(s.threads)
  }

  lemma {:induction false} WeightsUpdate(threads: seq<Phase>, t: nat, p: Phase)
    requires t < |threads|
    ensures Weights(threads[t := p]) == Weights(threads) + Weight(p) - Weight(threads[t])
  {
    if t == 0 {
      assert threads[t := p][1..] == threads[1..];
    } else {
      assert threads[t := p][1..] == threads[1..][t - 1 := p];
      WeightsUpdate(threads[1..], t - 1, p);
    }
  }

  /** Each step of a thread leaves less to do. */
  lemma StepDecreases(s: State, step: Step)
    requires Inv(s) && CanStep(s, step) && !step.Send?
    ensures Left(Next(s, step)) < Left(s)
  {
    assert s.threads[step.t].Arming? ==> !s.registered;
    WeightsUpdate(s.threads, step.t, Draining);
    WeightsUpdate(s.threads, step.t, Ended);
  }

  // ----- whole runs -----

  ghost predicate IsRun(states: seq<State>, steps: seq<Step>) {
    && |states| == |steps| + 1
    && forall i :: 0 <= i < |steps| ==> CanStep(states[i], steps[i]) && states[i + 1] == Next(states[i], steps[i])
  }

  lemma {:induction false} RunInv(states: seq<State>, steps: seq<Step>, queue: seq<Message>, i: nat)
    requires IsRun(states, steps) && states[0] == Start(queue) && i < |states|
    ensures Inv(states[i])
  {
    if i == 0 {
      StartInv(queue);
    } else {
      RunInv(states, steps, queue, i - 1);
      StepInv(states[i - 1], steps[i - 1]);
    }
  }

  lemma {:induction false} StretchDecreases(states: seq<State>, steps: seq<Step>, i: nat, j: nat)
    requires IsRun(states, steps) && i <= j < |states| && Inv(states[i])
    requires forall n :: i <= n < j ==> !steps[n].Send?
    ensures Inv(states[j]) && Left(states[j]) + (j - i) <= Left(states[i])
  {
    if i < j {
      StretchDecreases(states, steps, i, j - 1);
      StepInv(states[j - 1], steps[j - 1]);
      StepDecreases(states[j - 1], steps[j - 1]);
    }
  }

  /**
   No message is lost. From any queue and in any interleaving with senders:
   mq_notify() never finds a registration; once nobody sends, the threads can take
   only so many steps; and when no thread can take one, the queue is empty, the
   process is registered, and every message was received once.
   */
  lemma NothingLost(states: seq<State>, steps: seq<Step>, queue: seq<Message>, i: nat, j: nat)
    requires IsRun(states, steps) && states[0] == Start(queue) && i <= j < |states|
    requires forall n :: i <= n < j ==> !steps[n].Send?
    ensures !states[j].failed
    ensures j - i <= Left(states[i])
    ensures (forall step :: CanStep(states[j], step) ==> step.Send?) ==>
      states[j].queue == [] && states[j].registered && states[j].received == states[j].sent
  {
    RunInv(states, steps, queue, i);
    StretchDecreases(states, steps, i, j);
    var last := states[j];
    if forall step :: CanStep(last, step) ==> step.Send? {
      forall t: nat | t < |last.threads| ensures last.threads[t].Ended? {
        assert CanStep(last, Arm(t)) ==> Arm(t).Send?;
        assert CanStep(last, Receive(t)) ==> Receive(t).Send?;
      }
    }
  }
}
