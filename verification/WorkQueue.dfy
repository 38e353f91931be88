/**
 One producer and any number of consumers around a mutex and a condition
 variable. The producer adds work under the mutex, then raises `polundra`
 without it, and signals once before each join.
 */
module WorkQueue {

  datatype Owner = Nobody | Main | Consumer(i: nat)

  /** Where a consumer is; it holds the mutex from Checking on, except while Waiting and Woken. */
  datatype Phase =
    | Starting   // about to lock the mutex
    | Checking   // about to test work == 0 && !polundra
    | Going      // found it true, about to call pthread_cond_wait()
    | Waiting    // in pthread_cond_wait(), the mutex released
    | Woken      // woken, to get the mutex back
    | Working    // in the inner loop
    | Deciding   // after it, about to test polundra
    | Leaving    // about to unlock and return
    | Done

  /** Where main is: in its adding loop (`left` cycles to go), or in its joining loop. */
  datatype Producer =
    | Lock(left: nat)
    | Adding(left: nat)
    | Signalling(left: nat)
    | Unlock(left: nat)
    | Raise               // about to set polundra
    | Nudge(i: nat)       // about to signal before join i
    | Join(i: nat)
    | Finished

  datatype State = State(mutex: Owner, work: int, polundra: bool, consumers: seq<Phase>, main: Producer, added: nat, done: nat)

  /** Signals wake one waiting consumer, any one, or nobody if none waits. */
  datatype Step =
    | Consume(i: nat)
    | Spurious(i: nat)
    | Produce(amount: nat)
    | Signal(woken: nat)

  function Start(consumers: nat, cycles: nat): State {
    State(Nobody, 0, false, seq(consumers, _ => Starting), if cycles > 0 then Lock(cycles) else Raise, 0, 0)
  }

  predicate Locked(p: Phase) {
    p.Checking? || p.Going? || p.Working? || p.Deciding? || p.Leaving?
  }

  predicate CanStep(s: State, step: Step) {
    match step
    case Consume(i) =>
      && i < |s.consumers| && !s.consumers[i].Waiting? && !s.consumers[i].Done?
      && (s.consumers[i].Starting? || s.consumers[i].Woken? ==> s.mutex.Nobody?)
    case Spurious(i) => i < |s.consumers| && s.consumers[i].Waiting?
    case Produce(amount) =>
      match s.main {
        case Lock(_) => s.mutex.Nobody?
        case Adding(_) => 1 <= amount <= 3
        case Unlock(_) => true
        case Raise => true
        case Join(i) => i < |s.consumers| ==> s.consumers[i].Done?
        case _ => false
      }
    case Signal(woken) =>
      && (s.main.Signalling? || s.main.Nudge?)
      && ((woken < |s.consumers| && s.consumers[woken].Waiting?)
          || forall i :: 0 <= i < |s.consumers| ==> !s.consumers[i].Waiting?)
  }

  function ConsumerStep(s: State, i: nat): State
    requires i < |s.consumers|
  {
    match s.consumers[i]
    case Starting => s.(mutex := Consumer(i), consumers := s.consumers[i := Checking])
    case Checking => s.(consumers := s.consumers[i := if s.work == 0 && !s.polundra then Going else Working])
    case Going => s.(mutex := Nobody, consumers := s.consumers[i := Waiting])
    case Woken => s.(mutex := Consumer(i), consumers := s.consumers[i := Checking])
    case Working =>
      if s.work != 0 then s.(work := s.work - 1, done := s.done + 1) else s.(consumers := s.consumers[i := Deciding])
    case Deciding => s.(consumers := s.consumers[i := if s.polundra then Leaving else Checking])
    case Leaving => s.(mutex := Nobody, consumers := s.consumers[i := Done])
    case _ => s
  }

  function Wake(consumers: seq<Phase>, i: nat): seq<Phase> {
    if i < |consumers| && consumers[i].Waiting? then consumers[i := Woken] else consumers
  }

  function Next(s: State, step: Step): State
    requires CanStep(s, step)
  {
    match step
    case Consume(i) => ConsumerStep(s, i)
    case Spurious(i) => s.(consumers := Wake(s.consumers, i))
    case Produce(amount) =>
      (match s.main {
        case Lock(left) => s.(mutex := Main, main := Adding(left))
        case Adding(left) => s.(work := s.work + amount, added := s.added + amount, main := Signalling(left))
        case Unlock(left) => s.(mutex := Nobody, main := if left > 1 then Lock(left - 1) else Raise)
        case Raise => s.(polundra := true, main := if |s.consumers| > 0 then Nudge(0) else Finished)
        case Join(i) => s.(main := if i + 1 < |s.consumers| then Nudge(i + 1) else Finished)
        case _ => s
      })
    case Signal(woken) =>
      s.(consumers := Wake(s.consumers, woken),
         main := if s.main.Signalling? then Unlock(s.main.left) else Join(s.main.i))
  }

  // ----- safety -----

  /** The mutex is held by the one whose code says so, and by nobody else. */
  ghost predicate Exclusive(s: State) {
    && (forall i: nat :: i < |s.consumers| ==> (Locked(s.consumers[i]) <==> s.mutex == Consumer(i)))
    && (s.main.Adding? || s.main.Signalling? || s.main.Unlock? <==> s.mutex == Main)
    && (s.mutex.Consumer? ==> s.mutex.i < |s.consumers|)
  }

  ghost predicate AddingOver(s: State) {
    s.main.Raise? || s.main.Nudge? || s.main.Join? || s.main.Finished?
  }

  /** Once a consumer leaves, nothing is left to do and nothing more will come. */
  ghost predicate LastWord(s: State) {
    && (s.polundra ==> AddingOver(s) && !s.main.Raise?)
    && (s.main.Nudge? || s.main.Join? || s.main.Finished? ==> s.polundra)
    && forall i: nat :: i < |s.consumers| && (s.consumers[i].Leaving? || s.consumers[i].Done?) ==> s.polundra && s.work == 0
  }

  /** A consumer past its inner loop, still with the mutex, has left no work. */
  ghost predicate Emptied(s: State) {
    forall i: nat :: i < |s.consumers| && s.consumers[i].Deciding? ==> s.work == 0
  }

  /** Main has joined those it has passed. */
  ghost predicate Joined(s: State) {
    && (s.main.Nudge? || s.main.Join? ==> s.main.i < |s.consumers| && forall i :: 0 <= i < s.main.i ==> s.consumers[i].Done?)
    && (s.main.Finished? ==> forall i :: 0 <= i < |s.consumers| ==> s.consumers[i].Done?)
  }

  ghost predicate Inv(s: State) {
    s.work >= 0 && s.added == s.done + s.work && Exclusive(s) && LastWord(s) && Emptied(s) && Joined(s)
  }

  lemma StartInv(consumers: nat, cycles: nat)
    ensures Inv(Start(consumers, cycles))
  {
  }

  /** What a consumer does to its own place, and to the rest. */
  lemma ConsumerInv(s: State, i: nat)
    requires Inv(s) && CanStep(s, Consume(i))
    ensures Inv(ConsumerStep(s, i))
  {
    var s' := ConsumerStep(s, i);
    assert forall j: nat :: j < |s.consumers| && j != i ==> s'.consumers[j] == s.consumers[j];
    assert s.mutex != Consumer(i) ==> s.consumers[i].Starting? || s.consumers[i].Woken?;
    match s.consumers[i] {
      case Working =>
      case Deciding =>
      case _ =>
    }
  }

  /** A consumer that stops waiting still has to get the mutex. */
  lemma WakeInv(s: State, i: nat, main: Producer)
    requires Inv(s) && Inv(s.(main := main))
    ensures Inv(s.(consumers := Wake(s.consumers, i), main := main))
  {
  }

  lemma MainInv(s: State, step: Step)
    requires Inv(s) && CanStep(s, step) && step.Produce?
    ensures Inv(Next(s, step))
  {
  }

  lemma StepInv(s: State, step: Step)
    requires Inv(s) && CanStep(s, step)
    ensures Inv(Next(s, step))
  {
    match step {
      case Consume(i) => ConsumerInv(s, i);
      case Spurious(i) => WakeInv(s, i, s.main);
      case Produce(_) => MainInv(s, step);
      case Signal(woken) => WakeInv(s, woken, if s.main.Signalling? then Unlock(s.main.left) else Join(s.main.i));
    }
  }

  /** Only the holder of the mutex changes the amount of work. */
  lemma OnlyHolderWorks(s: State, step: Step)
    requires Inv(s) && CanStep(s, step) && Next(s, step).work != s.work
    ensures match step {
      case Consume(i) => s.mutex == Consumer(i) && Next(s, step).work == s.work - 1
      case Produce(amount) => s.mutex == Main && Next(s, step).work == s.work + amount
      case _ => false
    }
  {
  }

  // ----- whole runs -----

  ghost predicate IsRun(states: seq<State>, steps: seq<Step>) {
    && |states| == |steps| + 1
    && forall i :: 0 <= i < |steps| ==> CanStep(states[i], steps[i]) && states[i + 1] == Next(states[i], steps[i])
  }

  lemma {:induction false} RunInv(states: seq<State>, steps: seq<Step>, consumers: nat, cycles: nat, i: nat)
    requires IsRun(states, steps) && states[0] == Start(consumers, cycles) && i < |states|
    ensures Inv(states[i]) && |states[i].consumers| == consumers
  {
    if i == 0 {
      StartInv(consumers, cycles);
    } else {
      RunInv(states, steps, consumers, cycles, i - 1);
      StepInv(states[i - 1], steps[i - 1]);
    }
  }

  /**
   However many consumers and cycles, and however the steps interleave: work is
   never negative and never lost, and if there is a consumer at all, then once
   main has passed every join all the work that was added has been done.
   */
  lemma AllWorkDone(states: seq<State>, steps: seq<Step>, consumers: nat, cycles: nat, i: nat)
    requires IsRun(states, steps) && states[0] == Start(consumers, cycles) && i < |states|
    ensures var s := states[i];
      && s.work >= 0 && s.added == s.done + s.work
      && (s.main.Finished? && consumers > 0 ==> s.work == 0 && s.done == s.added)
  {
    RunInv(states, steps, consumers, cycles, i);
    if states[i].main.Finished? && consumers > 0 {
      assert states[i].consumers[0].Done?;
    }
  }

  /** How many of main's cycles have still to add their work. */
  function ToAdd(main: Producer): nat {
    match main
    case Lock(left) => left
    case Adding(left) => left
    case Signalling(left) => if left > 0 then left - 1 else 0
    case Unlock(left) => if left > 0 then left - 1 else 0
    case _ => 0
  }

  /** Each cycle that has added its work has added between one and three units. */
  ghost predicate Produced(s: State, cycles: nat) {
    && ToAdd(s.main) <= cycles
    && cycles - ToAdd(s.main) <= s.added <= 3 * (cycles - ToAdd(s.main))
    && (s.main.Lock? || s.main.Adding? || s.main.Signalling? || s.main.Unlock? ==> s.main.left > 0)
  }

  lemma StepProduced(s: State, step: Step, cycles: nat)
    requires CanStep(s, step) && Produced(s, cycles)
    ensures Produced(Next(s, step), cycles)
  {
  }

  /** Once main is past its loop, every cycle has added its work: between one and three units each. */
  lemma {:induction false} EveryCycleAdds(states: seq<State>, steps: seq<Step>, consumers: nat, cycles: nat, i: nat)
    requires IsRun(states, steps) && states[0] == Start(consumers, cycles) && i < |states|
    ensures Produced(states[i], cycles)
    ensures AddingOver(states[i]) ==> cycles <= states[i].added <= 3 * cycles
  {
    if i > 0 {
      EveryCycleAdds(states, steps, consumers, cycles, i - 1);
      StepProduced(states[i - 1], steps[i - 1], cycles);
    }
  }

  // ----- work is noticed -----

  /** Awake, and not about to leave. */
  predicate Up(p: Phase) {
    !p.Waiting? && !p.Leaving? && !p.Done?
  }

  /** No work is left behind by those who are asleep: somebody is up, or main is about to signal. */
  ghost predicate Noticed(s: State) {
    s.work > 0 && s.consumers != [] ==> s.main.Signalling? || exists i: nat :: i < |s.consumers| && Up(s.consumers[i])
  }

  /** A consumer about to wait has seen that there is no work, and still has the mutex. */
  ghost predicate SeenEmpty(s: State) {
    forall i: nat :: i < |s.consumers| && s.consumers[i].Going? ==> s.work == 0
  }

  lemma ConsumerNotices(s: State, i: nat)
    requires Inv(s) && SeenEmpty(s) && Noticed(s) && CanStep(s, Consume(i))
    ensures SeenEmpty(ConsumerStep(s, i)) && Noticed(ConsumerStep(s, i))
  {
    var s' := ConsumerStep(s, i);
    assert forall j: nat :: j < |s.consumers| && j != i ==> s'.consumers[j] == s.consumers[j];
    if s.work > 0 && !s.consumers[i].Deciding? && !s.consumers[i].Going? && !s.consumers[i].Leaving? {
      assert Up(s'.consumers[i]);
    }
  }

  lemma MainNotices(s: State, step: Step)
    requires Inv(s) && SeenEmpty(s) && Noticed(s) && CanStep(s, step) && !step.Consume?
    ensures SeenEmpty(Next(s, step)) && Noticed(Next(s, step))
  {
    var s' := Next(s, step);
    if step.Signal? || step.Spurious? {
      var w := if step.Signal? then step.woken else step.i;
      assert forall j: nat :: j < |s.consumers| && j != w ==> s'.consumers[j] == s.consumers[j];
      assert w < |s.consumers| && s.consumers[w].Waiting? ==> Up(s'.consumers[w]);
      if s.work > 0 && s.consumers != [] {
        assert !s.consumers[0].Waiting? ==> s'.consumers[0] == s.consumers[0];
        assert s.consumers[0].Leaving? || s.consumers[0].Done? ==> s.work == 0;
      }
    }
  }

  /** In every state of every run: as long as there is work, some consumer is up to find it, or main is about to wake one. */
  lemma {:induction false} WorkNoticed(states: seq<State>, steps: seq<Step>, consumers: nat, cycles: nat, i: nat)
    requires IsRun(states, steps) && states[0] == Start(consumers, cycles) && i < |states|
    ensures SeenEmpty(states[i]) && Noticed(states[i])
  {
    if i > 0 {
      RunInv(states, steps, consumers, cycles, i - 1);
      WorkNoticed(states, steps, consumers, cycles, i - 1);
      hide Inv; hide SeenEmpty; hide Noticed; hide CanStep;
      if steps[i - 1].Consume? {
        ConsumerNotices(states[i - 1], steps[i - 1].i);
      } else {
        MainNotices(states[i - 1], steps[i - 1]);
      }
    }
  }

  // ----- the wakeup that can be lost -----

  /** Main waits to join a consumer that is asleep; all its signals for it are spent. */
  ghost predicate Doomed(s: State, i: nat) {
    s.main == Join(i) && i < |s.consumers| && s.consumers[i].Waiting?
  }

  /** Nothing but a spurious wakeup of that consumer changes this: main never finishes. */
  lemma DoomedStays(s: State, step: Step, i: nat)
    requires Doomed(s, i) && CanStep(s, step) && step != Spurious(i)
    ensures Doomed(Next(s, step), i)
  {
  }

  /** The steps lead from `s` to `t`. */
  ghost predicate Path(s: State, steps: seq<Step>, t: State)
    decreases |steps|
  {
    if steps == [] then s == t else CanStep(s, steps[0]) && Path(Next(s, steps[0]), steps[1..], t)
  }

  lemma {:induction false} PathThen(s: State, first: seq<Step>, t: State, second: seq<Step>, u: State)
    requires Path(s, first, t) && Path(t, second, u)
    ensures Path(s, first + second, u)
    decreases |first|
  {
    if first == [] {
      assert first + second == second;
    } else {
      assert (first + second)[1..] == first[1..] + second;
      PathThen(Next(s, first[0]), first[1..], t, second, u);
    }
  }

  lemma OneStep(s: State, step: Step)
    requires CanStep(s, step)
    ensures Path(s, [step], Next(s, step))
  {
  }

  /** No consumer has started yet. */
  ghost predicate Fresh(s: State) {
    |s.consumers| > 0 && (forall i :: 0 <= i < |s.consumers| ==> s.consumers[i].Starting?) && s.mutex.Nobody? && s.work >= 0 && !s.polundra
  }

  /** Main can run through all its cycles before any consumer starts. */
  lemma {:induction false} MainFirst(s: State) returns (steps: seq<Step>, t: State)
    requires Fresh(s) && (s.main.Raise? || (s.main.Lock? && s.main.left > 0))
    ensures Path(s, steps, t) && Fresh(t) && t.main.Raise?
    decreases if s.main.Lock? then s.main.left else 0
  {
    if s.main.Raise? {
      return [], s;
    }
    var s1 := Next(s, Produce(1));
    var s2 := Next(s1, Produce(1));
    var s3 := Next(s2, Signal(0));
    var s4 := Next(s3, Produce(1));
    OneStep(s, Produce(1));
    OneStep(s1, Produce(1));
    OneStep(s2, Signal(0));
    OneStep(s3, Produce(1));
    PathThen(s, [Produce(1)], s1, [Produce(1)], s2);
    PathThen(s, [Produce(1)] + [Produce(1)], s2, [Signal(0)], s3);
    PathThen(s, [Produce(1)] + [Produce(1)] + [Signal(0)], s3, [Produce(1)], s4);
    var rest;
    rest, t := MainFirst(s4);
    steps := [Produce(1)] + [Produce(1)] + [Signal(0)] + [Produce(1)] + rest;
    PathThen(s, [Produce(1)] + [Produce(1)] + [Signal(0)] + [Produce(1)], s4, rest, t);
  }

  /** Consumer 0 holds the mutex, and does what work there is, until it is about to wait. */
  lemma {:induction false} ThenConsumer(s: State) returns (steps: seq<Step>, t: State)
    requires |s.consumers| > 0 && s.mutex == Consumer(0) && s.work >= 0 && !s.polundra && s.main.Raise?
    requires s.consumers[0].Checking? || s.consumers[0].Working? || (s.consumers[0].Deciding? && s.work == 0)
    requires forall i :: 0 <= i < |s.consumers| ==> !s.consumers[i].Waiting?
    ensures Path(s, steps, t) && t.main.Raise? && |t.consumers| > 0 && t.consumers[0].Going?
    ensures forall i :: 0 <= i < |t.consumers| ==> !t.consumers[i].Waiting?
    decreases s.work, match s.consumers[0] { case Working => if s.work == 0 then 2 else 0 case Deciding => 1 case _ => if s.work == 0 then 0 else 1 }
  {
    var s1 := Next(s, Consume(0));
    OneStep(s, Consume(0));
    if s1.consumers[0].Going? {
      return [Consume(0)], s1;
    }
    var rest;
    rest, t := ThenConsumer(s1);
    steps := [Consume(0)] + rest;
    PathThen(s, [Consume(0)], s1, rest, t);
  }

  /**
   `polundra` is raised without the mutex: a consumer that has just found no
   work and no `polundra` misses both the flag and the signal, and sleeps on.
   */
  lemma LostWakeup(s: State) returns (t: State)
    requires s.main.Raise? && |s.consumers| > 0 && s.consumers[0].Going?
    requires forall i :: 0 <= i < |s.consumers| ==> !s.consumers[i].Waiting?
    ensures Path(s, [Produce(1)] + [Signal(0)] + [Consume(0)], t) && Doomed(t, 0)
  {
    var s1 := Next(s, Produce(1));
    var s2 := Next(s1, Signal(0));
    t := Next(s2, Consume(0));
    OneStep(s, Produce(1));
    OneStep(s1, Signal(0));
    OneStep(s2, Consume(0));
    PathThen(s, [Produce(1)], s1, [Signal(0)], s2);
    PathThen(s, [Produce(1)] + [Signal(0)], s2, [Consume(0)], t);
  }

  /** With any number of consumers, at least one, and any number of cycles, a run can end in that sleep. */
  lemma LostWakeupReached(consumers: nat, cycles: nat) returns (steps: seq<Step>, t: State)
    requires consumers > 0
    ensures Path(Start(consumers, cycles), steps, t) && Doomed(t, 0)
  {
    var s := Start(consumers, cycles);
    var steps1, s1 := MainFirst(s);
    var s2 := Next(s1, Consume(0));
    OneStep(s1, Consume(0));
    var steps3, s3 := ThenConsumer(s2);
    t := LostWakeup(s3);
    var last := [Produce(1)] + [Signal(0)] + [Consume(0)];
    PathThen(s, steps1, s1, [Consume(0)], s2);
    PathThen(s, steps1 + [Consume(0)], s2, steps3, s3);
    PathThen(s, steps1 + [Consume(0)] + steps3, s3, last, t);
    steps := steps1 + [Consume(0)] + steps3 + last;
  }

  lemma {:induction false} ConsumersStay(s: State, steps: seq<Step>, t: State)
    requires Path(s, steps, t)
    ensures |t.consumers| == |s.consumers|
    decreases |steps|
  {
    if steps != [] { ConsumersStay(Next(s, steps[0]), steps[1..], t); }
  }

  /** Some run ends with main waiting to join a consumer that is asleep. */
  ghost predicate MayHang(consumers: nat, cycles: nat) {
    exists steps, t, i: nat :: Path(Start(consumers, cycles), steps, t) && Doomed(t, i)
  }

  /** So the program can hang if and only if it has a consumer at all. */
  lemma HangPossible(consumers: nat, cycles: nat)
    ensures MayHang(consumers, cycles) <==> consumers > 0
  {
    if consumers > 0 {
      var steps, t := LostWakeupReached(consumers, cycles);
    } else {
      forall steps, t, i: nat | Path(Start(consumers, cycles), steps, t) ensures !Doomed(t, i) {
        ConsumersStay(Start(consumers, cycles), steps, t);
      }
    }
  }
}
