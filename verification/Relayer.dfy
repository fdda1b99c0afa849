/** The relayer: a run loop that starts a clock thread per block, and clock threads that send ticks
    back to it, all talking over unbounded channels. */
module Relayer {
  import opened Clarity

  /** BridgeTenureCommand, block identifiers left out. */
  datatype Command = StartBlockUpdates | Tick | MicroblockUpdate | StopBlockUpdates

  /** How a tick's fetch and submission end. A rejected post still counts as submitted; asking for the
      nonce may panic. */
  datatype Attempt = FetchFailed | SubmitFailed | Posted | PostRejected | Panicked

  /** The variables of the run loop. */
  datatype Loop = Loop(running: bool, priceUpdated: bool, clockStop: Option<nat>)

  /** What handling one command does besides: a clock told to terminate, a clock started, a
      transaction posted. */
  datatype Reaction = Reaction(loop: Loop, terminate: Option<nat>, started: bool, posted: bool)

  /** The body of the run loop; newClock is the clock started if one is. */
  function Handle(loop: Loop, command: Command, attempt: Attempt, newClock: nat): Reaction {
    match command
    case StartBlockUpdates => Reaction(Loop(true, false, Some(newClock)), loop.clockStop, true, false)
    case Tick =>
      if loop.priceUpdated then Reaction(loop, None, false, false)
      else
        (match attempt
         case FetchFailed => Reaction(loop, None, false, false)
         case SubmitFailed => Reaction(loop, None, false, false)
         case Posted => Reaction(loop.(priceUpdated := true), None, false, true)
         case PostRejected => Reaction(loop.(priceUpdated := true), None, false, false)
         case Panicked => Reaction(loop.(running := false), None, false, false))
    case MicroblockUpdate => Reaction(loop, None, false, false)
    case StopBlockUpdates => Reaction(loop.(running := false), None, false, false)
  }

  /** start_bridge_runloop */
  class RunLoop {
    var running: bool
    var priceUpdated: bool
    var clockStop: Option<nat>

    constructor ()
      ensures State() == Loop(true, false, None)
    {
      running, priceUpdated, clockStop := true, false, None;
    }

    function State(): Loop
      reads this
    {
      Loop(running, priceUpdated, clockStop)
    }

    method Receive(command: Command, attempt: Attempt, newClock: nat)
        returns (terminate: Option<nat>, started: bool, posted: bool)
      requires running
      modifies this
      ensures Handle(old(State()), command, attempt, newClock) == Reaction(State(), terminate, started, posted)
    {
      terminate, started, posted := None, false, false;
      match command {
        case StartBlockUpdates =>
          terminate := clockStop;
          started := true;
          clockStop := Some(newClock);
          priceUpdated := false;
        case Tick =>
          if priceUpdated {
            return;
          }
          if attempt.FetchFailed? {
            return;
          }
          if attempt.Panicked? {
            running := false;
            return;
          }
          posted := attempt.Posted?;
          if attempt.Posted? || attempt.PostRejected? {
            priceUpdated := true;
          }
        case MicroblockUpdate =>
        case StopBlockUpdates =>
          running := false;
      }
    }
  }

  /** A clock thread between its sleep, its look at the channel and its send; late counts the ticks it
      sent after it was told to terminate. */
  datatype Phase = Sleeping | Sending | Exited

  datatype ClockThread = ClockThread(phase: Phase, told: bool, late: nat)

  /** The whole relayer. posted and starts count posted transactions and processed start commands. */
  datatype System = System(loop: Loop, queue: seq<Command>, clocks: seq<ClockThread>, posted: nat, starts: nat)

  const INITIAL: System := System(Loop(true, false, None), [], [], 0, 0)

  /** One step of one thread: the observer sends, the run loop takes the next command, a clock wakes
      up, a clock sends its tick. A step that is not enabled changes nothing. */
  datatype Step = Observe(command: Command) | Process(attempt: Attempt) | Wake(clock: nat) | Emit(clock: nat)

  /** The observer sends everything but ticks. */
  function Push(s: System, command: Command): System {
    if s.loop.running then s.(queue := s.queue + [command]) else s
  }

  function Tell(clocks: seq<ClockThread>, which: Option<nat>): (told: seq<ClockThread>)
    ensures |told| == |clocks|
  {
    if which.Some? && which.value < |clocks| then clocks[which.value := clocks[which.value].(told := true)] else clocks
  }

  function ProcessNext(s: System, attempt: Attempt): System
    requires s.loop.running && s.queue != []
  {
    var r := Handle(s.loop, s.queue[0], attempt, |s.clocks|);
    System(
      r.loop,
      s.queue[1..],
      Tell(s.clocks, r.terminate) + (if r.started then [ClockThread(Sleeping, false, 0)] else []),
      s.posted + (if r.posted then 1 else 0),
      s.starts + (if r.started then 1 else 0))
  }

  function Advance(s: System, step: Step): System {
    match step
    case Observe(command) => if command.Tick? then s else Push(s, command)
    case Process(attempt) => if s.loop.running && s.queue != [] then ProcessNext(s, attempt) else s
    case Wake(i) =>
      if i < |s.clocks| && s.clocks[i].phase == Sleeping then
        s.(clocks := s.clocks[i := s.clocks[i].(phase := if s.clocks[i].told then Exited else Sending)])
      else s
    case Emit(i) =>
      if i < |s.clocks| && s.clocks[i].phase == Sending then
        var c := s.clocks[i];
        Push(s.(clocks := s.clocks[i := ClockThread(Sleeping, c.told, c.late + (if c.told then 1 else 0))]), Tick)
      else s
  }

  function Interleaving(steps: seq<Step>): System {
    if steps == [] then INITIAL else Advance(Interleaving(steps[..|steps| - 1]), steps[|steps| - 1])
  }

  /** Before the first start there is no clock and no tick; the clock of the run loop is the last one
      started, and exactly the ones before it have been told to terminate; a clock ends only when it
      was told. */
  ghost predicate ClocksInOrder(s: System) {
    && |s.clocks| == s.starts
    && s.loop.clockStop == (if s.starts == 0 then None else Some(s.starts - 1))
    && (s.starts == 0 ==> !s.loop.priceUpdated && Tick !in s.queue)
    && (forall i :: 0 <= i < |s.clocks| ==> (s.clocks[i].told <==> i < |s.clocks| - 1))
    && forall i :: 0 <= i < |s.clocks| && s.clocks[i].phase == Exited ==> s.clocks[i].told
  }

  /** A post uses up the start that enabled it. */
  ghost predicate PostsBounded(s: System) {
    s.posted + (if s.starts > 0 && !s.loop.priceUpdated then 1 else 0) <= s.starts
  }

  /** A clock told to terminate has at most the tick it was about to send left. */
  ghost predicate LateBounded(s: System) {
    forall i :: 0 <= i < |s.clocks| ==>
      var c := s.clocks[i]; c.late + (if c.phase == Sending then 1 else 0) <= 1 && (!c.told ==> c.late == 0)
  }

  lemma AdvanceKeeps(s: System, step: Step)
    requires ClocksInOrder(s) && PostsBounded(s) && LateBounded(s)
    ensures ClocksInOrder(Advance(s, step)) && PostsBounded(Advance(s, step)) && LateBounded(Advance(s, step))
  {
    if step.Process? && s.loop.running && s.queue != [] {
      assert s.queue[0] in s.queue;
      assert forall x :: x in s.queue[1..] ==> x in s.queue;
    }
  }

  lemma {:induction false} InvariantsHold(steps: seq<Step>)
    ensures var s := Interleaving(steps); ClocksInOrder(s) && PostsBounded(s) && LateBounded(s)
    decreases |steps|
  {
    if steps == [] {
    } else {
      InvariantsHold(steps[..|steps| - 1]);
      AdvanceKeeps(Interleaving(steps[..|steps| - 1]), steps[|steps| - 1]);
    }
  }

  /** Over every interleaving: no more transactions are posted than start commands were processed; of
      all clocks exactly the last one has not been told to terminate; and a superseded clock sends at
      most one tick after it was told. */
  lemma RelayerSafe(steps: seq<Step>)
    ensures var s := Interleaving(steps);
            && s.posted <= s.starts == |s.clocks|
            && (forall i :: 0 <= i < |s.clocks| ==> (s.clocks[i].told <==> i < |s.clocks| - 1))
            && (forall i :: 0 <= i < |s.clocks| ==> s.clocks[i].late <= 1)
  {
    InvariantsHold(steps);
  }

  lemma OneMoreStep(steps: seq<Step>, step: Step)
    ensures Interleaving(steps + [step]) == Advance(Interleaving(steps), step)
  {
    assert (steps + [step])[..|steps|] == steps;
  }

  /** The first bound is reached: for every n some interleaving processes n starts and posts n times. */
  lemma {:induction false} EveryStartCanPost(n: nat) returns (steps: seq<Step>)
    ensures var s := Interleaving(steps); s.loop.running && s.queue == [] && s.posted == s.starts == n
  {
    if n == 0 {
      steps := [];
    } else {
      var before := EveryStartCanPost(n - 1);
      InvariantsHold(before);
      var s1 := before + [Observe(StartBlockUpdates)];
      OneMoreStep(before, Observe(StartBlockUpdates));
      var s2 := s1 + [Process(FetchFailed)];
      OneMoreStep(s1, Process(FetchFailed));
      var s3 := s2 + [Wake(n - 1)];
      OneMoreStep(s2, Wake(n - 1));
      var s4 := s3 + [Emit(n - 1)];
      OneMoreStep(s3, Emit(n - 1));
      steps := s4 + [Process(Posted)];
      OneMoreStep(s4, Process(Posted));
    }
  }

  /** The last bound is reached: a clock that has looked at its channel still sends its tick after it
      was told to terminate. */
  lemma LateTickHappens() returns (steps: seq<Step>)
    ensures |Interleaving(steps).clocks| == 2 && Interleaving(steps).clocks[0].late == 1
  {
    var s1 := [Observe(StartBlockUpdates)];
    assert [] + s1 == s1;
    OneMoreStep([], Observe(StartBlockUpdates));
    var s2 := s1 + [Process(FetchFailed)];
    OneMoreStep(s1, Process(FetchFailed));
    var s3 := s2 + [Wake(0)];
    OneMoreStep(s2, Wake(0));
    var s4 := s3 + [Observe(StartBlockUpdates)];
    OneMoreStep(s3, Observe(StartBlockUpdates));
    var s5 := s4 + [Process(FetchFailed)];
    OneMoreStep(s4, Process(FetchFailed));
    steps := s5 + [Emit(0)];
    OneMoreStep(s5, Emit(0));
  }

  // ---------- which start gets a post ----------

  function Continue(s: System, more: seq<Step>): System
    decreases |more|
  {
    if more == [] then s else Continue(Advance(s, more[0]), more[1..])
  }

  lemma {:induction false} InterleavingContinues(steps: seq<Step>, more: seq<Step>)
    ensures Interleaving(steps + more) == Continue(Interleaving(steps), more)
    decreases |more|
  {
    if more == [] {
      assert steps + more == steps;
    } else {
      OneMoreStep(steps, more[0]);
      InterleavingContinues(steps + [more[0]], more[1..]);
      assert steps + [more[0]] + more[1..] == steps + more;
    }
  }

  /** The step processes a tick and its transaction is sent to the node. */
  predicate ReachesNode(s: System, step: Step) {
    && step.Process? && s.loop.running && s.queue != [] && s.queue[0] == Tick && !s.loop.priceUpdated
    && (step.attempt.Posted? || step.attempt.PostRejected?)
  }

  /** How the first attempt that reaches the node ends. */
  function FirstAnswer(s: System, more: seq<Step>): Option<Attempt>
    decreases |more|
  {
    if more == [] then None
    else if ReachesNode(s, more[0]) then Some(more[0].attempt)
    else FirstAnswer(Advance(s, more[0]), more[1..])
  }

  lemma {:induction false} StartsGrow(s: System, more: seq<Step>)
    ensures s.starts <= Continue(s, more).starts
    decreases |more|
  {
    if more == [] {
    } else {
      StartsGrow(Advance(s, more[0]), more[1..]);
    }
  }

  lemma NoStartStep(s: System, step: Step)
    requires Advance(s, step).starts == s.starts
    ensures var t := Advance(s, step);
            if ReachesNode(s, step) then
              t.loop.priceUpdated && t.posted == s.posted + (if step.attempt.Posted? then 1 else 0)
            else
              t.loop.priceUpdated == s.loop.priceUpdated && t.posted == s.posted
  {
  }

  lemma {:induction false} UsedUpStart(s: System, more: seq<Step>)
    requires s.loop.priceUpdated && Continue(s, more).starts == s.starts
    ensures Continue(s, more).posted == s.posted
    decreases |more|
  {
    if more == [] {
    } else {
      var t := Advance(s, more[0]);
      StartsGrow(t, more[1..]);
      StartsGrow(s, [more[0]]);
      assert Continue(s, [more[0]]) == t by {
        assert [more[0]][1..] == [];
      }
      NoStartStep(s, more[0]);
      UsedUpStart(t, more[1..]);
    }
  }

  lemma {:induction false} PostsSinceStart(s: System, more: seq<Step>)
    requires !s.loop.priceUpdated && Continue(s, more).starts == s.starts
    ensures Continue(s, more).posted == s.posted + (if FirstAnswer(s, more) == Some(Posted) then 1 else 0)
    decreases |more|
  {
    if more == [] {
    } else {
      var t := Advance(s, more[0]);
      StartsGrow(t, more[1..]);
      StartsGrow(s, [more[0]]);
      assert Continue(s, [more[0]]) == t by {
        assert [more[0]][1..] == [];
      }
      NoStartStep(s, more[0]);
      if ReachesNode(s, more[0]) {
        UsedUpStart(t, more[1..]);
      } else {
        PostsSinceStart(t, more[1..]);
      }
    }
  }

  /** From a processed start to the next one there is at most one post, and there is one exactly when
      the first attempt that reaches the node is posted: one the node rejects uses up the start. */
  lemma StartPostsIff(steps: seq<Step>, start: Step, more: seq<Step>)
    requires var s := Interleaving(steps);
             start.Process? && s.loop.running && s.queue != [] && s.queue[0] == StartBlockUpdates
    requires Interleaving(steps + [start] + more).starts == Interleaving(steps).starts + 1
    ensures var s := Interleaving(steps);
            Interleaving(steps + [start] + more).posted
            == s.posted + (if FirstAnswer(Advance(s, start), more) == Some(Posted) then 1 else 0)
  {
    OneMoreStep(steps, start);
    InterleavingContinues(steps + [start], more);
    PostsSinceStart(Advance(Interleaving(steps), start), more);
  }

  /** A run in which the node rejects the transaction of the first start, however it goes on: nothing is
      posted before another start. */
  lemma RejectedPostUsesUpStart() returns (steps: seq<Step>)
    ensures Interleaving(steps).starts == 1 && steps[|steps| - 1] == Process(PostRejected)
    ensures forall more :: Interleaving(steps + more).starts == 1 ==> Interleaving(steps + more).posted == 0
  {
    var s1 := [Observe(StartBlockUpdates)];
    assert [] + s1 == s1;
    OneMoreStep([], Observe(StartBlockUpdates));
    var s2 := s1 + [Process(FetchFailed)];
    OneMoreStep(s1, Process(FetchFailed));
    var s3 := s2 + [Wake(0)];
    OneMoreStep(s2, Wake(0));
    var s4 := s3 + [Emit(0)];
    OneMoreStep(s3, Emit(0));
    steps := s4 + [Process(PostRejected)];
    OneMoreStep(s4, Process(PostRejected));
    var s := Interleaving(steps);
    assert s.loop.priceUpdated && s.posted == 0 && s.starts == 1;
    hide Interleaving, Advance, Continue;
    forall more | Interleaving(steps + more).starts == 1
      ensures Interleaving(steps + more).posted == 0
    {
      InterleavingContinues(steps, more);
      UsedUpStart(s, more);
    }
  }

  // ---------- the queue and the end of the loop ----------

  /** The commands a step sends to the loop, and those it takes. */
  function SentBy(s: System, step: Step): seq<Command> {
    match step
    case Observe(command) => if s.loop.running && command != Tick then [command] else []
    case Emit(i) => if s.loop.running && i < |s.clocks| && s.clocks[i].phase == Sending then [Tick] else []
    case _ => []
  }

  function TakenBy(s: System, step: Step): seq<Command> {
    if step.Process? && s.loop.running && s.queue != [] then [s.queue[0]] else []
  }

  function Sent(s: System, more: seq<Step>): seq<Command>
    decreases |more|
  {
    if more == [] then [] else SentBy(s, more[0]) + Sent(Advance(s, more[0]), more[1..])
  }

  function Taken(s: System, more: seq<Step>): seq<Command>
    decreases |more|
  {
    if more == [] then [] else TakenBy(s, more[0]) + Taken(Advance(s, more[0]), more[1..])
  }

  lemma QueueStep(s: System, step: Step)
    ensures s.queue + SentBy(s, step) == TakenBy(s, step) + Advance(s, step).queue
  {
  }

  /** Over any stretch of a run, what was queued and sent is what was taken and is still queued, in order:
      commands are taken first in, first out, each once, none skipped. */
  lemma {:induction false} TakenInOrder(s: System, more: seq<Step>)
    ensures s.queue + Sent(s, more) == Taken(s, more) + Continue(s, more).queue
    decreases |more|
  {
    if more == [] {
      assert s.queue + [] == [] + s.queue;
    } else {
      hide SentBy, TakenBy, Advance;
      var t := Advance(s, more[0]);
      QueueStep(s, more[0]);
      TakenInOrder(t, more[1..]);
      Regroup(s.queue, SentBy(s, more[0]), Sent(t, more[1..]), TakenBy(s, more[0]), t.queue, Taken(t, more[1..]),
              Continue(t, more[1..]).queue);
    }
  }

  lemma Regroup<T>(a: seq<T>, b: seq<T>, c: seq<T>, d: seq<T>, e: seq<T>, f: seq<T>, g: seq<T>)
    requires a + b == d + e && e + c == f + g
    ensures a + (b + c) == (d + f) + g
  {
    assert a + (b + c) == (a + b) + c == d + (e + c) == (d + f) + g;
  }

  /** The loop ends at a processed stop command or a panicking attempt, and at nothing else. */
  lemma LoopEndsIff(s: System, step: Step)
    requires s.loop.running
    ensures !Advance(s, step).loop.running <==>
              && step.Process? && s.queue != []
              && (s.queue[0] == StopBlockUpdates
                  || (s.queue[0] == Tick && !s.loop.priceUpdated && step.attempt == Panicked))
  {
  }

  /** A processed stop is the end: nothing is posted or started in any continuation. */
  lemma StopEndsAll(steps: seq<Step>, stop: Step, more: seq<Step>)
    requires var s := Interleaving(steps);
             stop.Process? && s.loop.running && s.queue != [] && s.queue[0] == StopBlockUpdates
    ensures var s, t := Interleaving(steps), Interleaving(steps + [stop] + more);
            !t.loop.running && t.posted == s.posted && t.starts == s.starts && |t.clocks| == |s.clocks|
  {
    OneMoreStep(steps, stop);
    InterleavingContinues(steps + [stop], more);
    NothingAfterEnd(Advance(Interleaving(steps), stop), more);
  }

  lemma {:induction false} NothingAfterEnd(s: System, more: seq<Step>)
    requires !s.loop.running
    ensures var t := Continue(s, more);
            !t.loop.running && t.posted == s.posted && t.starts == s.starts && |t.clocks| == |s.clocks|
    decreases |more|
  {
    if more == [] {
    } else {
      StoppedStep(s, more[0]);
      NothingAfterEnd(Advance(s, more[0]), more[1..]);
    }
  }

  lemma StoppedStep(s: System, step: Step)
    requires !s.loop.running
    ensures var t := Advance(s, step);
            && !t.loop.running && t.posted == s.posted && t.starts == s.starts && |t.clocks| == |s.clocks|
            && forall i :: 0 <= i < |s.clocks| ==>
                 && t.clocks[i].told == s.clocks[i].told
                 && (!s.clocks[i].told && s.clocks[i].phase != Exited ==> t.clocks[i].phase != Exited)
  {
  }

  /** Stopping the run loop does not stop the last clock: however the run goes on after the loop has
      ended, no clock starts, nothing is posted, and the last clock is never told to terminate and
      never ends. */
  lemma {:induction false} StoppedLoopKeepsItsClock(steps: seq<Step>, more: seq<Step>)
    requires !Interleaving(steps).loop.running && Interleaving(steps).starts > 0
    ensures var s, t := Interleaving(steps), Interleaving(steps + more);
            && !t.loop.running && t.posted == s.posted && |t.clocks| == |s.clocks| == s.starts
            && !t.clocks[|t.clocks| - 1].told && t.clocks[|t.clocks| - 1].phase != Exited
    decreases |more|
  {
    if more == [] {
      InvariantsHold(steps);
      assert steps + more == steps;
    } else {
      var front, last := more[..|more| - 1], more[|more| - 1];
      StoppedLoopKeepsItsClock(steps, front);
      assert (steps + more)[..|steps + more| - 1] == steps + front;
      StoppedStep(Interleaving(steps + front), last);
      hide Advance;
    }
  }
}
