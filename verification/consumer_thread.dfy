/**
  The buffer consumer: a bounded first-in first-out queue of tasks, a thread that
  runs them, and the shutdown. The atomic steps are those of the queue's mutex and
  of the stop flag; a wait is a step that is not enabled.
 */
module ConsumerThread {
  import opened ViewRecordInfo

  /** Where the consumer's Run loop stands. A None task is the empty one that Stop pushes. */
  datatype Phase<T> = AtLoopHead | AtPop | Running(task: Option<T>) | Left

  datatype State<T> = State(
    stop: bool,                   // stop_thread_
    queue: seq<Option<T>>,        // queue_.buffer_queue_
    depth: Option<nat>,           // queue_.buffer_depth_
    phase: Phase<T>,
    stopped: nat,                 // how many of Stop's three steps are done
    // History: everything pushed, everything run to its end, and the tasks begun with the flag set.
    pushed: seq<Option<T>>,
    ran: seq<Option<T>>,
    begunLate: nat)

  datatype Event<T> =
    | Push(task: T)
    | CheckStop | Pop | Finish                    // the consumer's own steps
    | SetFlag | ResetDepth | PushEmpty            // Stop's steps

  /** The push guard as the source writes it: a push waits only while a depth is set and reached. */
  predicate HasRoom<T>(s: State<T>) {
    s.depth.Some? ==> |s.queue| < s.depth.value
  }

  predicate Enabled<T>(s: State<T>, e: Event<T>) {
    match e
    case Push(_) => HasRoom(s)
    case CheckStop => s.phase.AtLoopHead?
    case Pop => s.phase.AtPop? && |s.queue| != 0
    case Finish => s.phase.Running?
    case SetFlag => s.stopped == 0
    case ResetDepth => s.stopped == 1
    case PushEmpty => s.stopped == 2 && HasRoom(s)
  }

  function Step<T>(s: State<T>, e: Event<T>): State<T>
    requires Enabled(s, e)
  {
    match e
    case Push(task) => s.(queue := s.queue + [Some(task)], pushed := s.pushed + [Some(task)])
    case CheckStop => s.(phase := if s.stop then Left else AtPop)
    case Pop => s.(queue := s.queue[1..], phase := Running(s.queue[0]),
                   begunLate := s.begunLate + if s.stop then 1 else 0)
    case Finish => s.(phase := AtLoopHead, ran := s.ran + [s.phase.task])
    case SetFlag => s.(stop := true, stopped := 1)
    case ResetDepth => s.(depth := None, stopped := 2)
    case PushEmpty => s.(queue := s.queue + [None], pushed := s.pushed + [None], stopped := 3)
  }

  ghost predicate CanRun<T>(s: State<T>, events: seq<Event<T>>)
    decreases |events|
  {
    events == [] || (Enabled(s, events[0]) && CanRun(Step(s, events[0]), events[1..]))
  }

  ghost function Run<T>(s: State<T>, events: seq<Event<T>>): State<T>
    requires CanRun(s, events)
    decreases |events|
  {
    if events == [] then s else Run(Step(s, events[0]), events[1..])
  }

  predicate Initial<T>(s: State<T>) {
    && !s.stop && |s.queue| == 0 && s.phase.AtLoopHead? && s.stopped == 0
    && |s.pushed| == 0 && |s.ran| == 0 && s.begunLate == 0
  }

  function InHand<T>(phase: Phase<T>): seq<Option<T>> {
    if phase.Running? then [phase.task] else []
  }

  /** How many steps of its own the consumer is away from leaving its loop, once the flag is set. */
  function StepsToLeave<T>(phase: Phase<T>): nat {
    match phase case Left => 0 case AtLoopHead => 1 case Running(_) => 2 case AtPop => 3
  }

  /** What holds in every reachable state of a consumer created with depth `created`. */
  ghost predicate Invariant<T>(s: State<T>, created: Option<nat>) {
    // First in, first out, and nothing lost.
    && s.ran + InHand(s.phase) + s.queue == s.pushed
    // Until Stop resets it, the depth is the one set at creation, and bounds the queue.
    && (s.stopped < 2 ==> s.depth == created)
    && (s.depth.Some? ==> |s.queue| <= s.depth.value)
    // Stop's steps, and what they mean for the loop.
    && (s.stop <==> s.stopped >= 1) && s.stopped <= 3 && (s.stopped >= 2 ==> s.depth.None?)
    && (s.phase.Left? ==> s.stop)
    && (!s.stop ==> s.begunLate == 0)
    && s.begunLate <= (if s.phase.AtPop? then 0 else 1)
    && (s.stopped == 3 && s.phase.AtPop? ==> |s.queue| != 0)
  }

  lemma StepKeepsInvariant<T>(s: State<T>, e: Event<T>, created: Option<nat>)
    requires Invariant(s, created) && Enabled(s, e)
    ensures Invariant(Step(s, e), created)
  {
    var s' := Step(s, e);
    match e
    case Pop => assert s.queue == [s.queue[0]] + s.queue[1..];
    case _ =>
  }

  /**
    Every run of pushes, stop steps and consumer steps, in any interleaving: tasks
    run in the order of their pushes, the queue stays within its depth until Stop
    lifts it, and after the stop flag at most one more task begins.
   */
  lemma {:induction false} RunKeepsInvariant<T>(s: State<T>, events: seq<Event<T>>, created: Option<nat>)
    requires Invariant(s, created) && CanRun(s, events)
    ensures Invariant(Run(s, events), created)
    decreases |events|
  {
    if events != [] {
      StepKeepsInvariant(s, events[0], created);
      RunKeepsInvariant(Step(s, events[0]), events[1..], created);
    }
  }

  lemma InitialInvariant<T>(s: State<T>)
    requires Initial(s)
    ensures Invariant(s, s.depth)
  {
  }

  /** What the events push: the producers' tasks, and the empty one of Stop. */
  function Pushes<T>(events: seq<Event<T>>): seq<Option<T>> {
    if events == [] then []
    else
      (match events[0] case Push(task) => [Some(task)] case PushEmpty => [None] case _ => []) + Pushes(events[1..])
  }

  /** How many tasks are begun after the stop flag is set. */
  function LatePops<T>(stop: bool, events: seq<Event<T>>): nat
    decreases |events|
  {
    if events == [] then 0
    else (if stop && events[0].Pop? then 1 else 0) + LatePops(stop || events[0].SetFlag?, events[1..])
  }

  /** The history in the state is that of the events. */
  lemma {:induction false} RunKeepsHistory<T>(s: State<T>, events: seq<Event<T>>)
    requires CanRun(s, events)
    ensures Run(s, events).pushed == s.pushed + Pushes(events)
    ensures Run(s, events).begunLate == s.begunLate + LatePops(s.stop, events)
    decreases |events|
  {
    if events != [] {
      var next := Step(s, events[0]);
      RunKeepsHistory(next, events[1..]);
      match events[0]
      case Push(task) => Associative(s.pushed, [Some(task)], Pushes(events[1..]));
      case PushEmpty => Associative(s.pushed, [None], Pushes(events[1..]));
      case _ => assert [] + Pushes(events[1..]) == Pushes(events[1..]);
    }
  }

  /**
    So in every run from the start the tasks run, the one in hand and those queued are,
    in this order, the tasks pushed, and at most one begins after the stop flag.
   */
  lemma RunsInPushOrder<T>(start: State<T>, events: seq<Event<T>>)
    requires Initial(start) && CanRun(start, events)
    ensures var s := Run(start, events); s.ran + InHand(s.phase) + s.queue == Pushes(events)
    ensures LatePops(false, events) <= 1
  {
    InitialInvariant(start);
    RunKeepsInvariant(start, events, start.depth);
    RunKeepsHistory(start, events);
    assert start.pushed + Pushes(events) == Pushes(events);
  }

  predicate ConsumerStep<T>(e: Event<T>) {
    e.CheckStop? || e.Pop? || e.Finish?
  }

  function ConsumerSteps<T>(events: seq<Event<T>>): nat {
    if events == [] then 0 else (if ConsumerStep(events[0]) then 1 else 0) + ConsumerSteps(events[1..])
  }

  /** The consumer's next step; none once it has left. */
  function NextStep<T>(s: State<T>): Event<T>
    requires !s.phase.Left?
  {
    match s.phase case AtLoopHead => CheckStop case AtPop => Pop case Running(_) => Finish
  }

  /** The consumer's next step is possible. */
  predicate ConsumerCanStep<T>(s: State<T>) {
    !s.phase.Left? && Enabled(s, NextStep(s))
  }

  /**
    No deadlock, in every reachable state of a consumer created with a depth other
    than 0 (the source's is 50 or twice a positive number): a producer can push or
    the consumer can make its next step, unless Stop has set its flag, the consumer
    has left a full queue, and Stop can make its next step, which lifts the depth.
   */
  lemma NeverStuck<T>(start: State<T>, events: seq<Event<T>>)
    requires Initial(start) && start.depth != Some(0) && CanRun(start, events)
    ensures var s := Run(start, events);
            || HasRoom(s) || ConsumerCanStep(s)
            || (s.phase.Left? && s.stopped == 1 && Enabled(s, ResetDepth))
  {
    InitialInvariant(start);
    RunKeepsInvariant(start, events, start.depth);
  }

  /** What the consumer does in `n` steps if nobody else acts; it waits where it cannot go on. */
  function ConsumerAlone<T>(s: State<T>, n: nat): State<T>
    decreases n
  {
    if n == 0 || !ConsumerCanStep(s) then s else ConsumerAlone(Step(s, NextStep(s)), n - 1)
  }

  /** How many steps the consumer is away from having taken a task from the queue. */
  function StepsToPop<T>(phase: Phase<T>): nat
    requires !phase.Left?
  {
    match phase case AtPop => 1 case AtLoopHead => 2 case Running(_) => 3
  }

  /** A producer that waits for room gets it after at most three steps of the consumer, until Stop is called. */
  lemma WaitingProducerGetsRoom<T>(start: State<T>, events: seq<Event<T>>)
    requires Initial(start) && start.depth != Some(0) && CanRun(start, events)
    requires !Run(start, events).stop && !HasRoom(Run(start, events))
    ensures var s := Run(start, events);
            && !s.phase.Left? && |s.queue| != 0
            && HasRoom(ConsumerAlone(s, StepsToPop(s.phase)))
            && ConsumerAlone(s, StepsToPop(s.phase)).queue == s.queue[1..]
  {
    InitialInvariant(start);
    RunKeepsInvariant(start, events, start.depth);
    PopIsNear(Run(start, events));
  }

  lemma {:induction false} PopIsNear<T>(s: State<T>)
    requires !s.stop && !s.phase.Left? && |s.queue| != 0
    ensures var s' := ConsumerAlone(s, StepsToPop(s.phase)); s'.queue == s.queue[1..] && s'.depth == s.depth
    decreases StepsToPop(s.phase)
  {
    var next := Step(s, NextStep(s));
    if s.phase.AtPop? {
      assert ConsumerAlone(next, 0) == next;
    } else {
      PopIsNear(next);
    }
  }

  /** Once the flag is set, each step of the consumer brings it one step nearer to the end of its loop. */
  lemma {:induction false} StoppedConsumerLeaves<T>(s: State<T>, events: seq<Event<T>>)
    requires s.stop && CanRun(s, events)
    ensures Run(s, events).stop
    ensures StepsToLeave(Run(s, events).phase) + ConsumerSteps(events) == StepsToLeave(s.phase)
    decreases |events|
  {
    if events != [] {
      StoppedConsumerLeaves(Step(s, events[0]), events[1..]);
    }
  }

  /**
    Shutdown, over every run before and after Stop returns: the consumer is never
    blocked again, has at most three more steps to make and has left its loop after
    them; until then its next step is enabled.
   */
  lemma StopAlwaysStops<T>(start: State<T>, before: seq<Event<T>>, after: seq<Event<T>>)
    requires Initial(start) && CanRun(start, before) && Run(start, before).stopped == 3
    requires CanRun(Run(start, before), after)
    ensures var s := Run(Run(start, before), after);
            && ConsumerSteps(after) <= 3
            && (ConsumerSteps(after) == 3 ==> s.phase.Left?)
            && (!s.phase.Left? ==> Enabled(s, NextStep(s)))
            && s.begunLate <= 1
            && (s.phase.Left? ==> s.ran + s.queue == s.pushed)
  {
    InitialInvariant(start);
    RunKeepsInvariant(start, before, start.depth);
    RunKeepsInvariant(Run(start, before), after, start.depth);
    StoppedConsumerLeaves(Run(start, before), after);
    StoppedStays(Run(start, before), after);
  }

  lemma {:induction false} StoppedStays<T>(s: State<T>, events: seq<Event<T>>)
    requires s.stopped == 3 && CanRun(s, events)
    ensures Run(s, events).stopped == 3
    decreases |events|
  {
    if events != [] {
      StoppedStays(Step(s, events[0]), events[1..]);
    }
  }

  /** The consumer as an object: a push, a stop and the Run loop on the mutable queue. */
  class BufferConsumer<T> {
    var stopThread: bool
    var queue: seq<Option<T>>
    var depth: Option<nat>
    ghost var ran: seq<Option<T>>

    constructor (hardwareThreads: nat)
      ensures !stopThread && queue == [] && ran == []
      ensures depth == Some(if hardwareThreads > 0 then 2 * hardwareThreads else 50)
    {
      stopThread, queue, ran := false, [], [];
      depth := Some(50);
      if hardwareThreads > 0 {
        depth := Some(2 * hardwareThreads);
      }
    }

    method Push(task: Option<T>)
      requires depth.Some? ==> |queue| < depth.value
      modifies this`queue
      ensures queue == old(queue) + [task]
    {
      queue := queue + [task];
    }

    method Pop() returns (task: Option<T>)
      requires |queue| != 0
      modifies this`queue
      ensures [task] + queue == old(queue)
    {
      task := queue[0];
      queue := queue[1..];
    }

    method Stop()
      modifies this
      ensures stopThread && depth == None && queue == old(queue) + [None] && ran == old(ran)
    {
      stopThread := true;
      depth := None;
      Push(None);
    }

    /** The loop of the consumer's thread while nobody else acts: it runs all tasks and then waits, or leaves. */
    method Run()
      modifies this`queue, this`ran
      ensures if old(stopThread) then queue == old(queue) && ran == old(ran)
              else queue == [] && ran == old(ran) + old(queue)
    {
      while !stopThread && |queue| != 0
        invariant ran + queue == old(ran) + old(queue)
        invariant stopThread ==> queue == old(queue) && ran == old(ran)
        decreases |queue|
      {
        var delivery := Pop();
        ran := ran + [delivery];
      }
    }
  }
}
