/**
  What a flush promises: when `FlushBuffers` returns, exactly the threads whose
  buffer was not handed off behind the flush have all their records delivered.
 */
module ViewHandlerFlush {
  import opened ViewRecordInfo
  import opened ViewBuffer
  import opened ViewHandler
  import opened ViewHandlerRecords

  /** How many consumer tasks run in one event, and in a stretch of events. */
  function TaskCount(e: Event): nat {
    if e.RunTask? then 1 else 0
  }

  function TasksRun(events: seq<Event>): nat {
    if events == [] then 0 else TaskCount(events[0]) + TasksRun(events[1..])
  }

  /** The tasks a step pushes. */
  function Pushed(s: State, e: Event): seq<Task> {
    match e
    case Insert(thread, record, alloc) =>
      if HandsOff(s, thread, record, alloc) then [Deliver(thread, Filled(BufferFor(s.table, thread, alloc), record))]
      else []
    case PushFlush => [Flush]
    case _ => []
  }

  /** The step, an insert of thread t, hands off a buffer with records in it. */
  predicate HandsOffRecords(s: State, e: Event, t: ThreadId) {
    QueuedRecords(Pushed(s, e), t) != []
  }

  predicate EverHandsOff(s: State, events: seq<Event>, t: ThreadId)
    decreases |events|
  {
    events != [] && (HandsOffRecords(s, events[0], t) || EverHandsOff(Step(s, events[0]), events[1..], t))
  }

  predicate FlushAt(queue: seq<Task>, at: nat) {
    at < |queue| && queue[at].Flush?
  }

  /** Thread t's records in the tasks behind position `at` of a queue. */
  function Behind(queue: seq<Task>, at: nat, t: ThreadId): seq<Record>
    requires at < |queue|
  {
    if at == 0 then QueuedRecords(queue[1..], t) else Behind(queue[1..], at - 1, t)
  }

  /** What is pushed goes behind everything that waits. */
  lemma {:induction false} PushedBehind(queue: seq<Task>, pushed: seq<Task>, at: nat, t: ThreadId)
    requires at < |queue|
    ensures Behind(queue + pushed, at, t) == Behind(queue, at, t) + QueuedRecords(pushed, t)
  {
    assert (queue + pushed)[1..] == queue[1..] + pushed;
    if at == 0 {
      QueuedConcat(queue[1..], pushed, t);
    } else {
      PushedBehind(queue[1..], pushed, at - 1, t);
    }
  }

  lemma {:induction false} NothingBehindLast(queue: seq<Task>, task: Task, t: ThreadId)
    ensures Behind(queue + [task], |queue|, t) == []
  {
    if queue == [] {
      assert ([task])[1..] == [];
    } else {
      assert (queue + [task])[1..] == queue[1..] + [task];
      NothingBehindLast(queue[1..], task, t);
    }
  }

  /** The queue is first in, first out: a step takes from its front and pushes at its end. */
  lemma StepQueue(s: State, e: Event)
    requires WellFormed(s) && Enabled(s, e)
    ensures WellFormed(Step(s, e))
    ensures Step(s, e).queue == s.queue[TaskCount(e)..] + Pushed(s, e)
  {
    StepKeepsWellFormed(s, e);
    match e
    case RunTask(order) => TaskHandsOver(s, order, 0);
    case Register(thread, newUser, alloc, fallback) => RegisterHandsOver(s, thread, newUser, alloc, fallback, 0);
    case _ =>
  }

  /** The depth never changes, and bounds the queue in every run. */
  lemma {:induction false} QueueWithinDepth(s: State, events: seq<Event>)
    requires WellFormed(s) && CanRun(s, events) && (s.depth.Some? ==> |s.queue| <= s.depth.value)
    ensures Run(s, events).depth == s.depth
    ensures s.depth.Some? ==> |Run(s, events).queue| <= s.depth.value
    decreases |events|
  {
    if events != [] {
      StepQueue(s, events[0]);
      StepKeepsDepth(s, events[0]);
      QueueWithinDepth(Step(s, events[0]), events[1..]);
    }
  }

  lemma {:induction false} FlushKeepsDepth(s: State, order: seq<ThreadId>)
    ensures FlushTable(s, order).depth == s.depth
    decreases |order|
  {
    if order != [] {
      FlushKeepsDepth(FlushEntry(s, order[0]), order[1..]);
    }
  }

  lemma StepKeepsDepth(s: State, e: Event)
    requires WellFormed(s) && Enabled(s, e)
    ensures Step(s, e).depth == s.depth
    ensures Pushed(s, e) != [] ==> (s.depth.Some? ==> |s.queue| < s.depth.value)
  {
    if e.RunTask? && s.queue[0].Flush? {
      FlushKeepsDepth(s.(queue := s.queue[1..]), e.order);
    }
  }

  /** A waiting flush moves forward by the tasks taken; what is pushed goes behind it. */
  lemma FlushMoves(queue: seq<Task>, taken: nat, pushed: seq<Task>, at: nat, t: ThreadId)
    requires taken <= 1 && taken <= at && FlushAt(queue, at)
    ensures var queue' := queue[taken..] + pushed;
            FlushAt(queue', at - taken)
            && Behind(queue', at - taken, t) == Behind(queue, at, t) + QueuedRecords(pushed, t)
  {
    PushedBehind(queue[taken..], pushed, at - taken, t);
  }

  lemma FlushWaits(s: State, e: Event, at: nat, t: ThreadId)
    requires WellFormed(s) && Enabled(s, e) && FlushAt(s.queue, at + TaskCount(e))
    ensures WellFormed(Step(s, e)) && FlushAt(Step(s, e).queue, at)
    ensures Behind(Step(s, e).queue, at, t) == []
            <==> Behind(s.queue, at + TaskCount(e), t) == [] && !HandsOffRecords(s, e, t)
  {
    StepQueue(s, e);
    FlushMoves(s.queue, TaskCount(e), Pushed(s, e), at + TaskCount(e), t);
  }

  /** A flush with exactly the tasks of a run in front of it ends up first in the queue. */
  lemma {:induction false} FlushWaitsInRun(s: State, events: seq<Event>, t: ThreadId)
    requires WellFormed(s) && CanRun(s, events) && FlushAt(s.queue, TasksRun(events))
    ensures WellFormed(Run(s, events)) && FlushAt(Run(s, events).queue, 0)
    ensures Behind(Run(s, events).queue, 0, t) == []
            <==> Behind(s.queue, TasksRun(events), t) == [] && !EverHandsOff(s, events, t)
    decreases |events|
  {
    if events != [] {
      FlushWaits(s, events[0], TasksRun(events[1..]), t);
      FlushWaitsInRun(Step(s, events[0]), events[1..], t);
    }
  }

  /** `window` runs the tasks in front of a flush pushed in state s, and the next task is that flush. */
  ghost predicate FlushReturns(s: State, window: seq<Event>, order: seq<ThreadId>) {
    && WellFormed(s) && Enabled(s, PushFlush)
    && CanRun(Step(s, PushFlush), window)
    && TasksRun(window) == |s.queue|
    && Enabled(Run(Step(s, PushFlush), window), RunTask(order))
  }

  function AfterFlush(s: State, window: seq<Event>, order: seq<ThreadId>): State {
    Step(Run(Step(s, PushFlush), window), RunTask(order))
  }

  predicate AllDelivered(s: State, t: ThreadId) {
    multiset(DeliveredRecords(s.delivered, t)) == multiset(RecordsOf(s.accepted, t))
  }

  /** Just before the flush runs, it is first in the queue. */
  lemma BeforeFlush(s: State, window: seq<Event>, order: seq<ThreadId>, t: ThreadId)
    requires FlushReturns(s, window, order)
    ensures var before := Run(Step(s, PushFlush), window);
            && WellFormed(before) && FlushAt(before.queue, 0)
            && (Behind(before.queue, 0, t) == [] <==> !EverHandsOff(Step(s, PushFlush), window, t))
            && (Conserved(s, t) ==> Conserved(before, t))
  {
    var pushed := Step(s, PushFlush);
    StepKeepsWellFormed(s, PushFlush);
    NothingBehindLast(s.queue, Flush, t);
    FlushWaitsInRun(pushed, window, t);
    if Conserved(s, t) {
      StepConserves(s, PushFlush, t);
      RunConserves(pushed, window, t);
    }
  }

  /** When the flush has run, what is left of thread t stands behind it in the queue. */
  lemma LeftAfterFlush(s: State, window: seq<Event>, order: seq<ThreadId>, t: ThreadId)
    requires FlushReturns(s, window, order) && Conserved(s, t)
    ensures var s' := AfterFlush(s, window, order);
            && WellFormed(s') && Conserved(s', t)
            && TableRecords(s'.table, t) == []
            && (QueuedRecords(s'.queue, t) == [] <==> !EverHandsOff(Step(s, PushFlush), window, t))
  {
    BeforeFlush(s, window, order, t);
    FlushRuns(Run(Step(s, PushFlush), window), order, t);
  }

  lemma FlushRuns(s: State, order: seq<ThreadId>, t: ThreadId)
    requires WellFormed(s) && Enabled(s, RunTask(order)) && FlushAt(s.queue, 0) && Conserved(s, t)
    ensures var s' := Step(s, RunTask(order));
            && WellFormed(s') && Conserved(s', t)
            && TableRecords(s'.table, t) == []
            && QueuedRecords(s'.queue, t) == Behind(s.queue, 0, t)
  {
    TaskHandsOver(s, order, t);
    StepConserves(s, RunTask(order), t);
  }

  /**
    The promise of FlushBuffers, per thread and in both directions, whatever other
    threads, flushes, deliveries and registrations do in the meantime: everything
    thread t inserted has been delivered when the flush returns if and only if no
    insert of t handed off a buffer while the flush was waiting.
   */
  lemma FlushDeliversAll(s: State, window: seq<Event>, order: seq<ThreadId>, t: ThreadId)
    requires FlushReturns(s, window, order) && Conserved(s, t)
    ensures AllDelivered(AfterFlush(s, window, order), t) <==> !EverHandsOff(Step(s, PushFlush), window, t)
  {
    LeftAfterFlush(s, window, order, t);
    var s' := AfterFlush(s, window, order);
    var left := multiset(QueuedRecords(s'.queue, t));
    assert multiset(TableRecords(s'.table, t)) == multiset{};
    if QueuedRecords(s'.queue, t) != [] {
      assert QueuedRecords(s'.queue, t)[0] in left;
      assert |multiset(RecordsOf(s'.accepted, t))| == |multiset(DeliveredRecords(s'.delivered, t))| + |left|;
    }
  }

  /** What a caller can see to: a thread that inserts nothing until the flush returns has everything delivered. */
  lemma FlushDeliversQuietThreads(s: State, window: seq<Event>, order: seq<ThreadId>, t: ThreadId)
    requires FlushReturns(s, window, order) && Conserved(s, t)
    requires forall i :: 0 <= i < |window| ==> window[i].Insert? ==> window[i].thread != t
    ensures AllDelivered(AfterFlush(s, window, order), t)
  {
    QuietNeverHandsOff(Step(s, PushFlush), window, t);
    FlushDeliversAll(s, window, order, t);
  }

  lemma {:induction false} QuietNeverHandsOff(s: State, events: seq<Event>, t: ThreadId)
    requires forall i :: 0 <= i < |events| ==> events[i].Insert? ==> events[i].thread != t
    ensures !EverHandsOff(s, events, t)
    decreases |events|
  {
    if events != [] {
      var pushed := Pushed(s, events[0]);
      if pushed != [] {
        OneTask(pushed[0], t);
        assert pushed == [pushed[0]];
      }
      QuietNeverHandsOff(Step(s, events[0]), events[1..], t);
    }
  }
}
