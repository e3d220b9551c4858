/**
  The order in which a user gets a thread's records: insertion order, unless a
  flush or a registration overtakes a queued buffer of that thread.
 */
module ViewHandlerOrder {
  import opened ViewRecordInfo
  import opened ViewBuffer
  import opened ViewHandler
  import opened ViewHandlerRecords
  import opened ViewHandlerFlush

  /** Deliveries, queue and table, in this order, hold thread t's records as inserted. */
  ghost predicate Ordered(s: State, t: ThreadId) {
    InFlight(s, t) == RecordsOf(s.accepted, t)
  }

  /** What the user sees: so far thread t's records came in the order of their insertion. */
  ghost predicate InInsertionOrder(s: State, t: ThreadId) {
    DeliveredRecords(s.delivered, t) <= RecordsOf(s.accepted, t)
  }

  /** The step delivers records of t from the table while older ones wait in the queue. */
  predicate Overtakes(s: State, e: Event, t: ThreadId) {
    && (|| (e.RunTask? && s.queue != [] && s.queue[0].Flush?)
        || (e.Register? && e.thread == t))
    && QueuedRecords(s.queue, t) != [] && TableRecords(s.table, t) != []
  }

  predicate EverOvertakes(s: State, events: seq<Event>, t: ThreadId)
    decreases |events|
  {
    events != [] && (Overtakes(s, events[0], t) || EverOvertakes(Step(s, events[0]), events[1..], t))
  }

  ghost predicate Distinct<T>(xs: seq<T>) {
    forall i, j :: 0 <= i < j < |xs| ==> xs[i] != xs[j]
  }

  /** Deliveries and accepted records only ever grow at their ends. */
  lemma LogsGrow(s: State, e: Event, t: ThreadId)
    requires WellFormed(s) && Enabled(s, e)
    ensures DeliveredRecords(s.delivered, t) <= DeliveredRecords(Step(s, e).delivered, t)
    ensures RecordsOf(s.accepted, t) <= RecordsOf(Step(s, e).accepted, t)
  {
    match e
    case Insert(thread, record, alloc) => InsertAddsLast(s, thread, record, alloc, t);
    case PushFlush =>
    case RunTask(order) => TaskHandsOver(s, order, t);
    case Register(thread, newUser, alloc, fallback) => RegisterHandsOver(s, thread, newUser, alloc, fallback, t);
  }

  lemma {:induction false} LogsGrowInRun(s: State, events: seq<Event>, t: ThreadId)
    requires WellFormed(s) && CanRun(s, events)
    ensures DeliveredRecords(s.delivered, t) <= DeliveredRecords(Run(s, events).delivered, t)
    ensures RecordsOf(s.accepted, t) <= RecordsOf(Run(s, events).accepted, t)
    decreases |events|
  {
    if events != [] {
      LogsGrow(s, events[0], t);
      StepKeepsWellFormed(s, events[0]);
      LogsGrowInRun(Step(s, events[0]), events[1..], t);
    }
  }

  lemma NothingAdded<T>(xs: seq<T>)
    ensures xs + [] == xs
  {
  }

  lemma NothingBefore<T>(xs: seq<T>)
    ensures [] + xs == xs
  {
  }

  /** Handing over the table keeps the order when nothing waits in the queue or nothing is in the table. */
  lemma NothingOvertaken(delivered: seq<Record>, queued: seq<Record>, buffered: seq<Record>)
    requires queued == [] || buffered == []
    ensures delivered + buffered + (queued + []) == delivered + (queued + buffered)
  {
  }

  /** Handing over the oldest queued records keeps the order. */
  lemma OldestDelivered(delivered: seq<Record>, oldest: seq<Record>, waiting: seq<Record>, buffered: seq<Record>)
    ensures delivered + oldest + (waiting + buffered) == delivered + (oldest + waiting + buffered)
  {
    Associative(oldest, waiting, buffered);
    Associative(delivered, oldest, waiting + buffered);
  }

  lemma InsertKeepsOrder(s: State, thread: ThreadId, record: Record, alloc: Allocation, t: ThreadId)
    requires WellFormed(s) && Enabled(s, Insert(thread, record, alloc)) && Ordered(s, t)
    ensures Ordered(InsertRecord(s, thread, record, alloc), t)
  {
    InsertAddsLast(s, thread, record, alloc, t);
    var added := if Fits(s, thread, record, alloc) && thread == t then [record] else [];
    Associative(DeliveredRecords(s.delivered, t), Pending(s, t), added);
  }

  lemma FlushTaskKeepsOrder(s: State, order: seq<ThreadId>, t: ThreadId)
    requires WellFormed(s) && Enabled(s, RunTask(order)) && Ordered(s, t)
    requires s.queue[0].Flush? && (QueuedRecords(s.queue, t) == [] || TableRecords(s.table, t) == [])
    ensures Ordered(RunFirstTask(s, order), t)
  {
    TaskHandsOver(s, order, t);
    NothingOvertaken(DeliveredRecords(s.delivered, t), QueuedRecords(s.queue[1..], t), TableRecords(s.table, t));
    NothingBefore(QueuedRecords(s.queue[1..], t));
  }

  lemma DeliverTaskKeepsOrder(s: State, order: seq<ThreadId>, t: ThreadId)
    requires WellFormed(s) && Enabled(s, RunTask(order)) && Ordered(s, t) && s.queue[0].Deliver?
    ensures Ordered(RunFirstTask(s, order), t)
  {
    TaskHandsOver(s, order, t);
    OldestDelivered(DeliveredRecords(s.delivered, t), TaskRecords(s.queue[0], t), QueuedRecords(s.queue[1..], t),
                    TableRecords(s.table, t));
  }

  lemma RegisterKeepsOrder(s: State, thread: ThreadId, newUser: nat, alloc: Allocation, fallback: Allocation,
                           t: ThreadId)
    requires WellFormed(s) && Ordered(s, t) && !Overtakes(s, Register(thread, newUser, alloc, fallback), t)
    ensures Ordered(RegisterCallbacks(s, thread, newUser, alloc, fallback), t)
  {
    var delivered, queued, buffered :=
      DeliveredRecords(s.delivered, t), QueuedRecords(s.queue, t), TableRecords(s.table, t);
    RegisterHandsOver(s, thread, newUser, alloc, fallback, t);
    if thread == t {
      NothingOvertaken(delivered, queued, buffered);
    } else {
      NothingAdded(delivered);
    }
  }

  lemma PushFlushKeepsOrder(s: State, t: ThreadId)
    requires Ordered(s, t)
    ensures Ordered(s.(queue := s.queue + [Flush]), t)
  {
    QueuedPush(s.queue, Flush, t);
    NothingAdded(QueuedRecords(s.queue, t));
  }

  lemma StepKeepsOrder(s: State, e: Event, t: ThreadId)
    requires WellFormed(s) && Enabled(s, e) && Ordered(s, t) && !Overtakes(s, e, t)
    ensures Ordered(Step(s, e), t)
  {
    match e
    case Insert(thread, record, alloc) => InsertKeepsOrder(s, thread, record, alloc, t);
    case PushFlush => PushFlushKeepsOrder(s, t);
    case RunTask(order) =>
      if s.queue[0].Flush? {
        FlushTaskKeepsOrder(s, order, t);
      } else {
        DeliverTaskKeepsOrder(s, order, t);
      }
    case Register(thread, newUser, alloc, fallback) => RegisterKeepsOrder(s, thread, newUser, alloc, fallback, t);
  }

  /** Overtaking shows at once: the delivered records are no longer a prefix of the inserted ones. */
  lemma OvertakingShows(s: State, e: Event, t: ThreadId) returns (at: nat)
    requires WellFormed(s) && Enabled(s, e) && Ordered(s, t) && Overtakes(s, e, t)
    requires Distinct(RecordsOf(s.accepted, t))
    ensures at < |DeliveredRecords(Step(s, e).delivered, t)| && at < |RecordsOf(s.accepted, t)|
    ensures DeliveredRecords(Step(s, e).delivered, t)[at] != RecordsOf(s.accepted, t)[at]
  {
    var delivered, queued, buffered :=
      DeliveredRecords(s.delivered, t), QueuedRecords(s.queue, t), TableRecords(s.table, t);
    at := |delivered|;
    if e.RunTask? {
      TaskHandsOver(s, e.order, t);
    } else {
      RegisterHandsOver(s, t, e.newUser, e.alloc, e.fallback, t);
    }
    var all := RecordsOf(s.accepted, t);
    assert DeliveredRecords(Step(s, e).delivered, t) == delivered + buffered;
    assert all[at] == queued[0] && all[at + |queued|] == buffered[0];
  }

  /**
    Over every run: thread t's records reach the user in insertion order if and only
    if no flush and no registration overtook a queued buffer of t. (Only telling
    records apart makes a change of order visible.)
   */
  lemma {:induction false} InOrderUnlessOvertaken(s: State, events: seq<Event>, t: ThreadId)
    requires WellFormed(s) && CanRun(s, events) && Ordered(s, t)
    requires Distinct(RecordsOf(Run(s, events).accepted, t))
    ensures InInsertionOrder(Run(s, events), t) <==> !EverOvertakes(s, events, t)
    ensures !EverOvertakes(s, events, t) ==> Ordered(Run(s, events), t)
    decreases |events|
  {
    if events != [] {
      var e, rest := events[0], events[1..];
      var next := Step(s, e);
      StepKeepsWellFormed(s, e);
      LogsGrow(s, e, t);
      LogsGrowInRun(next, rest, t);
      if Overtakes(s, e, t) {
        var at := OvertakingShows(s, e, t);
      } else {
        StepKeepsOrder(s, e, t);
        InOrderUnlessOvertaken(next, rest, t);
      }
    }
  }

  /** No record of t waits behind a flush. */
  ghost predicate FlushesLast(s: State, t: ThreadId) {
    forall i :: 0 <= i < |s.queue| ==> s.queue[i].Flush? ==> Behind(s.queue, i, t) == []
  }

  /**
    Thread t inserts only while no flush waits, and registers callbacks only when none
    of its records are queued or none are in its table buffer.
   */
  ghost predicate NeverOverlaps(s: State, events: seq<Event>, t: ThreadId)
    decreases |events|
  {
    events != [] ==>
      && (events[0].Insert? && events[0].thread == t ==> Flush !in s.queue)
      && (events[0].Register? && events[0].thread == t ==>
            QueuedRecords(s.queue, t) == [] || TableRecords(s.table, t) == [])
      && NeverOverlaps(Step(s, events[0]), events[1..], t)
  }

  lemma StepKeepsFlushesLast(s: State, e: Event, t: ThreadId)
    requires WellFormed(s) && Enabled(s, e) && FlushesLast(s, t)
    requires e.Insert? && e.thread == t ==> Flush !in s.queue
    ensures FlushesLast(Step(s, e), t)
  {
    StepQueue(s, e);
    forall i | 0 <= i < |Step(s, e).queue| && Step(s, e).queue[i].Flush?
      ensures Behind(Step(s, e).queue, i, t) == []
    {
      if Flush in s.queue {
        OneTaskOfAnother(s, e, t);
      }
      FlushStaysLast(s.queue, TaskCount(e), Pushed(s, e), i, t);
    }
  }

  /** What a step pushes holds no record of t, unless t inserts. */
  lemma OneTaskOfAnother(s: State, e: Event, t: ThreadId)
    requires !(e.Insert? && e.thread == t)
    ensures QueuedRecords(Pushed(s, e), t) == []
  {
    if Pushed(s, e) != [] {
      OneTask(Pushed(s, e)[0], t);
    }
  }

  /** A flush that waits, or is pushed as the only task, stays last of t's tasks. */
  lemma FlushStaysLast(queue: seq<Task>, taken: nat, pushed: seq<Task>, i: nat, t: ThreadId)
    requires taken <= 1 && taken <= |queue| && |pushed| <= 1
    requires forall k :: 0 <= k < |queue| && queue[k].Flush? ==> Behind(queue, k, t) == []
    requires Flush in queue ==> QueuedRecords(pushed, t) == []
    requires FlushAt(queue[taken..] + pushed, i)
    ensures Behind(queue[taken..] + pushed, i, t) == []
  {
    var at := i + taken;
    if at < |queue| {
      assert queue[at] in queue;
      FlushMoves(queue, taken, pushed, at, t);
    } else {
      assert pushed == [Flush];
      NothingBehindLast(queue[taken..], Flush, t);
    }
  }

  /** A thread that keeps to this is never overtaken, neither by a flush nor by a registration. */
  lemma {:induction false} NoOverlapNoOvertaking(s: State, events: seq<Event>, t: ThreadId)
    requires WellFormed(s) && CanRun(s, events) && FlushesLast(s, t) && NeverOverlaps(s, events, t)
    ensures !EverOvertakes(s, events, t)
    decreases |events|
  {
    if events != [] {
      StepKeepsWellFormed(s, events[0]);
      StepKeepsFlushesLast(s, events[0], t);
      NoOverlapNoOvertaking(Step(s, events[0]), events[1..], t);
      if events[0].RunTask? && s.queue[0].Flush? {
        assert Behind(s.queue, 0, t) == [];
      }
    }
  }

  /**
    The end-to-end promise: if thread t never inserts while a flush waits, and never
    registers callbacks while records of it are both queued and in its table buffer,
    then from the start of collection up to a flush's return the user has got exactly
    what t inserted, in that order.
   */
  lemma FlushDeliversInOrder(start: State, events: seq<Event>, window: seq<Event>, order: seq<ThreadId>, t: ThreadId)
    requires Initial(start) && CanRun(start, events) && NeverOverlaps(start, events, t)
    requires FlushReturns(Run(start, events), window, order)
    requires NeverOverlaps(Step(Run(start, events), PushFlush), window, t)
    ensures var s' := AfterFlush(Run(start, events), window, order);
            DeliveredRecords(s'.delivered, t) == RecordsOf(s'.accepted, t)
  {
    OrderHolds(start, events, t);
    RunConserves(start, events, t);
    FlushDeliversFrom(Run(start, events), window, order, t);
  }

  lemma FlushDeliversFrom(s: State, window: seq<Event>, order: seq<ThreadId>, t: ThreadId)
    requires WellFormed(s) && Ordered(s, t) && FlushesLast(s, t) && Conserved(s, t)
    requires FlushReturns(s, window, order) && NeverOverlaps(Step(s, PushFlush), window, t)
    ensures var s' := AfterFlush(s, window, order); DeliveredRecords(s'.delivered, t) == RecordsOf(s'.accepted, t)
  {
    WindowKeepsOrder(s, window, t);
    FlushWindowIsClear(s, window, order, t);
    BeforeFlush(s, window, order, t);
    FlushTaskDelivers(Run(Step(s, PushFlush), window), order, t);
  }

  lemma FlushTaskDelivers(s: State, order: seq<ThreadId>, t: ThreadId)
    requires WellFormed(s) && Ordered(s, t) && Conserved(s, t) && FlushAt(s.queue, 0) && Enabled(s, RunTask(order))
    requires Behind(s.queue, 0, t) == [] && !Overtakes(s, RunTask(order), t)
    ensures var s' := Step(s, RunTask(order)); DeliveredRecords(s'.delivered, t) == RecordsOf(s'.accepted, t)
  {
    StepKeepsOrder(s, RunTask(order), t);
    FlushRuns(s, order, t);
    NothingAdded(DeliveredRecords(Step(s, RunTask(order)).delivered, t));
  }

  lemma WindowKeepsOrder(s: State, window: seq<Event>, t: ThreadId)
    requires WellFormed(s) && Ordered(s, t) && FlushesLast(s, t)
    requires Enabled(s, PushFlush) && CanRun(Step(s, PushFlush), window)
    requires NeverOverlaps(Step(s, PushFlush), window, t)
    ensures var s' := Run(Step(s, PushFlush), window); WellFormed(s') && Ordered(s', t) && FlushesLast(s', t)
  {
    StepKeepsOrder(s, PushFlush, t);
    StepKeepsWellFormed(s, PushFlush);
    StepKeepsFlushesLast(s, PushFlush, t);
    OrderHolds(Step(s, PushFlush), window, t);
  }

  /** So a thread may register callbacks before its first insert, and whenever its table buffer is empty. */
  lemma RegistersFirst(start: State, newUser: nat, alloc: Allocation, fallback: Allocation, rest: seq<Event>,
                       t: ThreadId)
    requires WellFormed(start) && TableRecords(start.table, t) == []
    ensures var register := Register(t, newUser, alloc, fallback);
            && NeverOverlaps(start, [register] + rest, t) == NeverOverlaps(Step(start, register), rest, t)
            && TableRecords(Step(start, register).table, t) == []
  {
    RegisterHandsOver(start, t, newUser, alloc, fallback, t);
    assert ([Register(t, newUser, alloc, fallback)] + rest)[1..] == rest;
  }

  /** Nothing of t was handed off behind the flush, so the flush overtakes nothing. */
  lemma FlushWindowIsClear(s: State, window: seq<Event>, order: seq<ThreadId>, t: ThreadId)
    requires FlushReturns(s, window, order) && FlushesLast(Run(Step(s, PushFlush), window), t)
    ensures !EverHandsOff(Step(s, PushFlush), window, t)
    ensures !Overtakes(Run(Step(s, PushFlush), window), RunTask(order), t)
  {
    BeforeFlush(s, window, order, t);
    assert Behind(Run(Step(s, PushFlush), window).queue, 0, t) == [];
  }

  lemma {:induction false} OrderHolds(s: State, events: seq<Event>, t: ThreadId)
    requires WellFormed(s) && CanRun(s, events) && Ordered(s, t) && FlushesLast(s, t) && NeverOverlaps(s, events, t)
    ensures var s' := Run(s, events); WellFormed(s') && Ordered(s', t) && FlushesLast(s', t)
    decreases |events|
  {
    if events != [] {
      NoOverlapNoOvertaking(s, events, t);
      StepKeepsWellFormed(s, events[0]);
      StepKeepsOrder(s, events[0], t);
      StepKeepsFlushesLast(s, events[0], t);
      OrderHolds(Step(s, events[0]), events[1..], t);
    }
  }
}
