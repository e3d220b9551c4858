/**
  What a flush does for the records inserted before it: exactly when they have all
  been delivered when `FlushBuffers` returns.
 */
module ViewHandlerEarlier {
  import opened ViewRecordInfo
  import opened ViewBuffer
  import opened ViewHandler
  import opened ViewHandlerRecords
  import opened ViewHandlerFlush
  import opened ViewHandlerOrder

  /**
    The records in thread t's table buffer are handed off by an insert of t before a
    flush or a registration of t empties that buffer.
   */
  predicate CarriedOff(s: State, events: seq<Event>, t: ThreadId)
    decreases |events|
  {
    && events != [] && TableRecords(s.table, t) != []
    && (HandsOffRecords(s, events[0], t) || CarriedOff(Step(s, events[0]), events[1..], t))
  }

  /** Thread t's records in the tasks in front of position `at` of a queue. */
  function Ahead(queue: seq<Task>, at: nat, t: ThreadId): seq<Record>
    requires at <= |queue|
  {
    QueuedRecords(queue[..at], t)
  }

  /** What the user has of thread t, or gets before the task at position `at` runs. */
  function Ensured(s: State, at: nat, t: ThreadId): multiset<Record>
    requires at <= |s.queue|
  {
    multiset(DeliveredRecords(s.delivered, t)) + multiset(Ahead(s.queue, at, t))
  }

  lemma AheadOfPushed(queue: seq<Task>, pushed: seq<Task>, at: nat, t: ThreadId)
    requires at <= |queue|
    ensures Ahead(queue + pushed, at, t) == Ahead(queue, at, t)
  {
    assert (queue + pushed)[..at] == queue[..at];
  }

  lemma AheadOfTaken(queue: seq<Task>, at: nat, t: ThreadId)
    requires at < |queue|
    ensures Ahead(queue, at + 1, t) == TaskRecords(queue[0], t) + Ahead(queue[1..], at, t)
  {
    assert queue[..at + 1][1..] == queue[1..][..at];
  }

  /** What leaves the table for the user in one step. */
  function Emptied(s: State, e: Event, t: ThreadId): seq<Record> {
    if (e.RunTask? && s.queue != [] && s.queue[0].Flush?) || (e.Register? && e.thread == t)
    then TableRecords(s.table, t) else []
  }

  /** Deliveries and emptied buffers are what the user gets more of. */
  lemma StepDelivers(s: State, e: Event, t: ThreadId)
    requires WellFormed(s) && Enabled(s, e)
    ensures DeliveredRecords(Step(s, e).delivered, t)
            == DeliveredRecords(s.delivered, t)
               + (if e.RunTask? && s.queue[0].Deliver? then TaskRecords(s.queue[0], t) else Emptied(s, e, t))
  {
    match e
    case RunTask(order) => TaskHandsOver(s, order, t);
    case Register(thread, newUser, alloc, fallback) => RegisterHandsOver(s, thread, newUser, alloc, fallback, t);
    case _ =>
  }

  lemma StepAhead(s: State, e: Event, at: nat, t: ThreadId)
    requires WellFormed(s) && Enabled(s, e) && at + TaskCount(e) <= |s.queue|
    ensures at <= |Step(s, e).queue|
    ensures Ahead(s.queue, at + TaskCount(e), t)
            == (if e.RunTask? then TaskRecords(s.queue[0], t) else []) + Ahead(Step(s, e).queue, at, t)
  {
    StepQueue(s, e);
    AheadOfPushed(s.queue[TaskCount(e)..], Pushed(s, e), at, t);
    if e.RunTask? {
      AheadOfTaken(s.queue, at, t);
    }
  }

  /** What a step ensures is what was ensured, and what leaves the table for the user. */
  lemma StepEnsures(s: State, e: Event, at: nat, t: ThreadId)
    requires WellFormed(s) && Enabled(s, e) && at + TaskCount(e) <= |s.queue|
    ensures at <= |Step(s, e).queue|
    ensures Ensured(Step(s, e), at, t) == Ensured(s, at + TaskCount(e), t) + multiset(Emptied(s, e, t))
  {
    StepDelivers(s, e, t);
    StepAhead(s, e, at, t);
  }

  lemma InsertTable(s: State, thread: ThreadId, record: Record, alloc: Allocation, t: ThreadId)
    requires WellFormed(s) && Enabled(s, Insert(thread, record, alloc))
    ensures var e := Insert(thread, record, alloc);
            if HandsOffRecords(s, e, t) then TableRecords(s.table, t) <= QueuedRecords(Pushed(s, e), t)
            else TableRecords(s.table, t) <= TableRecords(Step(s, e).table, t)
  {
    FilledBuffer(s, thread, record, alloc);
    OneTask(Deliver(thread, Filled(BufferFor(s.table, thread, alloc), record)), t);
  }

  /** What a step leaves in the table: nothing, or at least what was there. */
  lemma StepTable(s: State, e: Event, t: ThreadId)
    requires WellFormed(s) && Enabled(s, e)
    ensures HandsOffRecords(s, e, t) ==> TableRecords(s.table, t) <= QueuedRecords(Pushed(s, e), t)
    ensures !HandsOffRecords(s, e, t) ==>
              TableRecords(s.table, t) <= TableRecords(Step(s, e).table, t) || TableRecords(Step(s, e).table, t) == []
    ensures Emptied(s, e, t) == [] && !HandsOffRecords(s, e, t) ==>
              TableRecords(s.table, t) <= TableRecords(Step(s, e).table, t)
    ensures Emptied(s, e, t) != [] ==> Emptied(s, e, t) == TableRecords(s.table, t)
  {
    match e
    case Insert(thread, record, alloc) => InsertTable(s, thread, record, alloc, t);
    case PushFlush => OneTask(Flush, t);
    case RunTask(order) => TaskHandsOver(s, order, t);
    case Register(thread, newUser, alloc, fallback) => RegisterHandsOver(s, thread, newUser, alloc, fallback, t);
  }

  /** What is ensured stays ensured. */
  lemma {:induction false} StaysEnsured(s: State, events: seq<Event>, t: ThreadId)
    requires WellFormed(s) && CanRun(s, events) && TasksRun(events) <= |s.queue|
    ensures Ensured(s, TasksRun(events), t) <= Ensured(Run(s, events), 0, t)
    decreases |events|
  {
    if events != [] {
      StepEnsures(s, events[0], TasksRun(events[1..]), t);
      StepKeepsWellFormed(s, events[0]);
      StaysEnsured(Step(s, events[0]), events[1..], t);
    }
  }

  /** A table buffer that is not carried off is ensured in the end, or still in the table. */
  lemma {:induction false} NotCarriedOff(s: State, events: seq<Event>, t: ThreadId)
    requires WellFormed(s) && CanRun(s, events) && TasksRun(events) <= |s.queue| && !CarriedOff(s, events, t)
    ensures Ensured(s, TasksRun(events), t) + multiset(TableRecords(s.table, t))
            <= Ensured(Run(s, events), 0, t) + multiset(TableRecords(Run(s, events).table, t))
    decreases |events|
  {
    if events != [] {
      if TableRecords(s.table, t) == [] {
        StaysEnsured(s, events, t);
      } else {
        StepEnsures(s, events[0], TasksRun(events[1..]), t);
        StepTable(s, events[0], t);
        StepKeepsWellFormed(s, events[0]);
        PrefixIsSub(TableRecords(s.table, t), TableRecords(Step(s, events[0]).table, t));
        NotCarriedOff(Step(s, events[0]), events[1..], t);
      }
    }
  }

  lemma PrefixIsSub<T>(a: seq<T>, b: seq<T>)
    ensures a <= b ==> multiset(a) <= multiset(b)
  {
    if a <= b {
      assert b == a + b[|a|..];
    }
  }

  /** What a step puts behind a waiting flush. */
  lemma BehindGrows(s: State, e: Event, at: nat, t: ThreadId)
    requires WellFormed(s) && Enabled(s, e) && FlushAt(s.queue, at + TaskCount(e))
    ensures WellFormed(Step(s, e)) && FlushAt(Step(s, e).queue, at)
    ensures Behind(Step(s, e).queue, at, t) == Behind(s.queue, at + TaskCount(e), t) + QueuedRecords(Pushed(s, e), t)
  {
    StepQueue(s, e);
    FlushMoves(s.queue, TaskCount(e), Pushed(s, e), at + TaskCount(e), t);
  }

  /** The first record in the table is handed off, or stays the first, or the buffer is emptied. */
  lemma FirstInTable(s: State, e: Event, t: ThreadId, r: Record)
    requires WellFormed(s) && Enabled(s, e) && TableRecords(s.table, t) != [] && TableRecords(s.table, t)[0] == r
    ensures HandsOffRecords(s, e, t) ==> r in QueuedRecords(Pushed(s, e), t)
    ensures !HandsOffRecords(s, e, t) && TableRecords(Step(s, e).table, t) != [] ==>
        TableRecords(Step(s, e).table, t)[0] == r
  {
    StepTable(s, e, t);
  }

  /** A table buffer that is carried off waits behind the flush. */
  lemma {:induction false} CarriedOffWaits(s: State, events: seq<Event>, t: ThreadId, r: Record)
    requires WellFormed(s) && CanRun(s, events) && FlushAt(s.queue, TasksRun(events)) && CarriedOff(s, events, t)
    requires TableRecords(s.table, t)[0] == r
    ensures FlushAt(Run(s, events).queue, 0) && r in Behind(Run(s, events).queue, 0, t)
    decreases |events|
  {
    FirstInTable(s, events[0], t, r);
    BehindGrows(s, events[0], TasksRun(events[1..]), t);
    if HandsOffRecords(s, events[0], t) {
      StaysBehind(Step(s, events[0]), events[1..], t, r);
    } else {
      CarriedOffWaits(Step(s, events[0]), events[1..], t, r);
    }
  }

  lemma {:induction false} StaysBehind(s: State, events: seq<Event>, t: ThreadId, r: Record)
    requires WellFormed(s) && CanRun(s, events) && FlushAt(s.queue, TasksRun(events))
    requires r in Behind(s.queue, TasksRun(events), t)
    ensures FlushAt(Run(s, events).queue, 0) && r in Behind(Run(s, events).queue, 0, t)
    decreases |events|
  {
    if events != [] {
      BehindGrows(s, events[0], TasksRun(events[1..]), t);
      StaysBehind(Step(s, events[0]), events[1..], t, r);
    }
  }

  /** Everything thread t inserted up to state s has been delivered in state s'. */
  predicate EarlierDelivered(s: State, s': State, t: ThreadId) {
    multiset(RecordsOf(s.accepted, t)) <= multiset(DeliveredRecords(s'.delivered, t))
  }

  /** What was inserted before the push is delivered when the flush returns, unless it is carried off. */
  lemma EarlierGetOut(s: State, window: seq<Event>, order: seq<ThreadId>, t: ThreadId)
    requires FlushReturns(s, window, order) && Conserved(s, t) && !CarriedOff(Step(s, PushFlush), window, t)
    ensures EarlierDelivered(s, AfterFlush(s, window, order), t)
  {
    var pushed := Step(s, PushFlush);
    StepKeepsWellFormed(s, PushFlush);
    BeforeFlush(s, window, order, t);
    NotCarriedOff(pushed, window, t);
    TaskHandsOver(Run(pushed, window), order, t);
    assert pushed.queue[..|s.queue|] == s.queue;
    assert Run(pushed, window).queue[..0] == [];
  }

  lemma DistinctOnce<T>(xs: seq<T>, x: T)
    requires Distinct(xs)
    ensures multiset(xs)[x] <= 1
  {
    if x in xs {
      var i :| 0 <= i < |xs| && xs[i] == x;
      var rest := xs[..i] + xs[i + 1..];
      assert xs == xs[..i] + [x] + xs[i + 1..];
      assert x !in rest;
      assert multiset(xs) == multiset(rest) + multiset{x};
    }
  }

  /** What is carried off is missing when the flush returns. */
  lemma CarriedOffIsMissing(s: State, window: seq<Event>, order: seq<ThreadId>, t: ThreadId)
    requires FlushReturns(s, window, order) && Conserved(s, t) && CarriedOff(Step(s, PushFlush), window, t)
    requires Distinct(RecordsOf(AfterFlush(s, window, order).accepted, t))
    ensures !EarlierDelivered(s, AfterFlush(s, window, order), t)
  {
    var pushed, s' := Step(s, PushFlush), AfterFlush(s, window, order);
    var r := TableRecords(s.table, t)[0];
    StepKeepsWellFormed(s, PushFlush);
    StepQueue(s, PushFlush);
    CarriedOffWaits(pushed, window, t, r);
    BeforeFlush(s, window, order, t);
    FlushRuns(Run(pushed, window), order, t);
    assert r in multiset(QueuedRecords(s'.queue, t)) && r in multiset(TableRecords(s.table, t));
    DistinctOnce(RecordsOf(s'.accepted, t), r);
    assert multiset(DeliveredRecords(s'.delivered, t))[r] == 0 && multiset(RecordsOf(s.accepted, t))[r] > 0;
  }

  /**
    The promise of FlushBuffers for what was inserted before the call, in both
    directions: when it returns, thread t's earlier records have all been delivered
    if and only if no insert of t handed off the buffer they stood in while the flush
    waited and before another flush or a registration of t had emptied that buffer.
    (Only telling records apart makes a missing one visible.)
   */
  lemma FlushDeliversEarlier(s: State, window: seq<Event>, order: seq<ThreadId>, t: ThreadId)
    requires FlushReturns(s, window, order) && Conserved(s, t)
    requires Distinct(RecordsOf(AfterFlush(s, window, order).accepted, t))
    ensures EarlierDelivered(s, AfterFlush(s, window, order), t) <==> !CarriedOff(Step(s, PushFlush), window, t)
  {
    if CarriedOff(Step(s, PushFlush), window, t) {
      CarriedOffIsMissing(s, window, order, t);
    } else {
      EarlierGetOut(s, window, order, t);
    }
  }

  /** A thread with nothing in its table buffer at the push has its earlier records delivered, whatever it inserts. */
  lemma EmptyBufferLosesNothing(s: State, window: seq<Event>, order: seq<ThreadId>, t: ThreadId)
    requires FlushReturns(s, window, order) && Conserved(s, t) && TableRecords(s.table, t) == []
    ensures EarlierDelivered(s, AfterFlush(s, window, order), t)
  {
    EarlierGetOut(s, window, order, t);
  }
}
