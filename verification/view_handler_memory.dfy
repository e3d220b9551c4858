/**
  The user's memory over whole runs: exactly when some of it is never handed back,
  and that a buffer is held in one place even if allocators reuse addresses.
 */
module ViewHandlerMemory {
  import opened ViewRecordInfo
  import opened ViewBuffer
  import opened ViewHandler
  import opened ViewHandlerOwnership
  import opened ViewHandlerRecords
  import opened ViewHandlerFlush

  // ---------------------------------------------------------------- memory that is lost

  /** Memory is there, but the buffer tests as null: its size is 0. */
  predicate IsEmptyMemory(buffer: RawBuffer) {
    buffer.raw.Some? && buffer.size == 0
  }

  /** The step takes a buffer of size 0 from the queue, or writes a new one over it in the table. */
  predicate LosesMemory(s: State, e: Event) {
    match e
    case Insert(thread, _, _) => IsEmptyMemory(Entry(s.table, thread))
    case RunTask(_) => s.queue != [] && s.queue[0].Deliver? && IsEmptyMemory(s.queue[0].buffer)
    case _ => false
  }

  predicate EverLoses(s: State, events: seq<Event>)
    decreases |events|
  {
    events != [] && (LosesMemory(s, events[0]) || EverLoses(Step(s, events[0]), events[1..]))
  }

  lemma {:induction false} FlushLosesNothing(s: State, order: seq<ThreadId>)
    ensures FlushTable(s, order).lost == s.lost
    decreases |order|
  {
    if order != [] {
      FlushLosesNothing(FlushEntry(s, order[0]), order[1..]);
    }
  }

  /** One step adds to the lost memory exactly if it loses some, and then one address. */
  lemma StepLoses(s: State, e: Event)
    ensures s.lost <= Step(s, e).lost
    ensures |Step(s, e).lost| == |s.lost| + if LosesMemory(s, e) then 1 else 0
  {
    match e
    case RunTask(order) =>
      if s.queue != [] && s.queue[0].Flush? {
        FlushLosesNothing(s.(queue := s.queue[1..]), order);
      }
    case _ =>
  }

  /**
    Over every run: memory is lost if and only if a consumer task takes a buffer with
    memory of size 0, or an insert finds one in its table entry. Flushes and
    registrations lose nothing.
   */
  lemma {:induction false} LostExactly(s: State, events: seq<Event>)
    ensures s.lost <= Run(s, events).lost
    ensures Run(s, events).lost != s.lost <==> EverLoses(s, events)
    decreases |events|
  {
    if events != [] {
      StepLoses(s, events[0]);
      LostExactly(Step(s, events[0]), events[1..]);
    }
  }

  predicate TaskAt(queue: seq<Task>, at: nat, task: Task) {
    at < |queue| && queue[at] == task
  }

  lemma TaskMoves(s: State, e: Event, at: nat, task: Task)
    requires WellFormed(s) && Enabled(s, e) && TaskAt(s.queue, at + TaskCount(e), task)
    ensures WellFormed(Step(s, e)) && TaskAt(Step(s, e).queue, at, task)
  {
    StepQueue(s, e);
  }

  /** A task with exactly the tasks of a run in front of it ends up first in the queue. */
  lemma {:induction false} TaskWaits(s: State, events: seq<Event>, task: Task)
    requires WellFormed(s) && CanRun(s, events) && TaskAt(s.queue, TasksRun(events), task)
    ensures TaskAt(Run(s, events).queue, 0, task)
    decreases |events|
  {
    if events != [] {
      TaskMoves(s, events[0], TasksRun(events[1..]), task);
      TaskWaits(Step(s, events[0]), events[1..], task);
    }
  }

  /**
    Memory of size 0 that an insert gets is always lost: the insert queues it, and the
    task that carries it, whatever happens until it runs, delivers nothing.
   */
  lemma InsertedSizeZeroIsLost(s: State, thread: ThreadId, record: Record, address: Address, window: seq<Event>,
                               order: seq<ThreadId>)
    requires WellFormed(s) && Entry(s.table, thread).IsNull()
    requires Enabled(s, Insert(thread, record, Allocation(Some(address), 0)))
    requires CanRun(Step(s, Insert(thread, record, Allocation(Some(address), 0))), window)
    requires TasksRun(window) == |s.queue|
    ensures var before := Run(Step(s, Insert(thread, record, Allocation(Some(address), 0))), window);
            && before.queue != []
            && Step(before, RunTask(order)).lost == before.lost + [address]
            && Step(before, RunTask(order)).delivered == before.delivered
  {
    EncodeTakesSpace([]);
    var insert := Insert(thread, record, Allocation(Some(address), 0));
    StepKeepsWellFormed(s, insert);
    var task := Deliver(thread, Buffer(Some(address), 0, []));
    assert Step(s, insert).queue == s.queue + [task];
    TaskWaits(Step(s, insert), window, task);
  }

  /** A registration hands refused memory back, whatever its size, and the caller's old memory too. */
  lemma RegisteredIsHandedBack(s: State, thread: ThreadId, newUser: nat, alloc: Allocation, fallback: Allocation,
                               r: Address)
    ensures var s' := Step(s, Register(thread, newUser, alloc, fallback));
            && s'.lost == s.lost
            && InLog(s'.delivered, r) == InLog(s.delivered, r) + Holds(Entry(s.table, thread).raw, r)
                                         + (if Acceptable(alloc) then 0 else Holds(alloc.raw, r))
  {
    var asked := AskForBuffer(s, thread, newUser, alloc, fallback);
    ViewHandlerOwnership.LogPush(s.delivered, Delivery(newUser, thread, alloc.Fresh()), r);
    ViewHandlerOwnership.LogPush(asked.delivered, Delivery(asked.user, thread, Entry(s.table, thread)), r);
  }

  // ---------------------------------------------------------------- what allocators answered

  predicate IsEmptyAnswer(alloc: Allocation) {
    alloc.raw.Some? && alloc.size == 0
  }

  /** The next call of the thread that touches its buffer is an insert, not a registration. */
  predicate InsertsNext(events: seq<Event>, thread: ThreadId) {
    events != [] &&
      if events[0].Insert? && events[0].thread == thread then true
      else if events[0].Register? && events[0].thread == thread then false
      else InsertsNext(events[1..], thread)
  }

  /** How many answers of size 0 reach an insert: asked for by it, or by a registration before it. */
  function EmptyAnswers(s: State, events: seq<Event>): nat
    decreases |events|
  {
    if events == [] then 0
    else
      var e, rest := events[0], events[1..];
      (match e
       case Insert(thread, _, alloc) => if Entry(s.table, thread).IsNull() && IsEmptyAnswer(alloc) then 1 else 0
       case Register(thread, _, alloc, fallback) =>
         if !Acceptable(alloc) && IsEmptyAnswer(fallback) && InsertsNext(rest, thread) then 1 else 0
       case _ => 0)
      + EmptyAnswers(Step(s, e), rest)
  }

  /** Memory of size 0 that waits in the queue. */
  function EmptyQueued(queue: seq<Task>): nat {
    if queue == [] then 0
    else (if queue[0].Deliver? && IsEmptyMemory(queue[0].buffer) then 1 else 0) + EmptyQueued(queue[1..])
  }

  /** Threads with memory of size 0 in their table entries, over which they insert next. */
  function Doomed(s: State, events: seq<Event>): set<ThreadId> {
    set t | t in s.table && IsEmptyMemory(s.table[t]) && InsertsNext(events, t)
  }

  lemma {:induction false} EmptyQueuedPush(queue: seq<Task>, task: Task)
    ensures EmptyQueued(queue + [task])
            == EmptyQueued(queue) + if task.Deliver? && IsEmptyMemory(task.buffer) then 1 else 0
  {
    if queue == [] {
      assert [task][1..] == [];
    } else {
      EmptyQueuedPush(queue[1..], task);
      assert (queue + [task])[1..] == queue[1..] + [task];
    }
  }

  /** A flush neither takes nor makes entries of size 0. */
  lemma {:induction false} FlushKeepsEmpty(s: State, order: seq<ThreadId>, t: ThreadId)
    ensures IsEmptyMemory(Entry(FlushTable(s, order).table, t)) == IsEmptyMemory(Entry(s.table, t))
    ensures FlushTable(s, order).queue == s.queue
    decreases |order|
  {
    if order != [] {
      FlushKeepsEmpty(FlushEntry(s, order[0]), order[1..], t);
    }
  }

  /** What the step does to the memory of size 0 in the queue and among the lost. */
  lemma StepEmpties(s: State, e: Event)
    requires Enabled(s, e)
    ensures var s' := Step(s, e);
            |s'.lost| + EmptyQueued(s'.queue)
            == |s.lost| + EmptyQueued(s.queue)
               + (if e.Insert? && IsEmptyMemory(Entry(s.table, e.thread)) then 1 else 0)
               + (if e.Insert? && Entry(s.table, e.thread).IsNull() && IsEmptyAnswer(e.alloc) then 1 else 0)
  {
    EncodeTakesSpace([]);
    match e
    case Insert(thread, record, alloc) =>
      var filled := Filled(BufferFor(s.table, thread, alloc), record);
      assert IsEmptyMemory(filled) <==> Entry(s.table, thread).IsNull() && IsEmptyAnswer(alloc);
      EmptyQueuedPush(s.queue, Deliver(thread, filled));
    case PushFlush => EmptyQueuedPush(s.queue, Flush);
    case RunTask(order) =>
      if s.queue[0].Flush? {
        FlushLosesNothing(s.(queue := s.queue[1..]), order);
        FlushKeepsEmpty(s.(queue := s.queue[1..]), order, 0);
      }
    case Register(thread, newUser, alloc, fallback) =>
  }

  /** What the step does to a thread's entry of size 0. */
  lemma StepEmptyEntry(s: State, e: Event, t: ThreadId)
    requires Enabled(s, e)
    ensures IsEmptyMemory(Entry(Step(s, e).table, t)) <==>
              if e.Insert? && e.thread == t then false
              else if e.Register? && e.thread == t then !Acceptable(e.alloc) && IsEmptyAnswer(e.fallback)
              else IsEmptyMemory(Entry(s.table, t))
  {
    EncodeTakesSpace([]);
    match e
    case RunTask(order) =>
      if s.queue[0].Flush? {
        FlushKeepsEmpty(s.(queue := s.queue[1..]), order, t);
      }
    case _ =>
  }

  lemma DoomedIs(s: State, events: seq<Event>, t: ThreadId)
    ensures t in Doomed(s, events) <==> IsEmptyMemory(Entry(s.table, t)) && InsertsNext(events, t)
  {
  }

  lemma OneApart<T>(a: set<T>, b: set<T>, t: T)
    requires forall x :: x != t ==> (x in a <==> x in b)
    ensures |a| + (if t in b then 1 else 0) == |b| + if t in a then 1 else 0
  {
    assert a - {t} == b - {t};
    assert t in a ==> a == (a - {t}) + {t};
    assert t in b ==> b == (b - {t}) + {t};
    assert t !in a ==> a - {t} == a;
    assert t !in b ==> b - {t} == b;
  }

  /** What one step does to the doomed entries. */
  lemma StepDooms(s: State, events: seq<Event>)
    requires events != [] && Enabled(s, events[0])
    ensures var e, rest := events[0], events[1..];
            |Doomed(Step(s, e), rest)| + (if e.Insert? && IsEmptyMemory(Entry(s.table, e.thread)) then 1 else 0)
            == |Doomed(s, events)|
               + if e.Register? && !Acceptable(e.alloc) && IsEmptyAnswer(e.fallback) && InsertsNext(rest, e.thread)
                 then 1 else 0
  {
    var e, rest := events[0], events[1..];
    var before, after := Doomed(s, events), Doomed(Step(s, e), rest);
    var thread := if e.Insert? || e.Register? then e.thread else 0;
    forall t ensures t != thread || !(e.Insert? || e.Register?) ==> (t in before <==> t in after) {
      DoomedIs(s, events, t);
      DoomedIs(Step(s, e), rest, t);
      StepEmptyEntry(s, e, t);
    }
    OneApart(before, after, thread);
    DoomedIs(s, events, thread);
    DoomedIs(Step(s, e), rest, thread);
    StepEmptyEntry(s, e, thread);
  }

  /** Every answer of size 0 that reaches an insert is lost, or waits in the queue to be. */
  lemma {:induction false} LostAccounts(s: State, events: seq<Event>)
    requires CanRun(s, events)
    ensures var s' := Run(s, events);
            |s'.lost| + EmptyQueued(s'.queue)
            == |s.lost| + EmptyQueued(s.queue) + |Doomed(s, events)| + EmptyAnswers(s, events)
    decreases |events|
  {
    if events == [] {
      assert Doomed(s, events) == {};
    } else {
      StepEmpties(s, events[0]);
      StepDooms(s, events);
      LostAccounts(Step(s, events[0]), events[1..]);
    }
  }

  /**
    In the allocators' terms: once no memory of size 0 waits in the queue, a handler
    has lost as many buffers as allocators answered with size 0 to inserts, or to
    registrations after which the thread inserts before it registers again. So it
    loses none if and only if there is no such answer.
   */
  lemma LostIsEmptyAnswers(start: State, events: seq<Event>)
    requires Initial(start) && CanRun(start, events) && EmptyQueued(Run(start, events).queue) == 0
    ensures |Run(start, events).lost| == EmptyAnswers(start, events)
  {
    assert Doomed(start, events) == {};
    LostAccounts(start, events);
  }

  // ---------------------------------------------------------------- memory that is held

  /** In how many table entries and queued tasks address r is: where it may still be written or delivered. */
  function Held(s: State, r: Address): nat {
    InTable(s.table, r) + InQueue(s.queue, r)
  }

  /** No allocator that the event asks answers with memory that the handler holds. */
  predicate AllocatesFree(s: State, e: Event) {
    match e
    case Insert(thread, _, alloc) =>
      Entry(s.table, thread).IsNull() && alloc.raw.Some? ==> Held(s, alloc.raw.value) == 0
    case Register(_, _, alloc, fallback) =>
      && (alloc.raw.Some? ==> Held(s, alloc.raw.value) == 0)
      && (!Acceptable(alloc) && fallback.raw.Some? ==> Held(s, fallback.raw.value) == 0)
    case _ => true
  }

  predicate AlwaysAllocatesFree(s: State, events: seq<Event>)
    decreases |events|
  {
    events != [] ==> AllocatesFree(s, events[0]) && AlwaysAllocatesFree(Step(s, events[0]), events[1..])
  }

  lemma InsertHolds(s: State, thread: ThreadId, record: Record, alloc: Allocation, r: Address)
    requires Held(s, r) <= 1 && AllocatesFree(s, Insert(thread, record, alloc))
    ensures Held(InsertRecord(s, thread, record, alloc), r) <= 1
  {
    var filled := Filled(BufferFor(s.table, thread, alloc), record);
    TableUpdate(s.table, thread, NullBuffer(), r);
    TableUpdate(s.table, thread, filled, r);
    QueuePush(s.queue, Deliver(thread, filled), r);
  }

  lemma {:induction false} FlushHolds(s: State, order: seq<ThreadId>, r: Address)
    ensures Held(FlushTable(s, order), r) <= Held(s, r)
    decreases |order|
  {
    if order != [] {
      TableUpdate(s.table, order[0], NullBuffer(), r);
      FlushHolds(FlushEntry(s, order[0]), order[1..], r);
    }
  }

  lemma StepHolds(s: State, e: Event, r: Address)
    requires Held(s, r) <= 1 && AllocatesFree(s, e)
    ensures Held(Step(s, e), r) <= 1
  {
    match e
    case Insert(thread, record, alloc) => InsertHolds(s, thread, record, alloc, r);
    case PushFlush => QueuePush(s.queue, Flush, r);
    case RunTask(order) =>
      if s.queue != [] && s.queue[0].Flush? {
        FlushHolds(s.(queue := s.queue[1..]), order, r);
      }
    case Register(thread, newUser, alloc, fallback) =>
      TableUpdate(s.table, thread, (if Acceptable(alloc) then alloc else fallback).Fresh(), r);
  }

  /**
    Unique ownership with allocators that reuse memory: if none returns an address
    that the handler holds at that moment, then in every reachable state each address
    is in at most one table entry or queued task.
   */
  lemma {:induction false} OneHolder(s: State, events: seq<Event>, r: Address)
    requires Held(s, r) <= 1 && AlwaysAllocatesFree(s, events)
    ensures Held(Run(s, events), r) <= 1
    decreases |events|
  {
    if events != [] {
      StepHolds(s, events[0], r);
      OneHolder(Step(s, events[0]), events[1..], r);
    }
  }

  /** A new handler holds nothing, so this is so from the start. */
  lemma OneHolderFromStart(start: State, events: seq<Event>, r: Address)
    requires Initial(start) && AlwaysAllocatesFree(start, events)
    ensures Held(start, r) == 0 && Held(Run(start, events), r) <= 1
  {
    assert Holders(start.table, r) == {};
    OneHolder(start, events, r);
  }
}
