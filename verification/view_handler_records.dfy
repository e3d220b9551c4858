/**
  No record is lost: in every run, what each thread inserted is what the user got,
  what waits in the queue and what stands in the thread's buffer.
 */
module ViewHandlerRecords {
  import opened ViewRecordInfo
  import opened ViewBuffer
  import opened ViewHandler

  function TaskRecords(task: Task, t: ThreadId): seq<Record> {
    if task.Deliver? && task.owner == t then task.buffer.records else []
  }

  /** Thread t's records in a queue, oldest first. */
  function QueuedRecords(queue: seq<Task>, t: ThreadId): seq<Record> {
    if queue == [] then [] else TaskRecords(queue[0], t) + QueuedRecords(queue[1..], t)
  }

  /** Thread t's records in the buffers the user got, in the order of the deliveries. */
  function DeliveredRecords(log: seq<Delivery>, t: ThreadId): seq<Record> {
    if log == [] then []
    else (if log[0].owner == t then log[0].buffer.records else []) + DeliveredRecords(log[1..], t)
  }

  function TableRecords(table: map<ThreadId, RawBuffer>, t: ThreadId): seq<Record> {
    Entry(table, t).records
  }

  /** Thread t's part of a log of inserts. */
  function RecordsOf(log: seq<(ThreadId, Record)>, t: ThreadId): seq<Record> {
    if log == [] then []
    else (if log[0].0 == t then [log[0].1] else []) + RecordsOf(log[1..], t)
  }

  /** Thread t's records the user has not got yet, as they would come if only deliveries ran. */
  function Pending(s: State, t: ThreadId): seq<Record> {
    QueuedRecords(s.queue, t) + TableRecords(s.table, t)
  }

  function InFlight(s: State, t: ThreadId): seq<Record> {
    DeliveredRecords(s.delivered, t) + Pending(s, t)
  }

  ghost predicate WellFormed(s: State) {
    && (forall t :: t in s.table ==> s.table[t].WellFormed())
    && (forall i :: 0 <= i < |s.queue| ==> s.queue[i].Deliver? ==> s.queue[i].buffer.WellFormed())
  }

  /** Thread t's inserted records are exactly the delivered, queued and buffered ones. */
  ghost predicate Conserved(s: State, t: ThreadId) {
    multiset(DeliveredRecords(s.delivered, t)) + multiset(QueuedRecords(s.queue, t))
    + multiset(TableRecords(s.table, t))
    == multiset(RecordsOf(s.accepted, t))
  }

  lemma {:induction false} QueuedConcat(a: seq<Task>, b: seq<Task>, t: ThreadId)
    ensures QueuedRecords(a + b, t) == QueuedRecords(a, t) + QueuedRecords(b, t)
  {
    if a == [] {
      assert a + b == b;
    } else {
      QueuedConcat(a[1..], b, t);
      assert (a + b)[1..] == a[1..] + b;
      Associative(TaskRecords(a[0], t), QueuedRecords(a[1..], t), QueuedRecords(b, t));
    }
  }

  lemma OneTask(task: Task, t: ThreadId)
    ensures QueuedRecords([task], t) == TaskRecords(task, t)
  {
    assert [task][1..] == [];
  }

  lemma QueuedPush(queue: seq<Task>, task: Task, t: ThreadId)
    ensures QueuedRecords(queue + [task], t) == QueuedRecords(queue, t) + TaskRecords(task, t)
  {
    QueuedConcat(queue, [task], t);
    OneTask(task, t);
  }

  lemma {:induction false} DeliveredPush(log: seq<Delivery>, d: Delivery, t: ThreadId)
    ensures DeliveredRecords(log + [d], t) == DeliveredRecords(log, t) + if d.owner == t then d.buffer.records else []
  {
    if log == [] {
      assert [d][1..] == [];
    } else {
      DeliveredPush(log[1..], d, t);
      assert (log + [d])[1..] == log[1..] + [d];
    }
  }

  lemma {:induction false} LogPush(log: seq<(ThreadId, Record)>, owner: ThreadId, record: Record, t: ThreadId)
    ensures RecordsOf(log + [(owner, record)], t) == RecordsOf(log, t) + if owner == t then [record] else []
  {
    if log == [] {
      assert [(owner, record)][1..] == [];
    } else {
      LogPush(log[1..], owner, record, t);
      assert (log + [(owner, record)])[1..] == log[1..] + [(owner, record)];
    }
  }

  predicate Fits(s: State, thread: ThreadId, record: Record, alloc: Allocation) {
    BufferFor(s.table, thread, alloc).FreeBytes() >= record.Size()
  }

  lemma FilledBuffer(s: State, thread: ThreadId, record: Record, alloc: Allocation)
    requires WellFormed(s) && Enabled(s, Insert(thread, record, alloc))
    ensures var filled := Filled(BufferFor(s.table, thread, alloc), record);
            && filled.WellFormed()
            && filled.records
               == TableRecords(s.table, thread) + if Fits(s, thread, record, alloc) then [record] else []
  {
    var found, buffer := Entry(s.table, thread), BufferFor(s.table, thread, alloc);
    if found.IsNull() {
      NullHoldsNothing(found);
      EncodeTakesSpace([]);
    }
    AppendTakesSize(buffer, record);
  }

  lemma InsertKeepsWellFormed(s: State, thread: ThreadId, record: Record, alloc: Allocation)
    requires WellFormed(s) && Enabled(s, Insert(thread, record, alloc))
    ensures WellFormed(InsertRecord(s, thread, record, alloc))
  {
    FilledBuffer(s, thread, record, alloc);
  }

  /** A buffer that gained records counts them whether it stays in the table or moves behind the queue. */
  lemma PendingGains(s: State, s': State, thread: ThreadId, buffer: RawBuffer, gained: seq<Record>, t: ThreadId)
    requires buffer.records == TableRecords(s.table, thread) + gained
    requires || (s'.queue == s.queue && s'.table == s.table[thread := buffer])
             || (s'.queue == s.queue + [Deliver(thread, buffer)] && s'.table == s.table[thread := NullBuffer()])
    ensures Pending(s', t) == Pending(s, t) + if thread == t then gained else []
  {
    QueuedPush(s.queue, Deliver(thread, buffer), t);
    Associative(QueuedRecords(s.queue, t), TableRecords(s.table, t), gained);
  }

  /** An insert adds the record, if it fits, behind all of the thread's records and nowhere else. */
  lemma InsertAddsLast(s: State, thread: ThreadId, record: Record, alloc: Allocation, t: ThreadId)
    requires WellFormed(s) && Enabled(s, Insert(thread, record, alloc))
    ensures var s' := InsertRecord(s, thread, record, alloc);
            var added := if Fits(s, thread, record, alloc) && thread == t then [record] else [];
            && Pending(s', t) == Pending(s, t) + added
            && RecordsOf(s'.accepted, t) == RecordsOf(s.accepted, t) + added
  {
    var s' := InsertRecord(s, thread, record, alloc);
    FilledBuffer(s, thread, record, alloc);
    var filled := Filled(BufferFor(s.table, thread, alloc), record);
    PendingGains(s, s', thread, filled, if Fits(s, thread, record, alloc) then [record] else [], t);
    LogPush(s.accepted, thread, record, t);
  }

  /** Delivering a buffer hands its records to the user, behind what the user has. */
  lemma DeliverHandsOver(s: State, owner: ThreadId, buffer: RawBuffer, t: ThreadId)
    requires buffer.WellFormed()
    ensures var s' := DeliverBuffer(s, owner, buffer);
            && s' == s.(delivered := s'.delivered)
            && DeliveredRecords(s'.delivered, t)
               == DeliveredRecords(s.delivered, t) + if owner == t then buffer.records else []
  {
    DeliveredPush(s.delivered, Delivery(s.user, owner, buffer), t);
  }

  lemma FlushEntryHandsOver(s: State, thread: ThreadId, t: ThreadId)
    requires WellFormed(s)
    ensures var s' := FlushEntry(s, thread);
            && WellFormed(s') && s' == s.(delivered := s'.delivered, table := s'.table)
            && s'.table.Keys == s.table.Keys
            && TableRecords(s'.table, t) == (if thread == t then [] else TableRecords(s.table, t))
            && DeliveredRecords(s'.delivered, t)
               == DeliveredRecords(s.delivered, t) + if thread == t then TableRecords(s.table, t) else []
  {
    var buffer := Entry(s.table, thread);
    if thread !in s.table || buffer.IsNull() {
      NullHoldsNothing(buffer);
    } else {
      DeliverHandsOver(s.(table := s.table[thread := NullBuffer()]), thread, buffer, t);
    }
  }

  /** A flush hands over every buffer of the table it visits and leaves those empty. */
  lemma {:induction false} FlushHandsOver(s: State, order: seq<ThreadId>, t: ThreadId)
    requires WellFormed(s)
    ensures var s' := FlushTable(s, order);
            && WellFormed(s') && s' == s.(delivered := s'.delivered, table := s'.table)
            && TableRecords(s'.table, t) == (if t in order then [] else TableRecords(s.table, t))
            && DeliveredRecords(s'.delivered, t)
               == DeliveredRecords(s.delivered, t) + if t in order then TableRecords(s.table, t) else []
    decreases |order|
  {
    if order != [] {
      FlushEntryHandsOver(s, order[0], t);
      FlushHandsOver(FlushEntry(s, order[0]), order[1..], t);
    }
  }

  /**
    What one consumer task does for thread t: a delivery moves the oldest queued
    records to the user, a flush moves the records of the table past the queue.
   */
  lemma TaskHandsOver(s: State, order: seq<ThreadId>, t: ThreadId)
    requires WellFormed(s) && Enabled(s, RunTask(order))
    ensures var s' := RunFirstTask(s, order);
            var task, waiting, buffered := s.queue[0], QueuedRecords(s.queue[1..], t), TableRecords(s.table, t);
            && WellFormed(s') && s'.accepted == s.accepted && s'.queue == s.queue[1..]
            && QueuedRecords(s.queue, t) == TaskRecords(task, t) + waiting
            && TableRecords(s'.table, t) == (if task.Flush? then [] else buffered)
            && DeliveredRecords(s'.delivered, t)
               == DeliveredRecords(s.delivered, t) + if task.Flush? then buffered else TaskRecords(task, t)
  {
    var rest := s.(queue := s.queue[1..]);
    match s.queue[0]
    case Deliver(owner, buffer) =>
      if buffer.IsNull() { NullHoldsNothing(buffer); } else { DeliverHandsOver(rest, owner, buffer, t); }
    case Flush =>
      FlushHandsOver(rest, order, t);
      assert t in order <==> t in multiset(order);
  }

  /** A buffer without records adds nothing to what the user has. */
  lemma EmptyDelivery(log: seq<Delivery>, d: Delivery, t: ThreadId)
    requires d.buffer.records == []
    ensures DeliveredRecords(log + [d], t) == DeliveredRecords(log, t)
  {
    DeliveredPush(log, d, t);
  }

  /** A registration hands over the caller's own buffer, past the queue. */
  lemma RegisterHandsOver(s: State, thread: ThreadId, newUser: nat, alloc: Allocation, fallback: Allocation,
                          t: ThreadId)
    requires WellFormed(s)
    ensures var s' := RegisterCallbacks(s, thread, newUser, alloc, fallback);
            && WellFormed(s') && s'.accepted == s.accepted && s'.queue == s.queue
            && TableRecords(s'.table, t) == (if thread == t then [] else TableRecords(s.table, t))
            && DeliveredRecords(s'.delivered, t)
               == DeliveredRecords(s.delivered, t) + if thread == t then TableRecords(s.table, t) else []
  {
    EncodeTakesSpace([]);
    EmptyDelivery(s.delivered, Delivery(newUser, thread, alloc.Fresh()), t);
    var asked := AskForBuffer(s, thread, newUser, alloc, fallback);
    DeliverHandsOver(asked, thread, Entry(s.table, thread), t);
  }

  lemma StepKeepsWellFormed(s: State, e: Event)
    requires WellFormed(s) && Enabled(s, e)
    ensures WellFormed(Step(s, e))
  {
    match e
    case Insert(thread, record, alloc) => InsertKeepsWellFormed(s, thread, record, alloc);
    case PushFlush =>
    case RunTask(order) => TaskHandsOver(s, order, 0);
    case Register(thread, newUser, alloc, fallback) => RegisterHandsOver(s, thread, newUser, alloc, fallback, 0);
  }

  lemma BalanceGains<T>(delivered: seq<T>, queued: seq<T>, buffered: seq<T>, accepted: seq<T>,
                        queued': seq<T>, buffered': seq<T>, gained: seq<T>)
    requires multiset(delivered) + multiset(queued) + multiset(buffered) == multiset(accepted)
    requires queued' + buffered' == queued + buffered + gained
    ensures multiset(delivered) + multiset(queued') + multiset(buffered') == multiset(accepted + gained)
  {
    var d, q, b, g := multiset(delivered), multiset(queued), multiset(buffered), multiset(gained);
    var q', b' := multiset(queued'), multiset(buffered');
    assert q' + b' == multiset(queued' + buffered') == q + b + g;
    assert d + q' + b' == d + (q' + b') == d + (q + b + g) == (d + q + b) + g;
    assert multiset(accepted + gained) == multiset(accepted) + g;
  }

  lemma InsertConserves(s: State, thread: ThreadId, record: Record, alloc: Allocation, t: ThreadId)
    requires WellFormed(s) && Enabled(s, Insert(thread, record, alloc)) && Conserved(s, t)
    ensures Conserved(InsertRecord(s, thread, record, alloc), t)
  {
    InsertAddsLast(s, thread, record, alloc, t);
    var s' := InsertRecord(s, thread, record, alloc);
    BalanceGains(DeliveredRecords(s.delivered, t), QueuedRecords(s.queue, t), TableRecords(s.table, t),
                 RecordsOf(s.accepted, t), QueuedRecords(s'.queue, t), TableRecords(s'.table, t),
                 if Fits(s, thread, record, alloc) && thread == t then [record] else []);
  }

  lemma TaskConserves(s: State, order: seq<ThreadId>, t: ThreadId)
    requires WellFormed(s) && Enabled(s, RunTask(order)) && Conserved(s, t)
    ensures Conserved(RunFirstTask(s, order), t)
  {
    TaskHandsOver(s, order, t);
  }

  lemma StepConserves(s: State, e: Event, t: ThreadId)
    requires WellFormed(s) && Enabled(s, e) && Conserved(s, t)
    ensures Conserved(Step(s, e), t)
  {
    match e
    case Insert(thread, record, alloc) => InsertConserves(s, thread, record, alloc, t);
    case PushFlush => QueuedPush(s.queue, Flush, t);
    case RunTask(order) => TaskConserves(s, order, t);
    case Register(thread, newUser, alloc, fallback) => RegisterHandsOver(s, thread, newUser, alloc, fallback, t);
  }

  /** In every run every thread's accepted records are delivered, queued or buffered, each as often as inserted. */
  lemma {:induction false} RunConserves(s: State, events: seq<Event>, t: ThreadId)
    requires WellFormed(s) && Conserved(s, t) && CanRun(s, events)
    ensures WellFormed(Run(s, events)) && Conserved(Run(s, events), t)
    decreases |events|
  {
    if events != [] {
      StepKeepsWellFormed(s, events[0]);
      StepConserves(s, events[0], t);
      RunConserves(Step(s, events[0]), events[1..], t);
    }
  }
}
