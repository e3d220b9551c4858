/**
  Raw memory: every buffer obtained from an allocator is in one place only, and no
  record is dropped for lack of room.
 */
module ViewHandlerOwnership {
  import opened ViewRecordInfo
  import opened ViewBuffer
  import opened ViewHandler

  // ---------------------------------------------------------------- where an address is

  function Holds(raw: Option<Address>, r: Address): nat {
    if raw == Some(r) then 1 else 0
  }

  function Holders(table: map<ThreadId, RawBuffer>, r: Address): set<ThreadId> {
    set t | t in table && table[t].raw == Some(r)
  }

  function InTable(table: map<ThreadId, RawBuffer>, r: Address): nat {
    |Holders(table, r)|
  }

  function InQueue(queue: seq<Task>, r: Address): nat {
    if queue == [] then 0
    else (if queue[0].Deliver? then Holds(queue[0].buffer.raw, r) else 0) + InQueue(queue[1..], r)
  }

  function InLog(log: seq<Delivery>, r: Address): nat {
    if log == [] then 0 else Holds(log[0].buffer.raw, r) + InLog(log[1..], r)
  }

  function Times(addresses: seq<Address>, r: Address): nat {
    multiset(addresses)[r]
  }

  /** In how many places address r is: table entries, queued tasks, deliveries, and nowhere any more. */
  function Places(s: State, r: Address): nat {
    InTable(s.table, r) + InQueue(s.queue, r) + InLog(s.delivered, r) + Times(s.lost, r)
  }

  /** Address r is in as many places as it was obtained times. */
  ghost predicate Accounted(s: State, r: Address) {
    Places(s, r) == Times(s.obtained, r)
  }

  lemma WithAndWithout<T>(xs: set<T>, x: T)
    ensures |xs| == |xs - {x}| + if x in xs then 1 else 0
  {
    assert x !in xs ==> xs - {x} == xs;
  }

  /** Two tables that agree except at t differ in their holders by t only. */
  lemma HoldersElsewhere(table: map<ThreadId, RawBuffer>, table': map<ThreadId, RawBuffer>, t: ThreadId, r: Address)
    requires forall u :: u != t ==> (u in table <==> u in table') && (u in table ==> table[u] == table'[u])
    ensures Holders(table, r) - {t} == Holders(table', r) - {t}
  {
  }

  lemma TableUpdate(table: map<ThreadId, RawBuffer>, t: ThreadId, b: RawBuffer, r: Address)
    ensures InTable(table[t := b], r) + Holds(Entry(table, t).raw, r) == InTable(table, r) + Holds(b.raw, r)
  {
    HoldersElsewhere(table, table[t := b], t, r);
    WithAndWithout(Holders(table, r), t);
    WithAndWithout(Holders(table[t := b], r), t);
  }

  lemma {:induction false} QueuePush(queue: seq<Task>, task: Task, r: Address)
    ensures InQueue(queue + [task], r)
            == InQueue(queue, r) + if task.Deliver? then Holds(task.buffer.raw, r) else 0
  {
    if queue == [] {
      assert [task][1..] == [];
    } else {
      QueuePush(queue[1..], task, r);
      assert (queue + [task])[1..] == queue[1..] + [task];
    }
  }

  lemma {:induction false} LogPush(log: seq<Delivery>, d: Delivery, r: Address)
    ensures InLog(log + [d], r) == InLog(log, r) + Holds(d.buffer.raw, r)
  {
    if log == [] {
      assert [d][1..] == [];
    } else {
      LogPush(log[1..], d, r);
      assert (log + [d])[1..] == log[1..] + [d];
    }
  }

  lemma TimesPush(addresses: seq<Address>, raw: Option<Address>, r: Address)
    ensures Times(addresses + Addresses(raw), r) == Times(addresses, r) + Holds(raw, r)
  {
  }

  lemma InsertAccounts(s: State, thread: ThreadId, record: Record, alloc: Allocation, r: Address)
    requires Accounted(s, r)
    ensures Accounted(InsertRecord(s, thread, record, alloc), r)
  {
    var found, filled := Entry(s.table, thread), Filled(BufferFor(s.table, thread, alloc), record);
    TableUpdate(s.table, thread, NullBuffer(), r);
    TableUpdate(s.table, thread, filled, r);
    QueuePush(s.queue, Deliver(thread, filled), r);
    TimesPush(s.obtained, alloc.raw, r);
    TimesPush(s.lost, found.raw, r);
  }

  lemma DeliverAccounts(s: State, owner: ThreadId, buffer: RawBuffer, r: Address)
    ensures Places(DeliverBuffer(s, owner, buffer), r) == Places(s, r) + Holds(buffer.raw, r)
    ensures DeliverBuffer(s, owner, buffer).obtained == s.obtained
  {
    LogPush(s.delivered, Delivery(s.user, owner, buffer), r);
  }

  lemma {:induction false} FlushAccounts(s: State, order: seq<ThreadId>, r: Address)
    requires Accounted(s, r)
    ensures Accounted(FlushTable(s, order), r)
    decreases |order|
  {
    if order != [] {
      var taken := s.(table := s.table[order[0] := NullBuffer()]);
      TableUpdate(s.table, order[0], NullBuffer(), r);
      DeliverAccounts(taken, order[0], Entry(s.table, order[0]), r);
      FlushAccounts(FlushEntry(s, order[0]), order[1..], r);
    }
  }

  lemma TaskAccounts(s: State, order: seq<ThreadId>, r: Address)
    requires s.queue != [] && Accounted(s, r)
    ensures Accounted(RunFirstTask(s, order), r)
  {
    var rest := s.(queue := s.queue[1..]);
    match s.queue[0]
    case Deliver(owner, buffer) =>
      TimesPush(rest.lost, buffer.raw, r);
      DeliverAccounts(rest, owner, buffer, r);
    case Flush =>
      FlushAccounts(rest, order, r);
  }

  lemma RegisterAccounts(s: State, thread: ThreadId, newUser: nat, alloc: Allocation, fallback: Allocation, r: Address)
    requires Accounted(s, r)
    ensures Accounted(RegisterCallbacks(s, thread, newUser, alloc, fallback), r)
  {
    var asked := AskForBuffer(s, thread, newUser, alloc, fallback);
    TimesPush(s.obtained, alloc.raw, r);
    TimesPush(s.obtained + Addresses(alloc.raw), fallback.raw, r);
    LogPush(s.delivered, Delivery(newUser, thread, alloc.Fresh()), r);
    DeliverAccounts(asked, thread, Entry(s.table, thread), r);
    TableUpdate(s.table, thread, (if Acceptable(alloc) then alloc else fallback).Fresh(), r);
  }

  lemma {:induction false} RunAccounts(s: State, events: seq<Event>, r: Address)
    requires Accounted(s, r)
    ensures Accounted(Run(s, events), r)
    decreases |events|
  {
    if events != [] {
      match events[0] {
        case Insert(thread, record, alloc) => InsertAccounts(s, thread, record, alloc, r);
        case PushFlush => QueuePush(s.queue, Flush, r);
        case RunTask(order) => if s.queue != [] { TaskAccounts(s, order, r); }
        case Register(thread, newUser, alloc, fallback) => RegisterAccounts(s, thread, newUser, alloc, fallback, r);
      }
      RunAccounts(Step(s, events[0]), events[1..], r);
    }
  }

  /**
    Unique ownership over every run: if no allocator returned an address twice, each
    address obtained is in exactly one table entry, queued task or delivery (or is
    lost), so none is delivered twice or written to after its delivery.
   */
  lemma OneOwner(start: State, events: seq<Event>, r: Address)
    requires Initial(start)
    requires forall a :: Times(Run(start, events).obtained, a) <= 1
    ensures Places(Run(start, events), r) == if r in Run(start, events).obtained then 1 else 0
    ensures InLog(Run(start, events).delivered, r) + InTable(Run(start, events).table, r) <= 1
  {
    assert Holders(start.table, r) == {};
    RunAccounts(start, events, r);
  }

  // ---------------------------------------------------------------- what is lost

  /** No allocator of the event answers with memory of size 0. */
  predicate Sized(e: Event) {
    match e
    case Insert(_, _, alloc) => alloc.raw.Some? ==> alloc.size > 0
    case Register(_, _, alloc, fallback) => Acceptable(alloc) || (fallback.raw.Some? ==> fallback.size > 0)
    case _ => true
  }

  ghost predicate AllSized(s: State) {
    && s.lost == []
    && (forall t :: t in s.table && s.table[t].raw.Some? ==> s.table[t].size > 0)
    && (forall i :: 0 <= i < |s.queue| && s.queue[i].Deliver? && s.queue[i].buffer.raw.Some? ==>
        s.queue[i].buffer.size > 0)
  }

  lemma {:induction false} FlushKeepsSized(s: State, order: seq<ThreadId>)
    requires AllSized(s)
    ensures AllSized(FlushTable(s, order))
    decreases |order|
  {
    if order != [] {
      FlushKeepsSized(FlushEntry(s, order[0]), order[1..]);
    }
  }

  /** With allocators that never answer with size 0, no memory is ever lost. */
  lemma {:induction false} NothingLost(s: State, events: seq<Event>)
    requires AllSized(s) && forall i :: 0 <= i < |events| ==> Sized(events[i])
    ensures AllSized(Run(s, events))
    decreases |events|
  {
    if events != [] {
      assert Sized(events[0]);
      if events[0].RunTask? && s.queue != [] && s.queue[0].Flush? {
        FlushKeepsSized(s.(queue := s.queue[1..]), events[0].order);
      }
      assert AllSized(Step(s, events[0]));
      NothingLost(Step(s, events[0]), events[1..]);
    }
  }

  // ---------------------------------------------------------------- when a record is dropped

  predicate HasRoomForLargest(b: RawBuffer) {
    b.IsNull() || b.FreeBytes() >= LARGEST_VIEW_RECORD
  }

  /** Every buffer in the table is null or has room for the largest record. */
  ghost predicate RoomForLargest(s: State) {
    forall t :: t in s.table ==> HasRoomForLargest(s.table[t])
  }

  /** A registration leaves the caller's entry null, or with memory for the largest record. */
  predicate KeepsRoom(e: Event) {
    e.Register? && !Acceptable(e.alloc) ==> HasRoomForLargest(e.fallback.Fresh())
  }

  /** With room kept for the largest record, an insert drops its record exactly if it gets too little new memory. */
  lemma DropsOnlyWithoutMemory(s: State, thread: ThreadId, record: Record, alloc: Allocation)
    requires RoomForLargest(s) && record.Size() <= LARGEST_VIEW_RECORD
    ensures InsertRecord(s, thread, record, alloc).dropped != s.dropped
            <==> Entry(s.table, thread).IsNull() && alloc.size < record.Size()
  {
    EncodeTakesSpace([]);
  }

  lemma {:induction false} FlushKeepsRoom(s: State, order: seq<ThreadId>)
    requires RoomForLargest(s)
    ensures RoomForLargest(FlushTable(s, order)) && FlushTable(s, order).dropped == s.dropped
    decreases |order|
  {
    if order != [] {
      FlushKeepsRoom(FlushEntry(s, order[0]), order[1..]);
    }
  }

  /**
    Only a registration can leave a buffer without room for the largest record, and
    does so exactly if it falls back on memory that is too small: an insert, whatever
    its allocator answers, hands such a buffer off.
   */
  lemma StepKeepsRoom(s: State, e: Event)
    requires RoomForLargest(s) && Enabled(s, e)
    ensures RoomForLargest(Step(s, e)) <==> KeepsRoom(e)
  {
    EncodeTakesSpace([]);
    match e
    case RunTask(order) => if s.queue[0].Flush? { FlushKeepsRoom(s.(queue := s.queue[1..]), order); }
    case Register(thread, newUser, alloc, fallback) =>
      assert Step(s, e).table[thread] == (if Acceptable(alloc) then alloc else fallback).Fresh();
    case _ =>
  }

  /** The memory is large enough: what an insert gets for its record, what a registration gets for the largest one. */
  predicate LargeEnough(e: Event) {
    match e
    case Insert(_, record, alloc) => alloc.size >= record.Size()
    case _ => KeepsRoom(e)
  }

  /** If what inserts get holds their records, and what registrations get the largest one, no run drops a record. */
  lemma {:induction false} NothingDropped(s: State, events: seq<Event>)
    requires RoomForLargest(s) && CanRun(s, events)
    requires forall i :: 0 <= i < |events| ==> LargeEnough(events[i])
    ensures RoomForLargest(Run(s, events)) && Run(s, events).dropped == s.dropped
    decreases |events|
  {
    if events != [] {
      assert LargeEnough(events[0]);
      StepKeepsRoom(s, events[0]);
      StepDrops(s, events[0]);
      NothingDropped(Step(s, events[0]), events[1..]);
    }
  }

  /** A buffer in the table is null, or has room for the largest record, or was not written to yet. */
  ghost predicate RoomOrFresh(s: State) {
    forall t :: t in s.table ==> HasRoomForLargest(s.table[t]) || s.table[t].records == []
  }

  /** The insert is the first into its memory, and that memory is too small for its record. */
  predicate TooSmall(s: State, e: Event) {
    && e.Insert?
    && var memory := BufferFor(s.table, e.thread, e.alloc);
       memory.records == [] && memory.size < e.record.Size()
  }

  predicate EverTooSmall(s: State, events: seq<Event>)
    decreases |events|
  {
    events != [] && (TooSmall(s, events[0]) || EverTooSmall(Step(s, events[0]), events[1..]))
  }

  lemma {:induction false} FlushKeepsFresh(s: State, order: seq<ThreadId>)
    requires RoomOrFresh(s)
    ensures RoomOrFresh(FlushTable(s, order)) && FlushTable(s, order).dropped == s.dropped
    decreases |order|
  {
    if order != [] {
      FlushKeepsFresh(FlushEntry(s, order[0]), order[1..]);
    }
  }

  lemma StepDrops(s: State, e: Event)
    requires RoomOrFresh(s) && Enabled(s, e)
    ensures RoomOrFresh(Step(s, e))
    ensures Step(s, e).dropped
            == s.dropped + if TooSmall(s, e) then [(e.thread, e.record)] else []
  {
    EncodeTakesSpace([]);
    match e
    case RunTask(order) => if s.queue[0].Flush? { FlushKeepsFresh(s.(queue := s.queue[1..]), order); }
    case _ =>
  }

  /**
    Over every run a record is dropped if and only if it is the first for its memory
    and larger than all of that memory: none is ever dropped for what stands in front
    of it.
   */
  lemma {:induction false} DroppedExactly(s: State, events: seq<Event>)
    requires RoomOrFresh(s) && CanRun(s, events)
    ensures s.dropped <= Run(s, events).dropped
    ensures Run(s, events).dropped != s.dropped <==> EverTooSmall(s, events)
    decreases |events|
  {
    if events != [] {
      StepDrops(s, events[0]);
      DroppedExactly(Step(s, events[0]), events[1..]);
    }
  }
}
