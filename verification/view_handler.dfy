/**
  The view record handler: per-thread buffers, the task queue of the buffer
  consumer, and the buffers handed to the user.

  One `InsertRecord`, one consumer task, one push of a flush and one registration
  of callbacks are atomic steps. `State` and `Step` say what a step does; the class
  does it in place. What the allocator returns and the order in which the hash
  table is walked are inputs of a step.
 */
module ViewHandler {
  import opened ViewRecordInfo
  import opened ViewBuffer

  type ThreadId = nat
  type Address = nat
  type RawBuffer = Buffer<Address>

  // SizeOfLargestViewRecord() of the LP64 table.
  const LARGEST_VIEW_RECORD: nat := 192

  /** The constant is what the scan over VIEW_SIZE_TABLE finds, so records of that table fit. */
  lemma LargestIsInTable(largest: nat)
    requires forall kind :: GetViewSize(VIEW_SIZE_TABLE, kind).Some? ==>
               GetViewSize(VIEW_SIZE_TABLE, kind).value <= largest
    requires exists kind :: GetViewSize(VIEW_SIZE_TABLE, kind) == Some(largest)
    ensures largest == LARGEST_VIEW_RECORD
    ensures forall record: Record :: record.Fits(VIEW_SIZE_TABLE) ==> record.Size() <= LARGEST_VIEW_RECORD
  {
    assert GetViewSize(VIEW_SIZE_TABLE, 10) == Some(LARGEST_VIEW_RECORD);
    forall record: Record | record.Fits(VIEW_SIZE_TABLE) ensures record.Size() <= largest {
      assert GetViewSize(VIEW_SIZE_TABLE, record.kind).Some?;
    }
  }

  /** What `get_new_buffer_` answers: a pointer (None is nullptr) and a size. */
  datatype Allocation = Allocation(raw: Option<Address>, size: nat)
  {
    function Fresh(): RawBuffer {
      Buffer(raw, size, [])
    }
  }

  datatype Task =
    | Deliver(owner: ThreadId, buffer: RawBuffer)   // pushed by InsertRecord
    | Flush                                         // pushed by FlushBuffers

  /** One call of the user's deliver callback. `user` tells registrations apart. */
  datatype Delivery = Delivery(user: nat, owner: ThreadId, buffer: RawBuffer)

  datatype State = State(
    table: map<ThreadId, RawBuffer>,          // view_buffers_
    queue: seq<Task>,                         // consumer_.queue_
    depth: Option<nat>,                       // the queue's depth limit
    user: nat,                                // whose callbacks are registered
    delivered: seq<Delivery>,                 // calls of the deliver callback so far
    // History: what went in, what was refused, what the allocators returned, what nobody holds any more.
    accepted: seq<(ThreadId, Record)>,
    dropped: seq<(ThreadId, Record)>,
    obtained: seq<Address>,
    lost: seq<Address>)

  datatype Event =
    | Insert(thread: ThreadId, record: Record, alloc: Allocation)
    | PushFlush
    | RunTask(order: seq<ThreadId>)
    | Register(thread: ThreadId, newUser: nat, alloc: Allocation, fallback: Allocation)

  /** `operator[]`: an absent thread has a null buffer. */
  function Entry(table: map<ThreadId, RawBuffer>, thread: ThreadId): RawBuffer {
    if thread in table then table[thread] else NullBuffer()
  }

  function Addresses(raw: Option<Address>): seq<Address> {
    match raw case None => [] case Some(address) => [address]
  }

  /** The buffer an insert writes to: the thread's own, or a new one if that is null. */
  function BufferFor(table: map<ThreadId, RawBuffer>, thread: ThreadId, alloc: Allocation): RawBuffer {
    var found := Entry(table, thread);
    if found.IsNull() then alloc.Fresh() else found
  }

  /** That buffer after the insert. */
  function Filled(buffer: RawBuffer, record: Record): RawBuffer {
    if buffer.FreeBytes() >= record.Size() then buffer.Append(record) else buffer
  }

  /** The insert leaves too little room for the largest record, so the buffer goes to the consumer. */
  predicate HandsOff(s: State, thread: ThreadId, record: Record, alloc: Allocation) {
    Filled(BufferFor(s.table, thread, alloc), record).FreeBytes() < LARGEST_VIEW_RECORD
  }

  function InsertRecord(s: State, thread: ThreadId, record: Record, alloc: Allocation): State {
    var found := Entry(s.table, thread);
    var buffer := BufferFor(s.table, thread, alloc);
    var filled := Filled(buffer, record);
    var fits := buffer.FreeBytes() >= record.Size();
    var away := HandsOff(s, thread, record, alloc);
    s.(table := s.table[thread := if away then NullBuffer() else filled],
       queue := if away then s.queue + [Deliver(thread, filled)] else s.queue,
       accepted := if fits then s.accepted + [(thread, record)] else s.accepted,
       dropped := if fits then s.dropped else s.dropped + [(thread, record)],
       obtained := if found.IsNull() then s.obtained + Addresses(alloc.raw) else s.obtained,
       lost := if found.IsNull() then s.lost + Addresses(found.raw) else s.lost)
  }

  /** DeliverBuffer: a moved-in buffer goes to the user if it has memory at all. */
  function DeliverBuffer(s: State, owner: ThreadId, buffer: RawBuffer): State {
    if buffer.raw.None? then s
    else s.(delivered := s.delivered + [Delivery(s.user, owner, buffer)])
  }

  /** One entry of the walk over the table that a flush makes. */
  function FlushEntry(s: State, thread: ThreadId): State {
    var buffer := Entry(s.table, thread);
    if thread !in s.table || buffer.IsNull() then s
    else DeliverBuffer(s.(table := s.table[thread := NullBuffer()]), thread, buffer)
  }

  function FlushTable(s: State, order: seq<ThreadId>): State
    decreases |order|
  {
    if order == [] then s else FlushTable(FlushEntry(s, order[0]), order[1..])
  }

  /** The consumer takes the oldest task and runs it. */
  function RunFirstTask(s: State, order: seq<ThreadId>): State
    requires s.queue != []
  {
    var rest := s.(queue := s.queue[1..]);
    match s.queue[0]
    case Deliver(owner, buffer) =>
      if buffer.IsNull() then rest.(lost := rest.lost + Addresses(buffer.raw))
      else DeliverBuffer(rest, owner, buffer)
    case Flush => FlushTable(rest, order)
  }

  /** The new callbacks are taken if the buffer they give can hold the largest record. */
  predicate Acceptable(alloc: Allocation) {
    alloc.raw.Some? && alloc.size >= LARGEST_VIEW_RECORD
  }

  /**
    A registration first asks the new callbacks for a buffer. If that will not do it
    goes straight back to them, and the old allocator gives one (`fallback`).
   */
  function AskForBuffer(s: State, thread: ThreadId, newUser: nat, alloc: Allocation, fallback: Allocation): State {
    if Acceptable(alloc) then s.(user := newUser, obtained := s.obtained + Addresses(alloc.raw))
    else s.(delivered := s.delivered + [Delivery(newUser, thread, alloc.Fresh())],
            obtained := s.obtained + Addresses(alloc.raw) + Addresses(fallback.raw))
  }

  /** RegisterBufferCallbacks, both callbacks being set: the caller's old buffer goes out, the new one goes in. */
  function RegisterCallbacks(s: State, thread: ThreadId, newUser: nat, alloc: Allocation, fallback: Allocation): State {
    var asked := AskForBuffer(s, thread, newUser, alloc, fallback);
    var taken := DeliverBuffer(asked, thread, Entry(s.table, thread));
    taken.(table := taken.table[thread := (if Acceptable(alloc) then alloc else fallback).Fresh()])
  }

  function Step(s: State, e: Event): State {
    match e
    case Insert(thread, record, alloc) => InsertRecord(s, thread, record, alloc)
    case PushFlush => s.(queue := s.queue + [Flush])
    case RunTask(order) => if s.queue == [] then s else RunFirstTask(s, order)
    case Register(thread, newUser, alloc, fallback) => RegisterCallbacks(s, thread, newUser, alloc, fallback)
  }

  /** The push guard: with a depth set, wait until the queue is below it. */
  predicate HasRoom(s: State) {
    s.depth.Some? ==> |s.queue| < s.depth.value
  }

  /** A walk over the table visits each key once. */
  ghost predicate VisitsAll(order: seq<ThreadId>, table: map<ThreadId, RawBuffer>) {
    multiset(order) == multiset(table.Keys)
  }

  /**
    The step can happen: nobody waits, records are no larger than the largest, and
    the source's assertion that memory is there before a record is written holds.
   */
  ghost predicate Enabled(s: State, e: Event) {
    match e
    case Insert(thread, record, alloc) =>
      && record.Size() <= LARGEST_VIEW_RECORD
      && (HandsOff(s, thread, record, alloc) ==> HasRoom(s))
      && (Entry(s.table, thread).IsNull() && alloc.raw.None? ==> alloc.size < record.Size())
    case PushFlush => HasRoom(s)
    case RunTask(order) => s.queue != [] && VisitsAll(order, s.table)
    case Register(_, _, _, _) => true
  }

  function Run(s: State, events: seq<Event>): State
    decreases |events|
  {
    if events == [] then s else Run(Step(s, events[0]), events[1..])
  }

  ghost predicate CanRun(s: State, events: seq<Event>)
    decreases |events|
  {
    events == [] || (Enabled(s, events[0]) && CanRun(Step(s, events[0]), events[1..]))
  }

  /** A new handler has collected nothing; its depth, callbacks and user are as they may be. */
  ghost predicate Initial(s: State) {
    && s.table == map[] && s.queue == [] && s.delivered == []
    && s.accepted == [] && s.dropped == [] && s.obtained == [] && s.lost == []
  }
}
