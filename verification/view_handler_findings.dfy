/**
  What the handler does not promise, on concrete families of runs, and what the
  user reads from the bytes that are delivered.
 */
module ViewHandlerFindings {
  import opened ViewRecordInfo
  import opened ViewBuffer
  import opened RecordWalk
  import opened ViewHandler
  import opened ViewHandlerRecords
  import opened ViewHandlerFlush
  import opened ViewHandlerOrder

  /** The first record leaves room for the largest one, the second does not. */
  predicate SecondHandsOff(a: Record, b: Record, alloc: Allocation) {
    && a.Size() <= LARGEST_VIEW_RECORD && b.Size() <= LARGEST_VIEW_RECORD && alloc.raw.Some?
    && alloc.size - a.Size() >= LARGEST_VIEW_RECORD > alloc.size - a.Size() - b.Size()
  }

  /** Two tasks find room in the queue, as in every handler: its depth is 50, or twice a number of threads. */
  predicate RoomForTwo(s: State) {
    s.depth.Some? ==> s.depth.value >= 2
  }

  /** Thread t inserts a, a flush is pushed, t inserts b, which hands the buffer off behind the flush. */
  function InsertFlushInsert(s: State, t: ThreadId, a: Record, b: Record, alloc: Allocation): State {
    Step(Step(Step(s, Insert(t, a, alloc)), PushFlush), Insert(t, b, alloc))
  }

  lemma TwoInsertsAroundFlush(start: State, t: ThreadId, a: Record, b: Record, alloc: Allocation)
    requires Initial(start) && RoomForTwo(start) && SecondHandsOff(a, b, alloc)
    ensures var s1, both := Step(start, Insert(t, a, alloc)), Buffer(alloc.raw, alloc.size, [a, b]);
            && Enabled(start, Insert(t, a, alloc)) && s1.table == map[t := Buffer(alloc.raw, alloc.size, [a])]
            && s1.queue == [] && s1.accepted == [(t, a)] && s1.delivered == [] && s1.depth == start.depth
            && Enabled(Step(s1, PushFlush), Insert(t, b, alloc))
            && var s2 := InsertFlushInsert(start, t, a, b, alloc);
               && s2.table == map[t := NullBuffer()] && s2.queue == [Flush, Deliver(t, both)]
               && s2.delivered == [] && s2.accepted == [(t, a), (t, b)] && s2.depth == start.depth
  {
    EncodeTakesSpace([]);
    AppendTakesSize<Address>(alloc.Fresh(), a);
    AppendTakesSize<Address>(alloc.Fresh().Append(a), b);
    assert alloc.Fresh().Append(a).records == [a];
    assert [a] + [b] == [a, b];
  }

  /**
    A flush can return without the records inserted before it: an insert that hands
    the buffer off while the flush waits takes them behind it.
   */
  lemma FlushCanMissEarlierRecords(start: State, t: ThreadId, a: Record, b: Record, alloc: Allocation)
    requires Initial(start) && RoomForTwo(start) && SecondHandsOff(a, b, alloc)
    ensures var s := Step(start, Insert(t, a, alloc));
            && FlushReturns(s, [Insert(t, b, alloc)], [t])
            && RecordsOf(s.accepted, t) == [a]
            && AfterFlush(s, [Insert(t, b, alloc)], [t]).delivered == []
  {
    TwoInsertsAroundFlush(start, t, a, b, alloc);
    var s, insert := Step(start, Insert(t, a, alloc)), Insert(t, b, alloc);
    var pushed, before := Step(s, PushFlush), InsertFlushInsert(start, t, a, b, alloc);
    assert [insert][1..] == [] && [(t, a)][1..] == [];
    assert Run(pushed, [insert]) == Run(Step(pushed, insert), []) == before;
    StepKeepsWellFormed(start, Insert(t, a, alloc));
    assert before.table.Keys == {t};
    NullFlushesNothing(before.(queue := before.queue[1..]), t);
  }

  lemma NullFlushesNothing(s: State, t: ThreadId)
    requires Entry(s.table, t) == NullBuffer()
    ensures FlushTable(s, [t]) == s
  {
    assert [t][1..] == [];
  }

  /** An insert into a null buffer that leaves room for the largest record. */
  lemma InsertIntoNull(s: State, t: ThreadId, c: Record, alloc: Allocation)
    requires s.table == map[t := NullBuffer()] && alloc.raw.Some?
    requires c.Size() <= LARGEST_VIEW_RECORD && alloc.size - c.Size() >= LARGEST_VIEW_RECORD
    ensures Enabled(s, Insert(t, c, alloc))
    ensures var s' := Step(s, Insert(t, c, alloc));
            && s'.table == map[t := Buffer(alloc.raw, alloc.size, [c])] && s'.accepted == s.accepted + [(t, c)]
            && s'.queue == s.queue && s'.delivered == s.delivered && s'.user == s.user
  {
    EncodeTakesSpace([]);
    AppendTakesSize<Address>(alloc.Fresh(), c);
    assert alloc.Fresh().Append(c).records == [c];
  }

  /** A flush of a table with one buffer delivers that buffer. */
  lemma FlushOne(s: State, t: ThreadId, rest: seq<Task>)
    requires s.table.Keys == {t} && !s.table[t].IsNull() && s.queue == [Flush] + rest
    ensures Enabled(s, RunTask([t]))
    ensures var s' := Step(s, RunTask([t]));
            s'.delivered == s.delivered + [Delivery(s.user, t, s.table[t])] && s'.queue == rest
            && s'.accepted == s.accepted
  {
    var waiting := s.(queue := s.queue[1..]);
    assert s.queue[1..] == rest;
    assert [t][1..] == [];
    assert FlushTable(waiting, [t]) == FlushTable(FlushEntry(waiting, t), []) == FlushEntry(waiting, t);
  }

  /**
    And the order can change: a third record goes into a new buffer, which the flush
    delivers before the first two.
   */
  lemma FlushCanReorder(start: State, t: ThreadId, a: Record, b: Record, c: Record, alloc: Allocation)
    requires Initial(start) && RoomForTwo(start) && SecondHandsOff(a, b, alloc) && SecondHandsOff(c, b, alloc)
    ensures var s2 := InsertFlushInsert(start, t, a, b, alloc);
            var third := Step(s2, Insert(t, c, alloc));
            && Enabled(s2, Insert(t, c, alloc)) && Enabled(third, RunTask([t]))
            && third.accepted == [(t, a), (t, b), (t, c)]
            && var s3 := Step(third, RunTask([t]));
               && s3.delivered == [Delivery(s2.user, t, Buffer(alloc.raw, alloc.size, [c]))]
               && s3.queue == [Deliver(t, Buffer(alloc.raw, alloc.size, [a, b]))]
  {
    TwoInsertsAroundFlush(start, t, a, b, alloc);
    var s2 := InsertFlushInsert(start, t, a, b, alloc);
    InsertIntoNull(s2, t, c, alloc);
    FlushOne(Step(s2, Insert(t, c, alloc)), t, [Deliver(t, Buffer(alloc.raw, alloc.size, [a, b]))]);
  }

  // ---------------------------------------------------------------- what the user reads

  /** The memory that a delivery passes to the user: nothing, or what its buffer wrote and bytes behind it. */
  ghost predicate IsMemoryOf(d: Delivery, memory: Option<seq<Byte>>) {
    && (memory.None? <==> d.buffer.raw.None?)
    && (memory.Some? ==> Written(memory.value, d.buffer.ValidBytes(), d.buffer.records))
  }

  /** The bytes are there because the buffer keeps them: its memory is what a delivery of its records passes on. */
  lemma BufferMemoryIs(d: Delivery, b: ViewRecordBuffer)
    requires b.Valid() && d.buffer.records == b.View().records && (d.buffer.raw.None? <==> b.buf == null)
    ensures IsMemoryOf(d, if b.buf == null then None else Some(b.buf[..])) && d.buffer.ValidBytes() == b.pos
  {
    if b.buf != null {
      assert b.buf[..][..b.pos] == b.buf[..b.pos];
    }
  }

  /** From each buffer of thread t the user reads what the walk with GetNextRecord visits. */
  ghost predicate UserReads(table: SizeTable, log: seq<Delivery>, memories: seq<Option<seq<Byte>>>, t: ThreadId,
                            visits: seq<seq<Record>>)
  {
    && |memories| == |visits| == |log|
    && (forall i :: 0 <= i < |log| ==> IsMemoryOf(log[i], memories[i]))
    && (forall i :: 0 <= i < |log| ==>
          if log[i].owner == t then Visits(table, memories[i], log[i].buffer.ValidBytes(), Null, visits[i])
          else visits[i] == [])
  }

  function Concat(visits: seq<seq<Record>>): seq<Record> {
    if visits == [] then [] else visits[0] + Concat(visits[1..])
  }

  /** A delivery without memory has no records. */
  ghost predicate NullDeliveriesEmpty(s: State) {
    forall i :: 0 <= i < |s.delivered| && s.delivered[i].buffer.raw.None? ==> s.delivered[i].buffer.records == []
  }

  lemma {:induction false} FlushKeepsNullEmpty(s: State, order: seq<ThreadId>)
    requires NullDeliveriesEmpty(s)
    ensures NullDeliveriesEmpty(FlushTable(s, order))
    decreases |order|
  {
    if order != [] {
      FlushKeepsNullEmpty(FlushEntry(s, order[0]), order[1..]);
    }
  }

  lemma {:induction false} RunKeepsNullEmpty(s: State, events: seq<Event>)
    requires NullDeliveriesEmpty(s)
    ensures NullDeliveriesEmpty(Run(s, events))
    decreases |events|
  {
    if events != [] {
      if events[0].RunTask? && s.queue != [] && s.queue[0].Flush? {
        FlushKeepsNullEmpty(s.(queue := s.queue[1..]), events[0].order);
      }
      RunKeepsNullEmpty(Step(s, events[0]), events[1..]);
    }
  }

  /** Every record in a log of inserts is a structure of the kind it names. */
  predicate LogFits(table: SizeTable, log: seq<(ThreadId, Record)>) {
    forall i :: 0 <= i < |log| ==> log[i].1.Fits(table)
  }

  lemma {:induction false} PartFits(table: SizeTable, log: seq<(ThreadId, Record)>, t: ThreadId)
    requires LogFits(table, log)
    ensures AllFit(table, RecordsOf(log, t))
  {
    if log != [] {
      assert log[0].1.Fits(table);
      PartFits(table, log[1..], t);
    }
  }

  lemma FitSplits(table: SizeTable, a: seq<Record>, b: seq<Record>)
    requires AllFit(table, a + b)
    ensures AllFit(table, a) && AllFit(table, b)
  {
    forall i | 0 <= i < |a| ensures a[i].Fits(table) { assert (a + b)[i] == a[i]; }
    forall i | 0 <= i < |b| ensures b[i].Fits(table) { assert (a + b)[|a| + i] == b[i]; }
  }

  lemma ReadsOneDelivery(table: SizeTable, d: Delivery, memory: Option<seq<Byte>>, visited: seq<Record>)
    requires IsMemoryOf(d, memory) && AllFit(table, d.buffer.records) && (d.buffer.raw.None? ==> d.buffer.records == [])
    ensures Visits(table, memory, d.buffer.ValidBytes(), Null, visited) <==> visited == d.buffer.records
  {
    EncodeTakesSpace([]);
    if memory.Some? {
      VisitsExactly(table, memory.value, d.buffer.ValidBytes(), d.buffer.records, 0, visited);
    }
  }

  /** What the user reads from thread t's buffers, one after the other, is what was delivered. */
  lemma {:induction false} ReadsWhatWasDelivered(table: SizeTable, log: seq<Delivery>, memories: seq<Option<seq<Byte>>>,
                                                 t: ThreadId, visits: seq<seq<Record>>)
    requires AllFit(table, DeliveredRecords(log, t)) && UserReads(table, log, memories, t, visits)
    requires forall i :: 0 <= i < |log| && log[i].buffer.raw.None? ==> log[i].buffer.records == []
    ensures Concat(visits) == DeliveredRecords(log, t)
  {
    if log != [] {
      var first, rest := if log[0].owner == t then log[0].buffer.records else [], DeliveredRecords(log[1..], t);
      FitSplits(table, first, rest);
      if log[0].owner == t {
        ReadsOneDelivery(table, log[0], memories[0], visits[0]);
      }
      assert UserReads(table, log[1..], memories[1..], t, visits[1..]);
      ReadsWhatWasDelivered(table, log[1..], memories[1..], t, visits[1..]);
    }
  }

  /**
    From `InsertRecord` to the user's walk: a thread that never inserts while a flush
    waits, nor registers callbacks while records of it are both queued and in its table
    buffer, and that wrote only structures of the kinds they name, has its records read
    back by the user, all of them and in order, once a flush returns, whatever stands
    in memory behind the valid bytes of each delivery.
   */
  lemma UserReadsWhatWasInserted(table: SizeTable, start: State, events: seq<Event>, window: seq<Event>,
                                 order: seq<ThreadId>, t: ThreadId, memories: seq<Option<seq<Byte>>>,
                                 visits: seq<seq<Record>>)
    requires Initial(start) && CanRun(start, events) && NeverOverlaps(start, events, t)
    requires FlushReturns(Run(start, events), window, order)
    requires NeverOverlaps(Step(Run(start, events), PushFlush), window, t)
    requires LogFits(table, AfterFlush(Run(start, events), window, order).accepted)
    requires UserReads(table, AfterFlush(Run(start, events), window, order).delivered, memories, t, visits)
    ensures Concat(visits) == RecordsOf(AfterFlush(Run(start, events), window, order).accepted, t)
  {
    var pushed, s' := Step(Run(start, events), PushFlush), AfterFlush(Run(start, events), window, order);
    FlushDeliversInOrder(start, events, window, order, t);
    PartFits(table, s'.accepted, t);
    RunKeepsNullEmpty(start, events);
    RunKeepsNullEmpty(pushed, window);
    RunKeepsNullEmpty(Run(pushed, window), [RunTask(order)]);
    assert Run(Run(pushed, window), [RunTask(order)]) == Run(s', []);
    ReadsWhatWasDelivered(table, s'.delivered, memories, t, visits);
  }
}
