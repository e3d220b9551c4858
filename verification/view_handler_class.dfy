/**
  The handler as an object whose methods update its table, queue and logs in place.
  Each method makes exactly one step of the model, and FlushBuffers, run with the
  consumer alone, delivers everything.
 */
module ViewHandlerClass {
  import opened ViewRecordInfo
  import opened ViewBuffer
  import opened ViewHandler
  import opened ViewHandlerRecords
  import opened ViewHandlerFlush

  datatype Result = PtiSuccess | PtiErrorBadArgument

  class PtiViewRecordHandler {
    var viewBuffers: map<ThreadId, RawBuffer>
    var queue: seq<Task>
    var depth: Option<nat>
    var user: nat
    var delivered: seq<Delivery>
    ghost var accepted: seq<(ThreadId, Record)>
    ghost var dropped: seq<(ThreadId, Record)>
    ghost var obtained: seq<Address>
    ghost var lost: seq<Address>

    ghost function Now(): State
      reads this
    {
      State(viewBuffers, queue, depth, user, delivered, accepted, dropped, obtained, lost)
    }

    constructor (depth: Option<nat>, user: nat)
      ensures Initial(Now()) && Now().depth == depth && Now().user == user
    {
      viewBuffers, queue, delivered := map[], [], [];
      this.depth, this.user := depth, user;
      accepted, dropped, obtained, lost := [], [], [], [];
    }

    method RequestNewBuffer(thread: ThreadId, alloc: Allocation)
      requires thread in viewBuffers
      modifies this
      ensures Now() == old(Now()).(table := old(viewBuffers)[thread := alloc.Fresh()],
                                   obtained := old(obtained) + Addresses(alloc.raw),
                                   lost := old(lost) + Addresses(old(viewBuffers)[thread].raw))
    {
      lost := lost + Addresses(viewBuffers[thread].raw);
      obtained := obtained + Addresses(alloc.raw);
      viewBuffers := viewBuffers[thread := alloc.Fresh()];
    }

    method Push(task: Task)
      requires HasRoom(Now())
      modifies this`queue
      ensures queue == old(queue) + [task]
    {
      queue := queue + [task];
    }

    method InsertRecord(thread: ThreadId, record: Record, alloc: Allocation)
      requires Enabled(Now(), Insert(thread, record, alloc))
      modifies this
      ensures Now() == Step(old(Now()), Insert(thread, record, alloc))
    {
      if thread !in viewBuffers {
        viewBuffers := viewBuffers[thread := NullBuffer()];
      }
      if viewBuffers[thread].IsNull() {
        RequestNewBuffer(thread, alloc);
      }
      if viewBuffers[thread].FreeBytes() >= record.Size() {
        viewBuffers := viewBuffers[thread := viewBuffers[thread].Append(record)];
        accepted := accepted + [(thread, record)];
      } else {
        dropped := dropped + [(thread, record)];
      }
      if viewBuffers[thread].FreeBytes() >= LARGEST_VIEW_RECORD {
        return;
      }
      var buffer := viewBuffers[thread];
      viewBuffers := viewBuffers[thread := NullBuffer()];
      Push(Deliver(thread, buffer));
    }

    method DeliverBuffer(owner: ThreadId, buffer: RawBuffer)
      modifies this`delivered
      ensures Now() == ViewHandler.DeliverBuffer(old(Now()), owner, buffer)
    {
      if buffer.raw.Some? {
        delivered := delivered + [Delivery(user, owner, buffer)];
      }
    }

    /** The consumer's step. The hash table may be walked in any order; `order` is the one taken. */
    method RunNextTask() returns (ghost order: seq<ThreadId>)
      requires queue != []
      modifies this
      ensures Enabled(old(Now()), RunTask(order)) && Now() == Step(old(Now()), RunTask(order))
    {
      order := AnyOrder(viewBuffers.Keys);
      var task := queue[0];
      queue := queue[1..];
      match task {
        case Deliver(owner, buffer) =>
          if !buffer.IsNull() {
            DeliverBuffer(owner, buffer);
          } else {
            lost := lost + Addresses(buffer.raw);
          }
        case Flush =>
          order := ForEachDeliver();
      }
    }

    /** ForEach over the table, delivering every buffer that is not null. */
    method ForEachDeliver() returns (ghost order: seq<ThreadId>)
      modifies this
      ensures VisitsAll(order, old(viewBuffers)) && Now() == FlushTable(old(Now()), order)
    {
      order := [];
      var keys := viewBuffers.Keys;
      while keys != {}
        invariant Now() == FlushTable(old(Now()), order)
        invariant viewBuffers.Keys == old(viewBuffers).Keys && keys <= viewBuffers.Keys
        invariant multiset(order) + multiset(keys) == multiset(old(viewBuffers).Keys)
      {
        var key :| key in keys;
        FlushOneMore(old(Now()), order, key);
        var buffer := viewBuffers[key];
        if !buffer.IsNull() {
          viewBuffers := viewBuffers[key := NullBuffer()];
          DeliverBuffer(key, buffer);
        }
        TakeOne(keys, key);
        order, keys := order + [key], keys - {key};
      }
    }

    /** The two std::function arguments may be empty; `alloc` and `fallback` are what the allocators answer. */
    method RegisterBufferCallbacks(thread: ThreadId, bothSet: bool, newUser: nat, alloc: Allocation,
                                   fallback: Allocation)
      returns (result: Result)
      modifies this
      ensures !bothSet ==> result == PtiErrorBadArgument && Now() == old(Now())
      ensures bothSet ==> Now() == Step(old(Now()), Register(thread, newUser, alloc, fallback))
      ensures bothSet ==> (result == PtiSuccess <==> alloc.raw.Some? && alloc.size >= LARGEST_VIEW_RECORD)
      ensures user == if result == PtiSuccess then newUser else old(user)
    {
      result := PtiErrorBadArgument;
      if !bothSet {
        return;
      }
      var given := alloc;
      obtained := obtained + Addresses(alloc.raw);
      if alloc.size < LARGEST_VIEW_RECORD || alloc.raw.None? {
        delivered := delivered + [Delivery(newUser, thread, alloc.Fresh())];
      } else {
        result := PtiSuccess;
      }
      if result == PtiSuccess {
        user := newUser;
      } else {
        given := fallback;
        obtained := obtained + Addresses(fallback.raw);
      }
      if thread in viewBuffers {
        var taken := viewBuffers[thread];
        viewBuffers := viewBuffers[thread := NullBuffer()];
        DeliverBuffer(thread, taken);
      }
      viewBuffers := viewBuffers[thread := given.Fresh()];
    }

    /** Push a flush and wait for it, the consumer running its tasks and nobody inserting. */
    method FlushBuffers()
      requires Balanced(Now()) && HasRoom(Now())
      modifies this
      ensures Balanced(Now()) && accepted == old(accepted) && queue == []
      ensures forall t :: AllDelivered(Now(), t)
    {
      PushBalances(Now());
      Push(Flush);
      var flushed := false;
      while !flushed
        invariant Balanced(Now()) && accepted == old(accepted)
        invariant if flushed then queue == [] && TableEmpty(Now()) else queue != [] && queue[|queue| - 1] == Flush
        decreases if flushed then 0 else 1, |queue|
      {
        flushed := |queue| == 1;
        ghost var before := Now();
        ghost var order := RunNextTask();
        TaskBalances(before, order);
      }
      forall t ensures AllDelivered(Now(), t) { NothingPending(Now(), t); }
    }
  }

  /** Every thread's accepted records are delivered, queued or buffered. */
  ghost predicate Balanced(s: State) {
    WellFormed(s) && forall t :: Conserved(s, t)
  }

  ghost predicate TableEmpty(s: State) {
    forall t :: TableRecords(s.table, t) == []
  }

  lemma PushBalances(s: State)
    requires Balanced(s) && HasRoom(s)
    ensures Balanced(Step(s, PushFlush))
  {
    forall t ensures Conserved(Step(s, PushFlush), t) { StepConserves(s, PushFlush, t); }
  }

  lemma TaskBalances(s: State, order: seq<ThreadId>)
    requires Balanced(s) && Enabled(s, RunTask(order))
    ensures var s' := Step(s, RunTask(order));
            && Balanced(s') && s'.accepted == s.accepted && s'.queue == s.queue[1..]
            && (s.queue[0].Flush? ==> TableEmpty(s'))
  {
    var s' := Step(s, RunTask(order));
    TaskHandsOver(s, order, 0);
    forall t ensures Conserved(s', t) { StepConserves(s, RunTask(order), t); }
    if s.queue[0].Flush? {
      forall t ensures TableRecords(s'.table, t) == [] { TaskHandsOver(s, order, t); }
    }
  }

  lemma NothingPending(s: State, t: ThreadId)
    requires Balanced(s) && s.queue == [] && TableEmpty(s)
    ensures AllDelivered(s, t)
  {
    assert Conserved(s, t);
    assert multiset(QueuedRecords(s.queue, t)) == multiset{} && multiset(TableRecords(s.table, t)) == multiset{};
  }

  lemma {:induction false} FlushOneMore(s: State, order: seq<ThreadId>, key: ThreadId)
    ensures FlushTable(s, order + [key]) == FlushEntry(FlushTable(s, order), key)
    decreases |order|
  {
    if order == [] {
      assert [key][1..] == [];
    } else {
      FlushOneMore(FlushEntry(s, order[0]), order[1..], key);
      assert (order + [key])[1..] == order[1..] + [key];
    }
  }

  lemma TakeOne<T>(keys: set<T>, key: T)
    requires key in keys
    ensures multiset(keys) == multiset(keys - {key}) + multiset{key}
  {
  }

  ghost function AnyOrder(keys: set<ThreadId>): (order: seq<ThreadId>)
    ensures multiset(order) == multiset(keys)
  {
    if keys == {} then []
    else
      var key :| key in keys;
      TakeOne(keys, key);
      AnyOrder(keys - {key}) + [key]
  }
}
