/**
  Who gets what: which user's callbacks are in force, and to whom each buffer is
  delivered, read off the registrations.
 */
module ViewHandlerUsers {
  import opened ViewRecordInfo
  import opened ViewBuffer
  import opened ViewHandler

  /** A registration whose own buffer can hold the largest record: its callbacks replace those in force. */
  predicate Installs(e: Event) {
    e.Register? && e.alloc.raw.Some? && e.alloc.size >= LARGEST_VIEW_RECORD
  }

  /** A registration whose own buffer will not do. */
  predicate IsRefused(e: Event) {
    e.Register? && (e.alloc.raw.None? || e.alloc.size < LARGEST_VIEW_RECORD)
  }

  /** Event `i` is the last registration that installed its user. */
  ghost predicate LastInstall(events: seq<Event>, i: nat) {
    i < |events| && Installs(events[i]) && forall k :: i < k < |events| ==> !Installs(events[k])
  }

  /** The user whose callbacks are in force after the events: the last one installed, else the one from before. */
  ghost predicate InForce(before: nat, events: seq<Event>, user: nat) {
    if exists i: nat :: LastInstall(events, i)
    then exists i: nat :: LastInstall(events, i) && user == events[i].newUser
    else user == before
  }

  /** The buffer as it is passed to a user; a null pointer is not. */
  function Passed(user: nat, owner: ThreadId, buffer: RawBuffer): seq<Delivery> {
    if buffer.raw.None? then [] else [Delivery(user, owner, buffer)]
  }

  // ---------------------------------------------------------------- one step

  lemma {:induction false} FlushDelivers(s: State, order: seq<ThreadId>)
    ensures var s' := FlushTable(s, order);
            && s'.user == s.user && s.delivered <= s'.delivered
            && forall k :: |s.delivered| <= k < |s'.delivered| ==>
                 var d := s'.delivered[k];
                 d.user == s.user && d.owner in s.table && d.buffer == s.table[d.owner]
    decreases |order|
  {
    if order != [] {
      FlushDelivers(FlushEntry(s, order[0]), order[1..]);
      var next, s' := FlushEntry(s, order[0]), FlushTable(s, order);
      forall k | |s.delivered| <= k < |s'.delivered|
        ensures var d := s'.delivered[k]; d.user == s.user && d.owner in s.table && d.buffer == s.table[d.owner]
      {
        if k < |next.delivered| {
          assert s'.delivered[k] == next.delivered[k];
        } else if s'.delivered[k].owner == order[0] {
          NullNotDelivered(next, order[1..], k);
        }
      }
    }
  }

  /** A flush delivers no buffer that is null. */
  lemma {:induction false} NullNotDelivered(s: State, order: seq<ThreadId>, k: nat)
    requires |s.delivered| <= k < |FlushTable(s, order).delivered|
    ensures !FlushTable(s, order).delivered[k].buffer.IsNull()
    decreases |order|
  {
    var next := FlushEntry(s, order[0]);
    if k < |next.delivered| {
      FlushDelivers(next, order[1..]);
      assert FlushTable(s, order).delivered[k] == next.delivered[k];
    } else {
      NullNotDelivered(next, order[1..], k);
    }
  }

  /** Inserts and pushes deliver nothing; a task delivers to the user in force. */
  lemma TaskDelivers(s: State, e: Event)
    requires Enabled(s, e) && !e.Register?
    ensures var s' := Step(s, e);
            && s'.user == s.user && s.delivered <= s'.delivered
            && (forall k :: |s.delivered| <= k < |s'.delivered| ==> s'.delivered[k].user == s.user)
            && (!e.RunTask? ==> s'.delivered == s.delivered)
    ensures e.RunTask? && s.queue[0].Deliver? && !s.queue[0].buffer.IsNull() ==>
              Step(s, e).delivered == s.delivered + [Delivery(s.user, s.queue[0].owner, s.queue[0].buffer)]
    ensures e.RunTask? && s.queue[0].Flush? ==>
              forall k :: |s.delivered| <= k < |Step(s, e).delivered| ==>
                var d := Step(s, e).delivered[k]; d.owner in s.table && d.buffer == s.table[d.owner]
  {
    if e.RunTask? && s.queue[0].Flush? {
      FlushDelivers(s.(queue := s.queue[1..]), e.order);
    }
  }

  /**
    A registration that is accepted makes its user the one in force, who also gets the
    caller's old buffer; one that is refused gives its user back what he offered, and
    the old buffer to the user in force. Either way the thread goes on in new memory.
   */
  lemma RegisterDelivers(s: State, thread: ThreadId, newUser: nat, alloc: Allocation, fallback: Allocation)
    ensures var e, old' := Register(thread, newUser, alloc, fallback), Entry(s.table, thread);
            var s' := Step(s, e);
            if Installs(e)
            then
              && s'.user == newUser && s'.delivered == s.delivered + Passed(newUser, thread, old')
              && s'.table == s.table[thread := Buffer(alloc.raw, alloc.size, [])]
            else
              && IsRefused(e) && s'.user == s.user
              && s'.delivered == s.delivered + [Delivery(newUser, thread, Buffer(alloc.raw, alloc.size, []))]
                                 + Passed(s.user, thread, old')
              && s'.table == s.table[thread := Buffer(fallback.raw, fallback.size, [])]
  {
  }

  // ---------------------------------------------------------------- whole runs

  lemma InForceFirst(before: nat, e: Event, rest: seq<Event>, user: nat)
    requires InForce(if Installs(e) then e.newUser else before, rest, user)
    ensures InForce(before, [e] + rest, user)
  {
    var events := [e] + rest;
    assert forall k :: 0 < k < |events| ==> events[k] == rest[k - 1];
    if exists i: nat :: LastInstall(rest, i) {
      var i: nat :| LastInstall(rest, i) && user == rest[i].newUser;
      assert LastInstall(events, i + 1);
    } else {
      forall k | 0 < k < |events| ensures !Installs(events[k]) {
        NoneInstalled(rest, |rest|);
      }
      if Installs(e) {
        assert LastInstall(events, 0);
      } else {
        assert forall i: nat :: !LastInstall(events, i);
      }
    }
  }

  /** If no installing event is the last one, there is none. */
  lemma {:induction false} NoneInstalled(events: seq<Event>, n: nat)
    requires n <= |events| && forall i: nat :: !LastInstall(events, i)
    ensures forall k :: |events| - n <= k < |events| ==> !Installs(events[k])
  {
    if n > 0 {
      NoneInstalled(events, n - 1);
      assert !LastInstall(events, |events| - n);
    }
  }

  lemma StepUser(s: State, e: Event)
    requires Enabled(s, e)
    ensures Step(s, e).user == if Installs(e) then e.newUser else s.user
    ensures s.delivered <= Step(s, e).delivered
  {
    if e.Register? {
      RegisterDelivers(s, e.thread, e.newUser, e.alloc, e.fallback);
    } else {
      TaskDelivers(s, e);
    }
  }

  /** Over every run, the user in force is the last one whose registration was accepted. */
  lemma {:induction false} UserTellsRegistrations(s: State, events: seq<Event>)
    requires CanRun(s, events)
    ensures InForce(s.user, events, Run(s, events).user)
    ensures s.delivered <= Run(s, events).delivered
    decreases |events|
  {
    if events == [] {
      assert forall i: nat :: !LastInstall(events, i);
    } else {
      var e, rest := events[0], events[1..];
      StepUser(s, e);
      UserTellsRegistrations(Step(s, e), rest);
      assert events == [e] + rest;
      InForceFirst(s.user, e, rest, Run(s, events).user);
    }
  }

  /** Delivery `k` of the run is made by event `i`. */
  predicate MadeBy(s: State, events: seq<Event>, k: nat, i: nat) {
    i < |events| && |Run(s, events[..i]).delivered| <= k < |Run(s, events[..i + 1]).delivered|
  }

  /** What event `i` passes back to the user who offered it: the buffer of a refused registration. */
  predicate PassedBack(s: State, events: seq<Event>, k: nat, i: nat)
    requires i < |events|
  {
    IsRefused(events[i]) && k == |Run(s, events[..i]).delivered|
  }

  lemma LaterEvents(s: State, events: seq<Event>, i: nat)
    requires 0 < i <= |events|
    ensures Run(s, events[..i]) == Run(Step(s, events[0]), events[1..][..i - 1])
  {
    assert events[..i][1..] == events[1..][..i - 1] && events[..i][0] == events[0];
  }

  /**
    Event `i` made delivery `k`, to the user in force when the event was done; only the
    buffer of a refused registration goes back to the user who offered it.
   */
  ghost predicate GoesToUser(s: State, events: seq<Event>, k: nat, d: Delivery, i: nat) {
    && MadeBy(s, events, k, i)
    && if PassedBack(s, events, k, i)
       then d == Delivery(events[i].newUser, events[i].thread, Buffer(events[i].alloc.raw, events[i].alloc.size, []))
       else d.user == Run(s, events[..i + 1]).user && InForce(s.user, events[..i + 1], d.user)
  }

  lemma FirstDelivers(s: State, events: seq<Event>, k: nat)
    requires events != [] && Enabled(s, events[0]) && |s.delivered| <= k < |Step(s, events[0]).delivered|
    ensures GoesToUser(s, events, k, Step(s, events[0]).delivered[k], 0)
  {
    var e := events[0];
    assert events[..0] == [] && events[..1] == [e] && [e][1..] == [];
    assert Run(s, [e]) == Run(Step(s, e), []);
    UserTellsRegistrations(s, [e]);
    if e.Register? {
      RegisterDelivers(s, e.thread, e.newUser, e.alloc, e.fallback);
    } else {
      TaskDelivers(s, e);
    }
  }

  lemma LaterGoesToUser(s: State, events: seq<Event>, k: nat, d: Delivery, j: nat)
    requires events != [] && Enabled(s, events[0]) && GoesToUser(Step(s, events[0]), events[1..], k, d, j)
    ensures GoesToUser(s, events, k, d, j + 1)
  {
    var e, rest := events[0], events[1..];
    LaterEvents(s, events, j + 1);
    LaterEvents(s, events, j + 2);
    assert events[..j + 2] == [e] + rest[..j + 1];
    StepUser(s, e);
    if !PassedBack(s, events, k, j + 1) {
      InForceFirst(s.user, e, rest[..j + 1], d.user);
    }
  }

  /**
    Over every run, each delivery was made by an event of the run, for the user in force
    when that event was done. So the old buffer that an accepted registration takes over
    goes to the new user already.
   */
  lemma {:induction false} DeliveriesTellUsers(s: State, events: seq<Event>, k: nat) returns (i: nat)
    requires CanRun(s, events) && |s.delivered| <= k < |Run(s, events).delivered|
    ensures GoesToUser(s, events, k, Run(s, events).delivered[k], i)
    decreases |events|
  {
    var next := Step(s, events[0]);
    StepUser(s, events[0]);
    UserTellsRegistrations(next, events[1..]);
    if k < |next.delivered| {
      i := 0;
      FirstDelivers(s, events, k);
    } else {
      i := DeliveriesTellUsers(next, events[1..], k);
      LaterGoesToUser(s, events, k, Run(s, events).delivered[k], i);
      i := i + 1;
    }
  }
}
