/**
  Events of the user: how many pending calls wait for one, and when none of them is
  left behind by the destruction of the event.
 */
module KernelCollectorEvents {
  import opened KernelCollector
  import opened KernelCollectorProofs

  /** How many of the calls wait for the event. */
  function Waiting(live: map<CommandId, Command>, calls: seq<CommandId>, event: EventHandle): nat {
    if calls == [] then 0
    else (if calls[0] in live && live[calls[0]].event == event then 1 else 0) + Waiting(live, calls[1..], event)
  }

  /** How many calls for the event an execution adds. */
  function Executed(s: State, handles: seq<ListHandle>, event: EventHandle): nat
    requires forall i :: 0 <= i < |handles| ==> handles[i] in s.lists
  {
    if handles == [] then 0
    else
      var info := s.lists[handles[0]];
      (if info.immediate then 0 else Waiting(s.live, info.commands, event)) + Executed(s, handles[1..], event)
  }

  /** How many calls for the event a step adds. */
  ghost function Adds(s: State, e: Event, event: EventHandle): nat
    requires Enabled(s, e)
  {
    match e
    case Append(_, command) => if s.lists[command.list].immediate && command.event == event then 1 else 0
    case Execute(handles) => Executed(s, handles, event)
    case _ => 0
  }

  lemma {:induction false} WaitingConcat(live: map<CommandId, Command>, a: seq<CommandId>, b: seq<CommandId>,
                                         event: EventHandle)
    ensures Waiting(live, a + b, event) == Waiting(live, a, event) + Waiting(live, b, event)
  {
    if a == [] {
      assert a + b == b;
    } else {
      WaitingConcat(live, a[1..], b, event);
      assert (a + b)[1..] == a[1..] + b;
    }
  }

  /** Commands that come and go do not matter to calls that point elsewhere. */
  lemma {:induction false} WaitingElsewhere(live: map<CommandId, Command>, live': map<CommandId, Command>,
                                            calls: seq<CommandId>, event: EventHandle)
    requires forall i :: 0 <= i < |calls| ==>
               calls[i] in live && calls[i] in live' && live'[calls[i]] == live[calls[i]]
    ensures Waiting(live', calls, event) == Waiting(live, calls, event)
  {
    if calls != [] {
      WaitingElsewhere(live, live', calls[1..], event);
    }
  }

  /** The search finds a call exactly if one waits. */
  lemma {:induction false} FirstWaits(live: map<CommandId, Command>, calls: seq<CommandId>, event: EventHandle)
    ensures FirstCall(live, calls, event) < |calls| <==> Waiting(live, calls, event) > 0
  {
    if calls != [] {
      FirstWaits(live, calls[1..], event);
    }
  }

  /** The use of an event takes one of the calls that wait for it, and no other call. */
  lemma UseTakesOne(s: State, used: EventHandle, device: Device, event: EventHandle)
    requires Enabled(s, EventUse(used, device))
    ensures var before, after := Waiting(s.live, s.calls, event), Step(s, EventUse(used, device));
            Waiting(after.live, after.calls, event) == before - if used == event && before > 0 then 1 else 0
  {
    FirstWaits(s.live, s.calls, used);
    var at := FirstCall(s.live, s.calls, used);
    if at < |s.calls| {
      var call := [s.calls[at]];
      assert s.calls == s.calls[..at] + (call + s.calls[at + 1..]);
      WaitingConcat(s.live, s.calls[..at], call + s.calls[at + 1..], event);
      WaitingConcat(s.live, call, s.calls[at + 1..], event);
      WaitingConcat(s.live, s.calls[..at], s.calls[at + 1..], event);
      assert Waiting(s.live, call, event) == if used == event then 1 else 0;
    } else if used == event {
      assert Waiting(s.live, s.calls, event) == 0;
    }
  }

  lemma {:induction false} PendingWaits(live: map<CommandId, Command>, calls: seq<CommandId>, device: Device,
                                        event: EventHandle)
    requires Answered(live, calls, device)
    ensures Waiting(live, StillPending(live, calls, device), event)
            == if device(event).Ready? then 0 else Waiting(live, calls, event)
  {
    if calls != [] {
      PendingWaits(live, calls[1..], device, event);
      var rest := StillPending(live, calls[1..], device);
      if device(live[calls[0]].event).NotReady? {
        assert ([calls[0]] + rest)[1..] == rest;
      } else {
        assert StillPending(live, calls, device) == rest;
      }
    }
  }

  /** ProcessCalls takes all calls that wait for the event if it is ready, and none of them otherwise. */
  lemma ProcessTakesReady(s: State, device: Device, event: EventHandle)
    requires Answered(s.live, s.calls, device)
    ensures var s' := ProcessCalls(s, device);
            Waiting(s'.live, s'.calls, event) == if device(event).Ready? then 0 else Waiting(s.live, s.calls, event)
  {
    ProcessLeavesPending(s, device);
    PendingWaits(s.live, s.calls, device, event);
  }

  lemma RemoveTakesNone(s: State, handle: ListHandle, event: EventHandle)
    requires Owned(s) && handle in s.lists && NoCallInto(s, handle)
    ensures var s' := RemoveCommands(s, handle);
            s'.calls == s.calls && Waiting(s'.live, s'.calls, event) == Waiting(s.live, s.calls, event)
  {
    RemoveKeepsOwned(s, handle);
    WaitingElsewhere(s.live, RemoveCommands(s, handle).live, s.calls, event);
  }

  lemma ResetTakesReady(s: State, handle: ListHandle, device: Device, event: EventHandle)
    requires Owned(s) && Enabled(s, ResetList(handle, device))
    ensures ProcessCalls(s, device).lists == s.lists
    ensures var s' := RemoveCommands(ProcessCalls(s, device), handle);
            Waiting(s'.live, s'.calls, event) == if device(event).Ready? then 0 else Waiting(s.live, s.calls, event)
  {
    ProcessTakesReady(s, device, event);
    ProcessKeepsOwned(s, device);
    AssertionLoop(s, handle, device);
    RemoveTakesNone(ProcessCalls(s, device), handle, event);
  }

  lemma AppendWaits(s: State, id: CommandId, command: Command, event: EventHandle)
    requires Owned(s) && Enabled(s, Append(id, command))
    ensures var s' := AppendCommand(s, id, command);
            Waiting(s'.live, s'.calls, event) == Waiting(s.live, s.calls, event) + Adds(s, Append(id, command), event)
  {
    var live := s.live[id := command];
    WaitingElsewhere(s.live, live, s.calls, event);
    WaitingConcat(live, s.calls, [id], event);
    assert Waiting(live, [id], event) == if command.event == event then 1 else 0;
  }

  lemma {:induction false} ExecuteWaits(s: State, handles: seq<ListHandle>, event: EventHandle)
    requires Enabled(s, Execute(handles))
    ensures var s' := ExecuteLists(s, handles);
            s'.live == s.live &&
            Waiting(s'.live, s'.calls, event) == Waiting(s.live, s.calls, event) + Executed(s, handles, event)
    decreases |handles|
  {
    if handles != [] {
      var info := s.lists[handles[0]];
      var next := if info.immediate then s else AddCalls(s, info.commands);
      WaitingConcat(s.live, s.calls, info.commands, event);
      ExecuteWaits(next, handles[1..], event);
      SameLists(s, next, handles[1..], event);
    }
  }

  lemma {:induction false} SameLists(s: State, next: State, handles: seq<ListHandle>, event: EventHandle)
    requires next.lists == s.lists && next.live == s.live
    requires forall i :: 0 <= i < |handles| ==> handles[i] in s.lists
    ensures Executed(next, handles, event) == Executed(s, handles, event)
  {
    if handles != [] {
      SameLists(s, next, handles[1..], event);
    }
  }

  /** The use of an event takes one call, processing takes all if it is ready, appends and executions add theirs. */
  function WaitingAfter(before: nat, e: Event, added: nat, event: EventHandle): nat {
    match e
    case EventUse(used, _) => if used == event && before > 0 then before - 1 else before
    case Synchronize(device) => if device(event).Ready? then 0 else before
    case ResetList(_, device) => if device(event).Ready? then 0 else before
    case DestroyList(_, device) => if device(event).Ready? then 0 else before
    case _ => before + added
  }

  /** How many calls wait for an event after one more step. */
  lemma StepWaits(s: State, e: Event, event: EventHandle)
    requires Owned(s) && Enabled(s, e)
    ensures var s' := Step(s, e);
            Waiting(s'.live, s'.calls, event)
            == WaitingAfter(Waiting(s.live, s.calls, event), e, Adds(s, e, event), event)
  {
    match e
    case CreateList(_, _) =>
    case Append(id, command) => AppendWaits(s, id, command, event);
    case Execute(handles) => ExecuteWaits(s, handles, event);
    case EventUse(used, device) => UseTakesOne(s, used, device, event);
    case Synchronize(device) => ProcessTakesReady(s, device, event);
    case ResetList(handle, device) => ResetTakesReady(s, handle, device, event);
    case DestroyList(handle, device) => ResetTakesReady(s, handle, device, event);
  }

  // ---------------------------------------------------------------- destroyed events

  /** No step adds a call for the event, as no caller may use an event that is destroyed. */
  ghost predicate NeverAdds(s: State, events: seq<Event>, event: EventHandle)
    requires CanRun(s, events)
    decreases |events|
  {
    events != [] ==> Adds(s, events[0], event) == 0 && NeverAdds(Step(s, events[0]), events[1..], event)
  }

  /** At no moment of the run a pending call waits for the event. */
  ghost predicate NeverWaits(s: State, events: seq<Event>, event: EventHandle)
    requires CanRun(s, events)
    decreases |events|
  {
    && Waiting(s.live, s.calls, event) == 0
    && (events != [] ==> NeverWaits(Step(s, events[0]), events[1..], event))
  }

  lemma {:induction false} StaysUnused(s: State, events: seq<Event>, event: EventHandle)
    requires Owned(s) && CanRun(s, events) && NeverAdds(s, events, event) && Waiting(s.live, s.calls, event) == 0
    ensures NeverWaits(s, events, event)
    decreases |events|
  {
    if events != [] {
      StepWaits(s, events[0], event);
      StepKeepsOwned(s, events[0]);
      StaysUnused(Step(s, events[0]), events[1..], event);
    }
  }

  /**
    The callback of an event's destruction processes one call only. So no pending call
    is left waiting for the destroyed event, then and in every run that does not use it
    again, if and only if at most one call waited for it.
   */
  lemma DestroyedEventWaits(s: State, event: EventHandle, device: Device, rest: seq<Event>)
    requires Owned(s) && Enabled(s, EventUse(event, device)) && CanRun(Step(s, EventUse(event, device)), rest)
    requires NeverAdds(Step(s, EventUse(event, device)), rest, event)
    ensures NeverWaits(Step(s, EventUse(event, device)), rest, event) <==> Waiting(s.live, s.calls, event) <= 1
  {
    UseTakesOne(s, event, device, event);
    StepKeepsOwned(s, EventUse(event, device));
    if Waiting(s.live, s.calls, event) <= 1 {
      StaysUnused(Step(s, EventUse(event, device)), rest, event);
    }
  }

  /** Calls for the event are added one at a time, each after the one before was processed. */
  ghost predicate OneAtATime(s: State, events: seq<Event>, event: EventHandle)
    requires CanRun(s, events)
    decreases |events|
  {
    events != [] ==>
      && (Adds(s, events[0], event) > 0 ==> Waiting(s.live, s.calls, event) + Adds(s, events[0], event) == 1)
      && OneAtATime(Step(s, events[0]), events[1..], event)
  }

  /** That is so, over every run, if calls for the event are added one at a time. */
  lemma {:induction false} OneAtATimeWaits(s: State, events: seq<Event>, event: EventHandle)
    requires Owned(s) && CanRun(s, events) && Waiting(s.live, s.calls, event) <= 1 && OneAtATime(s, events, event)
    ensures Waiting(Run(s, events).live, Run(s, events).calls, event) <= 1
    decreases |events|
  {
    if events != [] {
      StepWaits(s, events[0], event);
      StepKeepsOwned(s, events[0]);
      OneAtATimeWaits(Step(s, events[0]), events[1..], event);
    }
  }

  /** A list executed twice, with no processing in between, leaves a call waiting for its destroyed event. */
  lemma ExecutedTwiceIsLeft(s: State, handle: ListHandle, event: EventHandle, device: Device)
    requires Owned(s) && handle in s.lists && !s.lists[handle].immediate
    requires Waiting(s.live, s.lists[handle].commands, event) > 0
    requires CanRun(s, [Execute([handle, handle]), EventUse(event, device)])
    ensures var s' := Run(s, [Execute([handle, handle]), EventUse(event, device)]);
            Waiting(s'.live, s'.calls, event) > 0
  {
    var execute, destroy := Execute([handle, handle]), EventUse(event, device);
    var executed := Step(s, execute);
    assert [handle, handle][1..] == [handle] && [handle][1..] == [];
    assert [execute, destroy][1..] == [destroy] && [destroy][1..] == [];
    ExecuteWaits(s, [handle, handle], event);
    assert Executed(s, [handle], event) == Waiting(s.live, s.lists[handle].commands, event) + Executed(s, [], event);
    assert CanRun(executed, [destroy]);
    UseTakesOne(executed, event, device, event);
    assert Run(s, [execute, destroy]) == Run(Step(executed, destroy), []);
  }
}
