/**
  The kernel collector as a class: the fields and loops of `ZeKernelCollector`, each
  method proved against the step it implements.
 */
module KernelCollectorClass {
  import opened KernelTimer
  import opened KernelCollector
  import opened KernelCollectorProofs

  /** Skipping a call that waits for another event leaves the first call that waits where it was. */
  lemma FirstCallSkips(live: map<CommandId, Command>, calls: seq<CommandId>, event: EventHandle, i: nat)
    requires i <= FirstCall(live, calls, event)
    ensures i < |calls| && calls[i] in live ==>
              (live[calls[i]].event == event <==> FirstCall(live, calls, event) == i)
  {
    if i > 0 {
      FirstCallSkips(live, calls[1..], event, i - 1);
    }
  }

  lemma AnsweredTail(live: map<CommandId, Command>, calls: seq<CommandId>, i: nat, device: Device)
    requires i <= |calls| && Answered(live, calls, device)
    ensures Answered(live, calls[i..], device)
  {
    forall k | 0 <= k < |calls[i..]|
      ensures calls[i..][k] in live
      ensures device(live[calls[i..][k]].event).Ready? ==> Processable(live[calls[i..][k]], device)
    {
      assert calls[i..][k] == calls[i + k];
    }
  }

  /** The walk of ProcessCalls is at position `i`: what is before it stays, what is from it on is to be processed. */
  ghost predicate Walking(s: State, i: nat, before: State, device: Device)
    requires Answered(before.live, before.calls, device)
  {
    && i <= |s.calls|
    && s.live == before.live
    && Answered(s.live, s.calls[i..], device)
    && StillPending(before.live, before.calls, device) == s.calls[..i] + StillPending(s.live, s.calls[i..], device)
    && RecordAll(s.(calls := StillPending(before.live, before.calls, device)), Completed(s.live, s.calls[i..], device))
       == ProcessCalls(before, device)
  }

  /** A call that is not ready stays. */
  lemma WalkKeeps(s: State, i: nat, before: State, device: Device)
    requires Answered(before.live, before.calls, device) && Walking(s, i, before, device) && i < |s.calls|
    requires device(s.live[s.calls[i..][0]].event).NotReady?
    ensures Walking(s, i + 1, before, device)
  {
    var rest := s.calls[i..];
    AnsweredTail(s.live, rest, 1, device);
    assert rest[1..] == s.calls[i + 1..];
    assert s.calls[..i + 1] == s.calls[..i] + [rest[0]];
    assert Completed(s.live, rest, device) == Completed(s.live, rest[1..], device);
  }

  /** A call that is ready is recorded and erased. */
  lemma WalkErases(s: State, i: nat, before: State, device: Device)
    requires Answered(before.live, before.calls, device) && Walking(s, i, before, device) && i < |s.calls|
    requires device(s.live[s.calls[i..][0]].event).Ready?
    ensures Walking(Record(s, Complete(s.live[s.calls[i..][0]], device)).(calls := s.calls[..i] + s.calls[i + 1..]),
                    i, before, device)
  {
    var rest := s.calls[i..];
    AnsweredTail(s.live, rest, 1, device);
    var c, done := Complete(s.live[rest[0]], device), Completed(s.live, rest[1..], device);
    assert Completed(s.live, rest, device) == [c] + done;
    assert ([c] + done)[1..] == done;
    var calls' := s.calls[..i] + s.calls[i + 1..];
    assert calls'[..i] == s.calls[..i] && calls'[i..] == rest[1..];
    assert StillPending(s.live, rest, device) == StillPending(s.live, rest[1..], device);
  }

  /** At the end nothing is left to process. */
  lemma WalkEnds(s: State, before: State, device: Device)
    requires Answered(before.live, before.calls, device) && Walking(s, |s.calls|, before, device)
    ensures s == ProcessCalls(before, device)
  {
    assert s.calls[|s.calls|..] == [] && s.calls[..|s.calls|] == s.calls;
    assert s.(calls := s.calls) == s;
  }

  lemma NamesOfOneMore(live: map<CommandId, Command>, ids: seq<CommandId>, k: nat)
    requires k < |ids| && ids[k] in live
    ensures NamesOf(live, ids[..k + 1]) == NamesOf(live, ids[..k]) + [live[ids[k]].name]
  {
    assert ids[..k + 1] == ids[..k] + [ids[k]];
    NamesConcat(live, ids[..k], [ids[k]]);
  }

  class ZeKernelCollector {
    var lists: map<ListHandle, ListInfo>
    var live: map<CommandId, Command>
    var calls: seq<CommandId>
    var infos: map<string, KernelInfo>
    var intervals: seq<Interval>
    ghost var added: seq<string>
    ghost var completed: seq<Completion>

    ghost function Now(): State
      reads this
    {
      State(lists, live, calls, infos, intervals, added, completed)
    }

    constructor ()
      ensures Now() == Start
    {
      lists, live, calls, infos, intervals := map[], map[], [], map[], [];
      added, completed := [], [];
    }

    method AddKernelInfo(name: string, time: nat, simdWidth: nat)
      requires name != ""
      modifies `infos
      ensures infos == KernelCollector.AddKernelInfo(old(infos), name, time, simdWidth)
    {
      if name !in infos {
        infos := infos[name := KernelInfo(time, time, time, 1, simdWidth)];
      } else {
        var kernel := infos[name];
        kernel := kernel.(totalTime := kernel.totalTime + time);
        if time > kernel.maxTime {
          kernel := kernel.(maxTime := time);
        }
        if time < kernel.minTime {
          kernel := kernel.(minTime := time);
        }
        kernel := kernel.(callCount := kernel.callCount + 1);
        if kernel.simdWidth < simdWidth {
          kernel := kernel.(simdWidth := simdWidth);
        }
        infos := infos[name := kernel];
      }
    }

    method AddKernelInterval(name: string, start: nat, end: nat)
      requires name != "" && start < end
      modifies `intervals
      ensures intervals == old(intervals) + [Interval(name, start, end)]
    {
      intervals := intervals + [Interval(name, start, end)];
    }

    /** ProcessCall(call): the timestamps of a ready event become a statistic and an interval. */
    method CompleteCall(call: CommandId, device: Device)
      requires call in live && Processable(live[call], device)
      modifies `infos, `intervals, `completed
      ensures Now() == Record(old(Now()), Complete(live[call], device))
    {
      var command := live[call];
      var status := device(command.event);
      var start, end := status.time.start, status.time.end;
      var startNs := ToNs(start, command.freq);
      var endNs;
      if start < end {
        endNs := ToNs(end, command.freq);
      } else {
        assert start < TWO_TO_THE_32;
        endNs := ToNs(TWO_TO_THE_32 + end, command.freq);
      }
      AddKernelInfo(command.name, endNs - startNs, command.simdWidth);
      AddKernelInterval(command.name, startNs, endNs);
      completed := completed + [Complete(command, device)];
    }

    method ProcessCall(event: EventHandle, device: Device)
      requires forall i :: 0 <= i < |calls| ==> calls[i] in live
      requires Enabled(Now(), EventUse(event, device))
      modifies `calls, `infos, `intervals, `completed
      ensures Now() == Step(old(Now()), EventUse(event, device))
    {
      var i := 0;
      FirstCallSkips(live, calls, event, i);
      while i < |calls|
        invariant 0 <= i <= FirstCall(live, calls, event)
        invariant Now() == old(Now())
      {
        FirstCallSkips(live, calls, event, i);
        if live[calls[i]].event == event {
          CompleteCall(calls[i], device);
          calls := calls[..i] + calls[i + 1..];
          break;
        }
        i := i + 1;
      }
    }

    /** ProcessCalls walks the list and erases the calls that are ready. */
    method ProcessCalls(device: Device)
      requires Answered(live, calls, device)
      modifies `calls, `infos, `intervals, `completed
      ensures Now() == KernelCollector.ProcessCalls(old(Now()), device)
    {
      ghost var before := Now();
      var i := 0;
      assert calls[0..] == calls && calls[..0] == [];
      while i < |calls|
        invariant Walking(Now(), i, before, device)
        decreases |calls| - i
      {
        var call := calls[i];
        assert calls[i..][0] == call;
        if device(live[call].event).NotReady? {
          WalkKeeps(Now(), i, before, device);
          i := i + 1;
        } else {
          WalkErases(Now(), i, before, device);
          CompleteCall(call, device);
          calls := calls[..i] + calls[i + 1..];
        }
      }
      WalkEnds(Now(), before, device);
    }

    method AddCommandList(handle: ListHandle, immediate: bool)
      requires handle !in lists
      modifies `lists
      ensures Now() == Step(old(Now()), CreateList(handle, immediate))
    {
      lists := lists[handle := ListInfo([], immediate)];
    }

    method AddKernelCommand(handle: ListHandle, id: CommandId)
      requires handle in lists
      modifies `lists
      ensures lists == old(lists)[handle := old(lists)[handle].(commands := old(lists)[handle].commands + [id])]
    {
      lists := lists[handle := lists[handle].(commands := lists[handle].commands + [id])];
    }

    method AddKernelCall(id: CommandId)
      requires id in live
      modifies `calls, `added
      ensures calls == old(calls) + [id] && added == old(added) + [live[id].name]
    {
      calls := calls + [id];
      added := added + [live[id].name];
    }

    /** The exit callback of a kernel append that succeeded. */
    method AppendKernel(id: CommandId, command: Command)
      requires Enabled(Now(), Append(id, command))
      modifies `lists, `live, `calls, `added
      ensures Now() == Step(old(Now()), Append(id, command))
    {
      live := live[id := command];
      AddKernelCommand(command.list, id);
      if lists[command.list].immediate {
        AddKernelCall(id);
        assert NamesOf(live, [id]) == [command.name];
      }
    }

    method AddKernelCalls(handle: ListHandle)
      requires handle in lists && !lists[handle].immediate
      requires forall k :: 0 <= k < |lists[handle].commands| ==> lists[handle].commands[k] in live
      modifies `calls, `added
      ensures Now() == AddCalls(old(Now()), lists[handle].commands)
    {
      var commands, k := lists[handle].commands, 0;
      while k < |commands|
        invariant k <= |commands| && Now() == AddCalls(old(Now()), commands[..k])
      {
        NamesOfOneMore(live, commands, k);
        calls := calls + [commands[k]];
        added := added + [live[commands[k]].name];
        k := k + 1;
      }
      assert commands[..k] == commands;
    }

    /** The exit callback of a queue's execution of command lists. */
    method ExecuteCommandLists(handles: seq<ListHandle>)
      requires Owned(Now()) && Enabled(Now(), Execute(handles))
      modifies `calls, `added
      ensures Now() == Step(old(Now()), Execute(handles))
    {
      ghost var before := Now();
      var i := 0;
      while i < |handles|
        invariant i <= |handles| && lists == before.lists && live == before.live
        invariant ExecuteLists(Now(), handles[i..]) == ExecuteLists(before, handles)
      {
        assert handles[i..][1..] == handles[i + 1..];
        assert ListOwns(before, handles[i]);
        if !lists[handles[i]].immediate {
          AddKernelCalls(handles[i]);
        }
        i := i + 1;
      }
    }

    /** RemoveKernelCommands, with its assertion that no call points to a command it deletes. */
    method RemoveKernelCommands(handle: ListHandle)
      requires handle in lists && NoCallInto(Now(), handle)
      modifies `lists, `live
      ensures Now() == RemoveCommands(old(Now()), handle)
    {
      var commands, k := lists[handle].commands, 0;
      while k < |commands|
        invariant k <= |commands|
        invariant lists == old(lists) && live == old(live) - ToSet(commands[..k])
      {
        var i := 0;
        while i < |calls|
        {
          assert calls[i] != commands[k];
          i := i + 1;
        }
        live := live - {commands[k]};
        assert ToSet(commands[..k + 1]) == ToSet(commands[..k]) + {commands[k]};
        k := k + 1;
      }
      assert commands[..k] == commands;
      lists := lists[handle := lists[handle].(commands := [])];
    }

    /** The exit callback of a command list's reset. */
    method ResetCommandList(handle: ListHandle, device: Device)
      requires Owned(Now()) && Enabled(Now(), ResetList(handle, device))
      modifies `lists, `live, `calls, `infos, `intervals, `completed
      ensures Now() == Step(old(Now()), ResetList(handle, device))
    {
      AssertionLoop(Now(), handle, device);
      ProcessCalls(device);
      RemoveKernelCommands(handle);
    }

    /** The exit callback of a command list's destruction. */
    method RemoveCommandList(handle: ListHandle, device: Device)
      requires Owned(Now()) && Enabled(Now(), DestroyList(handle, device))
      modifies `lists, `live, `calls, `infos, `intervals, `completed
      ensures Now() == Step(old(Now()), DestroyList(handle, device))
    {
      AssertionLoop(Now(), handle, device);
      ProcessCalls(device);
      RemoveKernelCommands(handle);
      lists := lists - {handle};
    }
  }
}
