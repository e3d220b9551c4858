/**
  What completed calls are recorded as: the kernel's name and SIMD width, and its
  interval in nanoseconds as the device's 32-bit timer showed it.
 */
module KernelCollectorMeasures {
  import opened KernelTimer
  import opened KernelCollector
  import opened KernelCollectorProofs

  // ---------------------------------------------------------------- one call

  predicate Is32Bit(time: Timestamp) {
    time.start < TWO_TO_THE_32 && time.end < TWO_TO_THE_32
  }

  /** How many ticks the kernel took, if it took no more than 2^32. */
  function Ticks(time: Timestamp): nat
    requires Is32Bit(time)
  {
    if time.start < time.end then time.end - time.start else TWO_TO_THE_32 - time.start + time.end
  }

  lemma TicksAreObserved(time: Timestamp)
    requires Is32Bit(time)
    ensures 1 <= Ticks(time) <= TWO_TO_THE_32 && time == Observed(time.start, Ticks(time))
  {
    WrapsOnce(time.start + Ticks(time));
  }

  /** Ticks of a timer in nanoseconds, floored. */
  function Nanoseconds(ticks: nat, freq: nat): nat
    requires freq > 0
  {
    ticks * 1_000_000_000 / freq
  }

  /** The completion is what the timer showed for the command, in nanoseconds, floored. */
  predicate Measures(c: Completion, command: Command, time: Timestamp)
    requires Is32Bit(time) && command.freq > 0
  {
    && c.interval.name == command.name && c.simdWidth == command.simdWidth
    && c.interval.start == Nanoseconds(time.start, command.freq)
    && c.interval.end == Nanoseconds(time.start + Ticks(time), command.freq)
  }

  /** The command's event is ready, and if its timer is a 32-bit one the completion tells what it showed. */
  predicate MeasuredBy(c: Completion, command: Command, device: Device) {
    && device(command.event).Ready? && command.freq > 0
    && (Is32Bit(device(command.event).time) ==> Measures(c, command, device(command.event).time))
  }

  lemma CompleteMeasures(command: Command, device: Device)
    requires Processable(command, device)
    ensures MeasuredBy(Complete(command, device), command, device)
  {
    var time := device(command.event).time;
    if Is32Bit(time) {
      TicksAreObserved(time);
      NoOverflow(time.start, Ticks(time), command.freq);
    }
  }

  /** A name's entry in the statistics after one more call of the given duration and width. */
  predicate CountsOneMore(before: map<string, KernelInfo>, after: map<string, KernelInfo>, name: string, time: int,
                          simdWidth: nat)
  {
    && after.Keys == before.Keys + {name}
    && (forall other :: other in before && other != name ==> after[other] == before[other])
    && if name in before
       then
         && after[name].totalTime == before[name].totalTime + time
         && after[name].callCount == before[name].callCount + 1
         && after[name].simdWidth == (if before[name].simdWidth < simdWidth then simdWidth else before[name].simdWidth)
       else
         && after[name].totalTime == time && after[name].callCount == 1 && after[name].simdWidth == simdWidth
  }

  /**
    The use of an event that a call waits for, on a 32-bit timer: the first such call
    becomes one interval and one count, from its start to its start plus its true
    duration, and leaves the list.
   */
  lemma UseMeasures(s: State, event: EventHandle, device: Device, at: nat, start: nat, ticks: nat)
    requires Enabled(s, EventUse(event, device)) && at < |s.calls| && s.calls[at] in s.live
    requires s.live[s.calls[at]].event == event
    requires forall i :: 0 <= i < at ==> !(s.calls[i] in s.live && s.live[s.calls[i]].event == event)
    requires start < TWO_TO_THE_32 && 1 <= ticks <= TWO_TO_THE_32
    requires device(event) == Ready(Observed(start, ticks)) && s.live[s.calls[at]].freq > 0
    ensures var command, s' := s.live[s.calls[at]], Step(s, EventUse(event, device));
            var startNs, endNs :=
              Nanoseconds(start, command.freq), Nanoseconds(start + ticks, command.freq);
            && s'.calls == s.calls[..at] + s.calls[at + 1..]
            && s'.intervals == s.intervals + [Interval(command.name, startNs, endNs)]
            && CountsOneMore(s.infos, s'.infos, command.name, endNs - startNs, command.simdWidth)
  {
    assert FirstCall(s.live, s.calls, event) == at;
    NoOverflow(start, ticks, s.live[s.calls[at]].freq);
  }

  // ---------------------------------------------------------------- the ready calls

  /** The calls whose events are ready, in order. */
  function ReadyCalls(live: map<CommandId, Command>, calls: seq<CommandId>, device: Device): (ready: seq<CommandId>)
    ensures forall k :: 0 <= k < |ready| ==> ready[k] in calls && ready[k] in live
  {
    if calls == [] then []
    else
      (if calls[0] in live && device(live[calls[0]].event).Ready? then [calls[0]] else [])
      + ReadyCalls(live, calls[1..], device)
  }

  /** Each completion tells what the timer showed for one ready call, in order. */
  predicate AllMeasured(done: seq<Completion>, ready: seq<CommandId>, live: map<CommandId, Command>, device: Device)
    requires forall k :: 0 <= k < |ready| ==> ready[k] in live
  {
    |done| == |ready| && forall k :: 0 <= k < |done| ==> MeasuredBy(done[k], live[ready[k]], device)
  }

  /** The completions of all calls are those of the ready ones. */
  lemma {:induction false} CompletedMeasures(live: map<CommandId, Command>, calls: seq<CommandId>, device: Device)
    requires Answered(live, calls, device)
    ensures AllMeasured(Completed(live, calls, device), ReadyCalls(live, calls, device), live, device)
  {
    if calls != [] {
      CompletedMeasures(live, calls[1..], device);
      if device(live[calls[0]].event).Ready? {
        CompleteMeasures(live[calls[0]], device);
      }
    }
  }

  /** The calls that stay are those that are not ready, in order. */
  function UnreadyCalls(live: map<CommandId, Command>, calls: seq<CommandId>, device: Device): seq<CommandId> {
    if calls == [] then []
    else
      UnreadyCalls(live, calls[..|calls| - 1], device)
      + if calls[|calls| - 1] in live && device(live[calls[|calls| - 1]].event).Ready? then [] else [calls[|calls| - 1]]
  }

  lemma {:induction false} UnreadyFirst(live: map<CommandId, Command>, calls: seq<CommandId>, device: Device)
    requires calls != []
    ensures UnreadyCalls(live, calls, device)
            == (if calls[0] in live && device(live[calls[0]].event).Ready? then [] else [calls[0]])
               + UnreadyCalls(live, calls[1..], device)
  {
    if |calls| > 1 {
      UnreadyFirst(live, calls[..|calls| - 1], device);
      assert calls[..|calls| - 1][1..] == calls[1..][..|calls| - 2];
    }
  }

  lemma {:induction false} PendingAreUnready(live: map<CommandId, Command>, calls: seq<CommandId>, device: Device)
    requires Answered(live, calls, device)
    ensures StillPending(live, calls, device) == UnreadyCalls(live, calls, device)
  {
    if calls != [] {
      PendingAreUnready(live, calls[1..], device);
      UnreadyFirst(live, calls, device);
    }
  }

  // ---------------------------------------------------------------- one step

  lemma {:induction false} ExecuteKeepsLists(s: State, handles: seq<ListHandle>)
    requires Enabled(s, Execute(handles))
    ensures ExecuteLists(s, handles).lists == s.lists
    decreases |handles|
  {
    if handles != [] {
      var info := s.lists[handles[0]];
      ExecuteKeepsLists(if info.immediate then s else AddCalls(s, info.commands), handles[1..]);
    }
  }

  /** The lists: created empty, filled by appends, emptied by a reset, forgotten when destroyed, else unchanged. */
  lemma StepLists(s: State, e: Event)
    requires Enabled(s, e)
    ensures e.CreateList? ==> Step(s, e).lists == s.lists[e.handle := ListInfo([], e.immediate)]
    ensures e.Append? ==>
              var info := s.lists[e.command.list];
              Step(s, e).lists == s.lists[e.command.list := ListInfo(info.commands + [e.id], info.immediate)]
    ensures e.ResetList? ==> Step(s, e).lists == s.lists[e.handle := ListInfo([], s.lists[e.handle].immediate)]
    ensures e.DestroyList? ==> Step(s, e).lists == s.lists - {e.handle}
    ensures e.Execute? || e.EventUse? || e.Synchronize? ==> Step(s, e).lists == s.lists
  {
    if e.Execute? {
      ExecuteKeepsLists(s, e.handles);
    } else if ProcessesAll(e) {
      ProcessLeavesPending(s, e.device);
    }
  }

  predicate ProcessesAll(e: Event) {
    e.Synchronize? || e.ResetList? || e.DestroyList?
  }

  /** The commands of a list that an execution submits; an immediate list is skipped. */
  function SubmittedOf(info: ListInfo): seq<CommandId> {
    if info.immediate then [] else info.commands
  }

  /** Those of all the lists, list by list. */
  function Submitted(lists: map<ListHandle, ListInfo>, handles: seq<ListHandle>): seq<CommandId>
    requires forall i :: 0 <= i < |handles| ==> handles[i] in lists
  {
    if handles == [] then []
    else Submitted(lists, handles[..|handles| - 1]) + SubmittedOf(lists[handles[|handles| - 1]])
  }

  lemma {:induction false} SubmittedFirst(lists: map<ListHandle, ListInfo>, handles: seq<ListHandle>)
    requires handles != [] && forall i :: 0 <= i < |handles| ==> handles[i] in lists
    ensures Submitted(lists, handles) == SubmittedOf(lists[handles[0]]) + Submitted(lists, handles[1..])
  {
    if |handles| == 1 {
      assert Submitted(lists, handles[..0]) == [] && Submitted(lists, handles[1..]) == [];
    } else {
      var front, last := handles[..|handles| - 1], handles[|handles| - 1];
      SubmittedFirst(lists, front);
      assert front[1..] == handles[1..][..|handles| - 2] && handles[1..][|handles| - 2] == last;
      Prepend(SubmittedOf(lists[handles[0]]), Submitted(lists, front[1..]), SubmittedOf(lists[last]));
    }
  }

  lemma OneListSubmits(s: State, info: ListInfo, next: State)
    requires next == if info.immediate then s else AddCalls(s, info.commands)
    ensures next.calls == s.calls + SubmittedOf(info) && next.lists == s.lists
  {
    assert s.calls + [] == s.calls;
  }

  lemma {:induction false} ExecuteSubmits(s: State, handles: seq<ListHandle>)
    requires Enabled(s, Execute(handles))
    ensures ExecuteLists(s, handles).calls == s.calls + Submitted(s.lists, handles)
    decreases |handles|
  {
    if handles != [] {
      var info := s.lists[handles[0]];
      var next := if info.immediate then s else AddCalls(s, info.commands);
      OneListSubmits(s, info, next);
      ExecuteSubmits(next, handles[1..]);
      SubmittedFirst(s.lists, handles);
      Prepend(s.calls, SubmittedOf(info), Submitted(s.lists, handles[1..]));
    }
  }

  /** Calls are added at the end: by an append to an immediate list, and by an execution of other lists. */
  lemma StepAddsCalls(s: State, e: Event)
    requires Enabled(s, e)
    ensures e.CreateList? ==> Step(s, e).calls == s.calls
    ensures e.Append? ==>
              Step(s, e).calls == s.calls + if s.lists[e.command.list].immediate then [e.id] else []
    ensures e.Execute? ==> Step(s, e).calls == s.calls + Submitted(s.lists, e.handles)
  {
    if e.Execute? {
      ExecuteSubmits(s, e.handles);
    }
  }

  /**
    What one step completes: the use of an event its first call, a synchronization,
    reset or destruction every ready call, in order, and any other step nothing.
   */
  lemma StepMeasures(s: State, e: Event)
    requires Enabled(s, e)
    ensures s.completed <= Step(s, e).completed
    ensures !e.EventUse? && !ProcessesAll(e) ==> Step(s, e).completed == s.completed
    ensures e.EventUse? ==>
              var done := Step(s, e).completed[|s.completed|..];
              if FirstCall(s.live, s.calls, e.event) == |s.calls| then done == []
              else |done| == 1 && MeasuredBy(done[0], s.live[s.calls[FirstCall(s.live, s.calls, e.event)]], e.device)
    ensures ProcessesAll(e) ==>
              && AllMeasured(Step(s, e).completed[|s.completed|..], ReadyCalls(s.live, s.calls, e.device),
                             s.live, e.device)
              && Step(s, e).calls == UnreadyCalls(s.live, s.calls, e.device)
  {
    if e.Execute? {
      ExecuteKeepsLogs(s, e.handles);
    } else if e.EventUse? {
      var at := FirstCall(s.live, s.calls, e.event);
      if at < |s.calls| {
        CompleteMeasures(s.live[s.calls[at]], e.device);
      }
    } else if ProcessesAll(e) {
      ProcessLeavesPending(s, e.device);
      PendingAreUnready(s.live, s.calls, e.device);
      CompletedMeasures(s.live, s.calls, e.device);
      var done := Completed(s.live, s.calls, e.device);
      assert (s.completed + done)[|s.completed|..] == done;
    }
  }

  // ---------------------------------------------------------------- whole runs

  /** Completion `c` is made by step `e` in state s, for a call that was pending and ready then. */
  ghost predicate MadeIn(s: State, e: Event, c: Completion) {
    && (e.EventUse? || ProcessesAll(e))
    && exists id :: id in s.calls && id in s.live && MeasuredBy(c, s.live[id], e.device)
  }

  ghost predicate MadeInRun(s: State, events: seq<Event>, c: Completion)
    requires CanRun(s, events)
    decreases |events|
  {
    events != [] && (MadeIn(s, events[0], c) || MadeInRun(Step(s, events[0]), events[1..], c))
  }

  lemma StepMakes(s: State, e: Event, k: nat)
    requires Enabled(s, e) && |s.completed| <= k < |Step(s, e).completed|
    ensures MadeIn(s, e, Step(s, e).completed[k])
  {
    StepMeasures(s, e);
    var done := Step(s, e).completed[|s.completed|..];
    assert Step(s, e).completed[k] == done[k - |s.completed|];
    if e.EventUse? {
      var id := s.calls[FirstCall(s.live, s.calls, e.event)];
      assert id in s.calls && MeasuredBy(done[0], s.live[id], e.device);
    } else {
      var ready := ReadyCalls(s.live, s.calls, e.device);
      var id := ready[k - |s.completed|];
      assert id in s.calls && MeasuredBy(done[k - |s.completed|], s.live[id], e.device);
    }
  }

  /**
    Over every run: what is completed tells, for a call that was pending in some step,
    the name and width of its command and the interval that the timer showed then.
   */
  lemma {:induction false} RunMeasures(s: State, events: seq<Event>, k: nat)
    requires CanRun(s, events)
    ensures s.completed <= Run(s, events).completed
    ensures |s.completed| <= k < |Run(s, events).completed| ==> MadeInRun(s, events, Run(s, events).completed[k])
    decreases |events|
  {
    if events != [] {
      var next := Step(s, events[0]);
      StepMeasures(s, events[0]);
      RunMeasures(next, events[1..], k);
      if |s.completed| <= k < |next.completed| {
        StepMakes(s, events[0], k);
        assert Run(s, events).completed[k] == next.completed[k];
      }
    }
  }

  /** The length of all intervals of a kernel. */
  function TotalLength(intervals: seq<Interval>, name: string): int {
    if intervals == [] then 0
    else (if intervals[0].name == name then intervals[0].end - intervals[0].start else 0)
         + TotalLength(intervals[1..], name)
  }

  lemma {:induction false} LengthIsSum(completed: seq<Completion>, name: string)
    ensures TotalLength(Intervals(completed), name) == KernelCollectorProofs.Sum(Durations(completed, name))
    ensures |Intervals(completed)| == |completed|
    ensures forall k :: 0 <= k < |completed| ==> Intervals(completed)[k] == completed[k].interval
  {
    if completed != [] {
      LengthIsSum(completed[1..], name);
      var first := if completed[0].interval.name == name then [completed[0].Time()] else [];
      var rest := Durations(completed[1..], name);
      assert Durations(completed, name) == first + rest && (first + rest)[|first|..] == rest;
      assert Intervals(completed)[1..] == Intervals(completed[1..]);
      assert Intervals(completed)[0] == completed[0].interval;
    }
  }

  /**
    In every run from an empty collector: each kernel's total time is the length of its
    intervals, and each interval is that of a call which the timer showed.
   */
  lemma TotalsAreMeasured(events: seq<Event>, name: string, k: nat)
    requires CanRun(Start, events)
    ensures var s := Run(Start, events);
            && (if name in s.infos then s.infos[name].totalTime else 0) == TotalLength(s.intervals, name)
            && |s.completed| == |s.intervals|
            && (k < |s.intervals| ==>
                  s.completed[k].interval == s.intervals[k] && MadeInRun(Start, events, s.completed[k]))
  {
    StartIsTruthful(name);
    RunIsTruthful(Start, events, name);
    LengthIsSum(Run(Start, events).completed, name);
    RunMeasures(Start, events, k);
  }
}
