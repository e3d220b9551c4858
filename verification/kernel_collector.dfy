/**
  The Level Zero kernel collector: command lists that own commands, the list of
  pending calls that point to them, and the statistics of the calls that completed.

  Every callback is one atomic step. What `zeEventQueryStatus` and
  `zeEventQueryKernelTimestamp` answer during a step is the input `device`.
 */
module KernelCollector {
  import opened KernelTimer

  type ListHandle = nat
  type EventHandle = nat
  type CommandId = nat      // a `const ZeKernelCommand*`

  /** A command, and (for reference) the list it was appended to. */
  datatype Command = Command(name: string, simdWidth: nat, event: EventHandle, freq: nat, list: ListHandle)

  datatype ListInfo = ListInfo(commands: seq<CommandId>, immediate: bool)

  datatype KernelInfo = KernelInfo(totalTime: nat, minTime: nat, maxTime: nat, callCount: nat, simdWidth: nat)

  datatype Interval = Interval(name: string, start: nat, end: nat)

  /** A call that completed: its interval and the SIMD width of its command. */
  datatype Completion = Completion(interval: Interval, simdWidth: nat)
  {
    function Time(): int {
      interval.end - interval.start
    }
  }

  datatype Status = NotReady | Ready(time: Timestamp)

  type Device = EventHandle -> Status

  datatype State = State(
    lists: map<ListHandle, ListInfo>,     // command_list_map_
    live: map<CommandId, Command>,        // commands created and not deleted
    calls: seq<CommandId>,                // kernel_call_list_
    infos: map<string, KernelInfo>,       // kernel_info_map_
    intervals: seq<Interval>,             // kernel_interval_list_
    // History: the names of the calls added, and the calls completed.
    added: seq<string>,
    completed: seq<Completion>)

  datatype Event =
    | CreateList(handle: ListHandle, immediate: bool)
    | Append(id: CommandId, command: Command)
    | Execute(handles: seq<ListHandle>)
    | EventUse(event: EventHandle, device: Device)         // event destroyed or reset by the host
    | Synchronize(device: Device)                          // queue synchronized or destroyed
    | ResetList(handle: ListHandle, device: Device)
    | DestroyList(handle: ListHandle, device: Device)

  // ---------------------------------------------------------------- completing calls

  /** AddKernelInfo. */
  function AddKernelInfo(infos: map<string, KernelInfo>, name: string, time: nat, simdWidth: nat)
    : map<string, KernelInfo>
  {
    if name !in infos then infos[name := KernelInfo(time, time, time, 1, simdWidth)]
    else
      var kernel := infos[name];
      infos[name := KernelInfo(
        kernel.totalTime + time,
        if time < kernel.minTime then time else kernel.minTime,
        if time > kernel.maxTime then time else kernel.maxTime,
        kernel.callCount + 1,
        if kernel.simdWidth < simdWidth then simdWidth else kernel.simdWidth)]
  }

  /** The source's assertions on a call that is processed. */
  predicate Processable(command: Command, device: Device) {
    var status := device(command.event);
    && status.Ready? && command.freq > 0 && command.name != ""
    && (status.time.start >= status.time.end ==> status.time.start < TWO_TO_THE_32)
    && StartNs(status.time, command.freq) < EndNs(status.time, command.freq)
  }

  function Complete(command: Command, device: Device): Completion
    requires Processable(command, device)
  {
    var time := device(command.event).time;
    Completion(Interval(command.name, StartNs(time, command.freq), EndNs(time, command.freq)), command.simdWidth)
  }

  /** A completed call enters the statistics, the interval list and the history. */
  function Record(s: State, c: Completion): State
    requires c.Time() >= 0
  {
    s.(infos := AddKernelInfo(s.infos, c.interval.name, c.Time(), c.simdWidth),
       intervals := s.intervals + [c.interval],
       completed := s.completed + [c])
  }

  predicate InTime(completions: seq<Completion>) {
    forall i :: 0 <= i < |completions| ==> completions[i].Time() > 0
  }

  function RecordAll(s: State, completions: seq<Completion>): State
    requires InTime(completions)
    decreases |completions|
  {
    if completions == [] then s else RecordAll(Record(s, completions[0]), completions[1..])
  }

  /** Every call is a command that can be asked, and every ready one passes the assertions. */
  ghost predicate Answered(live: map<CommandId, Command>, calls: seq<CommandId>, device: Device) {
    forall i :: 0 <= i < |calls| ==>
      calls[i] in live && (device(live[calls[i]].event).Ready? ==> Processable(live[calls[i]], device))
  }

  /** The calls whose events are not ready, in order. */
  function StillPending(live: map<CommandId, Command>, calls: seq<CommandId>, device: Device): seq<CommandId>
    requires Answered(live, calls, device)
  {
    if calls == [] then []
    else (if device(live[calls[0]].event).Ready? then [] else [calls[0]]) + StillPending(live, calls[1..], device)
  }

  /** What the calls whose events are ready amount to, in order. */
  function Completed(live: map<CommandId, Command>, calls: seq<CommandId>, device: Device)
    : (completions: seq<Completion>)
    requires Answered(live, calls, device)
    ensures InTime(completions)
  {
    if calls == [] then []
    else (if device(live[calls[0]].event).Ready? then [Complete(live[calls[0]], device)] else [])
         + Completed(live, calls[1..], device)
  }

  /** ProcessCalls: all ready calls leave the list and are recorded. */
  function ProcessCalls(s: State, device: Device): State
    requires Answered(s.live, s.calls, device)
  {
    RecordAll(s.(calls := StillPending(s.live, s.calls, device)), Completed(s.live, s.calls, device))
  }

  /** The position of the first call that waits for `event`, or the number of calls. */
  function FirstCall(live: map<CommandId, Command>, calls: seq<CommandId>, event: EventHandle): (at: nat)
    ensures at <= |calls|
    ensures at < |calls| ==> calls[at] in live && live[calls[at]].event == event
    ensures forall i :: 0 <= i < at ==> !(calls[i] in live && live[calls[i]].event == event)
  {
    if calls == [] then 0
    else if calls[0] in live && live[calls[0]].event == event then 0
    else 1 + FirstCall(live, calls[1..], event)
  }

  /** ProcessCall(event): the first call that waits for the event is taken as complete. */
  function ProcessCall(s: State, event: EventHandle, device: Device): State
    requires var at := FirstCall(s.live, s.calls, event); at < |s.calls| ==> Processable(s.live[s.calls[at]], device)
  {
    var at := FirstCall(s.live, s.calls, event);
    if at == |s.calls| then s
    else Record(s.(calls := s.calls[..at] + s.calls[at + 1..]), Complete(s.live[s.calls[at]], device))
  }

  // ---------------------------------------------------------------- command lists

  function NamesOf(live: map<CommandId, Command>, ids: seq<CommandId>): seq<string> {
    if ids == [] then []
    else [if ids[0] in live then live[ids[0]].name else ""] + NamesOf(live, ids[1..])
  }

  function AddCalls(s: State, ids: seq<CommandId>): State {
    s.(calls := s.calls + ids, added := s.added + NamesOf(s.live, ids))
  }

  /** A kernel is appended: the command goes to its list, and to the calls if the list is immediate. */
  function AppendCommand(s: State, id: CommandId, command: Command): State
    requires command.list in s.lists
  {
    var info := s.lists[command.list];
    var owned := s.(lists := s.lists[command.list := info.(commands := info.commands + [id])],
                    live := s.live[id := command]);
    if info.immediate then AddCalls(owned, [id]) else owned
  }

  /** Lists are executed one after the other; immediate ones are skipped. */
  function ExecuteLists(s: State, handles: seq<ListHandle>): State
    requires forall i :: 0 <= i < |handles| ==> handles[i] in s.lists
    decreases |handles|
  {
    if handles == [] then s
    else
      var info := s.lists[handles[0]];
      ExecuteLists(if info.immediate then s else AddCalls(s, info.commands), handles[1..])
  }

  /** The assertion loop of RemoveKernelCommands: no pending call points to a command of the list. */
  ghost predicate NoCallInto(s: State, handle: ListHandle)
    requires handle in s.lists
  {
    forall i, k :: 0 <= i < |s.calls| && 0 <= k < |s.lists[handle].commands| ==>
      s.calls[i] != s.lists[handle].commands[k]
  }

  function ToSet(ids: seq<CommandId>): set<CommandId> {
    set i | 0 <= i < |ids| :: ids[i]
  }

  /** RemoveKernelCommands: the list's commands are deleted. */
  function RemoveCommands(s: State, handle: ListHandle): State
    requires handle in s.lists
  {
    s.(live := s.live - ToSet(s.lists[handle].commands),
       lists := s.lists[handle := s.lists[handle].(commands := [])])
  }

  /** The device does not use a list that is reset or destroyed: its pending calls are complete. */
  ghost predicate ListIdle(s: State, handle: ListHandle, device: Device) {
    forall i :: 0 <= i < |s.calls| && s.calls[i] in s.live && s.live[s.calls[i]].list == handle ==>
      device(s.live[s.calls[i]].event).Ready?
  }

  ghost predicate Enabled(s: State, e: Event) {
    match e
    case CreateList(handle, _) => handle !in s.lists
    case Append(id, command) => command.list in s.lists && id !in s.live && command.name != "" && command.freq > 0
    case Execute(handles) => forall i :: 0 <= i < |handles| ==> handles[i] in s.lists
    case EventUse(event, device) =>
      var at := FirstCall(s.live, s.calls, event);
      at < |s.calls| ==> Processable(s.live[s.calls[at]], device)
    case Synchronize(device) => Answered(s.live, s.calls, device)
    case ResetList(handle, device) =>
      handle in s.lists && Answered(s.live, s.calls, device) && ListIdle(s, handle, device)
    case DestroyList(handle, device) =>
      handle in s.lists && Answered(s.live, s.calls, device) && ListIdle(s, handle, device)
  }

  lemma {:induction false} RecordKeepsLists(s: State, completions: seq<Completion>)
    requires InTime(completions)
    ensures var s' := RecordAll(s, completions);
            && s'.lists == s.lists && s'.live == s.live && s'.calls == s.calls && s'.added == s.added
            && s'.completed == s.completed + completions
    decreases |completions|
  {
    if completions != [] {
      RecordKeepsLists(Record(s, completions[0]), completions[1..]);
      assert s.completed + [completions[0]] + completions[1..] == s.completed + completions;
    }
  }

  function Step(s: State, e: Event): State
    requires Enabled(s, e)
  {
    match e
    case CreateList(handle, immediate) => s.(lists := s.lists[handle := ListInfo([], immediate)])
    case Append(id, command) => AppendCommand(s, id, command)
    case Execute(handles) => ExecuteLists(s, handles)
    case EventUse(event, device) => ProcessCall(s, event, device)
    case Synchronize(device) => ProcessCalls(s, device)
    case ResetList(handle, device) =>
      RecordKeepsLists(s.(calls := StillPending(s.live, s.calls, device)), Completed(s.live, s.calls, device));
      RemoveCommands(ProcessCalls(s, device), handle)
    case DestroyList(handle, device) =>
      RecordKeepsLists(s.(calls := StillPending(s.live, s.calls, device)), Completed(s.live, s.calls, device));
      var removed := RemoveCommands(ProcessCalls(s, device), handle);
      removed.(lists := removed.lists - {handle})
  }

  ghost predicate CanRun(s: State, events: seq<Event>)
    decreases |events|
  {
    events == [] || (Enabled(s, events[0]) && CanRun(Step(s, events[0]), events[1..]))
  }

  ghost function Run(s: State, events: seq<Event>): State
    requires CanRun(s, events)
    decreases |events|
  {
    if events == [] then s else Run(Step(s, events[0]), events[1..])
  }

  const Start := State(map[], map[], [], map[], [], [], [])
}
