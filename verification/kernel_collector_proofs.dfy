/**
  What the kernel collector keeps in every run: no pending call dangles, no call is
  lost or counted twice, and the statistics are those of the interval list.
 */
module KernelCollectorProofs {
  import opened KernelTimer
  import opened KernelCollector

  // ---------------------------------------------------------------- ownership

  ghost predicate NoDuplicates(ids: seq<CommandId>) {
    forall i, k :: 0 <= i < k < |ids| ==> ids[i] != ids[k]
  }

  /** A list owns the live commands it names, each once. */
  ghost predicate ListOwns(s: State, handle: ListHandle)
    requires handle in s.lists
  {
    var commands := s.lists[handle].commands;
    && NoDuplicates(commands)
    && (forall k :: 0 <= k < |commands| ==> commands[k] in s.live && s.live[commands[k]].list == handle)
  }

  /**
    Every live command is owned by exactly one live list (a list owns only commands
    that name it), and every pending call is a live command.
   */
  ghost predicate Owned(s: State) {
    && (forall h :: h in s.lists ==> ListOwns(s, h))
    && (forall id :: id in s.live ==> s.live[id].list in s.lists && id in s.lists[s.live[id].list].commands)
    && (forall i :: 0 <= i < |s.calls| ==> s.calls[i] in s.live)
  }

  lemma {:induction false} PendingAreCalls(live: map<CommandId, Command>, calls: seq<CommandId>, device: Device)
    requires Answered(live, calls, device)
    ensures forall id :: id in StillPending(live, calls, device)
              <==> id in calls && id in live && device(live[id].event).NotReady?
  {
    if calls != [] {
      PendingAreCalls(live, calls[1..], device);
      assert forall id :: id in calls <==> id == calls[0] || id in calls[1..];
    }
  }

  /** ProcessCalls leaves exactly the calls that are not ready and touches no command or list. */
  lemma ProcessLeavesPending(s: State, device: Device)
    requires Answered(s.live, s.calls, device)
    ensures var s' := ProcessCalls(s, device);
            && s'.lists == s.lists && s'.live == s.live && s'.added == s.added
            && s'.calls == StillPending(s.live, s.calls, device)
            && s'.completed == s.completed + Completed(s.live, s.calls, device)
            && (forall id :: id in s'.calls <==> id in s.calls && id in s.live && device(s.live[id].event).NotReady?)
  {
    PendingAreCalls(s.live, s.calls, device);
    RecordKeepsLists(s.(calls := StillPending(s.live, s.calls, device)), Completed(s.live, s.calls, device));
  }

  lemma ProcessKeepsOwned(s: State, device: Device)
    requires Owned(s) && Answered(s.live, s.calls, device)
    ensures Owned(ProcessCalls(s, device))
  {
    ProcessLeavesPending(s, device);
    var s' := ProcessCalls(s, device);
    assert forall h :: h in s.lists && ListOwns(s, h) ==> ListOwns(s', h);
    forall i | 0 <= i < |s'.calls| ensures s'.calls[i] in s'.live { assert s'.calls[i] in s'.calls; }
  }

  /** A command of a list is live and names the list; a live command that names it is one of its commands. */
  lemma CommandsOfList(s: State, handle: ListHandle, id: CommandId)
    requires Owned(s) && handle in s.lists
    ensures id in s.lists[handle].commands <==> id in s.live && s.live[id].list == handle
  {
    assert ListOwns(s, handle);
  }

  /**
    The collector calls ProcessCalls before it removes a list's commands. The
    assertion loop that follows passes if and only if every pending call of the list
    was ready by then.
   */
  lemma AssertionLoop(s: State, handle: ListHandle, device: Device)
    requires Owned(s) && Answered(s.live, s.calls, device) && handle in s.lists
    ensures ProcessCalls(s, device).lists == s.lists
    ensures NoCallInto(ProcessCalls(s, device), handle) <==> ListIdle(s, handle, device)
  {
    ProcessLeavesPending(s, device);
    NoCallIntoMeans(ProcessCalls(s, device), handle);
    forall id ensures id in s.lists[handle].commands <==> id in s.live && s.live[id].list == handle {
      CommandsOfList(s, handle, id);
    }
    ListIdleMeans(s, handle, device);
  }

  lemma NoCallIntoMeans(s: State, handle: ListHandle)
    requires handle in s.lists
    ensures NoCallInto(s, handle) <==> forall id :: id in s.calls ==> id !in s.lists[handle].commands
  {
    var commands := s.lists[handle].commands;
    if NoCallInto(s, handle) {
      forall id | id in s.calls ensures id !in commands {
        var i :| 0 <= i < |s.calls| && s.calls[i] == id;
        assert forall k :: 0 <= k < |commands| ==> s.calls[i] != commands[k];
      }
    } else {
      var i, k :| 0 <= i < |s.calls| && 0 <= k < |commands| && s.calls[i] == commands[k];
      assert s.calls[i] in s.calls && s.calls[i] in commands;
    }
  }

  lemma ListIdleMeans(s: State, handle: ListHandle, device: Device)
    ensures ListIdle(s, handle, device) <==>
              forall id :: id in s.calls && id in s.live && s.live[id].list == handle ==>
                device(s.live[id].event).Ready?
  {
    if ListIdle(s, handle, device) {
      forall id | id in s.calls && id in s.live && s.live[id].list == handle ensures device(s.live[id].event).Ready? {
        var i :| 0 <= i < |s.calls| && s.calls[i] == id;
      }
    }
  }

  /** Deleting a list's commands takes no command from another list and leaves no call dangling. */
  lemma RemoveKeepsOwned(s: State, handle: ListHandle)
    requires Owned(s) && handle in s.lists && NoCallInto(s, handle)
    ensures Owned(RemoveCommands(s, handle))
    ensures forall id :: id in RemoveCommands(s, handle).live <==> id in s.live && s.live[id].list != handle
  {
    var s', commands := RemoveCommands(s, handle), s.lists[handle].commands;
    forall id ensures id in s'.live <==> id in s.live && s.live[id].list != handle {
      CommandsOfList(s, handle, id);
      assert id in commands <==> id in ToSet(commands);
    }
    forall h | h in s'.lists ensures ListOwns(s', h) {
      assert ListOwns(s, h);
    }
    NoCallIntoMeans(s, handle);
    forall i | 0 <= i < |s'.calls| ensures s'.calls[i] in s'.live {
      CommandsOfList(s, handle, s.calls[i]);
    }
  }

  lemma AppendKeepsOwned(s: State, id: CommandId, command: Command)
    requires Owned(s) && command.list in s.lists && id !in s.live
    ensures Owned(AppendCommand(s, id, command))
  {
    var s' := AppendCommand(s, id, command);
    forall h | h in s'.lists ensures ListOwns(s', h) {
      assert ListOwns(s, h);
    }
    forall other | other in s'.live
      ensures s'.live[other].list in s'.lists && other in s'.lists[s'.live[other].list].commands
    {
      if other == id { assert s'.lists[command.list].commands[|s.lists[command.list].commands|] == id; }
    }
  }

  lemma {:induction false} ExecuteKeepsOwned(s: State, handles: seq<ListHandle>)
    requires Owned(s) && Enabled(s, Execute(handles))
    ensures Owned(ExecuteLists(s, handles))
    decreases |handles|
  {
    if handles != [] {
      var info := s.lists[handles[0]];
      assert ListOwns(s, handles[0]);
      var next := if info.immediate then s else AddCalls(s, info.commands);
      assert forall h :: h in s.lists && ListOwns(s, h) ==> ListOwns(next, h);
      ExecuteKeepsOwned(next, handles[1..]);
    }
  }

  /** Only the calls changed, and none was added. */
  lemma FewerCallsOwned(s: State, s': State)
    requires Owned(s) && s'.lists == s.lists && s'.live == s.live
    requires forall i :: 0 <= i < |s'.calls| ==> s'.calls[i] in s.calls
    ensures Owned(s')
  {
    assert forall h :: h in s.lists && ListOwns(s, h) ==> ListOwns(s', h);
  }

  lemma CreateKeepsOwned(s: State, handle: ListHandle, immediate: bool)
    requires Owned(s) && handle !in s.lists
    ensures Owned(Step(s, CreateList(handle, immediate)))
  {
    var s' := Step(s, CreateList(handle, immediate));
    assert forall h :: h in s.lists && ListOwns(s, h) ==> ListOwns(s', h);
    assert ListOwns(s', handle);
  }

  /** A list that owns nothing is dropped. */
  lemma DropKeepsOwned(s: State, handle: ListHandle)
    requires Owned(s) && handle in s.lists && s.lists[handle].commands == []
    ensures Owned(s.(lists := s.lists - {handle}))
  {
    var s' := s.(lists := s.lists - {handle});
    assert forall h :: h in s'.lists && ListOwns(s, h) ==> ListOwns(s', h);
  }

  lemma ResetKeepsOwned(s: State, handle: ListHandle, device: Device)
    requires Owned(s) && Enabled(s, ResetList(handle, device))
    ensures ProcessCalls(s, device).lists == s.lists
    ensures Owned(RemoveCommands(ProcessCalls(s, device), handle))
  {
    ProcessKeepsOwned(s, device);
    AssertionLoop(s, handle, device);
    RemoveKeepsOwned(ProcessCalls(s, device), handle);
  }

  lemma StepKeepsOwned(s: State, e: Event)
    requires Owned(s) && Enabled(s, e)
    ensures Owned(Step(s, e))
  {
    match e
    case CreateList(handle, immediate) => CreateKeepsOwned(s, handle, immediate);
    case Append(id, command) => AppendKeepsOwned(s, id, command);
    case Execute(handles) => ExecuteKeepsOwned(s, handles);
    case EventUse(event, device) => FewerCallsOwned(s, ProcessCall(s, event, device));
    case Synchronize(device) => ProcessKeepsOwned(s, device);
    case ResetList(handle, device) => ResetKeepsOwned(s, handle, device);
    case DestroyList(handle, device) =>
      ResetKeepsOwned(s, handle, device);
      DropKeepsOwned(RemoveCommands(ProcessCalls(s, device), handle), handle);
  }

  /** No run leaves a call dangling or a command with no owner or two. */
  lemma {:induction false} RunKeepsOwned(s: State, events: seq<Event>)
    requires Owned(s) && CanRun(s, events)
    ensures Owned(Run(s, events))
    decreases |events|
  {
    if events != [] {
      StepKeepsOwned(s, events[0]);
      RunKeepsOwned(Step(s, events[0]), events[1..]);
    }
  }

  /** In every reachable state a pending call is a live command, and exactly one list owns it. */
  lemma CallsHaveOneOwner(events: seq<Event>, i: nat)
    requires CanRun(Start, events) && i < |Run(Start, events).calls|
    ensures var s := Run(Start, events);
            && s.calls[i] in s.live
            && var owner := s.live[s.calls[i]].list;
               && owner in s.lists && s.calls[i] in s.lists[owner].commands
               && forall h :: h in s.lists && h != owner ==> s.calls[i] !in s.lists[h].commands
  {
    RunKeepsOwned(Start, events);
    var s := Run(Start, events);
    forall h | h in s.lists ensures s.calls[i] in s.lists[h].commands <==> s.live[s.calls[i]].list == h {
      CommandsOfList(s, h, s.calls[i]);
    }
  }

  /**
    A ready call passes the source's assertions whatever its start and duration, if
    the device reports them on a 32-bit timer of at most 1 GHz.
   */
  lemma ReadyIsProcessable(command: Command, device: Device, start: nat, ticks: nat)
    requires command.name != "" && 0 < command.freq <= NSEC_IN_SEC
    requires start < TWO_TO_THE_32 && 1 <= ticks <= TWO_TO_THE_32
    requires device(command.event) == Ready(Observed(start, ticks))
    ensures Processable(command, device)
  {
    PositiveIntervals(command.freq);
  }

  // ---------------------------------------------------------------- conservation of calls

  function CompletedNames(completed: seq<Completion>): seq<string> {
    if completed == [] then [] else [completed[0].interval.name] + CompletedNames(completed[1..])
  }

  /** For each kernel name, the calls added are the completed ones and the pending ones. */
  ghost predicate Balanced(s: State) {
    multiset(s.added) == multiset(CompletedNames(s.completed)) + multiset(NamesOf(s.live, s.calls))
  }

  lemma {:induction false} NamesConcat(live: map<CommandId, Command>, a: seq<CommandId>, b: seq<CommandId>)
    ensures NamesOf(live, a + b) == NamesOf(live, a) + NamesOf(live, b)
  {
    if a == [] {
      assert a + b == b;
    } else {
      var first := if a[0] in live then live[a[0]].name else "";
      assert (a + b)[0] == a[0] && (a + b)[1..] == a[1..] + b;
      NamesConcat(live, a[1..], b);
      Prepend([first], NamesOf(live, a[1..]), NamesOf(live, b));
    }
  }

  lemma Prepend<T>(first: seq<T>, a: seq<T>, b: seq<T>)
    ensures first + (a + b) == first + a + b
  {
  }

  lemma {:induction false} CompletedConcat(a: seq<Completion>, b: seq<Completion>)
    ensures CompletedNames(a + b) == CompletedNames(a) + CompletedNames(b)
  {
    if a == [] {
      assert a + b == b;
    } else {
      CompletedConcat(a[1..], b);
      assert (a + b)[1..] == a[1..] + b;
    }
  }

  /** Names do not change when other commands come and go. */
  lemma {:induction false} NamesFrame(live: map<CommandId, Command>, live': map<CommandId, Command>,
                                      ids: seq<CommandId>)
    requires forall i :: 0 <= i < |ids| ==> ids[i] in live && ids[i] in live' && live[ids[i]] == live'[ids[i]]
    ensures NamesOf(live, ids) == NamesOf(live', ids)
  {
    if ids != [] {
      NamesFrame(live, live', ids[1..]);
    }
  }

  lemma OneMore<T>(x: T, all: seq<T>, done: seq<T>, pending: seq<T>)
    requires multiset(all) == multiset(done) + multiset(pending)
    ensures multiset([x] + all) == multiset([x] + done) + multiset(pending)
    ensures multiset([x] + all) == multiset(done) + multiset([x] + pending)
  {
    assert multiset([x] + all) == multiset{x} + multiset(all);
  }

  /** Processing splits the calls, by name, into those completed and those still pending. */
  lemma {:induction false} ProcessSplits(live: map<CommandId, Command>, calls: seq<CommandId>, device: Device)
    requires Answered(live, calls, device)
    ensures multiset(NamesOf(live, calls))
            == multiset(CompletedNames(Completed(live, calls, device)))
               + multiset(NamesOf(live, StillPending(live, calls, device)))
  {
    if calls != [] {
      ProcessSplits(live, calls[1..], device);
      var done, pending := Completed(live, calls[1..], device), StillPending(live, calls[1..], device);
      OneMore(live[calls[0]].name, NamesOf(live, calls[1..]), CompletedNames(done), NamesOf(live, pending));
      if device(live[calls[0]].event).Ready? {
        var c := Complete(live[calls[0]], device);
        assert ([c] + done)[1..] == done;
        assert StillPending(live, calls, device) == pending;
      } else {
        assert Completed(live, calls, device) == done;
        assert ([calls[0]] + pending)[1..] == pending;
      }
    }
  }

  lemma ProcessBalances(s: State, device: Device)
    requires Balanced(s) && Answered(s.live, s.calls, device)
    ensures Balanced(ProcessCalls(s, device))
  {
    ProcessLeavesPending(s, device);
    var done := Completed(s.live, s.calls, device);
    CompletedConcat(s.completed, done);
    ProcessSplits(s.live, s.calls, device);
    assert multiset(CompletedNames(s.completed) + CompletedNames(done))
        == multiset(CompletedNames(s.completed)) + multiset(CompletedNames(done));
  }

  lemma AddBalances(s: State, ids: seq<CommandId>)
    requires Balanced(s)
    ensures Balanced(AddCalls(s, ids))
  {
    NamesConcat(s.live, s.calls, ids);
    var more := NamesOf(s.live, ids);
    assert multiset(s.added + more) == multiset(s.added) + multiset(more);
    assert multiset(NamesOf(s.live, s.calls) + more) == multiset(NamesOf(s.live, s.calls)) + multiset(more);
  }

  lemma {:induction false} ExecuteBalances(s: State, handles: seq<ListHandle>)
    requires Balanced(s) && Enabled(s, Execute(handles))
    ensures Balanced(ExecuteLists(s, handles))
    decreases |handles|
  {
    if handles != [] {
      var info := s.lists[handles[0]];
      AddBalances(s, info.commands);
      ExecuteBalances(if info.immediate then s else AddCalls(s, info.commands), handles[1..]);
    }
  }

  lemma NamesWithout(live: map<CommandId, Command>, calls: seq<CommandId>, at: nat)
    requires at < |calls| && calls[at] in live
    ensures multiset(NamesOf(live, calls))
            == multiset(NamesOf(live, calls[..at] + calls[at + 1..])) + multiset{live[calls[at]].name}
  {
    var before, after := calls[..at], [calls[at]] + calls[at + 1..];
    assert calls == before + after && after[1..] == calls[at + 1..];
    NamesConcat(live, before, after);
    NamesConcat(live, before, calls[at + 1..]);
  }

  lemma CompletedOneMore(completed: seq<Completion>, c: Completion)
    ensures multiset(CompletedNames(completed + [c])) == multiset(CompletedNames(completed)) + multiset{c.interval.name}
  {
    CompletedConcat(completed, [c]);
    assert CompletedNames([c]) == [c.interval.name];
  }

  lemma Moved<T>(all: multiset<T>, done: multiset<T>, pending: multiset<T>, done': multiset<T>, pending': multiset<T>,
                 x: T)
    requires all == done + pending && done' == done + multiset{x} && pending == pending' + multiset{x}
    ensures all == done' + pending'
  {
  }

  /** The call that is processed leaves the list and is completed. */
  lemma CallMoves(s: State, event: EventHandle, device: Device) returns (c: Completion, calls: seq<CommandId>)
    requires Enabled(s, EventUse(event, device)) && FirstCall(s.live, s.calls, event) < |s.calls|
    ensures var s' := ProcessCall(s, event, device);
            s'.added == s.added && s'.live == s.live && s'.completed == s.completed + [c] && s'.calls == calls
    ensures multiset(NamesOf(s.live, s.calls)) == multiset(NamesOf(s.live, calls)) + multiset{c.interval.name}
  {
    var at := FirstCall(s.live, s.calls, event);
    c, calls := Complete(s.live[s.calls[at]], device), s.calls[..at] + s.calls[at + 1..];
    NamesWithout(s.live, s.calls, at);
  }

  lemma CallBalances(s: State, event: EventHandle, device: Device)
    requires Balanced(s) && Enabled(s, EventUse(event, device))
    ensures Balanced(ProcessCall(s, event, device))
  {
    if FirstCall(s.live, s.calls, event) < |s.calls| {
      var c, calls := CallMoves(s, event, device);
      CompletedOneMore(s.completed, c);
      Moved(multiset(s.added), multiset(CompletedNames(s.completed)), multiset(NamesOf(s.live, s.calls)),
            multiset(CompletedNames(s.completed + [c])), multiset(NamesOf(s.live, calls)), c.interval.name);
    }
  }

  lemma RemoveBalances(s: State, handle: ListHandle)
    requires Owned(s) && Balanced(s) && handle in s.lists && NoCallInto(s, handle)
    ensures Balanced(RemoveCommands(s, handle))
  {
    RemoveKeepsOwned(s, handle);
    NamesFrame(s.live, RemoveCommands(s, handle).live, s.calls);
  }

  lemma ResetBalances(s: State, handle: ListHandle, device: Device)
    requires Owned(s) && Balanced(s) && Enabled(s, ResetList(handle, device))
    ensures ProcessCalls(s, device).lists == s.lists
    ensures Balanced(RemoveCommands(ProcessCalls(s, device), handle))
  {
    ProcessKeepsOwned(s, device);
    ProcessBalances(s, device);
    AssertionLoop(s, handle, device);
    RemoveBalances(ProcessCalls(s, device), handle);
  }

  lemma AppendBalances(s: State, id: CommandId, command: Command)
    requires Owned(s) && Balanced(s) && command.list in s.lists && id !in s.live
    ensures Balanced(AppendCommand(s, id, command))
  {
    var info := s.lists[command.list];
    var owned := s.(lists := s.lists[command.list := info.(commands := info.commands + [id])],
                    live := s.live[id := command]);
    NamesFrame(s.live, owned.live, s.calls);
    AddBalances(owned, [id]);
  }

  lemma StepBalances(s: State, e: Event)
    requires Owned(s) && Balanced(s) && Enabled(s, e)
    ensures Balanced(Step(s, e))
  {
    match e
    case CreateList(handle, immediate) =>
    case Append(id, command) => AppendBalances(s, id, command);
    case Execute(handles) => ExecuteBalances(s, handles);
    case EventUse(event, device) => CallBalances(s, event, device);
    case Synchronize(device) => ProcessBalances(s, device);
    case ResetList(handle, device) => ResetBalances(s, handle, device);
    case DestroyList(handle, device) => ResetBalances(s, handle, device);
  }

  // ---------------------------------------------------------------- statistics

  /** The durations of the completed calls of one kernel, in order. */
  function Durations(completed: seq<Completion>, name: string): seq<int> {
    if completed == [] then []
    else (if completed[0].interval.name == name then [completed[0].Time()] else []) + Durations(completed[1..], name)
  }

  function Widths(completed: seq<Completion>, name: string): seq<int> {
    if completed == [] then []
    else (if completed[0].interval.name == name then [completed[0].simdWidth] else []) + Widths(completed[1..], name)
  }

  function Sum(xs: seq<int>): int {
    if xs == [] then 0 else xs[0] + Sum(xs[1..])
  }

  predicate IsMin(m: int, xs: seq<int>) {
    m in xs && forall i :: 0 <= i < |xs| ==> m <= xs[i]
  }

  predicate IsMax(m: int, xs: seq<int>) {
    m in xs && forall i :: 0 <= i < |xs| ==> xs[i] <= m
  }

  function Intervals(completed: seq<Completion>): seq<Interval> {
    if completed == [] then [] else [completed[0].interval] + Intervals(completed[1..])
  }

  /** A kernel's entry in the statistics is the group-by of its completed calls. */
  ghost predicate Agrees(infos: map<string, KernelInfo>, completed: seq<Completion>, name: string) {
    var times := Durations(completed, name);
    if name !in infos then times == []
    else
      var info := infos[name];
      && info.callCount == |times| > 0
      && info.totalTime == Sum(times)
      && IsMin(info.minTime, times)
      && IsMax(info.maxTime, times)
      && IsMax(info.simdWidth, Widths(completed, name))
  }

  lemma {:induction false} DurationsAppend(completed: seq<Completion>, c: Completion, name: string)
    ensures Durations(completed + [c], name)
            == Durations(completed, name) + (if c.interval.name == name then [c.Time()] else [])
  {
    if completed == [] {
      assert [c][1..] == [];
    } else {
      DurationsAppend(completed[1..], c, name);
      assert (completed + [c])[1..] == completed[1..] + [c];
    }
  }

  lemma {:induction false} WidthsAppend(completed: seq<Completion>, c: Completion, name: string)
    ensures Widths(completed + [c], name)
            == Widths(completed, name) + (if c.interval.name == name then [c.simdWidth] else [])
  {
    if completed == [] {
      assert [c][1..] == [];
    } else {
      WidthsAppend(completed[1..], c, name);
      assert (completed + [c])[1..] == completed[1..] + [c];
    }
  }

  lemma {:induction false} SumAppend(xs: seq<int>, x: int)
    ensures Sum(xs + [x]) == Sum(xs) + x
  {
    if xs == [] {
      assert [x][1..] == [];
    } else {
      SumAppend(xs[1..], x);
      assert (xs + [x])[1..] == xs[1..] + [x];
    }
  }

  lemma {:induction false} IntervalsAppend(completed: seq<Completion>, c: Completion)
    ensures Intervals(completed + [c]) == Intervals(completed) + [c.interval]
  {
    if completed == [] {
      assert [c][1..] == [];
    } else {
      IntervalsAppend(completed[1..], c);
      assert (completed + [c])[1..] == completed[1..] + [c];
    }
  }

  lemma MinAppend(m: int, xs: seq<int>, x: int)
    requires IsMin(m, xs)
    ensures IsMin(if x < m then x else m, xs + [x])
  {
    assert (xs + [x])[|xs|] == x;
    var i :| 0 <= i < |xs| && xs[i] == m;
    assert (xs + [x])[i] == m;
  }

  lemma MaxAppend(m: int, xs: seq<int>, x: int)
    requires IsMax(m, xs)
    ensures IsMax(if x > m then x else m, xs + [x])
  {
    assert (xs + [x])[|xs|] == x;
    var i :| 0 <= i < |xs| && xs[i] == m;
    assert (xs + [x])[i] == m;
  }

  /** Recording one call keeps every kernel's statistics in line with the log. */
  lemma RecordAgrees(infos: map<string, KernelInfo>, completed: seq<Completion>, c: Completion, name: string)
    requires Agrees(infos, completed, name) && c.Time() >= 0
    ensures Agrees(AddKernelInfo(infos, c.interval.name, c.Time(), c.simdWidth), completed + [c], name)
  {
    var times, widths := Durations(completed, name), Widths(completed, name);
    DurationsAppend(completed, c, name);
    WidthsAppend(completed, c, name);
    if c.interval.name != name {
      assert Durations(completed + [c], name) == times && Widths(completed + [c], name) == widths;
    } else if name in infos {
      SumAppend(times, c.Time());
      MinAppend(infos[name].minTime, times, c.Time());
      MaxAppend(infos[name].maxTime, times, c.Time());
      MaxAppend(infos[name].simdWidth, widths, c.simdWidth);
    } else {
      SameLength(completed, name);
      assert times == [] && widths == [];
      SumAppend(times, c.Time());
      assert (times + [c.Time()])[0] == c.Time() && (widths + [c.simdWidth])[0] == c.simdWidth;
    }
  }

  lemma {:induction false} SameLength(completed: seq<Completion>, name: string)
    ensures |Durations(completed, name)| == |Widths(completed, name)|
  {
    if completed != [] {
      SameLength(completed[1..], name);
    }
  }

  /** The statistics and the interval list both tell what completed. */
  ghost predicate Truthful(s: State, name: string) {
    Agrees(s.infos, s.completed, name) && s.intervals == Intervals(s.completed)
  }

  lemma {:induction false} RecordAllTruthful(s: State, completions: seq<Completion>, name: string)
    requires Truthful(s, name) && InTime(completions)
    ensures Truthful(RecordAll(s, completions), name)
    decreases |completions|
  {
    if completions != [] {
      RecordAgrees(s.infos, s.completed, completions[0], name);
      IntervalsAppend(s.completed, completions[0]);
      RecordAllTruthful(Record(s, completions[0]), completions[1..], name);
    }
  }

  lemma {:induction false} ExecuteKeepsLogs(s: State, handles: seq<ListHandle>)
    requires Enabled(s, Execute(handles))
    ensures var s' := ExecuteLists(s, handles);
            s'.infos == s.infos && s'.completed == s.completed && s'.intervals == s.intervals
    decreases |handles|
  {
    if handles != [] {
      var info := s.lists[handles[0]];
      ExecuteKeepsLogs(if info.immediate then s else AddCalls(s, info.commands), handles[1..]);
    }
  }

  lemma StepTruthful(s: State, e: Event, name: string)
    requires Truthful(s, name) && Enabled(s, e)
    ensures Truthful(Step(s, e), name)
  {
    match e
    case Execute(handles) => ExecuteKeepsLogs(s, handles);
    case EventUse(event, device) =>
      var at := FirstCall(s.live, s.calls, event);
      if at < |s.calls| {
        var c := Complete(s.live[s.calls[at]], device);
        RecordAgrees(s.infos, s.completed, c, name);
        IntervalsAppend(s.completed, c);
      }
    case Synchronize(device) =>
      RecordAllTruthful(s.(calls := StillPending(s.live, s.calls, device)), Completed(s.live, s.calls, device), name);
    case ResetList(handle, device) =>
      RecordAllTruthful(s.(calls := StillPending(s.live, s.calls, device)), Completed(s.live, s.calls, device), name);
    case DestroyList(handle, device) =>
      RecordAllTruthful(s.(calls := StillPending(s.live, s.calls, device)), Completed(s.live, s.calls, device), name);
    case _ =>
  }

  /**
    In every run from an empty collector: no call dangles, for each kernel the calls
    added are the completed and the pending ones, and count, total, minimum, maximum
    and SIMD width of each kernel are those of its completed calls, which are the
    intervals of the interval list.
   */
  lemma {:induction false} RunIsTruthful(s: State, events: seq<Event>, name: string)
    requires Owned(s) && Balanced(s) && Truthful(s, name) && CanRun(s, events)
    ensures var s' := Run(s, events); Owned(s') && Balanced(s') && Truthful(s', name)
    decreases |events|
  {
    if events != [] {
      StepKeepsOwned(s, events[0]);
      StepBalances(s, events[0]);
      StepTruthful(s, events[0], name);
      RunIsTruthful(Step(s, events[0]), events[1..], name);
    }
  }

  lemma StartIsTruthful(name: string)
    ensures Owned(Start) && Balanced(Start) && Truthful(Start, name)
  {
  }

  /** The average a reader computes lies between the minimum and the maximum. */
  lemma {:induction false} SumBetween(xs: seq<int>, low: int, high: int)
    requires forall i :: 0 <= i < |xs| ==> low <= xs[i] <= high
    ensures |xs| * low <= Sum(xs) <= |xs| * high
  {
    if xs != [] {
      SumBetween(xs[1..], low, high);
    }
  }

  /** Calls that are added per kernel are counted or pending, in every run. */
  lemma CallsAreCounted(events: seq<Event>, name: string)
    requires CanRun(Start, events)
    ensures var s := Run(Start, events);
            var counted := if name in s.infos then s.infos[name].callCount else 0;
            && multiset(s.added)[name] == counted + multiset(NamesOf(s.live, s.calls))[name]
            && (name in s.infos ==>
                  counted * s.infos[name].minTime <= s.infos[name].totalTime <= counted * s.infos[name].maxTime)
  {
    StartIsTruthful(name);
    RunIsTruthful(Start, events, name);
    var s := Run(Start, events);
    CountedOnce(s.completed, name);
    if name in s.infos {
      SumBetween(Durations(s.completed, name), s.infos[name].minTime, s.infos[name].maxTime);
    }
  }

  lemma {:induction false} CountedOnce(completed: seq<Completion>, name: string)
    ensures multiset(CompletedNames(completed))[name] == |Durations(completed, name)|
  {
    if completed != [] {
      CountedOnce(completed[1..], name);
    }
  }
}
