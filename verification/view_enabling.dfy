/**
  Enabling and disabling views: the kinds each thread has enabled, the state of each
  view for all threads, and the reference count that starts and stops the Level Zero
  tracer.

  Threads may exit, which drops their marks, and the collector may take the tracing
  layer off when something abnormal happens. A failed assertion of the source ends
  the process: `Asserts` says what is asserted, and runs go on where it holds.
 */
module ViewEnabling {
  import opened ViewRecordInfo

  type ThreadId = nat
  type Kind = nat       // pti_view_kind

  const DEVICE_GPU_KERNEL: Kind := 1
  const DEVICE_CPU_KERNEL: Kind := 2
  const DRIVER_API: Kind := 3
  const RESERVED: Kind := 4
  const COLLECTION_OVERHEAD: Kind := 5
  const RUNTIME_API: Kind := 6
  const EXTERNAL_CORRELATION: Kind := 7
  const DEVICE_GPU_MEM_COPY: Kind := 8
  const DEVICE_GPU_MEM_FILL: Kind := 9
  const DEVICE_GPU_MEM_COPY_P2P: Kind := 10
  const DEVICE_SYNCHRONIZATION: Kind := 11
  const VIEW_KIND_COUNT: nat := 13

  const LEVEL_ZERO_KINDS: set<Kind> :=
    {DEVICE_GPU_KERNEL, DEVICE_GPU_MEM_FILL, DEVICE_GPU_MEM_COPY, DRIVER_API, DEVICE_SYNCHRONIZATION,
     DEVICE_GPU_MEM_COPY_P2P}

  datatype Answer = Success | NoCallbacksSet | NotImplemented | BadArgument | ProfilingNotSupported

  /** How the library was built and what it found when it was created. */
  datatype Config = Config(
    collector: bool,       // a Level Zero collector could be created
    traceSycl: bool,       // compiled with PTI_TRACE_SYCL
    disabledMode: bool)    // the tracing layer is off until a view needs it

  /** The Level Zero side: the mode changer, the tracing layer and the tracer's callbacks. */
  datatype Tracer = Tracer(
    refCount: nat,                   // of ZeStartStopModeChanger
    globalRefCount: int,             // how often the tracing layer is on
    callbackOn: bool,                // cb_enabled_.fcallback
    // History: calls of EnableTracing and DisableTracing of the collector.
    starts: nat,
    stops: nat)

  datatype State = State(
    callbacksSet: bool,
    marked: set<(ThreadId, Kind)>,         // the pairs that map_view_kind_enabled of the thread marks enabled
    views: set<Kind>,                      // list_of_api_view_state
    collectionEnabled: bool,
    tracer: Tracer,
    abnormal: bool,                        // collection_state_
    refused: bool,                         // an error is in view_state_.state_
    orphaned: multiset<(ThreadId, Kind)>)  // history: marks that went with their threads

  datatype Event =
    | SetCallbacks
    | Enable(thread: ThreadId, kind: Kind)
    | Disable(thread: ThreadId, kind: Kind)
    | Exit(thread: ThreadId)   // of a thread, whose map_view_kind_enabled is thread-local
    | ReportError              // the collector writes an error to the state of the library
    | AbnormalStop             // AbnormalStopTracing

  predicate IsPtiViewKindEnum(kind: Kind) {
    0 < kind < VIEW_KIND_COUNT
  }

  predicate IsValidViewKind(kind: Kind) {
    kind != 0 && kind != RESERVED && kind < VIEW_KIND_COUNT
  }

  /** SetApiViewState only knows kinds that have records. */
  predicate HasRecords(kind: Kind) {
    GetViewSize(VIEW_SIZE_TABLE, kind).Some?
  }

  function StartTracing(c: Config, t: Tracer): Tracer {
    if t.refCount > 0 then t.(refCount := t.refCount + 1, starts := t.starts + 1)
    else Tracer(1, if c.disabledMode then t.globalRefCount + 1 else t.globalRefCount, true, t.starts + 1, t.stops)
  }

  function StopTracing(c: Config, t: Tracer): Tracer {
    if t.refCount > 1 then t.(refCount := t.refCount - 1, stops := t.stops + 1)
    else Tracer(0, if c.disabledMode then t.globalRefCount - 1 else t.globalRefCount, false, t.starts, t.stops + 1)
  }

  function EnableAnswer(c: Config, s: State, kind: Kind): Answer {
    if !s.callbacksSet then NoCallbacksSet
    else if kind == DEVICE_CPU_KERNEL then NotImplemented
    else if !IsValidViewKind(kind) then BadArgument
    else if kind == RUNTIME_API && !c.traceSycl then NotImplemented
    else if !c.collector && !s.collectionEnabled && !(kind == RUNTIME_API && kind !in s.views) then NotImplemented
    else Success
  }

  function DisableAnswer(kind: Kind): Answer {
    if kind == 0 then BadArgument else Success
  }

  function WithView(views: set<Kind>, kind: Kind, enabled: bool): set<Kind> {
    if !HasRecords(kind) || kind == EXTERNAL_CORRELATION then views
    else if enabled then views + {kind}
    else views - {kind}
  }

  /** The calls that start and stop the collector: the first enable of a kind by a thread, and its disable. */
  predicate Starts(c: Config, s: State, thread: ThreadId, kind: Kind) {
    c.collector && kind in LEVEL_ZERO_KINDS && (thread, kind) !in s.marked
  }

  predicate Stops(c: Config, s: State, thread: ThreadId, kind: Kind) {
    c.collector && kind in LEVEL_ZERO_KINDS && (thread, kind) in s.marked
  }

  /** The Level Zero part of an enable and of a disable. */
  function Started(c: Config, s: State, thread: ThreadId, kind: Kind): State {
    if !Starts(c, s, thread, kind) then s
    else s.(marked := s.marked + {(thread, kind)}, tracer := StartTracing(c, s.tracer))
  }

  function Stopped(c: Config, s: State, thread: ThreadId, kind: Kind): State {
    if !Stops(c, s, thread, kind) then s
    else s.(marked := s.marked - {(thread, kind)}, tracer := StopTracing(c, s.tracer))
  }

  function EnableView(c: Config, s: State, thread: ThreadId, kind: Kind): State {
    if EnableAnswer(c, s, kind) != Success then s
    else Started(c, s, thread, kind).(collectionEnabled := true, views := WithView(s.views, kind, true))
  }

  function DisableView(c: Config, s: State, thread: ThreadId, kind: Kind): State {
    if DisableAnswer(kind) != Success then s
    else
      var views := WithView(s.views, kind, false);
      Stopped(c, s, thread, kind).(collectionEnabled := views != {} && s.collectionEnabled, views := views)
  }

  /** The entry points: an error of the library refuses the call, and so does a kind that is none. */
  predicate Refuses(s: State, kind: Kind) {
    s.refused || !IsPtiViewKindEnum(kind)
  }

  function RefusalAnswer(s: State): Answer {
    if s.refused then ProfilingNotSupported else BadArgument
  }

  function MarksOf(s: State, thread: ThreadId): set<(ThreadId, Kind)> {
    set pair | pair in s.marked && pair.0 == thread
  }

  /** The thread's marks vanish, and nobody counts down for them. */
  function ExitThread(s: State, thread: ThreadId): State {
    s.(marked := s.marked - MarksOf(s, thread), orphaned := s.orphaned + multiset(MarksOf(s, thread)))
  }

  function AbnormalStopTracing(s: State): State {
    s.(tracer := s.tracer.(globalRefCount := s.tracer.globalRefCount - 1), abnormal := true)
  }

  function Step(c: Config, s: State, e: Event): State {
    match e
    case SetCallbacks => s.(callbacksSet := true)
    case Enable(thread, kind) => if Refuses(s, kind) then s else EnableView(c, s, thread, kind)
    case Disable(thread, kind) => if Refuses(s, kind) then s else DisableView(c, s, thread, kind)
    case Exit(thread) => ExitThread(s, thread)
    case ReportError => s.(refused := true)
    case AbnormalStop => AbnormalStopTracing(s)
  }

  /** The source's assertion before it counts the tracing layer up, and after it counts it down. */
  predicate StartAsserts(c: Config, s: State, thread: ThreadId, kind: Kind) {
    EnableAnswer(c, s, kind) == Success && Starts(c, s, thread, kind) && s.tracer.refCount == 0 && c.disabledMode ==>
      s.tracer.globalRefCount == 0
  }

  predicate StopAsserts(c: Config, s: State, thread: ThreadId, kind: Kind) {
    Stops(c, s, thread, kind) && s.tracer.refCount <= 1 && c.disabledMode ==> s.tracer.globalRefCount - 1 == 0
  }

  predicate Asserts(c: Config, s: State, e: Event) {
    match e
    case Enable(thread, kind) => Refuses(s, kind) || StartAsserts(c, s, thread, kind)
    case Disable(thread, kind) => Refuses(s, kind) || StopAsserts(c, s, thread, kind)
    case AbnormalStop => s.tracer.globalRefCount - 1 == 0
    case _ => true
  }

  function Start(c: Config): State {
    State(false, {}, {}, false, Tracer(0, if c.disabledMode then 0 else 1, false, 0, 0), false, false, multiset{})
  }

  /** The state after the events, oldest first. */
  function Run(c: Config, events: seq<Event>): State
    decreases |events|
  {
    if events == [] then Start(c) else Step(c, Run(c, events[..|events| - 1]), events[|events| - 1])
  }

  /** No assertion fails. */
  predicate CanRun(c: Config, events: seq<Event>)
    decreases |events|
  {
    events != [] ==>
      var before, e := events[..|events| - 1], events[|events| - 1];
      CanRun(c, before) && Asserts(c, Run(c, before), e)
  }

  // ---------------------------------------------------------------- balance

  /**
    Starts minus stops is the number of marked and of orphaned pairs, the tracer's
    callbacks are on while there is one, and the tracing layer is on at most once.
   */
  ghost predicate Balanced(c: Config, s: State) {
    && s.tracer.refCount == |s.marked| + |s.orphaned|
    && s.tracer.starts - s.tracer.stops == |s.marked| + |s.orphaned|
    && (s.tracer.callbackOn <==> s.tracer.refCount > 0)
    && (s.abnormal && c.disabledMode ==> s.tracer.refCount > 0)
    && s.tracer.globalRefCount == (if s.abnormal || (c.disabledMode && s.tracer.refCount == 0) then 0 else 1)
  }

  lemma StartBalances(c: Config, s: State, pair: (ThreadId, Kind))
    requires Balanced(c, s) && pair !in s.marked
    ensures Balanced(c, s.(marked := s.marked + {pair}, tracer := StartTracing(c, s.tracer)))
    // The source's assertion before it counts the tracing layer up.
    ensures s.tracer.refCount == 0 && c.disabledMode ==> s.tracer.globalRefCount == 0
  {
  }

  /** The source's assertion after it counts the tracing layer down fails exactly after an abnormal stop. */
  lemma StopBalances(c: Config, s: State, pair: (ThreadId, Kind))
    requires Balanced(c, s) && pair in s.marked
    ensures var stopped := StopTracing(c, s.tracer);
            if s.tracer.refCount <= 1 && c.disabledMode && s.abnormal then stopped.globalRefCount < 0
            else
              && Balanced(c, s.(marked := s.marked - {pair}, tracer := stopped))
              && (s.tracer.refCount <= 1 && c.disabledMode ==> stopped.globalRefCount == 0)
  {
    WithAndWithout(s.marked, pair);
  }

  lemma WithAndWithout<T>(xs: set<T>, x: T)
    requires x in xs
    ensures |xs| == |xs - {x}| + 1
  {
  }

  lemma EnableBalances(c: Config, s: State, thread: ThreadId, kind: Kind)
    requires Balanced(c, s)
    ensures Balanced(c, EnableView(c, s, thread, kind)) && StartAsserts(c, s, thread, kind)
  {
    if (thread, kind) !in s.marked {
      StartBalances(c, s, (thread, kind));
    }
  }

  lemma DisableBalances(c: Config, s: State, thread: ThreadId, kind: Kind)
    requires Balanced(c, s) && StopAsserts(c, s, thread, kind)
    ensures Balanced(c, DisableView(c, s, thread, kind))
  {
    if (thread, kind) in s.marked {
      StopBalances(c, s, (thread, kind));
    }
  }

  lemma ExitBalances(c: Config, s: State, thread: ThreadId)
    requires Balanced(c, s)
    ensures Balanced(c, ExitThread(s, thread))
  {
    var marks := MarksOf(s, thread);
    assert s.marked == (s.marked - marks) + marks;
    assert |multiset(marks)| == |marks|;
  }

  lemma StepBalances(c: Config, s: State, e: Event)
    requires Balanced(c, s) && Asserts(c, s, e)
    ensures Balanced(c, Step(c, s, e))
  {
    match e
    case Enable(thread, kind) => EnableBalances(c, s, thread, kind);
    case Disable(thread, kind) => if !Refuses(s, kind) { DisableBalances(c, s, thread, kind); }
    case Exit(thread) => ExitBalances(c, s, thread);
    case _ =>
  }

  /**
    In every run in which no assertion fails, over all threads, starts minus stops of
    the collector is the number of pairs that are marked or whose threads exited with them.
   */
  lemma {:induction false} RunBalances(c: Config, events: seq<Event>)
    requires CanRun(c, events)
    ensures Balanced(c, Run(c, events))
    decreases |events|
  {
    if events != [] {
      RunBalances(c, events[..|events| - 1]);
      StepBalances(c, Run(c, events[..|events| - 1]), events[|events| - 1]);
    }
  }

  lemma OneMore(c: Config, events: seq<Event>, e: Event)
    ensures Run(c, events + [e]) == Step(c, Run(c, events), e)
    ensures CanRun(c, events + [e]) <==> CanRun(c, events) && Asserts(c, Run(c, events), e)
  {
    assert (events + [e])[..|events|] == events;
  }

  /** What one event does to the flags. */
  lemma StepFlags(c: Config, s: State, e: Event)
    ensures var s' := Step(c, s, e);
            && (s'.callbacksSet <==> s.callbacksSet || e == SetCallbacks)
            && (s'.refused <==> s.refused || e == ReportError)
            && (s'.abnormal <==> s.abnormal || e == AbnormalStop)
  {
    match e
    case Enable(thread, kind) =>
      var s' := EnableView(c, s, thread, kind);
      assert s'.callbacksSet == s.callbacksSet && s'.refused == s.refused && s'.abnormal == s.abnormal;
    case Disable(thread, kind) =>
      var s' := DisableView(c, s, thread, kind);
      assert s'.callbacksSet == s.callbacksSet && s'.refused == s.refused && s'.abnormal == s.abnormal;
    case _ =>
  }

  /** What one event does to the marks and the orphans. */
  lemma StepMarks(c: Config, s: State, e: Event)
    ensures var s' := Step(c, s, e);
            match e
            case Enable(thread, kind) =>
              && s'.marked == (if !Refuses(s, kind) && EnableAnswer(c, s, kind) == Success && Starts(c, s, thread, kind)
                               then s.marked + {(thread, kind)}
                               else s.marked)
              && s'.orphaned == s.orphaned
            case Disable(thread, kind) =>
              && s'.marked == (if !Refuses(s, kind) && Stops(c, s, thread, kind) then s.marked - {(thread, kind)}
                               else s.marked)
              && s'.orphaned == s.orphaned
            case Exit(thread) =>
              s'.marked == s.marked - MarksOf(s, thread) && s'.orphaned == s.orphaned + multiset(MarksOf(s, thread))
            case _ => s'.marked == s.marked && s'.orphaned == s.orphaned
  {
  }

  /** What one event does to the views. */
  lemma StepViews(c: Config, s: State, e: Event)
    ensures var s' := Step(c, s, e);
            match e
            case Enable(thread, kind) =>
              s'.views == if !Refuses(s, kind) && EnableAnswer(c, s, kind) == Success then WithView(s.views, kind, true)
                          else s.views
            case Disable(thread, kind) =>
              s'.views == if !Refuses(s, kind) then WithView(s.views, kind, false) else s.views
            case _ => s'.views == s.views
  {
  }

  /** The flags are read off the history. */
  lemma {:induction false} FlagsTellHistory(c: Config, events: seq<Event>)
    ensures Run(c, events).callbacksSet <==> SetCallbacks in events
    ensures Run(c, events).refused <==> ReportError in events
    ensures Run(c, events).abnormal <==> AbnormalStop in events
    decreases |events|
  {
    if events != [] {
      var before, e := events[..|events| - 1], events[|events| - 1];
      FlagsTellHistory(c, before);
      StepFlags(c, Run(c, before), e);
      InOneMore(before, e);
    }
  }

  lemma InOneMore(before: seq<Event>, e: Event)
    ensures forall x :: x in before + [e] <==> x in before || x == e
  {
  }

  /** The event fails an assertion. */
  predicate Fails(c: Config, s: State, e: Event) {
    match e
    case AbnormalStop => s.abnormal || (c.disabledMode && s.tracer.refCount == 0)
    case Disable(thread, kind) =>
      c.disabledMode && s.abnormal && !Refuses(s, kind) && Stops(c, s, thread, kind) && s.tracer.refCount == 1
    case _ => false
  }

  lemma FailsExactly(c: Config, s: State, e: Event)
    requires Balanced(c, s)
    ensures Asserts(c, s, e) <==> !Fails(c, s, e)
  {
    match e
    case Enable(thread, kind) => EnableBalances(c, s, thread, kind);
    case Disable(thread, kind) => if Stops(c, s, thread, kind) { WithAndWithout(s.marked, (thread, kind)); }
    case _ =>
  }

  /**
    Exactly when the process ends on an assertion: at a second abnormal stop, at one
    while the layer is off, and, in disabled mode after an abnormal stop, when the
    last pair is disabled.
   */
  lemma AbortsExactly(c: Config, events: seq<Event>, e: Event)
    requires CanRun(c, events)
    ensures CanRun(c, events + [e]) <==> !Fails(c, Run(c, events), e)
    ensures Run(c, events).abnormal <==> AbnormalStop in events
    ensures Run(c, events).refused <==> ReportError in events
  {
    RunBalances(c, events);
    FlagsTellHistory(c, events);
    OneMore(c, events, e);
    FailsExactly(c, Run(c, events), e);
  }

  /** So without an abnormal stop no assertion ever fails. */
  lemma {:induction false} NormalRuns(c: Config, events: seq<Event>)
    requires AbnormalStop !in events
    ensures CanRun(c, events)
    decreases |events|
  {
    if events != [] {
      var before, e := events[..|events| - 1], events[|events| - 1];
      assert events == before + [e];
      NormalRuns(c, before);
      AbortsExactly(c, before, e);
    }
  }

  // ---------------------------------------------------------------- who enabled what

  /** The event is an enable that succeeds and marks the pair, and one that takes its mark away. */
  predicate Enables(before: seq<Event>, e: Event, thread: ThreadId, kind: Kind) {
    e == Enable(thread, kind) && SetCallbacks in before && ReportError !in before
  }

  predicate Undoes(before: seq<Event>, e: Event, thread: ThreadId, kind: Kind) {
    e == Exit(thread) || (e == Disable(thread, kind) && ReportError !in before)
  }

  /** At `i` the thread enabled the kind, and has neither disabled it nor exited since. */
  ghost predicate EnabledSince(events: seq<Event>, thread: ThreadId, kind: Kind, i: nat) {
    && i < |events| && Enables(events[..i], events[i], thread, kind)
    && (forall k :: i < k < |events| ==> !Undoes(events[..k], events[k], thread, kind))
  }

  lemma EnabledSinceAppend(before: seq<Event>, e: Event, thread: ThreadId, kind: Kind, i: nat)
    ensures EnabledSince(before + [e], thread, kind, i) <==>
              || (i == |before| && Enables(before, e, thread, kind))
              || (!Undoes(before, e, thread, kind) && EnabledSince(before, thread, kind, i))
  {
    var events := before + [e];
    assert events[|before|] == e && events[..|before|] == before;
    if i < |before| {
      assert events[i] == before[i] && events[..i] == before[..i];
      assert forall k :: i < k < |before| ==> events[k] == before[k] && events[..k] == before[..k];
      if EnabledSince(events, thread, kind, i) {
        forall k | i < k < |before| ensures !Undoes(before[..k], before[k], thread, kind) {
          assert !Undoes(events[..k], events[k], thread, kind);
        }
      }
    }
  }

  /** What one more event does to a mark. */
  lemma MarkAfter(c: Config, before: seq<Event>, e: Event, thread: ThreadId, kind: Kind)
    requires c.collector && kind in LEVEL_ZERO_KINDS
    ensures (thread, kind) in Run(c, before + [e]).marked <==>
              || Enables(before, e, thread, kind)
              || (!Undoes(before, e, thread, kind) && (thread, kind) in Run(c, before).marked)
  {
    FlagsTellHistory(c, before);
    OneMore(c, before, e);
    StepMarks(c, Run(c, before), e);
  }

  /** A pair is marked exactly if the thread has enabled the kind and neither disabled it nor exited since. */
  lemma {:induction false} MarksTellHistory(c: Config, events: seq<Event>, thread: ThreadId, kind: Kind)
    requires c.collector && kind in LEVEL_ZERO_KINDS
    ensures (thread, kind) in Run(c, events).marked <==> exists i: nat :: EnabledSince(events, thread, kind, i)
    decreases |events|
  {
    if events != [] {
      var before, e := events[..|events| - 1], events[|events| - 1];
      assert events == before + [e];
      MarksTellHistory(c, before, thread, kind);
      MarkAfter(c, before, e, thread, kind);
      forall i: nat ensures EnabledSince(events, thread, kind, i) <==>
              || (i == |before| && Enables(before, e, thread, kind))
              || (!Undoes(before, e, thread, kind) && EnabledSince(before, thread, kind, i))
      {
        EnabledSinceAppend(before, e, thread, kind, i);
      }
      if Enables(before, e, thread, kind) {
        assert EnabledSince(events, thread, kind, |before|);
      } else if exists i: nat :: EnabledSince(before, thread, kind, i) {
        var i: nat :| EnabledSince(before, thread, kind, i);
        assert !Undoes(before, e, thread, kind) ==> EnabledSince(events, thread, kind, i);
      }
    }
  }

  /** At `i` the thread exited with the kind enabled. */
  ghost predicate ExitedEnabled(events: seq<Event>, thread: ThreadId, kind: Kind, i: nat) {
    && i < |events| && events[i] == Exit(thread)
    && exists k: nat :: EnabledSince(events[..i], thread, kind, k)
  }

  lemma ExitedEnabledAppend(before: seq<Event>, e: Event, thread: ThreadId, kind: Kind, i: nat)
    ensures ExitedEnabled(before + [e], thread, kind, i) <==>
              || (i == |before| && e == Exit(thread) && exists k: nat :: EnabledSince(before, thread, kind, k))
              || ExitedEnabled(before, thread, kind, i)
  {
    var events := before + [e];
    assert events[..|before|] == before;
    if i < |before| {
      assert events[i] == before[i] && events[..i] == before[..i];
    }
  }

  /** A pair is orphaned exactly if its thread exited with the kind enabled. */
  lemma {:induction false} OrphansTellHistory(c: Config, events: seq<Event>, thread: ThreadId, kind: Kind)
    requires c.collector && kind in LEVEL_ZERO_KINDS
    ensures (thread, kind) in Run(c, events).orphaned <==> exists i: nat :: ExitedEnabled(events, thread, kind, i)
    decreases |events|
  {
    if events != [] {
      var before, e := events[..|events| - 1], events[|events| - 1];
      assert events == before + [e];
      OrphansTellHistory(c, before, thread, kind);
      MarksTellHistory(c, before, thread, kind);
      OneMore(c, before, e);
      StepMarks(c, Run(c, before), e);
      forall i: nat ensures ExitedEnabled(events, thread, kind, i) <==>
              || (i == |before| && e == Exit(thread) && exists k: nat :: EnabledSince(before, thread, kind, k))
              || ExitedEnabled(before, thread, kind, i)
      {
        ExitedEnabledAppend(before, e, thread, kind, i);
      }
      if e == Exit(thread) && exists k: nat :: EnabledSince(before, thread, kind, k) {
        assert ExitedEnabled(events, thread, kind, |before|);
      }
    }
  }

  lemma {:induction false} OnlyLevelZeroIsMarked(c: Config, events: seq<Event>)
    ensures forall pair :: pair in Run(c, events).marked ==> c.collector && pair.1 in LEVEL_ZERO_KINDS
    ensures forall pair :: pair in Run(c, events).orphaned ==> c.collector && pair.1 in LEVEL_ZERO_KINDS
    decreases |events|
  {
    if events != [] {
      OnlyLevelZeroIsMarked(c, events[..|events| - 1]);
      StepMarks(c, Run(c, events[..|events| - 1]), events[|events| - 1]);
    }
  }

  /** No thread exited with a Level Zero view enabled. */
  ghost predicate NoneExitedEnabled(events: seq<Event>) {
    forall thread: ThreadId, kind: Kind, i: nat :: kind in LEVEL_ZERO_KINDS ==> !ExitedEnabled(events, thread, kind, i)
  }

  /** Starts and stops match the marks if and only if no thread ever exited with a Level Zero view enabled. */
  lemma StartsMatchMarks(c: Config, events: seq<Event>)
    requires CanRun(c, events) && c.collector
    ensures var s := Run(c, events);
            s.tracer.starts - s.tracer.stops == |s.marked| <==> NoneExitedEnabled(events)
  {
    RunBalances(c, events);
    OnlyLevelZeroIsMarked(c, events);
    var orphaned := Run(c, events).orphaned;
    if orphaned != multiset{} {
      var pair :| pair in orphaned;
      OrphansTellHistory(c, events, pair.0, pair.1);
    }
    forall thread: ThreadId, kind: Kind, i: nat | kind in LEVEL_ZERO_KINDS && ExitedEnabled(events, thread, kind, i)
      ensures (thread, kind) in orphaned
    {
      OrphansTellHistory(c, events, thread, kind);
    }
  }

  /** The tracing layer and the tracer's callbacks are on. */
  predicate Traces(s: State) {
    s.tracer.callbackOn && s.tracer.globalRefCount == 1
  }

  /** A thread needs the tracer, or exited while it did. */
  ghost predicate Needed(events: seq<Event>, thread: ThreadId, kind: Kind, i: nat) {
    kind in LEVEL_ZERO_KINDS && (EnabledSince(events, thread, kind, i) || ExitedEnabled(events, thread, kind, i))
  }

  /**
    The tracer's callbacks are on exactly while some thread has a Level Zero view
    enabled, or has exited with one; it traces if moreover no abnormal stop happened.
   */
  lemma TracingWhileNeeded(c: Config, events: seq<Event>)
    requires CanRun(c, events) && c.collector
    ensures Run(c, events).tracer.callbackOn <==>
              exists thread: ThreadId, kind: Kind, i: nat :: Needed(events, thread, kind, i)
    ensures Traces(Run(c, events)) <==> Run(c, events).tracer.callbackOn && AbnormalStop !in events
  {
    RunBalances(c, events);
    FlagsTellHistory(c, events);
    OnlyLevelZeroIsMarked(c, events);
    var s := Run(c, events);
    if s.tracer.refCount > 0 {
      var pair :| pair in s.marked || pair in s.orphaned;
      MarksTellHistory(c, events, pair.0, pair.1);
      OrphansTellHistory(c, events, pair.0, pair.1);
      var i: nat :| EnabledSince(events, pair.0, pair.1, i) || ExitedEnabled(events, pair.0, pair.1, i);
      assert Needed(events, pair.0, pair.1, i);
    }
    forall thread: ThreadId, kind: Kind, i: nat | Needed(events, thread, kind, i)
      ensures (thread, kind) in s.marked || (thread, kind) in s.orphaned
    {
      MarksTellHistory(c, events, thread, kind);
      OrphansTellHistory(c, events, thread, kind);
    }
  }

  // ---------------------------------------------------------------- views and tracer

  /** A thread has the view enabled, or exited with it. */
  ghost predicate Wanted(s: State, kind: Kind) {
    exists thread: ThreadId :: (thread, kind) in s.marked || (thread, kind) in s.orphaned
  }

  lemma StepKeepsWanted(c: Config, s: State, e: Event, kind: Kind)
    requires c.collector && kind in LEVEL_ZERO_KINDS && (kind in s.views ==> Wanted(s, kind))
    ensures kind in Step(c, s, e).views ==> Wanted(Step(c, s, e), kind)
  {
    StepMarks(c, s, e);
    StepViews(c, s, e);
    var s' := Step(c, s, e);
    if kind in s'.views {
      if kind in s.views {
        var thread: ThreadId :| (thread, kind) in s.marked || (thread, kind) in s.orphaned;
        assert (thread, kind) in s'.marked || (thread, kind) in s'.orphaned;
      } else {
        assert (e.thread, kind) in s'.marked;
      }
    }
  }

  lemma {:induction false} ViewsAreWanted(c: Config, events: seq<Event>, kind: Kind)
    requires c.collector && kind in LEVEL_ZERO_KINDS
    ensures kind in Run(c, events).views ==> Wanted(Run(c, events), kind)
    decreases |events|
  {
    if events != [] {
      ViewsAreWanted(c, events[..|events| - 1], kind);
      StepKeepsWanted(c, Run(c, events[..|events| - 1]), events[|events| - 1], kind);
    }
  }

  /** A Level Zero view that is on is traced: a thread has it enabled, or exited with it, and the callbacks are on. */
  lemma ViewsAreTraced(c: Config, events: seq<Event>, kind: Kind)
    requires CanRun(c, events) && c.collector && kind in LEVEL_ZERO_KINDS && kind in Run(c, events).views
    ensures exists thread: ThreadId, i: nat :: Needed(events, thread, kind, i)
    ensures Run(c, events).tracer.callbackOn
  {
    ViewsAreWanted(c, events, kind);
    var s := Run(c, events);
    var thread: ThreadId :| (thread, kind) in s.marked || (thread, kind) in s.orphaned;
    MarksTellHistory(c, events, thread, kind);
    OrphansTellHistory(c, events, thread, kind);
    var i: nat :| EnabledSince(events, thread, kind, i) || ExitedEnabled(events, thread, kind, i);
    assert Needed(events, thread, kind, i);
    TracingWhileNeeded(c, events);
  }

  lemma DisableUnmarked(c: Config, s: State, thread: ThreadId, kind: Kind)
    requires (thread, kind) !in s.marked && kind in LEVEL_ZERO_KINDS
    ensures var s' := DisableView(c, s, thread, kind);
            && s'.views == s.views - {kind} && s'.marked == s.marked
            && s'.tracer.refCount == s.tracer.refCount && s'.tracer.callbackOn == s.tracer.callbackOn
  {
  }

  /**
    A view's state is shared by all threads, its mark is not: a thread that disables
    a view another thread enabled switches the view off for all and leaves the tracer
    on. (After an error of the library the call is refused.)
   */
  lemma DisabledByAnother(c: Config, events: seq<Event>, thread: ThreadId, other: ThreadId, kind: Kind)
    requires CanRun(c, events)
    requires (thread, kind) in Run(c, events).marked && (other, kind) !in Run(c, events).marked
    ensures CanRun(c, events + [Disable(other, kind)])
    ensures var s, s' := Run(c, events), Run(c, events + [Disable(other, kind)]);
            if ReportError in events then s' == s
            else
              && kind !in s'.views
              && s'.tracer.refCount == s.tracer.refCount > 0 && s'.tracer.callbackOn
              && (thread, kind) in s'.marked
  {
    RunBalances(c, events);
    FlagsTellHistory(c, events);
    OnlyLevelZeroIsMarked(c, events);
    OneMore(c, events, Disable(other, kind));
    DisableUnmarked(c, Run(c, events), other, kind);
    WithAndWithout(Run(c, events).marked, (thread, kind));
  }

  // ---------------------------------------------------------------- switching the tracer off

  /** Orphans stay. */
  lemma {:induction false} OrphansStay(c: Config, events: seq<Event>, more: seq<Event>)
    ensures Run(c, events).orphaned <= Run(c, events + more).orphaned
    ensures CanRun(c, events + more) ==> CanRun(c, events)
    decreases |more|
  {
    if more == [] {
      assert events + more == events;
    } else {
      var before, e := more[..|more| - 1], more[|more| - 1];
      assert events + more == (events + before) + [e];
      OrphansStay(c, events, before);
      OneMore(c, events + before, e);
      StepMarks(c, Run(c, events + before), e);
    }
  }

  /** A thread that exits with a view enabled leaves the tracer's callbacks on for good, whatever anybody does. */
  lemma ExitLeavesTracerOn(c: Config, events: seq<Event>, thread: ThreadId, kind: Kind, more: seq<Event>)
    requires (thread, kind) in Run(c, events).marked && CanRun(c, events + [Exit(thread)] + more)
    ensures var s := Run(c, events + [Exit(thread)] + more);
            && s.tracer.callbackOn && (thread, kind) in s.orphaned
            && s.tracer.starts - s.tracer.stops > |s.marked|
  {
    var exited := events + [Exit(thread)];
    OneMore(c, events, Exit(thread));
    assert (thread, kind) in MarksOf(Run(c, events), thread);
    assert (thread, kind) in Run(c, exited).orphaned;
    OrphansStay(c, exited, more);
    RunBalances(c, exited + more);
    assert (thread, kind) in Run(c, exited + more).orphaned;
  }

  lemma DisableMarked(c: Config, s: State, pair: (ThreadId, Kind))
    requires Balanced(c, s) && !s.refused && !(c.disabledMode && s.abnormal) && pair in s.marked
    requires c.collector && pair.1 in LEVEL_ZERO_KINDS
    ensures var disable := Disable(pair.0, pair.1);
            var s' := Step(c, s, disable);
            && Asserts(c, s, disable) && Balanced(c, s') && s'.abnormal == s.abnormal && s'.refused == s.refused
            && s'.marked == s.marked - {pair} && s'.orphaned == s.orphaned
  {
    var disable := Disable(pair.0, pair.1);
    StepMarks(c, s, disable);
    StepFlags(c, s, disable);
    FailsExactly(c, s, disable);
    StepBalances(c, s, disable);
  }

  /** What the events lead to from a state. */
  function Then(c: Config, s: State, more: seq<Event>): State
    decreases |more|
  {
    if more == [] then s else Then(c, Step(c, s, more[0]), more[1..])
  }

  predicate CanGoOn(c: Config, s: State, more: seq<Event>)
    decreases |more|
  {
    more != [] ==> Asserts(c, s, more[0]) && CanGoOn(c, Step(c, s, more[0]), more[1..])
  }

  lemma {:induction false} RunThen(c: Config, events: seq<Event>, more: seq<Event>, all: seq<Event>)
    requires all == events + more
    ensures Run(c, all) == Then(c, Run(c, events), more)
    ensures CanRun(c, all) <==> CanRun(c, events) && CanGoOn(c, Run(c, events), more)
    decreases |more|
  {
    if more == [] {
      assert all == events;
    } else {
      var s, next := Run(c, events), events + [more[0]];
      OneMore(c, events, more[0]);
      RunThen(c, next, more[1..], all);
      assert Run(c, next) == Step(c, s, more[0]);
    }
  }

  /** Each thread disables what it has enabled. */
  lemma {:induction false} DisableAll(c: Config, s: State) returns (more: seq<Event>)
    requires Balanced(c, s) && !s.refused && !(c.disabledMode && s.abnormal)
    requires forall pair :: pair in s.marked ==> c.collector && pair.1 in LEVEL_ZERO_KINDS
    ensures forall i :: 0 <= i < |more| ==> more[i].Disable? && (more[i].thread, more[i].kind) in s.marked
    ensures CanGoOn(c, s, more)
    ensures Then(c, s, more).marked == {} && Then(c, s, more).orphaned == s.orphaned
    decreases |s.marked|
  {
    if s.marked == {} {
      more := [];
    } else {
      var pair :| pair in s.marked;
      DisableMarked(c, s, pair);
      WithAndWithout(s.marked, pair);
      more := DisableAll(c, Step(c, s, Disable(pair.0, pair.1)));
      more := [Disable(pair.0, pair.1)] + more;
    }
  }

  /** After an error of the library nothing counts down any more. */
  lemma {:induction false} RefusedStays(c: Config, s: State, more: seq<Event>)
    requires s.refused
    ensures Then(c, s, more).tracer.callbackOn == s.tracer.callbackOn
    decreases |more|
  {
    if more != [] {
      StepFlags(c, s, more[0]);
      RefusedStays(c, Step(c, s, more[0]), more[1..]);
    }
  }

  lemma AbnormalStays(c: Config, events: seq<Event>, more: seq<Event>)
    requires CanRun(c, events + more) && c.disabledMode && AbnormalStop in events
    ensures Run(c, events + more).tracer.callbackOn
  {
    RunBalances(c, events + more);
    FlagsTellHistory(c, events + more);
  }

  /** Some further events, after which the process still runs, leave the tracer's callbacks off. */
  ghost predicate CanSwitchOff(c: Config, events: seq<Event>) {
    exists more: seq<Event> :: CanRun(c, events + more) && !Run(c, events + more).tracer.callbackOn
  }

  /**
    Exactly when the tracer's callbacks, once on, can still be switched off: no thread
    exited with a Level Zero view enabled, the library has no error, and, in disabled
    mode, there was no abnormal stop.
   */
  lemma OffExactly(c: Config, events: seq<Event>)
    requires CanRun(c, events) && c.collector && Run(c, events).tracer.callbackOn
    ensures CanSwitchOff(c, events) <==>
              && NoneExitedEnabled(events) && ReportError !in events && !(c.disabledMode && AbnormalStop in events)
  {
    StartsMatchMarks(c, events);
    RunBalances(c, events);
    FlagsTellHistory(c, events);
    var s := Run(c, events);
    if s.orphaned == multiset{} && !s.refused && !(c.disabledMode && s.abnormal) {
      OnlyLevelZeroIsMarked(c, events);
      var more := DisableAll(c, s);
      RunThen(c, events, more, events + more);
      RunBalances(c, events + more);
    } else {
      forall more: seq<Event> | CanRun(c, events + more) ensures Run(c, events + more).tracer.callbackOn {
        StaysOn(c, events, more);
      }
    }
  }

  lemma StaysOn(c: Config, events: seq<Event>, more: seq<Event>)
    requires CanRun(c, events + more) && Run(c, events).tracer.callbackOn
    requires var s := Run(c, events); s.orphaned != multiset{} || s.refused || (c.disabledMode && s.abnormal)
    ensures Run(c, events + more).tracer.callbackOn
  {
    FlagsTellHistory(c, events);
    RunThen(c, events, more, events + more);
    RunBalances(c, events + more);
    if Run(c, events).refused {
      RefusedStays(c, Run(c, events), more);
    } else if Run(c, events).abnormal && c.disabledMode {
      AbnormalStays(c, events, more);
    } else {
      OrphansStay(c, events, more);
      var pair :| pair in Run(c, events).orphaned;
      assert pair in Run(c, events + more).orphaned;
    }
  }
}
