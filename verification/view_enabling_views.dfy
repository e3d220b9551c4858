/**
  Which views are on, read off the calls: a view is on exactly if an enable of it
  succeeded, by whatever thread, and nobody has disabled it since.
 */
module ViewEnablingViews {
  import opened ViewRecordInfo
  import opened ViewEnabling

  /** The kinds whose state is kept: those with records, but external correlation. */
  predicate HasState(kind: Kind) {
    GetViewSize(VIEW_SIZE_TABLE, kind).Some? && kind != EXTERNAL_CORRELATION
  }

  /**
    An enable of the kind succeeds after these events: callbacks are set, the library
    has no error, the kind is one that can be enabled (runtime functions only if the
    library traces SYCL), and something collects: Level Zero, or runtime functions,
    which this enable or one before it switches on.
   */
  ghost predicate Succeeds(c: Config, before: seq<Event>, kind: Kind)
    decreases |before|, 1
  {
    && SetCallbacks in before && ReportError !in before
    && 0 < kind < 13 && kind != RESERVED && kind != DEVICE_CPU_KERNEL
    && (kind == RUNTIME_API ==> c.traceSycl)
    && (c.collector || kind == RUNTIME_API ||
        exists other: Kind, thread: ThreadId, i: nat {:trigger before[i], Enable(thread, other)} ::
          HasState(other) && i < |before| && before[i] == Enable(thread, other) && OnSince(c, before, thread, other, i))
  }

  /** Event `i` is an enable of the kind by the thread that succeeds, and no accepted disable of it came since. */
  ghost predicate OnSince(c: Config, events: seq<Event>, thread: ThreadId, kind: Kind, i: nat)
    decreases |events|, 0
  {
    && i < |events| && events[i] == Enable(thread, kind) && Succeeds(c, events[..i], kind)
    && forall k, other: ThreadId :: i < k < |events| && events[k] == Disable(other, kind) ==> ReportError in events[..k]
  }

  ghost predicate IsOn(c: Config, events: seq<Event>, kind: Kind) {
    HasState(kind) && exists thread: ThreadId, i: nat :: OnSince(c, events, thread, kind, i)
  }

  /** The event is a disable of the kind that is accepted. */
  predicate SwitchesOff(before: seq<Event>, e: Event, kind: Kind) {
    e.Disable? && e.kind == kind && ReportError !in before
  }

  lemma OnSinceAppend(c: Config, before: seq<Event>, e: Event, thread: ThreadId, kind: Kind, i: nat)
    ensures OnSince(c, before + [e], thread, kind, i) <==>
              || (i == |before| && e == Enable(thread, kind) && Succeeds(c, before, kind))
              || (!SwitchesOff(before, e, kind) && OnSince(c, before, thread, kind, i))
  {
    var events := before + [e];
    assert events[|before|] == e && events[..|before|] == before;
    if i < |before| {
      assert events[i] == before[i] && events[..i] == before[..i];
      assert forall k :: i < k < |before| ==> events[k] == before[k] && events[..k] == before[..k];
      if OnSince(c, events, thread, kind, i) {
        forall k, other: ThreadId | i < k < |before| && before[k] == Disable(other, kind)
          ensures ReportError in before[..k]
        {
          assert events[k] == Disable(other, kind) && events[..k] == before[..k];
        }
        if e.Disable? {
          assert events[|before|] == Disable(e.thread, e.kind);
        }
      }
    }
  }

  /** What one more event does to a view. */
  lemma OneMoreIsOn(c: Config, before: seq<Event>, e: Event, kind: Kind)
    ensures IsOn(c, before + [e], kind) <==>
              || (HasState(kind) && e.Enable? && e.kind == kind && Succeeds(c, before, kind))
              || (!SwitchesOff(before, e, kind) && IsOn(c, before, kind))
  {
    forall thread: ThreadId, i: nat
      ensures OnSince(c, before + [e], thread, kind, i) <==>
                || (i == |before| && e == Enable(thread, kind) && Succeeds(c, before, kind))
                || (!SwitchesOff(before, e, kind) && OnSince(c, before, thread, kind, i))
    {
      OnSinceAppend(c, before, e, thread, kind, i);
    }
    if HasState(kind) && e.Enable? && e.kind == kind && Succeeds(c, before, kind) {
      assert OnSince(c, before + [e], e.thread, kind, |before|);
    } else if !SwitchesOff(before, e, kind) && IsOn(c, before, kind) {
      var thread: ThreadId, i: nat :| OnSince(c, before, thread, kind, i);
      assert OnSince(c, before + [e], thread, kind, i);
    }
  }

  /** What one step does to the state of a view, in terms of the answer. */
  lemma StepView(c: Config, s: State, e: Event, kind: Kind)
    ensures kind in Step(c, s, e).views <==>
              || (HasState(kind) && e.Enable? && e.kind == kind && !Refuses(s, kind)
                  && EnableAnswer(c, s, kind) == Success)
              || (kind in s.views
                  && !(e.Disable? && e.kind == kind && !Refuses(s, kind) && HasState(kind)))
  {
    StepViews(c, s, e);
  }

  lemma {:induction false} OnlyStatesKept(c: Config, events: seq<Event>, kind: Kind)
    ensures kind in Run(c, events).views ==> HasState(kind)
    decreases |events|
  {
    if events != [] {
      OnlyStatesKept(c, events[..|events| - 1], kind);
      StepView(c, Run(c, events[..|events| - 1]), events[|events| - 1], kind);
    }
  }

  /** Without Level Zero the library collects exactly while a view is on; with it at least then. */
  ghost predicate Collects(c: Config, s: State) {
    && (s.views != {} ==> s.collectionEnabled)
    && (!c.collector && s.collectionEnabled ==> s.views != {})
  }

  lemma StepCollects(c: Config, s: State, e: Event)
    requires Collects(c, s)
    ensures Collects(c, Step(c, s, e))
  {
    if e.Enable? && !Refuses(s, e.kind) && EnableAnswer(c, s, e.kind) == Success {
      if !c.collector && e.kind == RUNTIME_API {
        assert HasRecords(RUNTIME_API);
        assert RUNTIME_API in Step(c, s, e).views;
      }
      if s.views != {} {
        var kind :| kind in s.views;
        assert kind in Step(c, s, e).views;
      }
    }
  }

  lemma {:induction false} RunCollects(c: Config, events: seq<Event>)
    ensures Collects(c, Run(c, events))
    decreases |events|
  {
    if events != [] {
      RunCollects(c, events[..|events| - 1]);
      StepCollects(c, Run(c, events[..|events| - 1]), events[|events| - 1]);
    }
  }

  /** The answer of an enable, if the views are as the history tells. */
  lemma AnswerIs(c: Config, before: seq<Event>, kind: Kind)
    requires forall other :: other in Run(c, before).views <==> IsOn(c, before, other)
    ensures !Refuses(Run(c, before), kind) && EnableAnswer(c, Run(c, before), kind) == Success
            <==> Succeeds(c, before, kind)
  {
    FlagsTellHistory(c, before);
    RunCollects(c, before);
    var s := Run(c, before);
    if s.views != {} {
      var other :| other in s.views;
      assert IsOn(c, before, other);
      var thread: ThreadId, i: nat :| OnSince(c, before, thread, other, i);
      assert before[i] == Enable(thread, other);
    } else if Succeeds(c, before, kind) && !c.collector && kind != RUNTIME_API {
      var other: Kind, thread: ThreadId, i: nat :|
        HasState(other) && i < |before| && before[i] == Enable(thread, other) && OnSince(c, before, thread, other, i);
      assert IsOn(c, before, other);
    }
  }

  /**
    Over every run: a view is on exactly if an enable of it by some thread succeeded
    and no disable of it, by any thread, was accepted since. Only kinds with records,
    other than external correlation, are ever on.
   */
  lemma {:induction false} ViewsTellHistory(c: Config, events: seq<Event>)
    ensures forall kind :: kind in Run(c, events).views <==> IsOn(c, events, kind)
    decreases |events|
  {
    if events != [] {
      var before, e := events[..|events| - 1], events[|events| - 1];
      assert events == before + [e];
      ViewsTellHistory(c, before);
      FlagsTellHistory(c, before);
      OneMore(c, before, e);
      forall kind ensures kind in Run(c, events).views <==> IsOn(c, events, kind) {
        OneMoreIsOn(c, before, e, kind);
        OnlyStatesKept(c, before, kind);
        AnswerIs(c, before, kind);
        StepView(c, Run(c, before), e, kind);
      }
    }
  }

  /** Over every run, exactly when the entry point's enable succeeds, and why it does not. */
  lemma AnswersTellHistory(c: Config, before: seq<Event>, kind: Kind)
    ensures var s := Run(c, before);
            var answer := if Refuses(s, kind) then RefusalAnswer(s) else EnableAnswer(c, s, kind);
            && (answer == Success <==> Succeeds(c, before, kind))
            && (answer == ProfilingNotSupported <==> ReportError in before)
            && (answer == NoCallbacksSet <==>
                  ReportError !in before && 0 < kind < 13 && SetCallbacks !in before)
            && (answer == BadArgument <==>
                  ReportError !in before && (kind == 0 || kind >= 13 || (SetCallbacks in before && kind == RESERVED)))
  {
    ViewsTellHistory(c, before);
    AnswerIs(c, before, kind);
    FlagsTellHistory(c, before);
  }
}
