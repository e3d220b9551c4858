/**
  Overhead accounting when the flag is turned off and on: which calls count, and
  exactly when every outermost pair is reported.
 */
module OverheadFlag {
  import opened Overhead

  /** The state a thread starts in, with the flag on from the start. */
  const On: State := Start.(on := true)

  function FlagAfter(events: seq<Event>): bool
    decreases |events|
  {
    if events == [] then Start.on
    else if events[|events| - 1].SetFlag? then events[|events| - 1].on else FlagAfter(events[..|events| - 1])
  }

  /** A call that looks at the flag counts while it is on; FiniSycl does not look. */
  predicate Counts(e: Event, on: bool) {
    match e
    case SetFlag(_) => false
    case Init(_) => on
    case Fini(via, _, _) => on || via == SyclRuntime
  }

  /** The calls that count. */
  function Visible(events: seq<Event>): seq<Event>
    decreases |events|
  {
    if events == [] then []
    else
      var before, e := events[..|events| - 1], events[|events| - 1];
      Visible(before) + (if Counts(e, FlagAfter(before)) then [e] else [])
  }

  /** All calls, whatever the flag. */
  function Calls(events: seq<Event>): seq<Event>
    decreases |events|
  {
    if events == [] then []
    else
      var before, e := events[..|events| - 1], events[|events| - 1];
      Calls(before) + (if e.SetFlag? then [] else [e])
  }

  /** Every Fini is told its own runtime, as all callers do. */
  ghost predicate OwnRuntime(events: seq<Event>) {
    forall i :: 0 <= i < |events| && events[i].Fini? ==> events[i].runtime == events[i].via
  }

  lemma RunOneMore(s: State, events: seq<Event>, e: Event)
    ensures RunFrom(s, events + [e]) == Step(RunFrom(s, events), e)
  {
    assert (events + [e])[..|events|] == events;
  }

  /** A call that does not count does nothing, one that counts does what it does with the flag on. */
  lemma StepSees(s: State, e: Event, flag: bool)
    requires s.on
    ensures Step(s.(on := flag), e)
            == (if Counts(e, flag) then Step(s, e) else s).(on := if e.SetFlag? then e.on else flag)
    ensures Counts(e, flag) ==> Step(s, e).on
  {
  }

  /** Under any history of the flag a thread is where the visible calls alone would have led it. */
  lemma {:induction false} OnlyVisibleCallsCount(events: seq<Event>)
    ensures RunFrom(On, Visible(events)).on
    ensures RunFrom(Start, events) == RunFrom(On, Visible(events)).(on := FlagAfter(events))
    decreases |events|
  {
    if events != [] {
      var before, e := events[..|events| - 1], events[|events| - 1];
      OnlyVisibleCallsCount(before);
      RunOneMore(On, Visible(before), e);
      StepSees(RunFrom(On, Visible(before)), e, FlagAfter(before));
      assert Visible(before) + [] == Visible(before);
    }
  }

  /** The calls of a history keep what is asked of it. */
  lemma {:induction false} CallsAreUndisturbed(events: seq<Event>)
    requires OwnRuntime(events) && PositiveClock(events)
    ensures Undisturbed(Calls(events)) && PositiveClock(Calls(events))
    ensures Undisturbed(Visible(events)) && PositiveClock(Visible(events))
    decreases |events|
  {
    if events != [] {
      var before, e := events[..|events| - 1], events[|events| - 1];
      assert e.Init? ==> e.time > 0;
      assert e.Fini? ==> e.runtime == e.via;
      CallsAreUndisturbed(before);
    }
  }

  /**
    What is reported under any history of the flag: the outermost pairs of the visible
    calls, in order, and nothing else.
   */
  lemma ReportsVisiblePairs(events: seq<Event>)
    requires OwnRuntime(events) && PositiveClock(events)
    ensures RunFrom(Start, events).reported == Reports(Spans(Visible(events)))
    ensures RunFrom(Start, events).refCount == Depth(Visible(events))
  {
    OnlyVisibleCallsCount(events);
    CallsAreUndisturbed(events);
    ReportsOutermostPairs(Visible(events));
  }

  // ---------------------------------------------------------------- when every pair is reported

  /** No two calls have the same time. */
  ghost predicate DistinctClock(events: seq<Event>) {
    forall i, k :: 0 <= i < k < |events| && !events[i].SetFlag? && !events[k].SetFlag? ==>
      events[i].time != events[k].time
  }

  /** A visible call is open exactly when a call is. */
  predicate SeenAsOpen(events: seq<Event>) {
    Depth(Visible(events)) == 0 <==> Depth(Calls(events)) == 0
  }

  /** At every moment of the history a visible call is open exactly when a call is. */
  predicate AlwaysSeenAsOpen(events: seq<Event>)
    decreases |events|
  {
    SeenAsOpen(events) && (events != [] ==> AlwaysSeenAsOpen(events[..|events| - 1]))
  }

  /** The accounts of all calls, and of the visible ones. */
  function All(events: seq<Event>): State {
    RunFrom(On, Calls(events))
  }

  function Seen(events: seq<Event>): State {
    RunFrom(On, Visible(events))
  }

  /** One more event moves both accounts by the same call, or one or none of them. */
  lemma AccountsStep(before: seq<Event>, e: Event)
    ensures All(before + [e]) == if e.SetFlag? then All(before) else Step(All(before), e)
    ensures Seen(before + [e]) == if Counts(e, FlagAfter(before)) then Step(Seen(before), e) else Seen(before)
    ensures Calls(before + [e]) == Calls(before) + if e.SetFlag? then [] else [e]
  {
    assert (before + [e])[..|before|] == before;
    RunOneMore(On, Calls(before), e);
    RunOneMore(On, Visible(before), e);
    assert Visible(before) + [] == Visible(before) && Calls(before) + [] == Calls(before);
  }

  /** What the accounts look like. */
  lemma AccountsAre(events: seq<Event>)
    requires OwnRuntime(events) && PositiveClock(events)
    ensures All(events).on && Consistent(All(events)) && All(events).refCount == Depth(Calls(events))
    ensures Depth(Calls(events)) > 0 ==> All(events).start == Calls(events)[OpenedAt(Calls(events))].time
    ensures Seen(events).on && Consistent(Seen(events)) && Seen(events).refCount == Depth(Visible(events))
    ensures All(events).reported == Reports(Spans(Calls(events)))
    ensures Seen(events).reported == Reports(Spans(Visible(events)))
  {
    CallsAreUndisturbed(events);
    ReportsOutermostPairs(Calls(events));
    ReportsOutermostPairs(Visible(events));
    OpenTimePositive(Calls(events));
    OpenTimePositive(Visible(events));
  }

  lemma OpenTimePositive(events: seq<Event>)
    requires PositiveClock(events)
    ensures Depth(events) > 0 ==> events[OpenedAt(events)].time > 0
  {
  }

  /** The two accounts agree on what is open and on what was reported. */
  predicate Agree(all: State, seen: State) {
    && (all.refCount == 0 <==> seen.refCount == 0)
    && all.start == seen.start && all.reported == seen.reported
  }

  /** If the accounts agree, a step after which the same is open keeps them in agreement. */
  lemma StepAgrees(all: State, seen: State, e: Event, counts: bool)
    requires all.on && seen.on && Consistent(all) && Consistent(seen) && Agree(all, seen) && !e.SetFlag?
    requires e.Init? ==> e.time > 0
    requires var seen' := if counts then Step(seen, e) else seen;
             Step(all, e).refCount == 0 <==> seen'.refCount == 0
    ensures Agree(Step(all, e), if counts then Step(seen, e) else seen)
  {
  }

  function Times(events: seq<Event>): set<nat> {
    set e | e in events && !e.SetFlag? :: e.time
  }

  /** The start times of what was reported and of what is open. */
  function Starts(s: State): set<nat> {
    (set r | r in s.reported :: r.start) + if s.refCount > 0 then {s.start} else {}
  }

  function Ends(s: State): set<nat> {
    set r | r in s.reported :: r.end
  }

  /** A time tells the accounts apart: a start only of all calls, or an end of one account only. */
  ghost predicate Apart(all: State, seen: State, times: set<nat>) {
    exists x :: x in times && ((x in Starts(all) && x !in Starts(seen)) || (x in Ends(all) <==> x !in Ends(seen)))
  }

  /** A call decides about its own time only. */
  lemma StepTimes(s: State, e: Event)
    requires s.on && Consistent(s) && !e.SetFlag? && (e.Fini? ==> e.runtime == e.via)
    ensures Starts(s) - {e.time} == Starts(Step(s, e)) - {e.time}
    ensures Ends(s) - {e.time} == Ends(Step(s, e)) - {e.time}
  {
    if e.Fini? && s.refCount == 1 {
      var report := Step(s, e).reported[|s.reported|];
      assert forall r :: r in Step(s, e).reported <==> r in s.reported || r == report;
      assert report.start == s.start && report.end == e.time;
    }
  }

  /** Accounts that agree and then differ in what is open are told apart by the time of that call. */
  lemma StepParts(all: State, seen: State, e: Event, counts: bool)
    requires all.on && seen.on && Consistent(all) && Consistent(seen) && Agree(all, seen) && !e.SetFlag?
    requires (e.Init? ==> e.time > 0) && (e.Fini? ==> e.runtime == e.via)
    requires e.time !in Starts(all) + Starts(seen) + Ends(all) + Ends(seen)
    requires var seen' := if counts then Step(seen, e) else seen;
             Step(all, e).refCount == 0 <==> seen'.refCount != 0
    ensures Apart(Step(all, e), if counts then Step(seen, e) else seen, {e.time})
  {
    var all', seen' := Step(all, e), if counts then Step(seen, e) else seen;
    if e.Init? {
      assert e.time in Starts(all') && e.time !in Starts(seen');
    } else if all'.refCount == 0 {
      assert all'.reported[|all.reported|].end == e.time && all'.reported[|all.reported|] in all'.reported;
      assert seen'.reported == seen.reported;
      assert e.time in Ends(all') && e.time !in Ends(seen');
    } else {
      assert seen'.reported[|seen.reported|].end == e.time && seen'.reported[|seen.reported|] in seen'.reported;
      assert all'.reported == all.reported;
      assert e.time in Ends(seen') && e.time !in Ends(all');
    }
  }

  /** Once apart, later calls, which have other times, do not bring the accounts together. */
  lemma StaysApart(all: State, seen: State, e: Event, counts: bool, times: set<nat>)
    requires all.on && seen.on && Consistent(all) && Consistent(seen) && !e.SetFlag? && (e.Fini? ==> e.runtime == e.via)
    requires Apart(all, seen, times) && e.time !in times
    ensures Apart(Step(all, e), if counts then Step(seen, e) else seen, times)
  {
    var x :| x in times && ((x in Starts(all) && x !in Starts(seen)) || (x in Ends(all) <==> x !in Ends(seen)));
    StepTimes(all, e);
    StepTimes(seen, e);
    assert x != e.time;
    assert x in Starts(all) <==> x in Starts(all) - {e.time};
    assert x in Ends(all) <==> x in Ends(all) - {e.time};
    assert x in Starts(seen) <==> x in Starts(seen) - {e.time};
    assert x in Ends(seen) <==> x in Ends(seen) - {e.time};
    var all', seen' := Step(all, e), if counts then Step(seen, e) else seen;
    assert x in Starts(all') <==> x in Starts(all') - {e.time};
    assert x in Ends(all') <==> x in Ends(all') - {e.time};
    assert x in Starts(seen') <==> x in Starts(seen') - {e.time};
    assert x in Ends(seen') <==> x in Ends(seen') - {e.time};
  }

  lemma TimesGrow(s: State, e: Event, times: set<nat>)
    requires s.on && Consistent(s) && !e.SetFlag? && (e.Fini? ==> e.runtime == e.via)
    requires Starts(s) + Ends(s) <= times
    ensures Starts(Step(s, e)) + Ends(Step(s, e)) <= times + {e.time}
  {
    StepTimes(s, e);
    var s' := Step(s, e);
    forall x | x in Starts(s') + Ends(s') && x != e.time ensures x in times {
      assert x in Starts(s') - {e.time} || x in Ends(s') - {e.time};
    }
  }

  lemma TimesOneMore(before: seq<Event>, e: Event)
    ensures Times(before + [e]) == Times(before) + if e.SetFlag? then {} else {e.time}
  {
    assert forall x :: x in before + [e] <==> x in before || x == e;
  }

  /** Both accounts name only times of calls. */
  lemma {:induction false} OnlyCallTimes(events: seq<Event>)
    requires OwnRuntime(events) && PositiveClock(events)
    ensures Starts(All(events)) + Ends(All(events)) <= Times(events)
    ensures Starts(Seen(events)) + Ends(Seen(events)) <= Times(events)
    decreases |events|
  {
    if events != [] {
      var before, e := events[..|events| - 1], events[|events| - 1];
      assert events == before + [e];
      OnlyCallTimes(before);
      AccountsStep(before, e);
      AccountsAre(before);
      TimesOneMore(before, e);
      if !e.SetFlag? {
        TimesGrow(All(before), e, Times(before));
        TimesGrow(Seen(before), e, Times(before));
      }
    }
  }

  lemma TimeIsNew(before: seq<Event>, e: Event)
    requires DistinctClock(before + [e]) && !e.SetFlag?
    ensures e.time !in Times(before) && DistinctClock(before)
  {
    var events := before + [e];
    assert events[|before|] == e;
    assert forall i :: 0 <= i < |before| ==> events[i] == before[i];
  }

  /** Over every history the accounts agree, or a time tells them apart for good. */
  lemma {:induction false} AgreeOrApart(events: seq<Event>)
    requires OwnRuntime(events) && PositiveClock(events) && DistinctClock(events)
    ensures if AlwaysSeenAsOpen(events) then Agree(All(events), Seen(events))
            else Apart(All(events), Seen(events), Times(events))
    decreases |events|
  {
    if events != [] {
      var before, e := events[..|events| - 1], events[|events| - 1];
      assert events == before + [e];
      AgreeOrApart(before);
      AgreeOrApartStep(before, e);
    }
  }

  /** One call, seen by both accounts or by one, takes agreement to agreement or apart, and apart to apart. */
  lemma CallAgreesOrParts(all: State, seen: State, e: Event, counts: bool, times: set<nat>, agreed: bool)
    requires all.on && seen.on && Consistent(all) && Consistent(seen) && !e.SetFlag?
    requires (e.Init? ==> e.time > 0) && (e.Fini? ==> e.runtime == e.via)
    requires Starts(all) + Ends(all) <= times && Starts(seen) + Ends(seen) <= times && e.time !in times
    requires if agreed then Agree(all, seen) else Apart(all, seen, times)
    ensures var all', seen' := Step(all, e), if counts then Step(seen, e) else seen;
            if agreed && (all'.refCount == 0 <==> seen'.refCount == 0) then Agree(all', seen')
            else Apart(all', seen', times + {e.time})
  {
    var all', seen' := Step(all, e), if counts then Step(seen, e) else seen;
    if !agreed {
      StaysApart(all, seen, e, counts, times);
    } else if all'.refCount == 0 <==> seen'.refCount == 0 {
      StepAgrees(all, seen, e, counts);
    } else {
      StepParts(all, seen, e, counts);
    }
  }

  lemma AgreeOrApartStep(before: seq<Event>, e: Event)
    requires var events := before + [e]; OwnRuntime(events) && PositiveClock(events) && DistinctClock(events)
    requires OwnRuntime(before) && PositiveClock(before)
    requires if AlwaysSeenAsOpen(before) then Agree(All(before), Seen(before))
             else Apart(All(before), Seen(before), Times(before))
    ensures var events := before + [e];
            if AlwaysSeenAsOpen(before) && SeenAsOpen(events) then Agree(All(events), Seen(events))
            else Apart(All(events), Seen(events), Times(events))
  {
    assert (before + [e])[|before|] == e;
    AccountsAre(before);
    AccountsAre(before + [e]);
    AccountsStep(before, e);
    TimesOneMore(before, e);
    if !e.SetFlag? {
      TimeIsNew(before, e);
      OnlyCallTimes(before);
      CallAgreesOrParts(All(before), Seen(before), e, Counts(e, FlagAfter(before)), Times(before),
                        AlwaysSeenAsOpen(before));
    }
  }

  /** Accounts with the same reports are not apart once all calls have ended. */
  lemma SameReportsNotApart(all: State, seen: State, times: set<nat>)
    requires all.refCount == 0 && all.reported == seen.reported
    ensures !Apart(all, seen, times)
  {
    assert Ends(all) == Ends(seen) && Starts(all) <= Starts(seen);
  }

  /**
    When the calls of a thread have all ended, every outermost pair of them has been
    reported, and nothing else, if and only if at every moment a visible call was open
    exactly when a call was. (Only telling times apart makes a wrong report visible.)
   */
  lemma AllPairsReported(events: seq<Event>)
    requires OwnRuntime(events) && PositiveClock(events) && DistinctClock(events)
    requires Depth(Calls(events)) == 0
    ensures RunFrom(Start, events).reported == Reports(Spans(Calls(events))) <==> AlwaysSeenAsOpen(events)
  {
    OnlyVisibleCallsCount(events);
    AccountsAre(events);
    AgreeOrApart(events);
    if Seen(events).reported == All(events).reported {
      SameReportsNotApart(All(events), Seen(events), Times(events));
    }
  }

  // ---------------------------------------------------------------- a flag that changes between calls

  /** The flag changes only while no call is open. */
  predicate ChangesAtRest(events: seq<Event>)
    decreases |events|
  {
    events != [] ==>
      var before, e := events[..|events| - 1], events[|events| - 1];
      ChangesAtRest(before) && (e.SetFlag? && e.on != FlagAfter(before) ==> Depth(Calls(before)) == 0)
  }

  /** The outermost pairs of the calls that were made with the flag on. */
  function PairsWhileOn(events: seq<Event>): seq<Report>
    decreases |events|
  {
    if events == [] then []
    else
      var before, e := events[..|events| - 1], events[|events| - 1];
      var calls := Calls(before);
      if e.Fini? && Depth(calls) == 1 && FlagAfter(before)
      then PairsWhileOn(before)
           + [Report(calls[OpenedAt(calls)].time, e.time, Elapsed(calls[OpenedAt(calls)].time, e.time), 1)]
      else PairsWhileOn(before)
  }

  /** The account of the visible calls is that of all calls while the flag is on, and at rest while it is off. */
  predicate AtRestWhileOff(all: State, seen: State, flag: bool) {
    seen.refCount == (if flag then all.refCount else 0) && seen.start == if flag then all.start else 0
  }

  lemma StepAtRest(all: State, seen: State, e: Event, flag: bool)
    requires all.on && seen.on && Consistent(all) && Consistent(seen) && AtRestWhileOff(all, seen, flag)
    requires e.SetFlag? && e.on != flag ==> all.refCount == 0
    requires e.Fini? ==> e.runtime == e.via
    ensures AtRestWhileOff(if e.SetFlag? then all else Step(all, e), if Counts(e, flag) then Step(seen, e) else seen,
                           if e.SetFlag? then e.on else flag)
    ensures (if Counts(e, flag) then Step(seen, e) else seen).reported
            == seen.reported + if e.Fini? && all.refCount == 1 && flag
                               then [Report(all.start, e.time, Elapsed(all.start, e.time), 1)] else []
  {
  }

  lemma RestingStep(before: seq<Event>, e: Event)
    requires OwnRuntime(before) && PositiveClock(before) && (e.Fini? ==> e.runtime == e.via)
    requires ChangesAtRest(before + [e]) && AtRestWhileOff(All(before), Seen(before), FlagAfter(before))
    requires Seen(before).reported == PairsWhileOn(before)
    ensures AtRestWhileOff(All(before + [e]), Seen(before + [e]), FlagAfter(before + [e]))
    ensures Seen(before + [e]).reported == PairsWhileOn(before + [e])
  {
    assert (before + [e])[..|before|] == before;
    AccountsAre(before);
    AccountsStep(before, e);
    StepAtRest(All(before), Seen(before), e, FlagAfter(before));
  }

  lemma {:induction false} RestingAccounts(events: seq<Event>)
    requires OwnRuntime(events) && PositiveClock(events) && ChangesAtRest(events)
    ensures AtRestWhileOff(All(events), Seen(events), FlagAfter(events))
    ensures Seen(events).reported == PairsWhileOn(events)
    decreases |events|
  {
    if events != [] {
      var before, e := events[..|events| - 1], events[|events| - 1];
      assert events == before + [e];
      RestingAccounts(before);
      RestingStep(before, e);
    }
  }

  /**
    What a caller can see to: if the flag changes only while no call is open, exactly
    the outermost pairs made with the flag on are reported, in order.
   */
  lemma RestingFlagReports(events: seq<Event>)
    requires OwnRuntime(events) && PositiveClock(events) && ChangesAtRest(events)
    ensures RunFrom(Start, events).reported == PairsWhileOn(events)
  {
    OnlyVisibleCallsCount(events);
    RestingAccounts(events);
  }
}
