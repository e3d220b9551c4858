/**
  Overhead accounting of one thread: calls of Init and Fini nest, a reference count
  follows them, and the outermost pair reports the time it spans.

  The clock's answer is an input of each call.
 */
module Overhead {

  const TWO_TO_THE_64: nat := 0x1_0000_0000_0000_0000

  datatype Runtime = SyclRuntime | LevelZeroRuntime

  /** A record handed to the overhead callback. */
  datatype Report = Report(start: nat, end: nat, duration: nat, count: nat)

  datatype State = State(
    on: bool,            // overhead_collection_enabled
    refCount: nat,       // init_ref_count
    present: bool,       // map_overhead_per_kind holds the record
    start: nat,          // its start timestamp
    duration: nat,
    count: nat,
    reported: seq<Report>)

  datatype Event =
    | SetFlag(on: bool)
    | Init(time: nat)
    | Fini(via: Runtime, runtime: Runtime, time: nat)   // FiniLevel0 or FiniSycl, and the runtime it is told

  const Start := State(false, 0, false, 0, 0, 0, [])

  function BeginOverhead(s: State, time: nat): State {
    if !s.on then s
    else
      var found := if s.present then s else s.(present := true, start := 0, duration := 0, count := 0);
      found.(refCount := found.refCount + 1, start := if found.start != 0 then found.start else time)
  }

  /** `end - start` on uint64_t. */
  function Elapsed(start: nat, end: nat): nat {
    (end - start) % TWO_TO_THE_64
  }

  function EndOverhead(s: State, via: Runtime, runtime: Runtime, time: nat): State {
    if (via == LevelZeroRuntime && !s.on) || s.refCount == 0 then s
    else if s.refCount > 1 then s.(refCount := s.refCount - 1)
    else if !s.present then s.(refCount := 0)
    else
      var report := Report(s.start, time, (s.duration + Elapsed(s.start, time)) % TWO_TO_THE_64, s.count + 1);
      s.(refCount := 0, start := 0, duration := 0, count := 0,
         reported := if runtime == via then s.reported + [report] else s.reported)
  }

  function Step(s: State, e: Event): State {
    match e
    case SetFlag(on) => s.(on := on)
    case Init(time) => BeginOverhead(s, time)
    case Fini(via, runtime, time) => EndOverhead(s, via, runtime, time)
  }

  /** The events, oldest first. */
  function RunFrom(s: State, events: seq<Event>): State
    decreases |events|
  {
    if events == [] then s else Step(RunFrom(s, events[..|events| - 1]), events[|events| - 1])
  }

  ghost predicate PositiveClock(events: seq<Event>) {
    forall i :: 0 <= i < |events| && events[i].Init? ==> events[i].time > 0
  }

  ghost predicate MonotoneClock(events: seq<Event>) {
    forall i, k :: 0 <= i < k < |events| && !events[i].SetFlag? && !events[k].SetFlag? ==>
      events[i].time <= events[k].time
  }

  // ---------------------------------------------------------------- the count and the start time

  ghost predicate Consistent(s: State) {
    && (s.refCount > 0 <==> s.start != 0)
    && (s.refCount > 0 ==> s.present)
    && s.duration == 0 && s.count == 0
  }

  /** With a positive clock the count is positive exactly when the start time is set, whatever the flag does. */
  lemma {:induction false} RunIsConsistent(events: seq<Event>)
    requires PositiveClock(events)
    ensures Consistent(RunFrom(Start, events))
    decreases |events|
  {
    if events != [] {
      RunIsConsistent(events[..|events| - 1]);
      assert events[|events| - 1].Init? ==> events[|events| - 1].time > 0;
    }
  }

  // ---------------------------------------------------------------- outermost pairs

  /** How many calls of Init are open; a Fini with none open closes nothing. */
  function Depth(events: seq<Event>): nat
    decreases |events|
  {
    if events == [] then 0
    else
      var d := Depth(events[..|events| - 1]);
      match events[|events| - 1]
      case Init(_) => d + 1
      case Fini(_, _, _) => if d == 0 then 0 else d - 1
      case SetFlag(_) => d
  }

  /** An outermost pair: the positions of its Init and its Fini, and their times. */
  datatype Span = Span(from: nat, to: nat, start: nat, end: nat)

  /** The Init and the Fini of the span match, and nothing around them is open. */
  ghost predicate IsOutermost(events: seq<Event>, p: Span) {
    && p.from < p.to < |events|
    && events[p.from] == Init(p.start) && Depth(events[..p.from]) == 0
    && events[p.to].Fini? && events[p.to].time == p.end
    && (forall n :: p.from < n <= p.to ==> Depth(events[..n]) > 0)
    && Depth(events[..p.to + 1]) == 0
  }

  /** The position of the Init that opened what is open now. */
  function OpenedAt(events: seq<Event>): (at: nat)
    requires Depth(events) > 0
    ensures at < |events| && events[at].Init?
    decreases |events|
  {
    var before := events[..|events| - 1];
    if Depth(before) == 0 then |events| - 1 else OpenedAt(before)
  }

  /** The outermost pairs, in order. */
  function Spans(events: seq<Event>): seq<Span>
    decreases |events|
  {
    if events == [] then []
    else
      var before, e := events[..|events| - 1], events[|events| - 1];
      if e.Fini? && Depth(before) == 1
      then Spans(before) + [Span(OpenedAt(before), |before|, before[OpenedAt(before)].time, e.time)]
      else Spans(before)
  }

  lemma {:induction false} OpenedSince(events: seq<Event>)
    requires Depth(events) > 0
    ensures Depth(events[..OpenedAt(events)]) == 0
    ensures forall n :: OpenedAt(events) < n <= |events| ==> Depth(events[..n]) > 0
    decreases |events|
  {
    var before := events[..|events| - 1];
    assert events[..|events|] == events;
    if Depth(before) > 0 {
      OpenedSince(before);
      assert forall n :: 0 <= n <= |before| ==> before[..n] == events[..n];
    }
  }

  lemma OutermostInPrefix(events: seq<Event>, n: nat, p: Span)
    requires n <= |events|
    ensures p.to < n ==> (IsOutermost(events[..n], p) <==> IsOutermost(events, p))
  {
    assert forall m :: 0 <= m <= n ==> events[..n][..m] == events[..m];
  }

  /** The span that the last event closes, if it closes one. */
  lemma ClosedByLast(events: seq<Event>, p: Span)
    requires events != [] && p.to == |events| - 1
    ensures var before, e := events[..|events| - 1], events[|events| - 1];
            IsOutermost(events, p) <==>
              && e.Fini? && Depth(before) == 1
              && p == Span(OpenedAt(before), |before|, before[OpenedAt(before)].time, e.time)
  {
    var before, e := events[..|events| - 1], events[|events| - 1];
    assert events[..|events|] == events;
    assert forall n :: 0 <= n <= |before| ==> before[..n] == events[..n];
    if e.Fini? && Depth(before) == 1 {
      OpenedSince(before);
      assert IsOutermost(events, p) ==> p.from == OpenedAt(before);
    }
  }

  /** The spans are exactly the outermost pairs. */
  lemma {:induction false} SpansAreOutermost(events: seq<Event>, p: Span)
    ensures p in Spans(events) <==> IsOutermost(events, p)
    ensures p in Spans(events) ==> p.to < |events|
    decreases |events|
  {
    if events != [] {
      var before := events[..|events| - 1];
      SpansAreOutermost(before, p);
      OutermostInPrefix(events, |before|, p);
      if p.to == |before| {
        ClosedByLast(events, p);
      }
    }
  }

  // ---------------------------------------------------------------- what is reported

  /** The flag stays on, and every Fini is told its own runtime, as all callers do. */
  predicate Undisturbed(events: seq<Event>) {
    forall i :: 0 <= i < |events| ==> !events[i].SetFlag? && (events[i].Fini? ==> events[i].runtime == events[i].via)
  }

  function Reports(spans: seq<Span>): (reports: seq<Report>)
    ensures |reports| == |spans|
    ensures forall i :: 0 <= i < |spans| ==>
              reports[i] == Report(spans[i].start, spans[i].end, Elapsed(spans[i].start, spans[i].end), 1)
  {
    seq(|spans|, i requires 0 <= i < |spans| =>
      Report(spans[i].start, spans[i].end, Elapsed(spans[i].start, spans[i].end), 1))
  }

  /** With the flag on and a positive clock, exactly the outermost pairs are reported, in order. */
  lemma {:induction false} ReportsOutermostPairs(events: seq<Event>)
    requires Undisturbed(events) && PositiveClock(events)
    ensures var s := RunFrom(Start.(on := true), events);
            && s.on && s.refCount == Depth(events) && (s.refCount > 0 ==> s.present)
            && s.start == (if Depth(events) > 0 then events[OpenedAt(events)].time else 0)
            && s.duration == 0 && s.count == 0
            && s.reported == Reports(Spans(events))
    decreases |events|
  {
    if events != [] {
      var before, e := events[..|events| - 1], events[|events| - 1];
      ReportsOutermostPairs(before);
      assert e.Init? ==> e.time > 0;
      assert Depth(before) > 0 ==>
        before[OpenedAt(before)] == events[OpenedAt(before)] && events[OpenedAt(before)].time > 0;
      assert e.Fini? ==> e.runtime == e.via;
    }
  }

  /** The outermost pairs whose Fini is told its own runtime. */
  function OwnSpans(events: seq<Event>): seq<Span>
    decreases |events|
  {
    if events == [] then []
    else
      var before, e := events[..|events| - 1], events[|events| - 1];
      if e.Fini? && Depth(before) == 1 && e.runtime == e.via
      then OwnSpans(before) + [Span(OpenedAt(before), |before|, before[OpenedAt(before)].time, e.time)]
      else OwnSpans(before)
  }

  lemma {:induction false} OwnSpansAre(events: seq<Event>, p: Span)
    ensures p in OwnSpans(events) <==> IsOutermost(events, p) && events[p.to].runtime == events[p.to].via
    ensures p in OwnSpans(events) ==> p.to < |events|
    decreases |events|
  {
    if events != [] {
      var before := events[..|events| - 1];
      OwnSpansAre(before, p);
      OutermostInPrefix(events, |before|, p);
      if p.to == |before| {
        ClosedByLast(events, p);
      }
    }
  }

  /**
    A Fini that is told the other runtime closes its pair like any other, but reports
    nothing: with the flag on exactly the outermost pairs whose Fini is told its own
    runtime are reported, in order.
   */
  lemma {:induction false} ReportsOwnPairs(events: seq<Event>)
    requires PositiveClock(events) && forall i :: 0 <= i < |events| ==> !events[i].SetFlag?
    ensures var s := RunFrom(Start.(on := true), events);
            && s.on && s.refCount == Depth(events) && (s.refCount > 0 ==> s.present)
            && s.start == (if Depth(events) > 0 then events[OpenedAt(events)].time else 0)
            && s.duration == 0 && s.count == 0
            && s.reported == Reports(OwnSpans(events))
    decreases |events|
  {
    if events != [] {
      var before, e := events[..|events| - 1], events[|events| - 1];
      ReportsOwnPairs(before);
      assert e.Init? ==> e.time > 0;
      assert Depth(before) > 0 ==>
        before[OpenedAt(before)] == events[OpenedAt(before)] && events[OpenedAt(before)].time > 0;
    }
  }

  /** Spans follow one another: each starts after the one before it has ended. */
  lemma {:induction false} SpansInOrder(events: seq<Event>)
    ensures forall i :: 0 <= i < |Spans(events)| ==> Spans(events)[i].from < Spans(events)[i].to < |events|
    ensures forall i, k :: 0 <= i < k < |Spans(events)| ==> Spans(events)[i].to < Spans(events)[k].from
    decreases |events|
  {
    if events != [] {
      var before, e := events[..|events| - 1], events[|events| - 1];
      SpansInOrder(before);
      if e.Fini? && Depth(before) == 1 {
        OpenedSince(before);
        forall i | 0 <= i < |Spans(before)| ensures Spans(before)[i].to < OpenedAt(before) {
          SpansAreOutermost(before, Spans(before)[i]);
        }
      }
    }
  }

  lemma SpanTimes(events: seq<Event>, p: Span)
    requires MonotoneClock(events) && IsOutermost(events, p)
    requires forall i :: 0 <= i < |events| && !events[i].SetFlag? ==> events[i].time < TWO_TO_THE_64
    ensures p.start <= p.end && Elapsed(p.start, p.end) == p.end - p.start
    ensures events[p.from].Init? && events[p.from].time == p.start && events[p.to].Fini? && events[p.to].time == p.end
  {
    assert events[p.from].time <= events[p.to].time;
  }

  /** Reported intervals do not overlap and come in order, and each duration is its length. */
  lemma ReportsInOrder(events: seq<Event>)
    requires Undisturbed(events) && PositiveClock(events) && MonotoneClock(events)
    requires forall i :: 0 <= i < |events| && !events[i].SetFlag? ==> events[i].time < TWO_TO_THE_64
    ensures var reported := RunFrom(Start.(on := true), events).reported;
            && (forall i :: 0 <= i < |reported| ==>
                  reported[i].start <= reported[i].end && reported[i].duration == reported[i].end - reported[i].start)
            && (forall i, k :: 0 <= i < k < |reported| ==> reported[i].end <= reported[k].start)
  {
    ReportsOutermostPairs(events);
    SpansInOrder(events);
    var spans, reported := Spans(events), RunFrom(Start.(on := true), events).reported;
    forall i | 0 <= i < |reported|
      ensures reported[i].start <= reported[i].end && reported[i].duration == reported[i].end - reported[i].start
    {
      SpansAreOutermost(events, spans[i]);
      SpanTimes(events, spans[i]);
    }
    forall i, k | 0 <= i < k < |reported| ensures reported[i].end <= reported[k].start {
      SpansAreOutermost(events, spans[i]);
      SpansAreOutermost(events, spans[k]);
      SpanTimes(events, spans[i]);
      SpanTimes(events, spans[k]);
      assert events[spans[i].to].time <= events[spans[k].from].time;
    }
  }

  // ---------------------------------------------------------------- turning the flag off and on

  /** Calls that nest: never more Fini than Init, and as many in the end. */
  ghost predicate Nested(events: seq<Event>) {
    (forall n :: 0 <= n <= |events| ==> Height(events[..n]) >= 0) && Height(events) == 0
  }

  function Height(events: seq<Event>): int
    decreases |events|
  {
    if events == [] then 0
    else
      Height(events[..|events| - 1]) + (match events[|events| - 1]
                                        case Init(_) => 1
                                        case Fini(_, _, _) => -1
                                        case SetFlag(_) => 0)
  }

  /** While a call is open, nested calls report nothing. */
  lemma {:induction false} OpenCallHidesOthers(s: State, events: seq<Event>)
    requires s.on && s.refCount > 0 && s.start != 0 && s.present
    requires forall n :: 0 <= n <= |events| ==> Height(events[..n]) >= 0
    requires forall i :: 0 <= i < |events| ==> !events[i].SetFlag?
    ensures RunFrom(s, events) == s.(refCount := s.refCount + Height(events))
    decreases |events|
  {
    assert events[..|events|] == events;
    if events != [] {
      var before := events[..|events| - 1];
      assert forall n :: 0 <= n <= |before| ==> before[..n] == events[..n];
      OpenCallHidesOthers(s, before);
    }
  }

  /**
    A flag that is off during one Fini leaves the call open: however many nested calls
    follow, none is reported until the flag changes again.
   */
  lemma MissedFiniSilences(first: nat, missed: nat, later: seq<Event>)
    requires first > 0 && Nested(later) && forall i :: 0 <= i < |later| ==> !later[i].SetFlag?
    ensures var broken := [SetFlag(true), Init(first), SetFlag(false),
                           Fini(LevelZeroRuntime, LevelZeroRuntime, missed), SetFlag(true)];
            var s := RunFrom(RunFrom(Start, broken), later);
            s.reported == [] && s.refCount == 1
  {
    var broken := [SetFlag(true), Init(first), SetFlag(false),
                   Fini(LevelZeroRuntime, LevelZeroRuntime, missed), SetFlag(true)];
    assert broken[..4][..3] == broken[..3] && broken[..3][..2] == broken[..2];
    assert broken[..2][..1] == broken[..1] && broken[..1][..0] == [];
    assert RunFrom(Start, broken[..1]) == Start.(on := true);
    assert RunFrom(Start, broken[..2]) == State(true, 1, true, first, 0, 0, []);
    assert RunFrom(Start, broken[..3]) == State(false, 1, true, first, 0, 0, []);
    assert RunFrom(Start, broken[..4]) == State(false, 1, true, first, 0, 0, []);
    OpenCallHidesOthers(RunFrom(Start, broken), later);
  }

  // ---------------------------------------------------------------- the functions in place

  class OverheadCollector {
    var on: bool
    var refCount: nat
    var present: bool
    var start: nat
    var duration: nat
    var count: nat
    var reported: seq<Report>

    ghost function Now(): State
      reads this
    {
      State(on, refCount, present, start, duration, count, reported)
    }

    constructor ()
      ensures Now() == Start
    {
      on, refCount, present, start, duration, count, reported := false, 0, false, 0, 0, 0, [];
    }

    method BeginCall(time: nat)
      modifies this
      ensures Now() == Step(old(Now()), Init(time))
    {
      if !on {
        return;
      }
      if !present {
        start, duration, count := 0, 0, 0;
        present := true;
      }
      refCount := refCount + 1;
      if start != 0 {
        return;
      }
      start := time;
    }

    method ResetRecord()
      requires refCount == 0
      modifies this
      ensures Now() == if old(present) then old(Now()).(start := 0, duration := 0, count := 0) else old(Now())
    {
      if present {
        duration, start, count := 0, 0, 0;
        assert refCount == 0;
      }
    }

    /** The end of a call, for both Fini functions once the flag has been looked at. */
    method Finish(via: Runtime, runtime: Runtime, time: nat)
      modifies this
      ensures Now() == EndOverhead(old(Now()).(on := true), via, runtime, time).(on := old(on))
    {
      if refCount == 0 {
        return;
      }
      if refCount > 1 {
        refCount := refCount - 1;
        return;
      }
      refCount := refCount - 1;
      if present {
        duration := (duration + Elapsed(start, time)) % TWO_TO_THE_64;
        count := count + 1;
        if runtime == via {
          reported := reported + [Report(start, time, duration, count)];
        }
        ResetRecord();
      }
    }

    method FiniLevel0(runtime: Runtime, time: nat)
      modifies this
      ensures Now() == Step(old(Now()), Fini(LevelZeroRuntime, runtime, time))
    {
      if !on {
        return;
      }
      Finish(LevelZeroRuntime, runtime, time);
    }

    method FiniSycl(runtime: Runtime, time: nat)
      modifies this
      ensures Now() == Step(old(Now()), Fini(SyclRuntime, runtime, time))
    {
      Finish(SyclRuntime, runtime, time);
    }
  }
}
