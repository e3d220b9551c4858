/**
  External correlation ids of one thread: a stack per kind, the kinds that were
  emptied inside a subscriber callback, and the records that an API event emits.

  The order in which an API event walks the two maps is an input of the event.
 */
module ExternalCorrelation {
  import opened ViewRecordInfo

  type Kind = nat
  type ExternalId = nat
  type CorrelationId = nat

  datatype Emitted = Emitted(kind: Kind, id: ExternalId, cid: CorrelationId)

  datatype State = State(
    active: map<Kind, seq<ExternalId>>,      // thread_local_map_ext_corrid_vectors, top last
    deferred: map<Kind, seq<ExternalId>>,    // ..._deferred_erase
    inside: bool,                            // thread_local_is_within_subscriber_callback
    emitted: seq<Emitted>)

  datatype Event =
    | Push(kind: Kind, id: ExternalId)
    | Pop(kind: Kind)
    | EnterCallback
    | LeaveCallback
    | Api(cid: CorrelationId, order: seq<Kind>, deferredOrder: seq<Kind>)

  datatype Answer = Popped(id: ExternalId) | QueueEmpty

  /** `operator[]`: an absent kind has an empty stack. */
  function StackIn(stacks: map<Kind, seq<ExternalId>>, kind: Kind): seq<ExternalId> {
    if kind in stacks then stacks[kind] else []
  }

  function Top(stack: seq<ExternalId>): ExternalId
    requires stack != []
  {
    stack[|stack| - 1]
  }

  function PushId(s: State, kind: Kind, id: ExternalId): State {
    s.(active := s.active[kind := StackIn(s.active, kind) + [id]])
  }

  function PopAnswer(s: State, kind: Kind): Answer {
    if StackIn(s.active, kind) == [] then QueueEmpty else Popped(Top(s.active[kind]))
  }

  /** A pop that empties the stack removes the kind, and inside a callback keeps the id for the next API event. */
  function PopId(s: State, kind: Kind): State {
    var stack := StackIn(s.active, kind);
    if stack == [] then s
    else if |stack| > 1 then s.(active := s.active[kind := stack[..|stack| - 1]])
    else if s.inside then
      s.(active := s.active - {kind}, deferred := s.deferred[kind := StackIn(s.deferred, kind) + [stack[0]]])
    else s.(active := s.active - {kind})
  }

  ghost predicate NoEmptyStack(stacks: map<Kind, seq<ExternalId>>) {
    forall kind :: kind in stacks ==> stacks[kind] != []
  }

  /** The top ids of the kinds, in the order of the walk. */
  function Tops(stacks: map<Kind, seq<ExternalId>>, order: seq<Kind>, cid: CorrelationId): (records: seq<Emitted>)
    requires forall k :: 0 <= k < |order| ==> StackIn(stacks, order[k]) != []
    ensures |records| == |order|
    ensures forall k :: 0 <= k < |order| ==> records[k] == Emitted(order[k], Top(StackIn(stacks, order[k])), cid)
  {
    seq(|order|, k requires 0 <= k < |order| => Emitted(order[k], Top(StackIn(stacks, order[k])), cid))
  }

  /** A walk over a map visits each key once. */
  ghost predicate VisitsAll(order: seq<Kind>, stacks: map<Kind, seq<ExternalId>>) {
    multiset(order) == multiset(stacks.Keys)
  }

  ghost predicate Enabled(s: State, e: Event) {
    e.Api? ==> VisitsAll(e.order, s.active) && VisitsAll(e.deferredOrder, s.deferred)
  }

  lemma VisitedAreKeys(order: seq<Kind>, stacks: map<Kind, seq<ExternalId>>)
    requires VisitsAll(order, stacks) && NoEmptyStack(stacks)
    ensures forall k :: 0 <= k < |order| ==> order[k] in stacks && StackIn(stacks, order[k]) != []
  {
    forall k | 0 <= k < |order| ensures order[k] in stacks {
      assert order[k] in multiset(order);
    }
  }

  ghost function GenerateRecords(s: State, cid: CorrelationId, order: seq<Kind>, deferredOrder: seq<Kind>): State
    requires NoEmptyStack(s.active) && NoEmptyStack(s.deferred)
    requires VisitsAll(order, s.active) && VisitsAll(deferredOrder, s.deferred)
  {
    VisitedAreKeys(order, s.active);
    VisitedAreKeys(deferredOrder, s.deferred);
    s.(emitted := s.emitted + Tops(s.active, order, cid) + Tops(s.deferred, deferredOrder, cid), deferred := map[])
  }

  ghost function Step(s: State, e: Event): (s': State)
    requires NoEmptyStack(s.active) && NoEmptyStack(s.deferred) && Enabled(s, e)
    ensures NoEmptyStack(s'.active) && NoEmptyStack(s'.deferred)
  {
    match e
    case Push(kind, id) => PushId(s, kind, id)
    case Pop(kind) => PopId(s, kind)
    case EnterCallback => s.(inside := true)
    case LeaveCallback => s.(inside := false)
    case Api(cid, order, deferredOrder) => GenerateRecords(s, cid, order, deferredOrder)
  }

  const Start := State(map[], map[], false, [])

  /** The events, oldest first, can happen one after the other. */
  ghost predicate CanRun(events: seq<Event>)
    decreases |events|, 0
  {
    events == [] || (CanRun(events[..|events| - 1]) && Enabled(Run(events[..|events| - 1]), events[|events| - 1]))
  }

  /** No stack in either map is ever empty, so every `top()` is defined. */
  ghost function Run(events: seq<Event>): (s: State)
    requires CanRun(events)
    ensures NoEmptyStack(s.active) && NoEmptyStack(s.deferred)
    decreases |events|, 1
  {
    if events == [] then Start else Step(Run(events[..|events| - 1]), events[|events| - 1])
  }

  // ---------------------------------------------------------------- what a history means for one kind

  /** The stack a thread would keep if it had only this kind. */
  function StackOf(events: seq<Event>, kind: Kind): seq<ExternalId>
    decreases |events|
  {
    if events == [] then []
    else
      var stack, e := StackOf(events[..|events| - 1], kind), events[|events| - 1];
      if e.Push? && e.kind == kind then stack + [e.id]
      else if e == Pop(kind) && stack != [] then stack[..|stack| - 1]
      else stack
  }

  predicate InsideAfter(events: seq<Event>)
    decreases |events|
  {
    if events == [] then false
    else
      var e := events[|events| - 1];
      if e.EnterCallback? then true else if e.LeaveCallback? then false else InsideAfter(events[..|events| - 1])
  }

  /** The id of the kind's last pop, since the last API event, that emptied its stack inside a callback. */
  function EmptiedSince(events: seq<Event>, kind: Kind): Option<ExternalId>
    decreases |events|
  {
    if events == [] then None
    else
      var before, e := events[..|events| - 1], events[|events| - 1];
      if e.Api? then None
      else if e == Pop(kind) && |StackOf(before, kind)| == 1 && InsideAfter(before) then Some(StackOf(before, kind)[0])
      else EmptiedSince(before, kind)
  }

  /** What the maps hold for a kind is what the history of that kind says. */
  ghost predicate Mirrors(s: State, stack: seq<ExternalId>, inside: bool, emptied: Option<ExternalId>, kind: Kind) {
    && StackIn(s.active, kind) == stack
    && s.inside == inside
    && (kind in s.deferred <==> emptied.Some?)
    && (kind in s.deferred ==> s.deferred[kind] != [] && Top(s.deferred[kind]) == emptied.value)
  }

  lemma PopMirrors(s: State, stack: seq<ExternalId>, emptied: Option<ExternalId>, kind: Kind, popped: Kind)
    requires Mirrors(s, stack, s.inside, emptied, kind)
    ensures Mirrors(PopId(s, popped),
                    if popped == kind && stack != [] then stack[..|stack| - 1] else stack,
                    s.inside,
                    if popped == kind && |stack| == 1 && s.inside then Some(stack[0]) else emptied,
                    kind)
  {
    if popped == kind && |stack| == 1 {
      assert stack[..0] == [];
    }
  }

  lemma PushMirrors(s: State, stack: seq<ExternalId>, emptied: Option<ExternalId>, kind: Kind, pushed: Kind,
                    id: ExternalId)
    requires Mirrors(s, stack, s.inside, emptied, kind)
    ensures Mirrors(PushId(s, pushed, id), if pushed == kind then stack + [id] else stack, s.inside, emptied, kind)
  {
  }

  /** Each kind is an independent stack, whatever happens to the other kinds. */
  lemma {:induction false} KindsAreIndependentStacks(events: seq<Event>, kind: Kind)
    requires CanRun(events)
    ensures Mirrors(Run(events), StackOf(events, kind), InsideAfter(events), EmptiedSince(events, kind), kind)
    decreases |events|
  {
    if events != [] {
      var before := events[..|events| - 1];
      KindsAreIndependentStacks(before, kind);
      var s, stack, emptied := Run(before), StackOf(before, kind), EmptiedSince(before, kind);
      match events[|events| - 1]
      case Push(pushed, id) => PushMirrors(s, stack, emptied, kind, pushed, id);
      case Pop(popped) => PopMirrors(s, stack, emptied, kind, popped);
      case _ =>
    }
  }

  /** The answer to a pop, in every run: the newest id of the kind's own history, or that there is none. */
  lemma PopAnswersHistory(events: seq<Event>, kind: Kind)
    requires CanRun(events)
    ensures var stack := StackOf(events, kind);
            PopAnswer(Run(events), kind) == if stack == [] then QueueEmpty else Popped(stack[|stack| - 1])
  {
    KindsAreIndependentStacks(events, kind);
  }

  /** All ids of the kind's pops, since the last API event, that emptied its stack inside a callback. */
  function EmptiedIds(events: seq<Event>, kind: Kind): seq<ExternalId>
    decreases |events|
  {
    if events == [] then []
    else
      var before, e := events[..|events| - 1], events[|events| - 1];
      if e.Api? then []
      else if e == Pop(kind) && |StackOf(before, kind)| == 1 && InsideAfter(before)
      then EmptiedIds(before, kind) + [StackOf(before, kind)[0]]
      else EmptiedIds(before, kind)
  }

  lemma PopDefers(s: State, popped: Kind, kind: Kind, stack: seq<ExternalId>, ids: seq<ExternalId>)
    requires StackIn(s.active, kind) == stack && StackIn(s.deferred, kind) == ids
    ensures StackIn(PopId(s, popped).deferred, kind)
            == if popped == kind && |stack| == 1 && s.inside then ids + [stack[0]] else ids
  {
  }

  /** The deferred stack holds them all, though an API event emits its top only. */
  lemma {:induction false} DeferredKeepsAll(events: seq<Event>, kind: Kind)
    requires CanRun(events)
    ensures StackIn(Run(events).deferred, kind) == EmptiedIds(events, kind)
    decreases |events|
  {
    if events != [] {
      var before := events[..|events| - 1];
      DeferredKeepsAll(before, kind);
      KindsAreIndependentStacks(before, kind);
      match events[|events| - 1]
      case Pop(popped) => PopDefers(Run(before), popped, kind, StackOf(before, kind), EmptiedIds(before, kind));
      case Push(_, _) =>
      case Api(_, _, _) =>
      case EnterCallback =>
      case LeaveCallback =>
    }
  }

  // ---------------------------------------------------------------- push and pop

  /** What a run of events leaves of a stack it starts with. */
  function StackAfter(stack: seq<ExternalId>, events: seq<Event>, kind: Kind): seq<ExternalId>
    decreases |events|
  {
    if events == [] then stack
    else
      var before, e := StackAfter(stack, events[..|events| - 1], kind), events[|events| - 1];
      if e.Push? && e.kind == kind then before + [e.id]
      else if e == Pop(kind) && before != [] then before[..|before| - 1]
      else before
  }

  lemma {:induction false} StackConcat(a: seq<Event>, b: seq<Event>, kind: Kind)
    ensures StackOf(a + b, kind) == StackAfter(StackOf(a, kind), b, kind)
    decreases |b|
  {
    if b == [] {
      assert a + b == a;
    } else {
      var before := b[..|b| - 1];
      StackConcat(a, before, kind);
      assert (a + b)[..|a + b| - 1] == a + before;
    }
  }

  /** Pushes minus pops of a kind. */
  function Height(events: seq<Event>, kind: Kind): int
    decreases |events|
  {
    if events == [] then 0
    else
      var e := events[|events| - 1];
      Height(events[..|events| - 1], kind) + (if e.Push? && e.kind == kind then 1 else if e == Pop(kind) then -1 else 0)
  }

  /** Never more pops of the kind than pushes. */
  ghost predicate Nested(events: seq<Event>, kind: Kind) {
    forall n :: 0 <= n <= |events| ==> Height(events[..n], kind) >= 0
  }

  /** A nested stretch of events leaves the stack it found in place. */
  lemma {:induction false} NestedKeepsStack(stack: seq<ExternalId>, events: seq<Event>, kind: Kind)
    requires Nested(events, kind)
    ensures stack <= StackAfter(stack, events, kind)
    ensures |StackAfter(stack, events, kind)| == |stack| + Height(events, kind)
    decreases |events|
  {
    assert events[..|events|] == events;
    if events != [] {
      var before := events[..|events| - 1];
      assert Nested(before, kind) by {
        forall n | 0 <= n <= |before| ensures Height(before[..n], kind) >= 0 { assert before[..n] == events[..n]; }
      }
      NestedKeepsStack(stack, before, kind);
    }
  }

  lemma StackBeforePop(events: seq<Event>, kind: Kind, id: ExternalId, inner: seq<Event>)
    requires Nested(inner, kind) && Height(inner, kind) == 0
    ensures StackOf(events + [Push(kind, id)] + inner, kind) == StackOf(events, kind) + [id]
  {
    var pushed := events + [Push(kind, id)];
    assert pushed[..|events|] == events;
    assert StackOf(pushed, kind) == StackOf(events, kind) + [id];
    StackConcat(pushed, inner, kind);
    NestedKeepsStack(StackOf(pushed, kind), inner, kind);
  }

  lemma PopFromRun(events: seq<Event>, kind: Kind, below: seq<ExternalId>, id: ExternalId)
    requires CanRun(events) && CanRun(events + [Pop(kind)])
    requires StackOf(events, kind) == below + [id]
    ensures PopAnswer(Run(events), kind) == Popped(id)
    ensures StackIn(Run(events + [Pop(kind)]).active, kind) == below
  {
    KindsAreIndependentStacks(events, kind);
    KindsAreIndependentStacks(events + [Pop(kind)], kind);
    assert (events + [Pop(kind)])[..|events|] == events;
    assert (below + [id])[..|below|] == below;
  }

  /**
    A pop returns the id of its matching push: after a push and any events that pop
    as often as they push the kind, and never more, a pop returns that id and leaves
    the stack as it was before the push.
   */
  lemma PopUndoesPush(events: seq<Event>, kind: Kind, id: ExternalId, inner: seq<Event>)
    requires CanRun(events) && CanRun(events + [Push(kind, id)] + inner)
    requires CanRun(events + [Push(kind, id)] + inner + [Pop(kind)])
    requires Nested(inner, kind) && Height(inner, kind) == 0
    ensures PopAnswer(Run(events + [Push(kind, id)] + inner), kind) == Popped(id)
    ensures StackIn(Run(events + [Push(kind, id)] + inner + [Pop(kind)]).active, kind)
            == StackIn(Run(events).active, kind)
  {
    KindsAreIndependentStacks(events, kind);
    StackBeforePop(events, kind, id, inner);
    PopFromRun(events + [Push(kind, id)] + inner, kind, StackOf(events, kind), id);
  }

  // ---------------------------------------------------------------- what an API event emits

  lemma {:induction false} CountInTops(stacks: map<Kind, seq<ExternalId>>, order: seq<Kind>, cid: CorrelationId,
                                       r: Emitted)
    requires forall k :: 0 <= k < |order| ==> StackIn(stacks, order[k]) != []
    ensures multiset(Tops(stacks, order, cid))[r]
            == if r.cid == cid && StackIn(stacks, r.kind) != [] && r.id == Top(StackIn(stacks, r.kind))
               then multiset(order)[r.kind] else 0
    decreases |order|
  {
    if order == [] {
      assert Tops(stacks, order, cid) == [];
    } else {
      var last := |order| - 1;
      CountInTops(stacks, order[..last], cid, r);
      assert order == order[..last] + [order[last]];
      assert Tops(stacks, order, cid)
          == Tops(stacks, order[..last], cid) + [Emitted(order[last], Top(StackIn(stacks, order[last])), cid)];
    }
  }

  lemma OnceInWalk(order: seq<Kind>, stacks: map<Kind, seq<ExternalId>>, kind: Kind)
    requires VisitsAll(order, stacks)
    ensures multiset(order)[kind] == if kind in stacks then 1 else 0
  {
    assert multiset(order)[kind] == multiset(stacks.Keys)[kind];
  }

  lemma EmittedOfWalk(stacks: map<Kind, seq<ExternalId>>, order: seq<Kind>, cid: CorrelationId, r: Emitted)
    requires NoEmptyStack(stacks) && VisitsAll(order, stacks)
    ensures forall k :: 0 <= k < |order| ==> StackIn(stacks, order[k]) != []
    ensures multiset(Tops(stacks, order, cid))[r]
            == if r.cid == cid && r.kind in stacks && r.id == Top(stacks[r.kind]) then 1 else 0
  {
    VisitedAreKeys(order, stacks);
    CountInTops(stacks, order, cid, r);
    OnceInWalk(order, stacks, r.kind);
  }

  lemma AppendedPart<T>(before: seq<T>, a: seq<T>, b: seq<T>)
    ensures (before + a + b)[|before|..] == a + b && before <= before + a + b
    ensures multiset((before + a + b)[|before|..]) == multiset(a) + multiset(b)
  {
    assert (before + a + b)[|before|..] == a + b;
  }

  lemma GenerateEmits(s: State, cid: CorrelationId, order: seq<Kind>, deferredOrder: seq<Kind>, r: Emitted)
    requires NoEmptyStack(s.active) && NoEmptyStack(s.deferred)
    requires VisitsAll(order, s.active) && VisitsAll(deferredOrder, s.deferred)
    ensures var s' := GenerateRecords(s, cid, order, deferredOrder);
            && s.emitted <= s'.emitted
            && multiset(s'.emitted[|s.emitted|..])[r]
               == (if r.cid == cid && r.kind in s.active && r.id == Top(s.active[r.kind]) then 1 else 0)
                  + (if r.cid == cid && r.kind in s.deferred && r.id == Top(s.deferred[r.kind]) then 1 else 0)
  {
    VisitedAreKeys(order, s.active);
    VisitedAreKeys(deferredOrder, s.deferred);
    EmittedOfWalk(s.active, order, cid, r);
    EmittedOfWalk(s.deferred, deferredOrder, cid, r);
    AppendedPart(s.emitted, Tops(s.active, order, cid), Tops(s.deferred, deferredOrder, cid));
  }

  /**
    An API event emits, each once, a record with the newest id of every live kind and
    a record with the last id of every kind emptied inside a callback since the API
    event before, and nothing else.
   */
  lemma ApiEmits(events: seq<Event>, cid: CorrelationId, order: seq<Kind>, deferredOrder: seq<Kind>, r: Emitted)
    requires CanRun(events) && CanRun(events + [Api(cid, order, deferredOrder)])
    ensures var before, after := Run(events), Run(events + [Api(cid, order, deferredOrder)]);
            var stack := StackOf(events, r.kind);
            && before.emitted <= after.emitted
            && multiset(after.emitted[|before.emitted|..])[r]
               == (if r.cid == cid && stack != [] && r.id == Top(stack) then 1 else 0)
                  + (if r.cid == cid && EmptiedSince(events, r.kind) == Some(r.id) then 1 else 0)
  {
    assert (events + [Api(cid, order, deferredOrder)])[..|events|] == events;
    KindsAreIndependentStacks(events, r.kind);
    GenerateEmits(Run(events), cid, order, deferredOrder, r);
  }

  // ---------------------------------------------------------------- ids that a callback popped

  /** The pop empties the kind's stack inside a callback. */
  predicate Empties(events: seq<Event>, kind: Kind) {
    |StackOf(events, kind)| == 1 && InsideAfter(events)
  }

  /** One of the events `rest`, after `before`, is a pop that empties the kind's stack inside a callback. */
  predicate EverEmpties(before: seq<Event>, rest: seq<Event>, kind: Kind)
    decreases |rest|
  {
    rest != [] &&
    var front := rest[..|rest| - 1];
    (rest[|rest| - 1] == Pop(kind) && Empties(before + front, kind)) || EverEmpties(before, front, kind)
  }

  /** The events push the id to no stack of the kind and are no API events. */
  predicate Without(events: seq<Event>, kind: Kind, id: ExternalId) {
    forall i :: 0 <= i < |events| ==> events[i] != Push(kind, id) && !events[i].Api?
  }

  /** An id that is not on the stack does not come back without a push. */
  lemma {:induction false} StaysOff(before: seq<Event>, rest: seq<Event>, kind: Kind, id: ExternalId)
    requires Without(rest, kind, id) && id !in StackOf(before, kind)
    ensures id !in StackOf(before + rest, kind)
    decreases |rest|
  {
    if rest == [] {
      assert before + rest == before;
    } else {
      var front := rest[..|rest| - 1];
      assert (before + rest)[..|before + rest| - 1] == before + front;
      assert rest[|rest| - 1] != Push(kind, id);
      StaysOff(before, front, kind, id);
    }
  }

  /** An id that is kept for the next API event stays kept unless the kind is emptied again. */
  lemma {:induction false} StaysKept(before: seq<Event>, rest: seq<Event>, kind: Kind, id: ExternalId)
    requires Without(rest, kind, id) && id !in StackOf(before, kind) && EmptiedSince(before, kind) == Some(id)
    ensures EmptiedSince(before + rest, kind) == Some(id) <==> !EverEmpties(before, rest, kind)
    decreases |rest|
  {
    if rest == [] {
      assert before + rest == before;
    } else {
      var front, e := rest[..|rest| - 1], rest[|rest| - 1];
      assert (before + rest)[..|before + rest| - 1] == before + front;
      assert !e.Api?;
      StaysKept(before, front, kind, id);
      StaysOff(before, front, kind, id);
      if e == Pop(kind) && Empties(before + front, kind) {
        assert StackOf(before + front, kind)[0] in StackOf(before + front, kind);
      }
    }
  }

  /**
    An id that a pop inside a callback took off as the kind's last one is emitted by
    the next API event, once, if and only if no later pop has emptied that kind inside
    a callback before it. (The id is not pushed again in between.)
   */
  lemma PoppedIdIsEmitted(before: seq<Event>, rest: seq<Event>, kind: Kind, id: ExternalId, cid: CorrelationId,
                          order: seq<Kind>, deferredOrder: seq<Kind>)
    requires StackOf(before, kind) == [id] && InsideAfter(before) && Without(rest, kind, id)
    requires CanRun(before + [Pop(kind)] + rest + [Api(cid, order, deferredOrder)])
    ensures CanRun(before + [Pop(kind)] + rest)
    ensures var events := before + [Pop(kind)] + rest;
            var earlier, after := Run(events), Run(events + [Api(cid, order, deferredOrder)]);
            && earlier.emitted <= after.emitted
            && multiset(after.emitted[|earlier.emitted|..])[Emitted(kind, id, cid)]
               == if EverEmpties(before + [Pop(kind)], rest, kind) then 0 else 1
  {
    var popped := before + [Pop(kind)];
    assert popped[..|before|] == before;
    assert (popped + rest + [Api(cid, order, deferredOrder)])[..|popped + rest|] == popped + rest;
    assert StackOf(popped, kind) == [] && EmptiedSince(popped, kind) == Some(id);
    StaysOff(popped, rest, kind, id);
    StaysKept(popped, rest, kind, id);
    ApiEmits(popped + rest, cid, order, deferredOrder, Emitted(kind, id, cid));
  }

  /** A callback in which the kind's stack is emptied twice, of two ids. */
  function EmptiedTwice(kind: Kind, first: ExternalId, second: ExternalId): seq<Event> {
    [EnterCallback, Push(kind, first), Pop(kind), Push(kind, second), Pop(kind), LeaveCallback]
  }

  /** So an id can be lost: after a callback that empties a kind twice, the API event emits the second id only. */
  lemma FirstDeferredIsLost(kind: Kind, first: ExternalId, second: ExternalId, cid: CorrelationId, order: seq<Kind>,
                            deferredOrder: seq<Kind>)
    requires first != second && CanRun(EmptiedTwice(kind, first, second) + [Api(cid, order, deferredOrder)])
    ensures CanRun(EmptiedTwice(kind, first, second))
    ensures var events := EmptiedTwice(kind, first, second);
            var earlier, after := Run(events), Run(events + [Api(cid, order, deferredOrder)]);
            && earlier.emitted <= after.emitted
            && multiset(after.emitted[|earlier.emitted|..])[Emitted(kind, first, cid)] == 0
            && multiset(after.emitted[|earlier.emitted|..])[Emitted(kind, second, cid)] == 1
  {
    var events := EmptiedTwice(kind, first, second);
    assert (events + [Api(cid, order, deferredOrder)])[..|events|] == events;
    assert events[..5][..4] == events[..4] && events[..4][..3] == events[..3];
    assert events[..3][..2] == events[..2] && events[..2][..1] == events[..1] && events[..1][..0] == [];
    assert StackOf(events[..1], kind) == [] && InsideAfter(events[..1]);
    assert StackOf(events[..2], kind) == [first] && InsideAfter(events[..2]);
    assert StackOf(events[..3], kind) == [] && InsideAfter(events[..3]);
    assert StackOf(events[..4], kind) == [second] && InsideAfter(events[..4]);
    assert StackOf(events[..5], kind) == [];
    assert StackOf(events, kind) == [] && EmptiedSince(events, kind) == Some(second);
    ApiEmits(events, cid, order, deferredOrder, Emitted(kind, first, cid));
    ApiEmits(events, cid, order, deferredOrder, Emitted(kind, second, cid));
  }
}
