/**
  The external correlation maps as a thread changes them in place.
 */
module ExternalCorrelationClass {
  import opened ExternalCorrelation

  class ExternalCorrelationMaps {
    var active: map<Kind, seq<ExternalId>>
    var deferred: map<Kind, seq<ExternalId>>
    var inside: bool
    var emitted: seq<Emitted>

    ghost function Now(): State
      reads this
    {
      State(active, deferred, inside, emitted)
    }

    ghost predicate Valid()
      reads this
    {
      NoEmptyStack(active) && NoEmptyStack(deferred)
    }

    constructor ()
      ensures Valid() && Now() == Start
    {
      active, deferred, inside, emitted := map[], map[], false, [];
    }

    method PushExternalKindId(kind: Kind, id: ExternalId)
      requires Valid()
      modifies `active
      ensures Valid() && Now() == Step(old(Now()), Push(kind, id))
    {
      if kind !in active {
        active := active[kind := []];
      }
      active := active[kind := active[kind] + [id]];
    }

    method PopExternalKindId(kind: Kind) returns (r: Answer)
      requires Valid()
      modifies `active, `deferred
      ensures Valid() && Now() == Step(old(Now()), Pop(kind)) && r == PopAnswer(old(Now()), kind)
    {
      if kind !in active {
        return QueueEmpty;
      }
      var stack := active[kind];
      var willNeedFullRecord := |stack| == 1 && inside;
      r := Popped(stack[|stack| - 1]);
      if willNeedFullRecord {
        if kind !in deferred {
          deferred := deferred[kind := []];
        }
        deferred := deferred[kind := deferred[kind] + [stack[|stack| - 1]]];
        active := active - {kind};
      } else {
        active := active[kind := stack[..|stack| - 1]];
        if active[kind] == [] {
          active := active - {kind};
        }
      }
    }

    /** What the collector does just before and just after it calls a subscriber. */
    method SetIsWithinSubscriberCallback(within: bool)
      requires Valid()
      modifies `inside
      ensures Valid() && Now() == Step(old(Now()), if within then EnterCallback else LeaveCallback)
    {
      inside := within;
    }

    /** One walk over a map: a record with the top id of each kind. */
    method InsertTops(stacks: map<Kind, seq<ExternalId>>, order: seq<Kind>, cid: CorrelationId)
      requires forall k :: 0 <= k < |order| ==> order[k] in stacks && StackIn(stacks, order[k]) != []
      modifies `emitted
      ensures emitted == old(emitted) + Tops(stacks, order, cid)
    {
      ghost var before, records := emitted, Tops(stacks, order, cid);
      var i := 0;
      while i < |order|
        invariant i <= |order| && emitted == before + records[..i]
      {
        var stack := stacks[order[i]];
        emitted := emitted + [Emitted(order[i], stack[|stack| - 1], cid)];
        assert records[..i + 1] == records[..i] + [records[i]];
        i := i + 1;
      }
      assert records[..i] == records;
    }

    method GenerateExternalCorrelationRecords(cid: CorrelationId, order: seq<Kind>, deferredOrder: seq<Kind>)
      requires Valid() && VisitsAll(order, active) && VisitsAll(deferredOrder, deferred)
      modifies `emitted, `deferred
      ensures Valid() && Now() == Step(old(Now()), Api(cid, order, deferredOrder))
    {
      VisitedAreKeys(order, active);
      VisitedAreKeys(deferredOrder, deferred);
      InsertTops(active, order, cid);
      InsertTops(deferred, deferredOrder, cid);
      deferred := map[];
    }
  }
}
