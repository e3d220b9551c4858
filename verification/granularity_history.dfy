/**
  What the entry points do to a function's flag, read off the calls themselves: their
  groups, classes, function ids and enable arguments.
 */
module GranularityHistory {
  import opened Granularity

  /** The two sides whose functions are chosen. */
  datatype Side = Runtime | Driver

  function TableOf(t: Tables, side: Side): set<ApiId> {
    if side.Runtime? then t.runtime else t.driver
  }

  /** The side after the calls. */
  function After(t: Tables, side: Side, calls: seq<Call>): (s: Selection)
    ensures s.flags.Keys == TableOf(t, side)
  {
    if side.Runtime? then ApplyAll(Fresh(t.runtime), RuntimeEffects(t, calls))
    else ApplyAll(Fresh(t.driver), DriverEffects(t, calls))
  }

  // ---------------------------------------------------------------- what a call says

  /** The group belongs to the side, or is all groups. */
  predicate Accepts(side: Side, group: Group) {
    group == GroupAll || (side.Runtime? && group == Sycl) || (side.Driver? && group == LevelZero)
  }

  /** The call enables every function of the side: its view is enabled, or, for the driver, all classes are set. */
  predicate StartsOver(side: Side, call: Call) {
    match call
    case RuntimeViewEnabled => side.Runtime?
    case DriverViewEnabled => side.Driver?
    case DriverApiClass(_, apiClass, group) => side.Driver? && Accepts(side, group) && apiClass == ClassAll
    case _ => false
  }

  /** The class has functions of its own on the side. */
  predicate HasClass(side: Side, apiClass: ApiClass) {
    match apiClass
    case GpuOperationCore => true
    case HostOperationSynchronization => side.Driver?
    case ClassAll => side.Runtime?
    case _ => false
  }

  /** The table that says which. */
  function ClassTable(t: Tables, side: Side, apiClass: ApiClass): seq<ApiId>
    requires HasClass(side, apiClass)
  {
    if side.Runtime? then t.syclCore
    else if apiClass == GpuOperationCore then t.levelZeroCore
    else t.levelZeroSync
  }

  /** The call chooses functions of the side, one or a class of them. */
  predicate Chooses(side: Side, call: Call) {
    match call
    case RuntimeApi(_, group, _) => side.Runtime? && Accepts(side, group)
    case DriverApi(_, group, _) => side.Driver? && Accepts(side, group)
    case RuntimeApiClass(_, apiClass, group) => side.Runtime? && Accepts(side, group) && HasClass(side, apiClass)
    case DriverApiClass(_, apiClass, group) => side.Driver? && Accepts(side, group) && HasClass(side, apiClass)
    case _ => false
  }

  /** The function stands in the list, and so do only known functions up to it. */
  ghost predicate Reached(ids: seq<ApiId>, table: set<ApiId>, id: ApiId) {
    exists k :: 0 <= k < |ids| && ids[k] == id && forall j :: 0 <= j <= k ==> ids[j] in table
  }

  /** The call chooses this function: by its id, or with its class. */
  ghost predicate ChoosesApi(t: Tables, side: Side, call: Call, id: ApiId) {
    && Chooses(side, call)
    && match call
       case RuntimeApi(_, _, named) => named == id && id in t.runtime
       case DriverApi(_, _, named) => named == id && id in t.driver
       case RuntimeApiClass(_, apiClass, _) => Reached(ClassTable(t, side, apiClass), t.runtime, id)
       case DriverApiClass(_, apiClass, _) => Reached(ClassTable(t, side, apiClass), t.driver, id)
       case _ => false
  }

  // ---------------------------------------------------------------- what the flags are

  /** Nothing enables the whole side from call `i` on. */
  ghost predicate NotStartedOver(side: Side, calls: seq<Call>, i: nat) {
    forall k :: i <= k < |calls| ==> !StartsOver(side, calls[k])
  }

  /** Call `i` is the last one that chooses the function, and nothing enables the whole side after it. */
  ghost predicate LastChoice(t: Tables, side: Side, calls: seq<Call>, id: ApiId, i: nat) {
    && i < |calls| && ChoosesApi(t, side, calls[i], id) && NotStartedOver(side, calls, i)
    && forall k :: i < k < |calls| ==> !ChoosesApi(t, side, calls[k], id)
  }

  /** Functions of the side were chosen since everything was enabled. */
  ghost predicate ChosenSince(side: Side, calls: seq<Call>) {
    exists i: nat :: i < |calls| && Chooses(side, calls[i]) && NotStartedOver(side, calls, i)
  }

  lemma {:induction false} KnownAreReached(ids: seq<ApiId>, table: set<ApiId>, id: ApiId)
    ensures id in Known(ids, table) <==> Reached(ids, table, id)
  {
    if ids != [] && ids[0] in table {
      KnownAreReached(ids[1..], table, id);
      if Reached(ids[1..], table, id) {
        var k :| 0 <= k < |ids[1..]| && ids[1..][k] == id && forall j :: 0 <= j <= k ==> ids[1..][j] in table;
        assert forall j :: 1 <= j <= k + 1 ==> ids[j] == ids[1..][j - 1];
        assert ids[k + 1] == id;
      }
      if Reached(ids, table, id) {
        var k :| 0 <= k < |ids| && ids[k] == id && forall j :: 0 <= j <= k ==> ids[j] in table;
        if k > 0 {
          assert ids[1..][k - 1] == id && forall j :: 0 <= j <= k - 1 ==> ids[1..][j] == ids[j + 1];
        } else {
          assert Known(ids, table)[0] == id;
        }
      }
    }
  }

  function EffectOn(t: Tables, side: Side, call: Call): Effect {
    if side.Runtime? then RuntimeEffect(t, call) else DriverEffect(t, call)
  }

  /** A call's effect on a side is what the call says. */
  lemma EffectIsCall(t: Tables, side: Side, call: Call, id: ApiId)
    ensures var e := EffectOn(t, side, call);
            && (e.EnableAll? <==> StartsOver(side, call))
            && (e.Granular? <==> Chooses(side, call))
            && (Names(e, id) <==> ChoosesApi(t, side, call, id))
            && (e.Granular? ==> e.value == if call.enable != 0 then 1 else 0)
  {
    KnownAreReached(t.syclCore, t.runtime, id);
    KnownAreReached(t.levelZeroCore, t.driver, id);
    KnownAreReached(t.levelZeroSync, t.driver, id);
  }

  lemma EffectsAreCalls(t: Tables, side: Side, calls: seq<Call>, effects: seq<Effect>, id: ApiId)
    requires |effects| == |calls| && forall k :: 0 <= k < |calls| ==> effects[k] == EffectOn(t, side, calls[k])
    ensures forall i: nat :: NotStartedOver(side, calls, i) <==> NoEnableAllFrom(effects, i)
    ensures forall i: nat :: LastChoice(t, side, calls, id, i) <==> LastWord(effects, id, i)
    ensures ChosenSince(side, calls) <==> GranularSince(effects)
  {
    forall k | 0 <= k < |calls|
      ensures (effects[k].EnableAll? <==> StartsOver(side, calls[k]))
      ensures (effects[k].Granular? <==> Chooses(side, calls[k]))
      ensures (Names(effects[k], id) <==> ChoosesApi(t, side, calls[k], id))
    {
      EffectIsCall(t, side, calls[k], id);
    }
    forall i: nat ensures NotStartedOver(side, calls, i) <==> NoEnableAllFrom(effects, i) {
      SameStarts(side, calls, effects, i);
    }
    if ChosenSince(side, calls) {
      var i: nat :| i < |calls| && Chooses(side, calls[i]) && NotStartedOver(side, calls, i);
      assert effects[i].Granular? && NoEnableAllFrom(effects, i);
    }
    if GranularSince(effects) {
      var i :| 0 <= i < |effects| && effects[i].Granular? && NoEnableAllFrom(effects, i);
      assert Chooses(side, calls[i]) && NotStartedOver(side, calls, i);
    }
  }

  lemma SameStarts(side: Side, calls: seq<Call>, effects: seq<Effect>, i: nat)
    requires |effects| == |calls|
    requires forall k :: 0 <= k < |calls| ==> (effects[k].EnableAll? <==> StartsOver(side, calls[k]))
    ensures NotStartedOver(side, calls, i) <==> NoEnableAllFrom(effects, i)
  {
  }

  /**
    A function's flag after any calls, on either side. If some call chose the function
    since everything was enabled, it is 1 or 0 as the last such call's argument says;
    else it is 0 if other functions were chosen since then, and 1 if none was.
   */
  lemma FlagTellsCalls(t: Tables, side: Side, calls: seq<Call>, id: ApiId)
    requires id in TableOf(t, side)
    ensures var flag := After(t, side, calls).flags[id];
            && (forall i: nat :: LastChoice(t, side, calls, id, i) ==> flag == if calls[i].enable != 0 then 1 else 0)
            && ((forall i: nat :: !LastChoice(t, side, calls, id, i)) ==>
                  flag == if ChosenSince(side, calls) then 0 else 1)
    ensures After(t, side, calls).granular <==> ChosenSince(side, calls)
  {
    var effects := if side.Runtime? then RuntimeEffects(t, calls) else DriverEffects(t, calls);
    FlagsTellHistory(TableOf(t, side), effects, id);
    EffectsAreCalls(t, side, calls, effects, id);
    var flag := After(t, side, calls).flags[id];
    forall i: nat | LastChoice(t, side, calls, id, i) ensures flag == if calls[i].enable != 0 then 1 else 0 {
      assert LastWord(effects, id, i);
      var k: nat :| LastWord(effects, id, k) && flag == effects[k].value;
      OneLastWord(effects, id, i, k);
      EffectIsCall(t, side, calls[i], id);
    }
  }

  lemma OneLastWord(effects: seq<Effect>, id: ApiId, i: nat, k: nat)
    requires LastWord(effects, id, i) && LastWord(effects, id, k)
    ensures i == k
  {
  }

  // ---------------------------------------------------------------- what the answers mean

  /** The call names one function of the side. */
  predicate IsApiCall(side: Side, call: Call) {
    if side.Runtime? then call.RuntimeApi? else call.DriverApi?
  }

  /**
    Success of a call that names a function means that the function then has the flag
    asked for; BadApiId, that the group was taken but the function is unknown; any
    other answer, that nothing changed on either side.
   */
  lemma ApiAnswers(t: Tables, side: Side, calls: seq<Call>, call: Call)
    requires IsApiCall(side, call)
    ensures AnswerTo(t, call) == Success <==> ChoosesApi(t, side, call, call.id)
    ensures AnswerTo(t, call) == Success ==>
              After(t, side, calls + [call]).flags[call.id] == if call.enable != 0 then 1 else 0
    ensures AnswerTo(t, call) == BadApiId <==> Accepts(side, call.group) && call.id !in TableOf(t, side)
    ensures AnswerTo(t, call) == NotImplemented <==> side.Driver? && call.group == OpenCl
    ensures !Accepts(side, call.group) ==>
              forall both: Side :: After(t, both, calls + [call]) == After(t, both, calls)
  {
    OneMoreDriverCall(t, calls, call);
    OneMoreRuntimeCall(t, calls, call);
  }

  /** The call names a class of functions of the side. */
  predicate IsClassCall(side: Side, call: Call) {
    if side.Runtime? then call.RuntimeApiClass? else call.DriverApiClass?
  }

  /**
    A class call is refused exactly for a foreign group, the reserved class, and, on the
    runtime side, the class of host synchronization; then nothing changes on either
    side. No class call changes the other side.
   */
  lemma ClassAnswers(t: Tables, side: Side, calls: seq<Call>, call: Call)
    requires IsClassCall(side, call)
    ensures AnswerTo(t, call) == (if !Accepts(side, call.group) || call.apiClass == ClassReserved
                                     || (side.Runtime? && call.apiClass == HostOperationSynchronization)
                                  then BadArgument else Success)
    ensures forall both: Side :: both != side || AnswerTo(t, call) == BadArgument ==>
              After(t, both, calls + [call]) == After(t, both, calls)
  {
    OneMoreDriverCall(t, calls, call);
    OneMoreRuntimeCall(t, calls, call);
  }
}
