/**
  Granular API selection: which runtime (SYCL) and driver (Level Zero) functions are
  traced, set one by one or by class after everything was enabled at once.
 */
module Granularity {
  type ApiId = nat

  datatype Group =
    | GroupReserved
    | LevelZero
    | OpenCl
    | Sycl
    | HybridSyclLevelZero
    | HybridSyclOpenCl
    | GroupAll
    | UnknownGroup(value: int)

  datatype ApiClass =
    | ClassReserved
    | GpuOperationCore
    | HostOperationSynchronization
    | ClassAll
    | UnknownClass(value: int)

  datatype Answer = Success | BadArgument | BadApiId | NotImplemented

  /** The calls that touch the selection; the last two are how Enable starts a view over. */
  datatype Call =
    | RuntimeApi(enable: nat, group: Group, id: ApiId)
    | DriverApi(enable: nat, group: Group, id: ApiId)
    | RuntimeApiClass(enable: nat, apiClass: ApiClass, group: Group)
    | DriverApiClass(enable: nat, apiClass: ApiClass, group: Group)
    | RuntimeViewEnabled
    | DriverViewEnabled

  /** What a call does to one side, the runtime or the driver. */
  datatype Effect =
    | Nothing
    | EnableAll
    | Granular(ids: seq<ApiId>, value: nat)   // the functions it names, and their new flag

  /** One side: a flag per function, and whether functions were chosen one by one. */
  datatype Selection = Selection(flags: map<ApiId, nat>, granular: bool)

  /** The functions of the two sides and their classes, fixed when the library is generated. */
  datatype Tables = Tables(
    runtime: set<ApiId>,
    driver: set<ApiId>,
    syclCore: seq<ApiId>,          // kPtiClassSyclGpuOpsCoreApis
    levelZeroCore: seq<ApiId>,     // kPtiClassLzGpuOpsCoreApis
    levelZeroSync: seq<ApiId>)     // kPtiClassLzHostSynchOpApis

  /** Any argument but 0 enables. */
  function Flag(enable: nat): (flag: nat)
    ensures flag == 1 <==> enable != 0
    ensures flag == 0 <==> enable == 0
  {
    if enable != 0 then 1 else 0
  }

  function All(ids: set<ApiId>, value: nat): map<ApiId, nat> {
    map id | id in ids :: value
  }

  /** SetGranularApis gives up at the first function it does not know. */
  function Known(ids: seq<ApiId>, table: set<ApiId>): (known: seq<ApiId>)
    ensures forall id :: id in known ==> id in table && id in ids
    ensures known == ids <==> forall id :: id in ids ==> id in table
  {
    if ids == [] || ids[0] !in table then [] else [ids[0]] + Known(ids[1..], table)
  }

  function SetFlags(flags: map<ApiId, nat>, ids: seq<ApiId>, value: nat): (flags': map<ApiId, nat>)
    requires forall id :: id in ids ==> id in flags
    ensures flags'.Keys == flags.Keys
    ensures forall id :: id in flags ==> flags'[id] == if id in ids then value else flags[id]
  {
    if ids == [] then flags else SetFlags(flags[ids[0] := value], ids[1..], value)
  }

  /** CheckAndSetGranularity: the first choice after an enable-all clears every flag. */
  function MadeGranular(s: Selection): Selection {
    if s.granular then s else Selection(All(s.flags.Keys, 0), true)
  }

  function Apply(s: Selection, e: Effect): Selection
    requires e.Granular? ==> forall id :: id in e.ids ==> id in s.flags
  {
    match e
    case Nothing => s
    case EnableAll => Selection(All(s.flags.Keys, 1), false)
    case Granular(ids, value) => Selection(SetFlags(MadeGranular(s).flags, ids, value), true)
  }

  predicate RuntimeGroup(group: Group) {
    group == Sycl || group == GroupAll
  }

  predicate DriverGroup(group: Group) {
    group == LevelZero || group == GroupAll
  }

  /** What a call means for the runtime side. */
  function RuntimeEffect(t: Tables, call: Call): (e: Effect)
    ensures e.Granular? ==> forall id :: id in e.ids ==> id in t.runtime
  {
    match call
    case RuntimeApi(enable, group, id) =>
      if RuntimeGroup(group) then Granular(Known([id], t.runtime), Flag(enable)) else Nothing
    case RuntimeApiClass(enable, apiClass, group) =>
      if RuntimeGroup(group) && (apiClass == ClassAll || apiClass == GpuOperationCore)
      then Granular(Known(t.syclCore, t.runtime), Flag(enable)) else Nothing
    case RuntimeViewEnabled => EnableAll
    case _ => Nothing
  }

  /** What a call means for the driver side: enabling or disabling all classes enables everything. */
  function DriverEffect(t: Tables, call: Call): (e: Effect)
    ensures e.Granular? ==> forall id :: id in e.ids ==> id in t.driver
  {
    match call
    case DriverApi(enable, group, id) =>
      if DriverGroup(group) then Granular(Known([id], t.driver), Flag(enable)) else Nothing
    case DriverApiClass(enable, apiClass, group) =>
      if !DriverGroup(group) then Nothing
      else (match apiClass
            case ClassAll => EnableAll
            case GpuOperationCore => Granular(Known(t.levelZeroCore, t.driver), Flag(enable))
            case HostOperationSynchronization => Granular(Known(t.levelZeroSync, t.driver), Flag(enable))
            case _ => Nothing)
    case DriverViewEnabled => EnableAll
    case _ => Nothing
  }

  function AnswerTo(t: Tables, call: Call): Answer {
    match call
    case RuntimeApi(_, group, id) =>
      if !RuntimeGroup(group) then BadArgument else if id in t.runtime then Success else BadApiId
    case DriverApi(_, group, id) =>
      if group == OpenCl then NotImplemented
      else if !DriverGroup(group) then BadArgument else if id in t.driver then Success else BadApiId
    case RuntimeApiClass(_, apiClass, group) =>
      if !RuntimeGroup(group) || apiClass == HostOperationSynchronization || apiClass == ClassReserved then BadArgument
      else Success
    case DriverApiClass(_, apiClass, group) =>
      if !DriverGroup(group) || apiClass == ClassReserved then BadArgument else Success
    case _ => Success
  }

  // ---------------------------------------------------------------- what a history of calls means

  predicate Names(e: Effect, id: ApiId) {
    e.Granular? && id in e.ids
  }

  /** No enable-all from position `i` on. */
  ghost predicate NoEnableAllFrom(effects: seq<Effect>, i: nat) {
    forall k :: i <= k < |effects| ==> !effects[k].EnableAll?
  }

  /** The effect at `i` is the last one that names `id`, and no enable-all follows it. */
  ghost predicate LastWord(effects: seq<Effect>, id: ApiId, i: nat) {
    && i < |effects| && Names(effects[i], id)
    && NoEnableAllFrom(effects, i)
    && (forall k :: i < k < |effects| ==> !Names(effects[k], id))
  }

  ghost predicate GranularSince(effects: seq<Effect>) {
    exists i :: 0 <= i < |effects| && effects[i].Granular? && NoEnableAllFrom(effects, i)
  }

  /** The flag of `id` as a reader of the history would tell it. */
  ghost predicate Means(effects: seq<Effect>, id: ApiId, flag: nat) {
    if exists i: nat :: LastWord(effects, id, i)
    then exists i: nat :: LastWord(effects, id, i) && flag == effects[i].value
    else flag == if GranularSince(effects) then 0 else 1
  }

  function ApplyAll(s: Selection, effects: seq<Effect>): (s': Selection)
    requires NamesOnly(effects, s.flags.Keys)
    ensures s'.flags.Keys == s.flags.Keys
    decreases |effects|
  {
    if effects == [] then s
    else Apply(ApplyAll(s, effects[..|effects| - 1]), effects[|effects| - 1])
  }

  function Fresh(table: set<ApiId>): Selection {
    Selection(All(table, 1), false)
  }

  ghost predicate NamesOnly(effects: seq<Effect>, table: set<ApiId>) {
    forall k :: 0 <= k < |effects| && effects[k].Granular? ==> forall id :: id in effects[k].ids ==> id in table
  }

  /** What the last effect makes of what is already there. */
  lemma GranularSinceAppend(before: seq<Effect>, e: Effect)
    ensures GranularSince(before + [e]) <==> e.Granular? || (!e.EnableAll? && GranularSince(before))
  {
    var effects := before + [e];
    assert effects[|before|] == e;
    assert forall k :: 0 <= k < |before| ==> effects[k] == before[k];
    if e.Granular? {
      assert NoEnableAllFrom(effects, |before|);
    } else if e.Nothing? {
      if GranularSince(before) {
        var i :| 0 <= i < |before| && before[i].Granular? && NoEnableAllFrom(before, i);
        assert effects[i].Granular? && NoEnableAllFrom(effects, i);
      }
      if GranularSince(effects) {
        var i :| 0 <= i < |effects| && effects[i].Granular? && NoEnableAllFrom(effects, i);
        StillNoEnableAll(before, e, i);
        assert before[i].Granular?;
      }
    }
  }

  lemma StillNoEnableAll(before: seq<Effect>, e: Effect, i: nat)
    requires NoEnableAllFrom(before + [e], i)
    ensures NoEnableAllFrom(before, i)
  {
    forall k | i <= k < |before| ensures !before[k].EnableAll? { assert (before + [e])[k] == before[k]; }
  }

  lemma LastWordAppend(before: seq<Effect>, e: Effect, id: ApiId, i: nat)
    ensures LastWord(before + [e], id, i) <==>
              (i == |before| && Names(e, id)) || (!e.EnableAll? && !Names(e, id) && LastWord(before, id, i))
  {
    var effects := before + [e];
    assert effects[|before|] == e;
    assert forall k :: 0 <= k < |before| ==> effects[k] == before[k];
    if LastWord(effects, id, i) && i < |before| {
      StillNoEnableAll(before, e, i);
    }
  }

  lemma MeansAppend(before: seq<Effect>, e: Effect, id: ApiId, flag: nat, flag': nat)
    requires Means(before, id, flag)
    requires flag' == match e
                      case Nothing => flag
                      case EnableAll => 1
                      case Granular(ids, value) =>
                        if id in ids then value else if GranularSince(before) then flag else 0
    ensures Means(before + [e], id, flag')
  {
    var effects := before + [e];
    GranularSinceAppend(before, e);
    forall i: nat ensures LastWord(effects, id, i) <==>
              (i == |before| && Names(e, id)) || (!e.EnableAll? && !Names(e, id) && LastWord(before, id, i))
    {
      LastWordAppend(before, e, id, i);
    }
    if Names(e, id) {
      assert LastWord(effects, id, |before|);
      assert effects[|before|] == e;
    } else if !e.EnableAll? && exists i: nat :: LastWord(before, id, i) {
      var i: nat :| LastWord(before, id, i) && flag == before[i].value;
      assert LastWord(effects, id, i) && effects[i] == before[i];
      assert GranularSince(before);
    }
  }

  /**
    A flag is the value of the last call that names the function since everything
    was last enabled; 0 if since then functions were chosen but not this one; and 1
    otherwise. A side is granular exactly if functions were chosen since then.
   */
  lemma {:induction false} FlagsTellHistory(table: set<ApiId>, effects: seq<Effect>, id: ApiId)
    requires NamesOnly(effects, table) && id in table
    ensures var s := ApplyAll(Fresh(table), effects);
            && (s.granular <==> GranularSince(effects))
            && Means(effects, id, s.flags[id])
    decreases |effects|
  {
    if effects != [] {
      var last := |effects| - 1;
      var before, e := effects[..last], effects[last];
      assert effects == before + [e];
      FlagsTellHistory(table, before, id);
      var s, s' := ApplyAll(Fresh(table), before), ApplyAll(Fresh(table), effects);
      GranularSinceAppend(before, e);
      MeansAppend(before, e, id, s.flags[id], s'.flags[id]);
    }
  }

  /** The supporting invariant: a side that is not granular has every flag 1. */
  lemma {:induction false} NotGranularIsAllOn(table: set<ApiId>, effects: seq<Effect>)
    requires NamesOnly(effects, table)
    ensures var s := ApplyAll(Fresh(table), effects); !s.granular ==> s == Fresh(table)
    decreases |effects|
  {
    if effects != [] {
      NotGranularIsAllOn(table, effects[..|effects| - 1]);
    }
  }

  // ---------------------------------------------------------------- what a caller may not expect

  function DriverEffects(t: Tables, calls: seq<Call>): (effects: seq<Effect>)
    ensures NamesOnly(effects, t.driver) && |effects| == |calls|
  {
    seq(|calls|, i requires 0 <= i < |calls| => DriverEffect(t, calls[i]))
  }

  function RuntimeEffects(t: Tables, calls: seq<Call>): (effects: seq<Effect>)
    ensures NamesOnly(effects, t.runtime) && |effects| == |calls|
  {
    seq(|calls|, i requires 0 <= i < |calls| => RuntimeEffect(t, calls[i]))
  }

  /** One side after one more call. */
  lemma OneMoreDriverCall(t: Tables, calls: seq<Call>, call: Call)
    ensures ApplyAll(Fresh(t.driver), DriverEffects(t, calls + [call]))
            == Apply(ApplyAll(Fresh(t.driver), DriverEffects(t, calls)), DriverEffect(t, call))
  {
    assert DriverEffects(t, calls + [call])[..|calls|] == DriverEffects(t, calls);
  }

  lemma OneMoreRuntimeCall(t: Tables, calls: seq<Call>, call: Call)
    ensures ApplyAll(Fresh(t.runtime), RuntimeEffects(t, calls + [call]))
            == Apply(ApplyAll(Fresh(t.runtime), RuntimeEffects(t, calls)), RuntimeEffect(t, call))
  {
    assert RuntimeEffects(t, calls + [call])[..|calls|] == RuntimeEffects(t, calls);
  }

  /** What a refused choice leaves: as the first choice after an enable-all it switches every function off. */
  function Silenced(before: Selection): Selection {
    if before.granular then before else Selection(All(before.flags.Keys, 0), true)
  }

  /**
    A call with an unknown function fails, yet as the first choice after an enable-all
    it silences its whole side; later it changes nothing. The other side stays as it is.
   */
  lemma UnknownApiSilences(t: Tables, calls: seq<Call>, call: Call)
    requires || (call.DriverApi? && DriverGroup(call.group) && call.id !in t.driver)
             || (call.RuntimeApi? && RuntimeGroup(call.group) && call.id !in t.runtime)
    ensures AnswerTo(t, call) == BadApiId
    ensures var before := ApplyAll(Fresh(t.driver), DriverEffects(t, calls));
            ApplyAll(Fresh(t.driver), DriverEffects(t, calls + [call]))
            == if call.DriverApi? then Silenced(before) else before
    ensures var before := ApplyAll(Fresh(t.runtime), RuntimeEffects(t, calls));
            ApplyAll(Fresh(t.runtime), RuntimeEffects(t, calls + [call]))
            == if call.RuntimeApi? then Silenced(before) else before
  {
    OneMoreDriverCall(t, calls, call);
    OneMoreRuntimeCall(t, calls, call);
  }

  /**
    Disabling all classes, for every group that is accepted: on the driver side every
    function ends up enabled, on the runtime side the core functions end up disabled
    and the others as they were.
   */
  lemma DisablingAllClasses(t: Tables, calls: seq<Call>, group: Group)
    ensures DriverGroup(group) ==>
              var call := DriverApiClass(0, ClassAll, group);
              && AnswerTo(t, call) == Success
              && ApplyAll(Fresh(t.driver), DriverEffects(t, calls + [call])) == Fresh(t.driver)
    ensures RuntimeGroup(group) ==>
              var call := RuntimeApiClass(0, ClassAll, group);
              var before := MadeGranular(ApplyAll(Fresh(t.runtime), RuntimeEffects(t, calls)));
              var after := ApplyAll(Fresh(t.runtime), RuntimeEffects(t, calls + [call]));
              && AnswerTo(t, call) == Success
              && forall id :: id in t.runtime ==>
                   after.flags[id] == if id in Known(t.syclCore, t.runtime) then 0 else before.flags[id]
  {
    OneMoreDriverCall(t, calls, DriverApiClass(0, ClassAll, group));
    OneMoreRuntimeCall(t, calls, RuntimeApiClass(0, ClassAll, group));
  }
}
