/**
  The selection as the library keeps it: one state map per side, the map of groups in
  granular mode, and the entry points that change them.
 */
module GranularityClass {
  import opened Granularity

  /** The first unknown function of a class ends the known ones. */
  lemma {:induction false} KnownUpTo(ids: seq<ApiId>, table: set<ApiId>, k: nat)
    requires k < |ids| && (forall j :: 0 <= j < k ==> ids[j] in table) && ids[k] !in table
    ensures Known(ids, table) == ids[..k]
  {
    if k > 0 {
      KnownUpTo(ids[1..], table, k - 1);
      assert ids[..k] == [ids[0]] + ids[1..][..k - 1];
    }
  }

  lemma SetOneMore(flags: map<ApiId, nat>, ids: seq<ApiId>, k: nat, value: nat)
    requires k < |ids| && forall j :: 0 <= j <= k ==> ids[j] in flags
    ensures forall id :: id in ids[..k + 1] ==> id in flags
    ensures SetFlags(flags, ids[..k + 1], value) == SetFlags(flags, ids[..k], value)[ids[k] := value]
  {
    assert ids[..k + 1] == ids[..k] + [ids[k]];
  }

  class ApiSelection {
    const tables: Tables
    var runtimeState: map<ApiId, nat>       // pti_api_id_runtime_sycl_state
    var driverState: map<ApiId, nat>        // pti_api_id_driver_levelzero_state
    var granularitySet: map<Group, bool>    // map_granularity_set_

    ghost predicate Valid()
      reads this
    {
      runtimeState.Keys == tables.runtime && driverState.Keys == tables.driver
    }

    predicate IsGranular(group: Group)
      reads this
    {
      group in granularitySet && granularitySet[group]
    }

    ghost function Runtime(): Selection
      reads this
    {
      Selection(runtimeState, IsGranular(Sycl))
    }

    ghost function Driver(): Selection
      reads this
    {
      Selection(driverState, IsGranular(LevelZero))
    }

    constructor (tables: Tables)
      ensures this.tables == tables && Valid()
      ensures Runtime() == Fresh(tables.runtime) && Driver() == Fresh(tables.driver)
    {
      this.tables := tables;
      runtimeState := All(tables.runtime, 1);
      driverState := All(tables.driver, 1);
      granularitySet := map[];
    }

    /** EnableAllIndividualApis and DisableAllIndividualApis: every flag of a state map is set. */
    static method SetAllIndividualApis(state: map<ApiId, nat>, value: nat) returns (state': map<ApiId, nat>)
      ensures state' == All(state.Keys, value)
    {
      state' := state;
      var rest := state.Keys;
      while rest != {}
        invariant rest <= state.Keys && state'.Keys == state.Keys
        invariant forall id :: id in state && id !in rest ==> state'[id] == value
        decreases rest
      {
        var id :| id in rest;
        state' := state'[id := value];
        rest := rest - {id};
      }
    }

    method EnableAllRuntimeApisWithoutGranularity()
      requires Valid()
      modifies `runtimeState, `granularitySet
      ensures Valid() && Runtime() == Apply(old(Runtime()), EnableAll) && Driver() == old(Driver())
    {
      runtimeState := SetAllIndividualApis(runtimeState, 1);
      granularitySet := granularitySet[Sycl := false];
    }

    method EnableAllDriverApisWithoutGranularity()
      requires Valid()
      modifies `driverState, `granularitySet
      ensures Valid() && Driver() == Apply(old(Driver()), EnableAll) && Runtime() == old(Runtime())
    {
      driverState := SetAllIndividualApis(driverState, 1);
      granularitySet := granularitySet[LevelZero := false];
      granularitySet := granularitySet[OpenCl := false];
    }

    method ResetTracingStateToAllDisabled(group: Group)
      modifies `runtimeState, `driverState
      ensures runtimeState == if group == Sycl then All(old(runtimeState).Keys, 0) else old(runtimeState)
      ensures driverState == if group == LevelZero then All(old(driverState).Keys, 0) else old(driverState)
    {
      match group
      case Sycl => runtimeState := SetAllIndividualApis(runtimeState, 0);
      case LevelZero => driverState := SetAllIndividualApis(driverState, 0);
      case _ =>
    }

    method CheckAndSetGranularity(group: Group)
      requires group == Sycl || group == LevelZero
      modifies `runtimeState, `driverState, `granularitySet
      ensures Runtime() == if group == Sycl then MadeGranular(old(Runtime())) else old(Runtime())
      ensures Driver() == if group == LevelZero then MadeGranular(old(Driver())) else old(Driver())
    {
      if group !in granularitySet || !granularitySet[group] {
        ResetTracingStateToAllDisabled(group);
        granularitySet := granularitySet[group := true];
      }
    }

    method SetApiTracingState(group: Group, id: ApiId, enable: nat) returns (r: Answer)
      requires Valid()
      modifies `runtimeState, `driverState
      ensures Valid()
      ensures runtimeState == if group == Sycl
                              then SetFlags(old(runtimeState), Known([id], tables.runtime), Flag(enable))
                              else old(runtimeState)
      ensures driverState == if group == LevelZero
                             then SetFlags(old(driverState), Known([id], tables.driver), Flag(enable))
                             else old(driverState)
      ensures r == match group
                   case Sycl => if id in tables.runtime then Success else BadApiId
                   case LevelZero => if id in tables.driver then Success else BadApiId
                   case OpenCl => NotImplemented
                   case UnknownGroup(_) => Success
                   case _ => BadArgument
    {
      var newValue := if enable != 0 then 1 else 0;
      r := Success;
      match group {
        case Sycl =>
          if id in runtimeState {
            runtimeState := runtimeState[id := newValue];
          } else {
            r := BadApiId;
          }
        case LevelZero =>
          if id in driverState {
            driverState := driverState[id := newValue];
          } else {
            r := BadApiId;
          }
        case OpenCl => r := NotImplemented;
        case UnknownGroup(_) =>
        case _ => r := BadArgument;
      }
    }

    method CheckGranularityAndSetState(group: Group, id: ApiId, enable: nat) returns (r: Answer)
      requires Valid() && (group == Sycl || group == LevelZero)
      modifies `runtimeState, `driverState, `granularitySet
      ensures Valid()
      ensures Runtime() == if group == Sycl
                           then Apply(old(Runtime()), Granular(Known([id], tables.runtime), Flag(enable)))
                           else old(Runtime())
      ensures Driver() == if group == LevelZero
                          then Apply(old(Driver()), Granular(Known([id], tables.driver), Flag(enable)))
                          else old(Driver())
      ensures r == if id in (if group == Sycl then tables.runtime else tables.driver) then Success else BadApiId
    {
      CheckAndSetGranularity(group);
      r := SetApiTracingState(group, id, enable);
    }

    /** SetGranularApis: the functions of a class are set until one is unknown. */
    static method SetGranularApis(newValue: nat, classOps: seq<ApiId>, state: map<ApiId, nat>)
      returns (state': map<ApiId, nat>, r: Answer)
      ensures state' == SetFlags(state, Known(classOps, state.Keys), newValue)
      ensures r == if Known(classOps, state.Keys) == classOps then Success else BadApiId
    {
      state' := state;
      var k := 0;
      while k < |classOps|
        invariant k <= |classOps| && state'.Keys == state.Keys
        invariant forall j :: 0 <= j < k ==> classOps[j] in state
        invariant state' == SetFlags(state, classOps[..k], newValue)
      {
        if classOps[k] in state' {
          SetOneMore(state, classOps, k, newValue);
          state' := state'[classOps[k] := newValue];
        } else {
          KnownUpTo(classOps, state.Keys, k);
          return state', BadApiId;
        }
        k := k + 1;
      }
      assert classOps[..k] == classOps;
      r := Success;
    }

    method SetRuntimeClassSpecificGranularIds(newValue: nat, apiClass: ApiClass) returns (r: Answer)
      requires Valid()
      modifies `runtimeState
      ensures Valid() && r == Success
      ensures runtimeState == if apiClass == GpuOperationCore
                              then SetFlags(old(runtimeState), Known(tables.syclCore, tables.runtime), newValue)
                              else old(runtimeState)
    {
      match apiClass {
        case GpuOperationCore =>
          var ignored;
          runtimeState, ignored := SetGranularApis(newValue, tables.syclCore, runtimeState);
        case _ =>
      }
      r := Success;
    }

    method SetDriverClassSpecificGranularIds(newValue: nat, apiClass: ApiClass) returns (r: Answer)
      requires Valid()
      modifies `driverState
      ensures Valid() && r == Success
      ensures driverState == match apiClass
                             case HostOperationSynchronization =>
                               SetFlags(old(driverState), Known(tables.levelZeroSync, tables.driver), newValue)
                             case GpuOperationCore =>
                               SetFlags(old(driverState), Known(tables.levelZeroCore, tables.driver), newValue)
                             case _ => old(driverState)
    {
      var ignored;
      match apiClass {
        case HostOperationSynchronization =>
          driverState, ignored := SetGranularApis(newValue, tables.levelZeroSync, driverState);
        case GpuOperationCore =>
          driverState, ignored := SetGranularApis(newValue, tables.levelZeroCore, driverState);
        case _ =>
      }
      r := Success;
    }

    method ProcessGroupForRuntimePerClass(newValue: nat) returns (r: Answer)
      requires Valid()
      modifies `runtimeState, `driverState, `granularitySet
      ensures Valid() && r == Success && Driver() == old(Driver())
      ensures Runtime() == Apply(old(Runtime()), Granular(Known(tables.syclCore, tables.runtime), newValue))
    {
      CheckAndSetGranularity(Sycl);
      r := SetRuntimeClassSpecificGranularIds(newValue, GpuOperationCore);
    }

    method ProcessGroupForDriverPerClass(newValue: nat, apiClass: ApiClass) returns (r: Answer)
      requires Valid() && (apiClass == GpuOperationCore || apiClass == HostOperationSynchronization)
      modifies `runtimeState, `driverState, `granularitySet
      ensures Valid() && r == Success && Runtime() == old(Runtime())
      ensures var ids := if apiClass == GpuOperationCore then tables.levelZeroCore else tables.levelZeroSync;
              Driver() == Apply(old(Driver()), Granular(Known(ids, tables.driver), newValue))
    {
      CheckAndSetGranularity(LevelZero);
      r := SetDriverClassSpecificGranularIds(newValue, apiClass);
    }

    // ptiViewEnableRuntimeApi
    method EnableRuntimeApi(enable: nat, group: Group, id: ApiId) returns (r: Answer)
      requires Valid()
      modifies this
      ensures var call := RuntimeApi(enable, group, id);
              && Valid() && r == AnswerTo(tables, call)
              && Runtime() == Apply(old(Runtime()), RuntimeEffect(tables, call))
              && Driver() == Apply(old(Driver()), DriverEffect(tables, call))
    {
      if group != Sycl && group != GroupAll {
        return BadArgument;
      }
      r := CheckGranularityAndSetState(Sycl, id, enable);
    }

    // ptiViewEnableDriverApi
    method EnableDriverApi(enable: nat, group: Group, id: ApiId) returns (r: Answer)
      requires Valid()
      modifies this
      ensures var call := DriverApi(enable, group, id);
              && Valid() && r == AnswerTo(tables, call)
              && Runtime() == Apply(old(Runtime()), RuntimeEffect(tables, call))
              && Driver() == Apply(old(Driver()), DriverEffect(tables, call))
    {
      if group == OpenCl {
        return NotImplemented;
      }
      if group != LevelZero && group != GroupAll {
        return BadArgument;
      }
      r := CheckGranularityAndSetState(LevelZero, id, enable);
    }

    // ptiViewEnableRuntimeApiClass
    method EnableRuntimeApiClass(enable: nat, apiClass: ApiClass, group: Group) returns (r: Answer)
      requires Valid()
      modifies this
      ensures var call := RuntimeApiClass(enable, apiClass, group);
              && Valid() && r == AnswerTo(tables, call)
              && Runtime() == Apply(old(Runtime()), RuntimeEffect(tables, call))
              && Driver() == Apply(old(Driver()), DriverEffect(tables, call))
    {
      r := Success;
      if group != Sycl && group != GroupAll {
        return BadArgument;
      }
      var newValue := if enable != 0 then 1 else 0;
      match apiClass {
        case HostOperationSynchronization => r := BadArgument;
        case ClassReserved => r := BadArgument;
        case UnknownClass(_) =>
        case _ =>
          r := ProcessGroupForRuntimePerClass(newValue);
      }
    }

    // ptiViewEnableDriverApiClass
    method EnableDriverApiClass(enable: nat, apiClass: ApiClass, group: Group) returns (r: Answer)
      requires Valid()
      modifies this
      ensures var call := DriverApiClass(enable, apiClass, group);
              && Valid() && r == AnswerTo(tables, call)
              && Runtime() == Apply(old(Runtime()), RuntimeEffect(tables, call))
              && Driver() == Apply(old(Driver()), DriverEffect(tables, call))
    {
      r := Success;
      if group != LevelZero && group != GroupAll {
        return BadArgument;
      }
      var newValue := if enable != 0 then 1 else 0;
      match apiClass {
        case ClassReserved => r := BadArgument;
        case ClassAll => EnableAllDriverApisWithoutGranularity();
        case UnknownClass(_) =>
        case _ =>
          r := ProcessGroupForDriverPerClass(newValue, apiClass);
      }
    }
  }
}
