/**
  Enabling and disabling as the library does it: the mode changer of the Level Zero
  collector with its reference counts, and the handler that calls it.
 */
module ViewEnablingClass {
  import opened ViewRecordInfo
  import opened ViewEnabling

  class ZeStartStopModeChanger {
    const disabledMode: bool
    var refCount: nat
    var globalRefCount: int
    var callbackOn: bool

    constructor (disabledMode: bool)
      ensures this.disabledMode == disabledMode
      ensures refCount == 0 && globalRefCount == (if disabledMode then 0 else 1) && !callbackOn
    {
      this.disabledMode := disabledMode;
      refCount, globalRefCount, callbackOn := 0, if disabledMode then 0 else 1, false;
    }

    method ToStartTracing()
      requires refCount == 0 && disabledMode ==> globalRefCount == 0
      modifies this
      ensures refCount == old(refCount) + 1
      ensures callbackOn == (old(refCount) == 0 || old(callbackOn))
      ensures globalRefCount == if old(refCount) == 0 && disabledMode then 1 else old(globalRefCount)
    {
      if refCount > 0 {
        refCount := refCount + 1;
        return;
      }
      if disabledMode {
        assert globalRefCount == 0;
        globalRefCount := globalRefCount + 1;
      }
      callbackOn := true;
      refCount := refCount + 1;
    }

    method ToStopTracing()
      requires refCount <= 1 && disabledMode ==> globalRefCount == 1
      modifies this
      ensures refCount == if old(refCount) > 0 then old(refCount) - 1 else 0
      ensures callbackOn == (refCount > 0 && old(callbackOn))
      ensures globalRefCount == if refCount == 0 && disabledMode then 0 else old(globalRefCount)
    {
      if refCount > 0 {
        refCount := refCount - 1;
      }
      if refCount > 0 {
        return;
      }
      if disabledMode {
        globalRefCount := globalRefCount - 1;
        assert globalRefCount == 0;
      }
      callbackOn := false;
    }
  }

  /** The keys a map of flags holds true. */
  function On<K>(flags: map<K, bool>): set<K> {
    set key | key in flags && flags[key]
  }

  lemma OnUpdated<K>(flags: map<K, bool>, key: K, value: bool)
    ensures On(flags[key := value]) == if value then On(flags) + {key} else On(flags) - {key}
  {
  }

  /** The flags of all threads but one. */
  function Without(flags: map<(ThreadId, Kind), bool>, thread: ThreadId): map<(ThreadId, Kind), bool> {
    map pair | pair in flags && pair.0 != thread :: flags[pair]
  }

  lemma OnWithout(flags: map<(ThreadId, Kind), bool>, thread: ThreadId, s: State)
    requires s.marked == On(flags)
    ensures On(Without(flags, thread)) == s.marked - MarksOf(s, thread)
  {
  }

  class ViewSwitches {
    const config: Config
    const changer: ZeStartStopModeChanger
    var callbacksSet: bool
    var viewKindEnabled: map<(ThreadId, Kind), bool>   // map_view_kind_enabled of every thread
    var apiViewState: map<Kind, bool>                  // list_of_api_view_state
    var collectionEnabled: bool
    var abnormal: bool                                 // collection_state_ of the collector
    var refused: bool                                  // view_state_ holds an error
    ghost var starts: nat
    ghost var stops: nat
    ghost var orphaned: multiset<(ThreadId, Kind)>

    ghost function Now(): State
      reads this, changer
    {
      State(callbacksSet, On(viewKindEnabled), On(apiViewState), collectionEnabled,
            Tracer(changer.refCount, changer.globalRefCount, changer.callbackOn, starts, stops),
            abnormal, refused, orphaned)
    }

    ghost predicate Valid()
      reads this, changer
    {
      && changer.disabledMode == config.disabledMode
      && Balanced(config, Now())
    }

    constructor (config: Config)
      ensures this.config == config && fresh(changer) && Valid() && Now() == Start(config)
    {
      this.config := config;
      changer := new ZeStartStopModeChanger(config.disabledMode);
      callbacksSet, collectionEnabled := false, false;
      viewKindEnabled, apiViewState := map[], map[];
      abnormal, refused := false, false;
      starts, stops, orphaned := 0, 0, multiset{};
    }

    /** SetApiViewState, for the kinds the handler calls it for. */
    method SetApiViewState(kind: Kind, enabled: bool)
      modifies `apiViewState
      ensures On(apiViewState) == WithView(old(On(apiViewState)), kind, enabled)
    {
      if kind != EXTERNAL_CORRELATION && HasRecords(kind) {
        OnUpdated(apiViewState, kind, enabled);
        apiViewState := apiViewState[kind := enabled];
      }
    }

    method MarkAndStart(thread: ThreadId, kind: Kind)
      requires Valid() && (thread, kind) !in On(viewKindEnabled)
      modifies `viewKindEnabled, `starts, changer
      ensures var s := old(Now());
              Now() == s.(marked := s.marked + {(thread, kind)}, tracer := StartTracing(config, s.tracer))
    {
      StartBalances(config, Now(), (thread, kind));
      OnUpdated(viewKindEnabled, (thread, kind), true);
      viewKindEnabled := viewKindEnabled[(thread, kind) := true];
      changer.ToStartTracing();
      starts := starts + 1;
    }

    method UnmarkAndStop(thread: ThreadId, kind: Kind)
      requires Valid() && (thread, kind) in On(viewKindEnabled)
      requires changer.refCount <= 1 && config.disabledMode ==> changer.globalRefCount == 1
      modifies `viewKindEnabled, `stops, changer
      ensures var s := old(Now());
              Now() == s.(marked := s.marked - {(thread, kind)}, tracer := StopTracing(config, s.tracer))
    {
      StopBalances(config, Now(), (thread, kind));
      OnUpdated(viewKindEnabled, (thread, kind), false);
      viewKindEnabled := viewKindEnabled[(thread, kind) := false];
      changer.ToStopTracing();
      stops := stops + 1;
    }

    /** The Level Zero part of Enable: the thread's first enable of a kind starts the collector. */
    method EnableLevelZero(thread: ThreadId, kind: Kind)
      requires Valid() && config.collector
      modifies `viewKindEnabled, `starts, changer
      ensures Valid() && Now() == Started(config, old(Now()), thread, kind)
    {
      if kind in LEVEL_ZERO_KINDS {
        if (thread, kind) !in viewKindEnabled || !viewKindEnabled[(thread, kind)] {
          StartBalances(config, Now(), (thread, kind));
          MarkAndStart(thread, kind);
        }
      }
    }

    /** The Level Zero part of Disable: it stops the collector if the thread had enabled the kind. */
    method DisableLevelZero(thread: ThreadId, kind: Kind)
      requires Valid() && config.collector && StopAsserts(config, Now(), thread, kind)
      modifies `viewKindEnabled, `stops, changer
      ensures Valid() && Now() == Stopped(config, old(Now()), thread, kind)
    {
      if kind in LEVEL_ZERO_KINDS {
        if (thread, kind) in viewKindEnabled && viewKindEnabled[(thread, kind)] {
          StopBalances(config, Now(), (thread, kind));
          UnmarkAndStop(thread, kind);
        }
      }
    }

    /** The end of Disable: the view's state, and collection if no view is on any more. */
    method SwitchViewOff(kind: Kind)
      requires Valid()
      modifies `apiViewState, `collectionEnabled
      ensures Valid()
      ensures var s := old(Now());
              var views := WithView(s.views, kind, false);
              Now() == s.(collectionEnabled := views != {} && s.collectionEnabled, views := views)
    {
      SetApiViewState(kind, false);
      var any := IsAnyViewEnabled();
      if !any {
        collectionEnabled := false;
      }
    }

    /** The end of Enable, with `enabled` as found. */
    method SwitchViewOn(kind: Kind, enabled: bool) returns (r: Answer)
      requires Valid() && (!enabled ==> !collectionEnabled)
      modifies `apiViewState, `collectionEnabled
      ensures Valid() && r == if enabled then Success else NotImplemented
      ensures var s := old(Now());
              Now() == if enabled then s.(collectionEnabled := true, views := WithView(s.views, kind, true)) else s
    {
      collectionEnabled := enabled;
      if !collectionEnabled {
        return NotImplemented;
      }
      SetApiViewState(kind, true);
      r := Success;
    }

    method Enable(thread: ThreadId, kind: Kind) returns (r: Answer)
      requires Valid()
      modifies this, changer
      ensures Valid() && Now() == EnableView(config, old(Now()), thread, kind)
      ensures r == EnableAnswer(config, old(Now()), kind)
    {
      if !callbacksSet {
        return NoCallbacksSet;
      }
      var enabled := collectionEnabled;
      if kind == DEVICE_CPU_KERNEL {
        return NotImplemented;
      }
      if !IsValidViewKind(kind) {
        return BadArgument;
      }
      if kind == RUNTIME_API {
        if !config.traceSycl {
          return NotImplemented;
        }
        if kind !in apiViewState || !apiViewState[kind] {
          enabled := true;
        }
      }
      if config.collector {
        enabled := true;
        EnableLevelZero(thread, kind);
      }
      r := SwitchViewOn(kind, enabled);
    }

    method Disable(thread: ThreadId, kind: Kind) returns (r: Answer)
      requires Valid() && StopAsserts(config, Now(), thread, kind)
      modifies this, changer
      ensures Valid() && Now() == DisableView(config, old(Now()), thread, kind)
      ensures r == DisableAnswer(kind)
    {
      if kind == 0 {
        return BadArgument;
      }
      if config.collector {
        DisableLevelZero(thread, kind);
      }
      SwitchViewOff(kind);
      r := Success;
    }

    /** ptiViewEnable */
    method ViewEnable(thread: ThreadId, kind: Kind) returns (r: Answer)
      requires Valid()
      modifies this, changer
      ensures Valid() && Now() == Step(config, old(Now()), Event.Enable(thread, kind))
      ensures r == if Refuses(old(Now()), kind) then RefusalAnswer(old(Now()))
                   else EnableAnswer(config, old(Now()), kind)
    {
      if refused {
        return ProfilingNotSupported;
      }
      if !IsPtiViewKindEnum(kind) {
        return BadArgument;
      }
      r := Enable(thread, kind);
    }

    /** ptiViewDisable */
    method ViewDisable(thread: ThreadId, kind: Kind) returns (r: Answer)
      requires Valid() && Asserts(config, Now(), Event.Disable(thread, kind))
      modifies this, changer
      ensures Valid() && Now() == Step(config, old(Now()), Event.Disable(thread, kind))
      ensures r == if Refuses(old(Now()), kind) then RefusalAnswer(old(Now())) else DisableAnswer(kind)
    {
      if refused {
        return ProfilingNotSupported;
      }
      if !IsPtiViewKindEnum(kind) {
        return BadArgument;
      }
      r := Disable(thread, kind);
    }

    /** The end of a thread, with which its map_view_kind_enabled goes. */
    method ExitThread(thread: ThreadId)
      requires Valid()
      modifies `viewKindEnabled, `orphaned
      ensures Valid() && Now() == Step(config, old(Now()), Exit(thread))
    {
      OnWithout(viewKindEnabled, thread, Now());
      ExitBalances(config, Now(), thread);
      orphaned := orphaned + multiset(MarksOf(Now(), thread));
      viewKindEnabled := Without(viewKindEnabled, thread);
    }

    method AbnormalStopTracing()
      requires Valid() && Asserts(config, Now(), AbnormalStop)
      modifies `abnormal, changer`globalRefCount
      ensures Valid() && Now() == Step(config, old(Now()), AbnormalStop)
    {
      StepBalances(config, Now(), AbnormalStop);
      changer.globalRefCount := changer.globalRefCount - 1;
      abnormal := true;
      assert changer.globalRefCount == 0;
    }

    method IsAnyViewEnabled() returns (any: bool)
      ensures any <==> On(apiViewState) != {}
    {
      var rest := apiViewState.Keys;
      while rest != {}
        invariant rest <= apiViewState.Keys
        invariant forall kind :: kind in apiViewState && kind !in rest ==> !apiViewState[kind]
        decreases rest
      {
        var kind :| kind in rest;
        if apiViewState[kind] {
          assert kind in On(apiViewState);
          return true;
        }
        rest := rest - {kind};
      }
      any := false;
    }
  }
}
