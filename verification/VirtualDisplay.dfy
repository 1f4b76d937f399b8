/** The virtual display's entry points and process callbacks, each against its transition. */
module VirtualDisplay {
  import opened Basics
  import opened ResolutionModel

  /** The two search loops over the listed modes; the second one runs when the first found no spec. */
  method FindMode(modes: seq<Mode>, requested: Size) returns (chosen: Mode)
    ensures chosen == ChooseMode(modes, requested)
  {
    var spec: Name := [];
    var width := requested.width;
    var i := 0;
    while i < |modes|
      invariant i <= |modes| && spec == [] && FirstExact(modes, requested) == FirstExact(modes[i..], requested)
      decreases |modes| - i
    {
      if modes[i].size == requested {
        spec := modes[i].spec;
        break;
      }
      i := i + 1;
    }
    if spec == [] {
      i := 0;
      while i < |modes|
        invariant i <= |modes| && spec == [] && width == requested.width
        invariant FirstNear(modes, requested) == FirstNear(modes[i..], requested)
        decreases |modes| - i
      {
        if Near(modes[i].size, requested) {
          spec := modes[i].spec;
          width := modes[i].size.width;
          break;
        }
        i := i + 1;
      }
    }
    chosen := Mode(Size(width, requested.height), spec);
  }

  /** The search for the added mode. */
  method FindAddedMode(modes: seq<Mode>, requested: Size, cvtWidth: int) returns (found: Option<Mode>)
    ensures found == FirstAdded(modes, requested, cvtWidth)
  {
    var i := 0;
    while i < |modes|
      invariant i <= |modes| && FirstAdded(modes, requested, cvtWidth) == FirstAdded(modes[i..], requested, cvtWidth)
      decreases |modes| - i
    {
      if modes[i].size.height == requested.height
          && (modes[i].size.width == cvtWidth || Near(modes[i].size, requested)) {
        return Some(modes[i]);
      }
      i := i + 1;
    }
    return None;
  }

  class Display {
    var currentRequest: Option<Call>   // whose path is the current one, if one is set
    var hooks: set<Slot>
    ghost var calls: set<Call>
    ghost var made: nat
    var resolutionGeneration: nat
    var displayActive: bool
    var hasSession: bool
    var requestedSize: Size
    var resolutionRetryCount: nat
    var debounceRunning: bool
    ghost var pending: seq<Callback>
    ghost var chains: nat
    ghost var modeRetries: nat

    ghost function Model(): State
      reads this
    {
      State(calls, made, currentRequest, hooks, resolutionGeneration, displayActive, hasSession, requestedSize,
          resolutionRetryCount, debounceRunning, pending, chains, modeRetries)
    }

    constructor ()
      ensures Model() == IDLE
    {
      resolutionGeneration, displayActive, hasSession, requestedSize := 0, false, false, Size(0, 0);
      resolutionRetryCount, debounceRunning := 0, false;
      currentRequest, hooks := None, {};
      calls, made, pending, chains, modeRetries := {}, 0, [], 0, 0;
    }

    ghost method Post(stage: Stage)
      modifies `pending
      ensures Model() == Queue(old(Model()), stage)
    {
      pending := pending + [Callback(stage, resolutionGeneration)];
    }

    method NextGeneration(ghost live: nat)
      modifies `resolutionGeneration, `chains, `modeRetries
      ensures Model() == Began(old(Model()), live)
    {
      resolutionGeneration := resolutionGeneration + 1;
      chains, modeRetries := live, 0;
    }

    method SetupVirtualDisplayResolution()
      modifies `pending
      ensures Model() == Setup(old(Model()))
    {
      if !displayActive { return; }
      Post(Query);
    }

    /** Drops the current request; whether handlers come off is up to the D-Bus library. */
    method DropRequest(unhook: bool)
      modifies `currentRequest, `hooks
      ensures Model() == old(Model()).(request := None, hooks := if old(currentRequest).Some?
          && unhook then {} else old(hooks))
    {
      if currentRequest.Some? {
        if unhook { hooks := {}; }
        currentRequest := None;
      }
    }

    method DestroyDisplay(unhook: bool)
      modifies this
      ensures Model() == Destroyed(old(Model()), unhook)
    {
      DropRequest(unhook);
      debounceRunning := false;
      NextGeneration(0);
      if !hasSession { return; }
      hasSession := false;
      displayActive := false;
    }

    method MakeCall(slot: Slot)
      modifies `hooks, `calls, `made
      ensures Model() == Called(old(Model()), slot)
    {
      hooks := hooks + {slot};
      calls, made := calls + {Call(slot, made)}, made + 1;
    }

    /** The portal replies to a call: with an error, or with the path of its request. */
    method CallFinished(call: Call, failed: bool)
      requires call in calls
      modifies `currentRequest, `hooks, `calls
      ensures Model() == Apply(old(Model()), if failed then CallFailed(call) else Replied(call))
    {
      calls := calls - {call};
      if failed {
        hooks := hooks - {call.slot};
        return;
      }
      currentRequest := Some(call);
    }

    method CreateDisplay(size: Size, unhook: bool)
      modifies this
      ensures Model() == Created(old(Model()), size, unhook)
    {
      hide Destroyed, Called;
      resolutionRetryCount := 0;
      if displayActive || hasSession {
        DestroyDisplay(unhook);
      }
      requestedSize := size;
      MakeCall(CreateSession);
    }

    /** The four response handlers: `taker` is given the response to the call `of`, and ignores it unless
        that is the call whose request path is the current one. */
    method OnResponse(taker: Slot, of: Call, ok: bool)
      requires taker in hooks
      modifies this
      ensures Model() == Apply(old(Model()), Response(taker, of, ok))
      ensures old(currentRequest) != Some(of) ==> Model() == old(Model())
      ensures old(currentRequest) == Some(of) ==>
          currentRequest.None? && hooks >= old(hooks) - {taker} && (ok || calls == old(calls))
    {
      if currentRequest.None? || of != currentRequest.value { return; }
      hooks := hooks - {taker};
      currentRequest := None;
      if !ok { return; }
      match taker
      case CreateSession =>
        hasSession := of.slot == CreateSession;
        MakeCall(SelectDevices);
      case SelectDevices => MakeCall(SelectSources);
      case SelectSources => MakeCall(Start);
      case Start => OnStarted();
    }

    method OnStarted()
      modifies this
      ensures Model() == Started(old(Model()))
    {
      displayActive := true;
      NextGeneration(if debounceRunning then 2 else 1);
      Post(InitialTimer);
    }

    method ChangeResolution(newSize: Size, scaleChanged: bool)
      modifies this
      ensures Model() == Apply(old(Model()), Event.ChangeResolution(newSize, scaleChanged))
    {
      hide Near;
      if !displayActive || newSize.width < 1 || newSize.height < 1 { return; }
      var sizeChanged := !Near(newSize, requestedSize);
      if !sizeChanged && !scaleChanged { return; }
      requestedSize := newSize;
      resolutionRetryCount := 0;
      NextGeneration(1);
      debounceRunning := true;
    }

    method DebounceTimeout()
      requires debounceRunning
      modifies this
      ensures Model() == Apply(old(Model()), DebounceFires)
    {
      debounceRunning := false;
      SetupVirtualDisplayResolution();
    }

    /** `at` is where the callback with this stage and generation stands in the pending list. */
    ghost predicate Due(at: nat, stage: Stage, generation: nat)
      reads this
    {
      at < |pending| && pending[at] == Callback(stage, generation)
    }

    ghost method Take(at: nat)
      requires at < |pending|
      modifies `pending
      ensures Model() == old(Model()).(pending := Remove(old(pending), at))
    {
      pending := Remove(pending, at);
    }

    method TimerFired(ghost at: nat, ghost stage: Stage, generation: nat, ghost outcome: Outcome)
      requires Due(at, stage, generation) && (stage.InitialTimer? || stage.RetryTimer? || stage.ModeRetryTimer?)
      modifies this
      ensures Model() == Fired(old(Model()), at, outcome)
    {
      hide Remove;
      Take(at);
      if generation == resolutionGeneration {
        SetupVirtualDisplayResolution();
      }
    }

    method QueryProcessFinished(ghost at: nat, generation: nat, outcome: Outcome)
      requires Due(at, Query, generation)
      modifies this
      ensures Model() == Fired(old(Model()), at, outcome)
    {
      hide Remove, ChooseMode, CvtWidth;
      Take(at);
      if generation != resolutionGeneration { return; }
      match outcome
      case NoVirtualOutput => Post(RetryTimer);
      case Listed(modes) =>
        var mode := FindMode(modes, requestedSize);
        requestedSize := mode.size;
        if mode.spec == [] {
          Post(AddMode(Size(CvtWidth(requestedSize.width), requestedSize.height)));
        } else {
          Post(ApplyMode(mode.spec));
        }
      case _ =>
    }

    method AddModeProcessFinished(ghost at: nat, generation: nat, added: Size, ghost outcome: Outcome)
      requires Due(at, AddMode(added), generation)
      modifies this
      ensures Model() == Fired(old(Model()), at, outcome)
    {
      hide Remove;
      Take(at);
      if generation != resolutionGeneration { return; }
      Post(Recheck(added.width));
    }

    method RecheckProcessFinished(ghost at: nat, generation: nat, cvtWidth: int, outcome: Outcome)
      requires Due(at, Recheck(cvtWidth), generation)
      modifies this
      ensures Model() == Fired(old(Model()), at, outcome)
    {
      hide Remove, FirstAdded;
      Take(at);
      if generation != resolutionGeneration { return; }
      var newModeId: Name := [];
      if outcome.Listed? {
        var found := FindAddedMode(outcome.modes, requestedSize, cvtWidth);
        if found.Some? {
          newModeId := found.value.spec;
          requestedSize := Size(found.value.size.width, requestedSize.height);
        }
      }
      Post(ApplyMode(newModeId));
    }

    method ApplyProcessFinished(ghost at: nat, generation: nat, ghost spec: Name, ghost outcome: Outcome)
      requires Due(at, ApplyMode(spec), generation)
      modifies this
      ensures Model() == Fired(old(Model()), at, outcome)
    {
      hide Remove;
      Take(at);
      if generation != resolutionGeneration { return; }
      Post(Check);
    }

    /** What the check makes of the compositor's report; when it ends the pipeline the requested size is
        the reported one, if there is one, and near the request unless the retries are used up. */
    method CheckMode(outcome: Outcome)
      modifies `requestedSize, `resolutionRetryCount, `modeRetries, `pending
      ensures Model() == CheckFinished(old(Model()), outcome)
      ensures !RetriesMode(old(Model()), outcome) ==>
                var c := ConfiguredSize(outcome);
                && (requestedSize == c || c.width <= 0 || c.height <= 0)
                && (old(resolutionRetryCount) < 3 ==> Near(requestedSize, old(requestedSize)))
    {
      var configured := ConfiguredSize(outcome);
      if !Near(configured, requestedSize) && resolutionRetryCount < 3 {
        resolutionRetryCount := resolutionRetryCount + 1;
        modeRetries := modeRetries + 1;
        Post(ModeRetryTimer);
        return;
      }
      resolutionRetryCount := 0;
      if configured.width > 0 && configured.height > 0 {
        requestedSize := configured;
      }
    }

    method CheckProcessFinished(ghost at: nat, generation: nat, outcome: Outcome)
      requires Due(at, Check, generation)
      modifies this
      ensures Model() == Fired(old(Model()), at, outcome)
    {
      hide Remove, CheckFinished;
      Take(at);
      if generation != resolutionGeneration { return; }
      CheckMode(outcome);
    }
  }
}
