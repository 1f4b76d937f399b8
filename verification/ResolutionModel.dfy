/**
 The virtual display as a state machine: the portal handshake that starts it, and the resolution
 pipeline with its generation counter, a debounce timer that carries no generation, and a list of
 pending timers and process callbacks that do.
 */
module ResolutionModel {
  import opened Basics

  datatype Size = Size(width: int, height: int)

  /** A listed mode; `spec` is its id or, where that is empty, its name. */
  datatype Mode = Mode(size: Size, spec: Name)

  /** The timers, and the processes with what they were started for. */
  datatype Stage =
    | InitialTimer | RetryTimer | ModeRetryTimer
    | Query | AddMode(added: Size) | Recheck(cvtWidth: int) | ApplyMode(spec: Name) | Check

  datatype Callback = Callback(stage: Stage, generation: nat)

  /** What a finished process reported. */
  datatype Outcome = Failed | NoVirtualOutput | Listed(modes: seq<Mode>) | Configured(size: Size)

  /** The four calls of the handshake, and the handlers of their responses. */
  datatype Slot = CreateSession | SelectDevices | SelectSources | Start

  /** One call made; `id` tells it from the other calls of its kind, as the request path does that the
      portal names in its reply. */
  datatype Call = Call(slot: Slot, id: nat)

  datatype State = State(
    calls: set<Call>,                // D-Bus calls not yet replied to
    made: nat,                       // history: how many calls were made
    request: Option<Call>,           // whose path is the current request path, if it is set
    hooks: set<Slot>,                // handlers connected to the response signal
    generation: nat,
    active: bool,
    session: bool,
    requested: Size,
    retries: nat,
    debounce: bool,                  // the debounce timer is running
    pending: seq<Callback>,
    chains: nat,                     // history: what could act when the generation began
    modeRetries: nat                 // history: mode retries since the generation began
  )

  /** `at` picks any pending callback; the list's order means nothing. Any connected handler may be the
      one a response is given to, whichever call the response is about. `unhook` says whether the D-Bus
      library takes handlers off when asked without naming one. */
  datatype Event =
    | CreateDisplay(size: Size, unhook: bool)
    | Replied(call: Call)
    | CallFailed(call: Call)
    | Response(taker: Slot, of: Call, ok: bool)
    | ChangeResolution(size: Size, scaleChanged: bool)
    | DestroyDisplay(unhook: bool)
    | DebounceFires
    | Fires(at: nat, outcome: Outcome)

  const IDLE: State := State({}, 0, None, {}, 0, false, false, Size(0, 0), 0, false, [], 0, 0)

  function Distance(a: int, b: int): nat {
    if a <= b then b - a else a - b
  }

  predicate Near(a: Size, b: Size) {
    Distance(a.width, b.width) <= 8 && a.height == b.height
  }

  /** Division by 8 that drops the fraction, then times 8. */
  function CvtWidth(width: int): int {
    if width >= 0 then width / 8 * 8 else -((-width) / 8 * 8)
  }

  // The mode search.

  function FirstExact(modes: seq<Mode>, size: Size): Option<Mode> {
    if modes == [] then None else if modes[0].size == size then Some(modes[0]) else FirstExact(modes[1..], size)
  }

  function FirstNear(modes: seq<Mode>, size: Size): Option<Mode> {
    if modes == [] then None else if Near(modes[0].size, size) then Some(modes[0]) else FirstNear(modes[1..], size)
  }

  /** The mode to apply, its spec empty when there is none, and the size requested from then on. */
  function ChooseMode(modes: seq<Mode>, size: Size): Mode {
    var exact := FirstExact(modes, size);
    if exact.Some? && exact.value.spec != [] then exact.value
    else
      match FirstNear(modes, size)
      case None => Mode(size, [])
      case Some(m) => m
  }

  /** After a mode was added, its CVT width counts as near, too. */
  function FirstAdded(modes: seq<Mode>, size: Size, cvtWidth: int): Option<Mode> {
    if modes == [] then None
    else if modes[0].size.height == size.height
        && (modes[0].size.width == cvtWidth || Near(modes[0].size, size)) then Some(modes[0])
    else FirstAdded(modes[1..], size, cvtWidth)
  }

  // The callbacks.

  function Queue(s: State, stage: Stage): State {
    s.(pending := s.pending + [Callback(stage, s.generation)])
  }

  function Setup(s: State): State {
    if s.active then Queue(s, Query) else s
  }

  function QueryFinished(s: State, outcome: Outcome): State {
    match outcome
    case NoVirtualOutput => Queue(s, RetryTimer)
    case Listed(modes) =>
      var m := ChooseMode(modes, s.requested);
      var s1 := s.(requested := m.size);
      Queue(s1, if m.spec == [] then AddMode(Size(CvtWidth(m.size.width), m.size.height)) else ApplyMode(m.spec))
    case _ => s
  }

  /** With no mode found none is applied, and the size stays. */
  function RecheckFinished(s: State, cvtWidth: int, outcome: Outcome): State {
    var found := if outcome.Listed? then FirstAdded(outcome.modes, s.requested, cvtWidth) else None;
    match found
    case None => Queue(s, ApplyMode([]))
    case Some(m) => Queue(s.(requested := Size(m.size.width, s.requested.height)), ApplyMode(m.spec))
  }

  /** The size the compositor reports, zero when it reports none. */
  function ConfiguredSize(outcome: Outcome): Size {
    if outcome.Configured? then outcome.size else Size(0, 0)
  }

  predicate RetriesMode(s: State, outcome: Outcome) {
    !Near(ConfiguredSize(outcome), s.requested) && s.retries < 3
  }

  function CheckFinished(s: State, outcome: Outcome): State {
    if RetriesMode(s, outcome) then
      Queue(s.(retries := s.retries + 1, modeRetries := s.modeRetries + 1), ModeRetryTimer)
    else
      var c := ConfiguredSize(outcome);
      s.(retries := 0, requested := if c.width > 0 && c.height > 0 then c else s.requested)
  }

  /** What a callback of the current generation does. */
  function Acts(s: State, stage: Stage, outcome: Outcome): State {
    match stage
    case Query => QueryFinished(s, outcome)
    case AddMode(added) => Queue(s, Recheck(added.width))
    case Recheck(cvtWidth) => RecheckFinished(s, cvtWidth, outcome)
    case ApplyMode(_) => Queue(s, Check)
    case Check => CheckFinished(s, outcome)
    case _ => Setup(s)
  }

  function Remove(pending: seq<Callback>, at: nat): seq<Callback>
    requires at < |pending|
  {
    pending[..at] + pending[at + 1..]
  }

  function Fired(s: State, at: nat, outcome: Outcome): State
    requires at < |s.pending|
  {
    var s1 := s.(pending := Remove(s.pending, at));
    if s.pending[at].generation != s.generation then s1 else Acts(s1, s.pending[at].stage, outcome)
  }

  // The entry points.

  /** A new generation starts with `chains` live callbacks and no mode retries. */
  function Began(s: State, chains: nat): State {
    s.(generation := s.generation + 1, chains := chains, modeRetries := 0)
  }

  function Destroyed(s: State, unhook: bool): State {
    var s0 := if s.request.None? then s else s.(request := None, hooks := if unhook then {} else s.hooks);
    var s1 := Began(s0.(debounce := false), 0);
    if s.session then s1.(session := false, active := false) else s1
  }

  /** Connects the handler and makes the call. */
  function Called(s: State, slot: Slot): State {
    s.(calls := s.calls + {Call(slot, s.made)}, made := s.made + 1, hooks := s.hooks + {slot})
  }

  function Created(s: State, size: Size, unhook: bool): State {
    var s1 := s.(retries := 0);
    Called((if s.active || s.session then Destroyed(s1, unhook) else s1).(requested := size), CreateSession)
  }

  function Started(s: State): State {
    Queue(Began(s.(active := true), if s.debounce then 2 else 1), InitialTimer)
  }

  /** The handler `taker` accepts a response that is about the current request, and ignores all others.
      Only the response to a CreateSession call carries a session handle. */
  function Responded(s: State, taker: Slot, of: Call, ok: bool): State {
    if s.request != Some(of) then s else Accepted(s.(request := None), taker, of, ok)
  }

  function Accepted(s: State, taker: Slot, of: Call, ok: bool): State {
    var s1 := s.(hooks := s.hooks - {taker});
    if !ok then s1
    else
      match taker
      case CreateSession => Called(s1.(session := of.slot == CreateSession), SelectDevices)
      case SelectDevices => Called(s1, SelectSources)
      case SelectSources => Called(s1, Start)
      case Start => Started(s1)
  }

  predicate ChangesSize(s: State, size: Size) {
    !Near(size, s.requested)
  }

  function Changed(s: State, size: Size, scaleChanged: bool): State {
    if !s.active || size.width < 1 || size.height < 1 || !(ChangesSize(s, size) || scaleChanged) then s
    else Began(s.(requested := size, retries := 0, debounce := true), 1)
  }

  predicate Enabled(s: State, event: Event) {
    match event
    case Replied(call) => call in s.calls
    case CallFailed(call) => call in s.calls
    case Response(taker, _, _) => taker in s.hooks
    case DebounceFires => s.debounce
    case Fires(at, _) => at < |s.pending|
    case _ => true
  }

  function Apply(s: State, event: Event): State
    requires Enabled(s, event)
  {
    match event
    case CreateDisplay(size, unhook) => Created(s, size, unhook)
    case Replied(call) => s.(calls := s.calls - {call}, request := Some(call))
    case CallFailed(call) => s.(calls := s.calls - {call}, hooks := s.hooks - {call.slot})
    case Response(taker, of, ok) => Responded(s, taker, of, ok)
    case ChangeResolution(size, scaleChanged) => Changed(s, size, scaleChanged)
    case DestroyDisplay(unhook) => Destroyed(s, unhook)
    case DebounceFires => Setup(s.(debounce := false))
    case Fires(at, outcome) => Fired(s, at, outcome)
  }

  function Exec(events: seq<Event>): Option<State>
    decreases |events|
  {
    if events == [] then Some(IDLE)
    else
      var before := Exec(events[..|events| - 1]);
      var last := events[|events| - 1];
      if before.Some? && Enabled(before.value, last) then Some(Apply(before.value, last)) else None
  }
}
