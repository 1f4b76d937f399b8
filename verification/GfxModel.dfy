/**
 The video channel as a state machine: one transition per lock region of the three threads that
 share `RdpGfxChannel`. The main thread sends, purges and resets; the worker checks capacity,
 pops and submits; the peer thread acknowledges, suppresses and advertises capabilities.
 */
module GfxModel {
  import opened Basics

  type Payload = Bytes

  datatype Size = Size(width: nat, height: nat)

  /** `seqNo` is a history number, the position of the frame among the encoder's outputs;
      the program never reads it. */
  datatype Frame = Frame(data: Payload, isKey: bool, hash: nat, seqNo: nat)

  /** What the duplicate test compares: key flag, size and hash. */
  datatype Print = Print(isKey: bool, size: nat, hash: nat)

  datatype Stamp = Stamp(id: nat, sentAt: int)

  /** What happened to the in-flight window, in order. */
  datatype Event = Inserted(id: nat) | Acked(id: nat) | StartFailed(id: nat) | Cleared

  datatype MainPc = MainIdle | Sending(frame: Frame) | PurgedQueue | PurgedPending
  datatype WorkerPc = Waiting | Admitted | Holding(frame: Frame) | Transmitting(frame: Frame, id: nat)

  datatype Outcome = Sent | StartFrameFailed | SurfaceCommandFailed

  datatype State = State(
    ready: bool,
    suppressed: bool,
    gate: bool,                // m_waitingForKeyFrame
    surface: Option<Size>,     // Some exactly while m_hasActiveSurface
    queue: seq<Frame>,
    pending: set<nat>,
    stamps: seq<Stamp>,
    frameId: nat,
    lastRtt: int,
    main: MainPc,
    worker: WorkerPc,
    encoded: seq<Frame>,       // history: every nonempty encoder output
    transmitted: seq<Frame>,   // history: every frame whose bytes reached the client
    events: seq<Event>         // history of the in-flight window
  )

  datatype Step =
    | SendCheck(data: Payload, isKey: bool, hash: nat)
    | SendEnqueue
    | PurgeQueue
    | PurgePending
    | PurgeGate
    | Reset(size: Size, ok: bool)
    | CheckCapacity(now: int)
    | Pop
    | Submit(now: int)
    | Transmit(outcome: Outcome)
    | Ack(id: nat, now: int)   // FrameAcknowledge and QoeFrameAcknowledge act alike
    | Suppress(on: bool)
    | Caps(size: Size)

  const MAX_QUEUED: nat := 20

  function PrintOf(f: Frame): Print {
    Print(f.isKey, |f.data|, f.hash)
  }

  function MaxInFlight(rtt: int): nat {
    if rtt > 100 then 24 else if rtt > 50 then 20 else 16
  }

  function TimeoutMs(rtt: int): int {
    if rtt * 2 > 120 then rtt * 2 else 120
  }

  /** The ids an acknowledgement of `id` leaves in flight. */
  function IdsAbove(ids: set<nat>, id: nat): set<nat> {
    set i | i in ids && i > id
  }

  /** The stamps an acknowledgement of `id` leaves in place. */
  function StampsAbove(stamps: seq<Stamp>, id: nat): seq<Stamp> {
    if stamps == [] then []
    else (if stamps[0].id > id then [stamps[0]] else []) + StampsAbove(stamps[1..], id)
  }

  /** The last stamp an acknowledgement of `id` covers. */
  function NewestCovered(stamps: seq<Stamp>, id: nat): Option<Stamp> {
    if stamps == [] then None
    else if stamps[|stamps| - 1].id <= id then Some(stamps[|stamps| - 1])
    else NewestCovered(stamps[..|stamps| - 1], id)
  }

  predicate Enabled(s: State, step: Step) {
    match step
    case SendCheck(_, _, _) => s.main.MainIdle?
    case SendEnqueue => s.main.Sending?
    case PurgeQueue => s.main.MainIdle?
    case PurgePending => s.main.PurgedQueue?
    case PurgeGate => s.main.PurgedPending?
    case Reset(_, _) => s.main.MainIdle? && !s.worker.Transmitting?  // submitFrame holds m_mutex
    case CheckCapacity(_) => s.worker.Waiting? || s.worker.Admitted?
    case Pop => s.worker.Admitted?
    case Submit(_) => s.worker.Holding?
    case Transmit(_) => s.worker.Transmitting?
    case Ack(_, _) => true
    case Suppress(_) => true
    case Caps(_) => true
  }

  function ApplySendCheck(s: State, data: Payload, isKey: bool, hash: nat): State {
    if data == [] then s
    else
      var f := Frame(data, isKey, hash, |s.encoded|);
      var s1 := s.(encoded := s.encoded + [f]);
      if !s.ready || s.suppressed || (s.gate && !isKey) then s1
      else s1.(gate := false, main := Sending(f))
  }

  function ApplySendEnqueue(s: State): State
    requires s.main.Sending?
  {
    var f := s.main.frame;
    var s1 := s.(main := MainIdle);
    if s.queue != [] && PrintOf(s.queue[|s.queue| - 1]) == PrintOf(f) then s1
    else if |s.queue| > MAX_QUEUED then s1.(queue := [], gate := true)
    else s1.(queue := s.queue + [f])
  }

  function ApplyReset(s: State, size: Size, ok: bool): State {
    if s.surface == Some(size) then s
    else if ok then s.(ready := true, surface := Some(size), gate := true)
    else s.(ready := false, surface := None)
  }

  function ClearWindow(s: State): State {
    s.(pending := {}, stamps := [], events := s.events + [Cleared])
  }

  function ApplyCheckCapacity(s: State, now: int): State {
    if |s.pending| < MaxInFlight(s.lastRtt) then s.(worker := Admitted)
    else if s.stamps != [] && now - s.stamps[0].sentAt > TimeoutMs(s.lastRtt) then
      ClearWindow(s).(worker := Admitted)
    else s.(worker := Waiting)
  }

  function ApplyPop(s: State): State {
    if s.queue == [] || !s.ready || s.suppressed then s.(worker := Waiting)
    else s.(worker := Holding(s.queue[0]), queue := s.queue[1..])
  }

  function ApplySubmit(s: State, now: int): State
    requires s.worker.Holding?
  {
    if !s.ready || s.suppressed then s.(worker := Waiting)
    else
      s.(frameId := s.frameId + 1,
         pending := s.pending + {s.frameId},
         stamps := s.stamps + [Stamp(s.frameId, now)],
         events := s.events + [Inserted(s.frameId)],
         worker := Transmitting(s.worker.frame, s.frameId))
  }

  function ApplyTransmit(s: State, outcome: Outcome): State
    requires s.worker.Transmitting?
  {
    match outcome
    case Sent => s.(worker := Waiting, transmitted := s.transmitted + [s.worker.frame])
    case SurfaceCommandFailed => s.(worker := Waiting)
    case StartFrameFailed =>
      s.(worker := Waiting, pending := s.pending - {s.worker.id}, events := s.events + [StartFailed(s.worker.id)])
  }

  function ApplyAck(s: State, id: nat, now: int): State {
    var newest := NewestCovered(s.stamps, id);
    s.(pending := IdsAbove(s.pending, id),
       stamps := StampsAbove(s.stamps, id),
       lastRtt := if newest.Some? then now - newest.value.sentAt else s.lastRtt,
       events := s.events + [Acked(id)])
  }

  function ApplySuppress(s: State, on: bool): State {
    s.(suppressed := on, queue := if on then [] else s.queue)
  }

  function Apply(s: State, step: Step): State
    requires Enabled(s, step)
  {
    match step
    case SendCheck(data, isKey, hash) => ApplySendCheck(s, data, isKey, hash)
    case SendEnqueue => ApplySendEnqueue(s)
    case PurgeQueue => s.(queue := [], main := PurgedQueue)
    case PurgePending => ClearWindow(s).(main := PurgedPending)
    case PurgeGate => s.(gate := true, main := MainIdle)
    case Reset(size, ok) => ApplyReset(s, size, ok)
    case CheckCapacity(now) => ApplyCheckCapacity(s, now)
    case Pop => ApplyPop(s)
    case Submit(now) => ApplySubmit(s, now)
    case Transmit(outcome) => ApplyTransmit(s, outcome)
    case Ack(id, now) => ApplyAck(s, id, now)
    case Suppress(on) => ApplySuppress(s, on)
    case Caps(size) => s.(ready := true, surface := Some(size))
  }

  /** A session before its first encoder output. */
  predicate Init(s: State) {
    && s.queue == [] && s.pending == {} && s.stamps == [] && s.frameId == 0 && s.lastRtt == 0
    && s.main == MainIdle && (s.worker.Waiting? || s.worker.Admitted?)
    && s.encoded == [] && s.transmitted == [] && s.events == []
  }

  /** `s` followed through `steps`; None when some step was not enabled. */
  function Exec(s: State, steps: seq<Step>): Option<State>
    decreases |steps|
  {
    if steps == [] then Some(s)
    else
      var before := Exec(s, steps[..|steps| - 1]);
      var last := steps[|steps| - 1];
      if before.Some? && Enabled(before.value, last) then Some(Apply(before.value, last)) else None
  }

  ghost predicate Reachable(s: State) {
    exists s0, steps :: Init(s0) && Exec(s0, steps) == Some(s)
  }
}
