/** The channel object itself. Each method runs the lock regions of one call in a row; the specification
    of a region is the transition of the same name, and `Valid` is what every transition keeps. */
module GfxChannel {
  import opened Basics
  import opened GfxModel
  import opened GfxInFlight

  /** `sendFrame` uninterrupted: the gate, then the queue. */
  function SendFrameSpec(s: State, data: Payload, isKey: bool, hash: nat): State
    requires s.main.MainIdle?
  {
    var s1 := ApplySendCheck(s, data, isKey, hash);
    if s1.main.Sending? then ApplySendEnqueue(s1) else s1
  }

  function OutcomeOf(startOk: bool, commandOk: bool): Outcome {
    if !startOk then StartFrameFailed else if commandOk then Sent else SurfaceCommandFailed
  }

  /** `submitFrame` uninterrupted: the insertion, then the protocol calls. */
  function SubmitFrameSpec(s: State, now: int, outcome: Outcome): State
    requires s.worker.Holding?
  {
    var s1 := ApplySubmit(s, now);
    if s1.worker.Transmitting? then ApplyTransmit(s1, outcome) else s1
  }

  lemma {:induction false} InitInv(s: State)
    requires Init(s)
    ensures Inv(s)
  {
  }

  lemma {:induction false} StampsIncrease(s: State)
    requires Inv(s)
    ensures Increasing(s.stamps)
  {
  }

  lemma {:induction false} ResetKeeps(s: State, size: Size, ok: bool)
    requires Inv(s) && s.main.MainIdle? && !s.worker.Transmitting?
    ensures Inv(ApplyReset(s, size, ok))
  {
    hide Inv;
    InvStep(s, Reset(size, ok));
  }

  lemma {:induction false} CheckKeeps(s: State, now: int)
    requires Inv(s) && Enabled(s, CheckCapacity(now))
    ensures Inv(ApplyCheckCapacity(s, now))
  {
    hide Inv;
    InvStep(s, CheckCapacity(now));
  }

  lemma {:induction false} EnqueueKeeps(s: State)
    requires Inv(s) && s.main.Sending?
    ensures Inv(ApplySendEnqueue(s))
  {
    hide Inv;
    InvStep(s, SendEnqueue);
  }

  lemma {:induction false} PurgeKeeps(s: State)
    requires Inv(s) && s.main.MainIdle?
    ensures var t := s.(queue := [], pending := {}, stamps := [], events := s.events + [Cleared], gate := true);
            Inv(t) && t == Apply(Apply(Apply(s, PurgeQueue), PurgePending), PurgeGate)
  {
    hide Inv, ApplySendCheck, ApplySendEnqueue, ApplyReset, ApplyCheckCapacity, ApplyPop, ApplySubmit, ApplyTransmit,
        ApplyAck, ApplySuppress;
    InvStep(s, PurgeQueue);
    InvStep(Apply(s, PurgeQueue), PurgePending);
    InvStep(Apply(Apply(s, PurgeQueue), PurgePending), PurgeGate);
  }

  class Channel {
    var gfxReady: bool
    var outputSuppressed: bool
    var waitingForKeyFrame: bool
    var hasActiveSurface: bool
    var surfaceWidth: nat
    var surfaceHeight: nat
    var frameQueue: seq<Frame>
    var pendingFrames: set<nat>
    var pendingFrameTimestamps: seq<Stamp>
    var frameId: nat
    var lastRttMs: int
    ghost var main: MainPc
    ghost var worker: WorkerPc
    ghost var encoded: seq<Frame>
    ghost var transmitted: seq<Frame>
    ghost var events: seq<Event>

    ghost function Model(): State
      reads this
    {
      State(gfxReady, outputSuppressed, waitingForKeyFrame,
            if hasActiveSurface then Some(Size(surfaceWidth, surfaceHeight)) else None,
            frameQueue, pendingFrames, pendingFrameTimestamps, frameId, lastRttMs,
            main, worker, encoded, transmitted, events)
    }

    ghost predicate Valid()
      reads this
    {
      Inv(Model())
    }

    constructor ()
      ensures Valid() && Init(Model()) && !gfxReady && !waitingForKeyFrame
    {
      gfxReady, outputSuppressed, waitingForKeyFrame, hasActiveSurface := false, false, false, false;
      surfaceWidth, surfaceHeight, frameId, lastRttMs := 0, 0, 0, 0;
      frameQueue, pendingFrames, pendingFrameTimestamps := [], {}, [];
      main, worker, encoded, transmitted, events := MainIdle, Waiting, [], [], [];
      new;
      InitInv(Model());
    }

    /** `seqNo` numbers the encoder's outputs; nothing here depends on it. */
    method SendFrame(data: Payload, isKey: bool, hash: nat, seqNo: nat)
      requires Valid() && main.MainIdle? && seqNo == |encoded|
      modifies this
      ensures Valid() && Model() == SendFrameSpec(old(Model()), data, isKey, hash)
    {
      hide ApplySendEnqueue, Inv;
      InvStep(Model(), SendCheck(data, isKey, hash));
      if data == [] { return; }
      var f := Frame(data, isKey, hash, seqNo);
      encoded := encoded + [f];
      if !gfxReady || outputSuppressed { return; }
      if waitingForKeyFrame {
        if !isKey { return; }
        waitingForKeyFrame := false;
      }
      main := Sending(f);
      EnqueueFrame(f);
    }

    /** The queue region of `sendFrame`. */
    method EnqueueFrame(f: Frame)
      requires Valid() && main == Sending(f)
      modifies `main, `frameQueue, `waitingForKeyFrame
      ensures Valid() && Model() == ApplySendEnqueue(old(Model()))
    {
      hide Inv;
      EnqueueKeeps(Model());
      main := MainIdle;
      if frameQueue != [] {
        var last := frameQueue[|frameQueue| - 1];
        if last.isKey == f.isKey && |last.data| == |f.data| && last.hash == f.hash { return; }
      }
      if |frameQueue| > MAX_QUEUED {
        frameQueue := [];
        waitingForKeyFrame := true;
        return;
      }
      frameQueue := frameQueue + [f];
    }

    /** The three lock regions in a row, each of them a transition that others may come between. */
    method PurgeStaleFrames()
      requires Valid() && main.MainIdle?
      modifies this
      ensures Valid()
      ensures Model() == Apply(Apply(Apply(old(Model()), PurgeQueue), GfxModel.PurgePending), PurgeGate)
    {
      hide Inv, Apply;
      PurgeKeeps(Model());
      frameQueue := [];
      pendingFrames := {};
      pendingFrameTimestamps, events := [], events + [Cleared];
      waitingForKeyFrame := true;
    }

    /** The three protocol calls report success through `resetOk`, `createOk` and `mapOk`. */
    method ResetSurface(width: nat, height: nat, resetOk: bool, createOk: bool, mapOk: bool)
      requires Valid() && main.MainIdle? && !worker.Transmitting?
      modifies this
      ensures Valid()
      ensures Model() == ApplyReset(old(Model()), Size(width, height), resetOk && createOk && mapOk)
    {
      hide Inv;
      ResetKeeps(Model(), Size(width, height), resetOk && createOk && mapOk);
      if surfaceWidth == width && surfaceHeight == height && hasActiveSurface { return; }
      gfxReady := false;
      if hasActiveSurface { hasActiveSurface := false; }
      if !resetOk { return; }
      if !createOk { return; }
      if !mapOk { return; }
      hasActiveSurface := true;
      surfaceWidth := width;
      surfaceHeight := height;
      gfxReady := true;
      waitingForKeyFrame := true;
    }

    method SetOutputSuppressed(suppressed: bool)
      requires Valid()
      modifies this
      ensures Valid() && Model() == ApplySuppress(old(Model()), suppressed)
    {
      hide Inv;
      InvStep(Model(), Suppress(suppressed));
      outputSuppressed := suppressed;
      if suppressed { frameQueue := []; }
    }

    method HasInFlightCapacity(now: int) returns (granted: bool)
      requires Valid() && (worker.Waiting? || worker.Admitted?)
      modifies this
      ensures Valid() && Model() == ApplyCheckCapacity(old(Model()), now) && (granted <==> worker.Admitted?)
    {
      hide Inv;
      CheckKeeps(Model(), now);
      var rtt := lastRttMs;
      var maxInFlight := 16;
      if rtt > 100 { maxInFlight := 24; } else if rtt > 50 { maxInFlight := 20; }
      if |pendingFrames| < maxInFlight {
        worker := Admitted;
        return true;
      }
      var timeoutMs := if rtt * 2 > 120 then rtt * 2 else 120;
      if pendingFrameTimestamps != [] && now - pendingFrameTimestamps[0].sentAt > timeoutMs {
        pendingFrames := {};
        pendingFrameTimestamps := [];
        worker, events := Admitted, events + [Cleared];
        return true;
      }
      worker := Waiting;
      return false;
    }

    method PopFrame() returns (frame: Option<Frame>)
      requires Valid() && worker.Admitted?
      modifies this
      ensures Valid() && Model() == ApplyPop(old(Model()))
      ensures frame == (if worker.Holding? then Some(worker.frame) else None)
    {
      hide Inv;
      InvStep(Model(), Pop);
      if frameQueue == [] || !gfxReady || outputSuppressed {
        worker := Waiting;
        return None;
      }
      frame := Some(frameQueue[0]);
      worker, frameQueue := Holding(frameQueue[0]), frameQueue[1..];
    }

    /** `startOk` and `commandOk` are the results of StartFrame and SurfaceCommand. */
    method SubmitFrame(frame: Frame, now: int, startOk: bool, commandOk: bool)
      requires Valid() && worker == Holding(frame)
      modifies this
      ensures Valid() && Model() == SubmitFrameSpec(old(Model()), now, OutcomeOf(startOk, commandOk))
    {
      hide ApplyTransmit, Inv;
      InvStep(Model(), Submit(now));
      if !gfxReady || outputSuppressed {
        worker := Waiting;
        return;
      }
      var id := frameId;
      frameId := frameId + 1;
      pendingFrames := pendingFrames + {id};
      pendingFrameTimestamps := pendingFrameTimestamps + [Stamp(id, now)];
      worker, events := Transmitting(frame, id), events + [Inserted(id)];
      TransmitFrame(frame, id, startOk, commandOk);
    }

    /** The protocol calls of `submitFrame`; a failed StartFrame withdraws the id from the set only. */
    method TransmitFrame(frame: Frame, id: nat, startOk: bool, commandOk: bool)
      requires Valid() && worker == Transmitting(frame, id)
      modifies `pendingFrames, `worker, `events, `transmitted
      ensures Valid() && Model() == ApplyTransmit(old(Model()), OutcomeOf(startOk, commandOk))
    {
      hide Inv;
      InvStep(Model(), Transmit(OutcomeOf(startOk, commandOk)));
      worker := Waiting;
      if !startOk {
        pendingFrames := pendingFrames - {id};
        events := events + [StartFailed(id)];
        return;
      }
      if commandOk { transmitted := transmitted + [frame]; }
    }

    /** Erases covered ids from the set, element by element. */
    method ForgetCovered(ack: nat)
      modifies `pendingFrames
      ensures pendingFrames == IdsAbove(old(pendingFrames), ack)
    {
      var unseen := pendingFrames;
      while unseen != {}
        invariant unseen <= pendingFrames
        invariant pendingFrames == set i | i in old(pendingFrames) && (i > ack || i in unseen)
      {
        var id :| id in unseen;
        unseen := unseen - {id};
        if id <= ack { pendingFrames := pendingFrames - {id}; }
      }
    }

    /** Pops covered send times off the front only; that this reaches all of them rests on their order. */
    method PopCovered(ack: nat, now: int) returns (rttMs: int)
      requires Increasing(pendingFrameTimestamps)
      modifies `pendingFrameTimestamps, `lastRttMs
      ensures pendingFrameTimestamps == StampsAbove(old(pendingFrameTimestamps), ack)
      ensures var newest := NewestCovered(old(pendingFrameTimestamps), ack);
              if newest.Some? then rttMs == lastRttMs == now - newest.value.sentAt
              else rttMs == 0 && lastRttMs == old(lastRttMs)
    {
      rttMs := 0;
      ghost var stamps, popped := pendingFrameTimestamps, 0;
      while pendingFrameTimestamps != [] && pendingFrameTimestamps[0].id <= ack
        invariant popped <= |stamps| && pendingFrameTimestamps == stamps[popped..]
        invariant forall k :: 0 <= k < popped ==> stamps[k].id <= ack
        invariant popped == 0 ==> rttMs == 0 && lastRttMs == old(lastRttMs)
        invariant popped > 0 ==> rttMs == lastRttMs == now - stamps[popped - 1].sentAt
        decreases |pendingFrameTimestamps|
      {
        rttMs := now - pendingFrameTimestamps[0].sentAt;
        lastRttMs := rttMs;
        pendingFrameTimestamps := pendingFrameTimestamps[1..];
        popped := popped + 1;
      }
      PrefixPopIsFilter(stamps, ack, popped);
    }

    /** Cumulative acknowledgement, for FrameAcknowledge and QoeFrameAcknowledge alike; reports the
        age of the newest frame it covers, 0 when it covers none. */
    method FrameAcknowledge(ack: nat, now: int) returns (rttMs: int)
      requires Valid()
      modifies this
      ensures Valid() && Model() == ApplyAck(old(Model()), ack, now)
      ensures var newest := NewestCovered(old(pendingFrameTimestamps), ack);
              rttMs == if newest.Some? then now - newest.value.sentAt else 0
    {
      hide StampsAbove, NewestCovered, IdsAbove, Increasing, Inv;
      InvStep(Model(), Ack(ack, now));
      StampsIncrease(Model());
      ForgetCovered(ack);
      rttMs := PopCovered(ack, now);
      events := events + [Acked(ack)];
    }
  }
}
