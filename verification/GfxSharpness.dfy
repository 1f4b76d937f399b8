/**
 Concrete runs: how single silent losses arise, nothing else going wrong, and leave the client decoding
 a frame against the wrong chain. And one run that shows why the chain, not the order of the outputs,
 is what the gate protects.
 */
module GfxSharpness {
  import opened Basics
  import opened GfxModel
  import opened GfxChain
  import GfxExact

  const START: State :=
    State(true, false, false, None, [], {}, [], 0, 0, MainIdle, Waiting, [], [], [])

  /** `more` continues `steps` with ordinary steps only. */
  ghost predicate Continues(steps: seq<Step>, more: seq<Step>) {
    steps <= more && forall k :: |steps| <= k < |more| ==> Ordinary(more[k])
  }

  lemma {:induction false} EmptyRun(s: State)
    ensures Exec(s, []) == Some(s)
  {
  }

  lemma {:induction false} Then(s0: State, steps: seq<Step>, s: State, step: Step) returns (more: seq<Step>, t: State)
    requires Exec(s0, steps) == Some(s) && Enabled(s, step)
    ensures more == steps + [step] && t == Apply(s, step) && Exec(s0, more) == Some(t)
  {
    more, t := steps + [step], Apply(s, step);
    assert more[..|more| - 1] == steps;
  }

  lemma {:induction false} Produce(s0: State, steps: seq<Step>, s: State, isKey: bool, hash: nat)
          returns (more: seq<Step>, t: State)
    requires Exec(s0, steps) == Some(s) && s.main.MainIdle? && s.ready && !s.suppressed && !s.gate
    requires |s.queue| < MAX_QUEUED && (s.queue != [] ==> s.queue[|s.queue| - 1].hash != hash)
    ensures Continues(steps, more) && Exec(s0, more) == Some(t)
    ensures var f := Frame([0], isKey, hash, |s.encoded|);
            t == s.(encoded := s.encoded + [f], queue := s.queue + [f])
  {
    more, t := Then(s0, steps, s, SendCheck([0], isKey, hash));
    more, t := Then(s0, more, t, SendEnqueue);
  }

  lemma {:induction false} Take(s0: State, steps: seq<Step>, s: State) returns (more: seq<Step>, t: State)
    requires Exec(s0, steps) == Some(s) && s.worker.Waiting? && s.ready && !s.suppressed
    requires s.queue != [] && |s.pending| < 16
    ensures Continues(steps, more) && Exec(s0, more) == Some(t)
    ensures t == s.(worker := Holding(s.queue[0]), queue := s.queue[1..])
  {
    more, t := Then(s0, steps, s, CheckCapacity(0));
    more, t := Then(s0, more, t, Pop);
  }

  lemma {:induction false} Finish(s0: State, steps: seq<Step>, s: State) returns (more: seq<Step>, t: State)
    requires Exec(s0, steps) == Some(s) && s.worker.Holding? && s.ready && !s.suppressed
    ensures Continues(steps, more) && Exec(s0, more) == Some(t)
    ensures t.worker.Waiting? && t.queue == s.queue && t.transmitted == s.transmitted + [s.worker.frame]
    ensures t.encoded == s.encoded && t.main == s.main && t.surface == s.surface
    ensures t.ready && !t.suppressed && t.gate == s.gate && t.pending == s.pending + {s.frameId}
  {
    var sent := ApplySubmit(s, 0);
    more, t := Then(s0, steps, s, Submit(0));
    assert t == sent && sent.worker.Transmitting?;
    more, t := Then(s0, more, t, Transmit(Sent));
    assert t == ApplyTransmit(sent, Sent);
  }

  /** Takes the front of the queue and transmits it. */
  lemma {:induction false} Deliver(s0: State, steps: seq<Step>, s: State) returns (more: seq<Step>, t: State)
    requires Exec(s0, steps) == Some(s) && s.worker.Waiting? && s.ready && !s.suppressed
    requires s.queue != [] && |s.pending| < 15
    ensures Continues(steps, more) && Exec(s0, more) == Some(t)
    ensures t.worker.Waiting? && t.queue == s.queue[1..] && t.transmitted == s.transmitted + [s.queue[0]]
    ensures t.encoded == s.encoded && t.main == s.main && t.surface == s.surface
    ensures t.ready && !t.suppressed && t.gate == s.gate && |t.pending| <= |s.pending| + 1
  {
    hide Exec;
    more, t := Take(s0, steps, s);
    more, t := Finish(s0, more, t);
  }

  lemma {:induction false} ProduceAndDeliver(s0: State, steps: seq<Step>, s: State, hash: nat)
          returns (more: seq<Step>, t: State)
    requires Exec(s0, steps) == Some(s) && s.main.MainIdle? && s.ready && !s.suppressed && !s.gate
    requires s.worker.Waiting? && s.queue == [] && |s.pending| < 15
    ensures Continues(steps, more) && Exec(s0, more) == Some(t)
    ensures var f := Frame([0], false, hash, |s.encoded|);
            t.encoded == s.encoded + [f] && t.transmitted == s.transmitted + [f]
  {
    hide Exec;
    more, t := Produce(s0, steps, s, false, hash);
    more, t := Deliver(s0, more, t);
  }

  /** Keyframe 1 delivered, delta 2 produced and still queued. */
  lemma {:induction false} KeyThenDelta() returns (steps: seq<Step>, s: State)
    ensures Exec(START, steps) == Some(s) && Continues([], steps)
    ensures s.main.MainIdle? && s.worker.Waiting? && s.ready && !s.suppressed && !s.gate && s.surface == None
    ensures |s.pending| <= 1
    ensures s.encoded == [Frame([0], true, 1, 0), Frame([0], false, 2, 1)]
    ensures s.transmitted == s.encoded[..1] && s.queue == s.encoded[1..]
  {
    hide Exec;
    EmptyRun(START);
    steps, s := Produce(START, [], START, true, 1);
    steps, s := Deliver(START, steps, s);
    steps, s := Produce(START, steps, s, false, 2);
  }

  /** Delta 3 on top of keyframe 1 alone, where the encoder built it on delta 2. */
  lemma {:induction false} SkippedDelta(s: State)
    requires s.encoded == [Frame([0], true, 1, 0), Frame([0], false, 2, 1), Frame([0], false, 3, 2)]
    requires s.transmitted == [s.encoded[0], s.encoded[2]]
    ensures GfxExact.OutOfStep(s)
  {
    var p1, p2, p3 := Print(true, 1, 1), Print(false, 1, 2), Print(false, 1, 3);
    assert Chain(s.transmitted, 1) == [p1] && Chain(s.transmitted, 2) == [p1, p3];
    assert Chain(s.encoded, 1) == [p1] && Chain(s.encoded, 2) == [p1, p2] && Chain(s.encoded, 3) == [p1, p2, p3];
    assert !InStep(s.transmitted, s.encoded, 1);
  }

  /** `setOutputSuppressed(true)` clears the queue and leaves the gate down. */
  lemma {:induction false} SuppressionBreaksChain() returns (steps: seq<Step>, s: State)
    ensures Exec(START, steps) == Some(s) && GfxExact.OutOfStep(s)
    ensures forall k :: 0 <= k < |steps| ==> Ordinary(steps[k]) || steps[k].Suppress?
  {
    hide Exec, Chain, InStep;
    steps, s := KeyThenDelta();
    steps, s := Then(START, steps, s, Suppress(true));
    steps, s := Then(START, steps, s, Suppress(false));
    steps, s := ProduceAndDeliver(START, steps, s, 3);
    SkippedDelta(s);
  }

  /** A submission that StartFrame or SurfaceCommand rejects is given up with the gate down. */
  lemma {:induction false} FailedSubmissionBreaksChain(outcome: Outcome) returns (steps: seq<Step>, s: State)
    requires outcome != Sent
    ensures Exec(START, steps) == Some(s) && GfxExact.OutOfStep(s)
    ensures forall k :: 0 <= k < |steps| ==> Ordinary(steps[k]) || steps[k] == Transmit(outcome)
  {
    hide Exec, Chain, InStep;
    steps, s := KeyThenDelta();
    steps, s := Take(START, steps, s);
    steps, s := Then(START, steps, s, Submit(0));
    steps, s := Then(START, steps, s, Transmit(outcome));
    steps, s := ProduceAndDeliver(START, steps, s, 3);
    SkippedDelta(s);
  }

  /** A failed reset makes the worker drop its held frame; the next successful one raises the gate
      for new frames only and leaves the queue. */
  lemma {:induction false} FailedResetBreaksChain() returns (steps: seq<Step>, s: State)
    ensures Exec(START, steps) == Some(s) && GfxExact.OutOfStep(s)
    ensures forall k :: 0 <= k < |steps| ==> Ordinary(steps[k]) || steps[k].Reset?
  {
    hide Exec, Chain, InStep;
    steps, s := KeyThenDelta();
    steps, s := Take(START, steps, s);
    steps, s := Produce(START, steps, s, false, 3);
    steps, s := Then(START, steps, s, Reset(Size(1, 1), false));
    steps, s := Then(START, steps, s, Submit(0));
    steps, s := Then(START, steps, s, Reset(Size(1, 1), true));
    steps, s := Deliver(START, steps, s);
    SkippedDelta(s);
  }

  /** Capabilities that arrive after output was already produced do not raise the gate. */
  lemma {:induction false} LateCapabilitiesBreakChain() returns (s0: State, steps: seq<Step>, s: State)
    ensures Init(s0) && !s0.ready && Exec(s0, steps) == Some(s) && GfxExact.OutOfStep(s)
    ensures forall k :: 0 <= k < |steps| ==> Ordinary(steps[k]) || steps[k].Caps?
  {
    s0 := START.(ready := false);
    steps, s := Then(s0, [], s0, SendCheck([0], false, 1));
    steps, s := Then(s0, steps, s, Caps(Size(1, 1)));
    steps, s := ProduceAndDeliver(s0, steps, s, 2);
    var p1, p2 := Print(false, 1, 1), Print(false, 1, 2);
    assert Chain(s.transmitted, 1) == [p2];
    assert Chain(s.encoded, 1) == [p1] && Chain(s.encoded, 2) == [p1, p2];
    assert !InStep(s.transmitted, s.encoded, 0);
  }

  /** With the gate up and a keyframe queued: a delta is gated, then the keyframe's repeat opens the
      gate and is dropped. */
  lemma {:induction false} GatedDeltaAndRepeat(s0: State, steps: seq<Step>, s: State)
          returns (more: seq<Step>, t: State)
    requires Exec(s0, steps) == Some(s) && s.main.MainIdle? && s.ready && !s.suppressed && s.gate
    requires |s.encoded| == 1 && s.encoded[0] == Frame([0], true, 1, 0) && s.queue == s.encoded
    ensures Continues(steps, more) && Exec(s0, more) == Some(t)
    ensures t == s.(gate := false, encoded := s.encoded + [Frame([0], false, 2, 1), Frame([0], true, 1, 2)])
  {
    more, t := Then(s0, steps, s, SendCheck([0], false, 2));
    assert t == ApplySendCheck(s, [0], false, 2);
    var u := t;
    more, t := Then(s0, more, t, SendCheck([0], true, 1));
    assert t == ApplySendCheck(u, [0], true, 1);
    more, t := Then(s0, more, t, SendEnqueue);
  }

  /** A keyframe queued, a reset, a gated delta, the keyframe's repeat, a further delta. */
  lemma {:induction false} KeyResetRepeatDelta() returns (steps: seq<Step>, s: State)
    ensures Exec(START, steps) == Some(s) && Continues([], steps)
    ensures s.encoded == [Frame([0], true, 1, 0), Frame([0], false, 2, 1), Frame([0], true, 1, 2),
        Frame([0], false, 3, 3)]
    ensures s.queue == [s.encoded[0], s.encoded[3]] && s.transmitted == [] && s.pending == {}
    ensures s.worker.Waiting? && s.ready && !s.suppressed
  {
    hide Exec, Chain, InStep;
    EmptyRun(START);
    steps, s := Produce(START, [], START, true, 1);
    steps, s := Then(START, steps, s, Reset(Size(1, 1), true));
    steps, s := GatedDeltaAndRepeat(START, steps, s);
    steps, s := Produce(START, steps, s, false, 3);
  }

  /** After a reset that leaves a keyframe queued, a repeat of that keyframe opens the gate and is
      dropped as a duplicate: two frames sent in succession, the second a delta, can then have
      other outputs between them. The chain is unharmed, as the general theorem says. */
  lemma {:induction false} RepeatedKeyframeHidesOutputs() returns (steps: seq<Step>, s: State)
    ensures Exec(START, steps) == Some(s) && forall k :: 0 <= k < |steps| ==> Ordinary(steps[k])
    ensures |s.transmitted| == 2 && !s.transmitted[1].isKey
    ensures s.transmitted[0].seqNo == 0 && s.transmitted[1].seqNo == 3 && |s.encoded| == 4
    ensures PrintOf(s.encoded[1]) != PrintOf(s.transmitted[0])
  {
    hide Exec, Chain, InStep;
    steps, s := KeyResetRepeatDelta();
    steps, s := Deliver(START, steps, s);
    steps, s := Deliver(START, steps, s);
  }
}
