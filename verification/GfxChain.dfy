/**
 The H.264 reference chain. A delta frame decodes against everything since the last keyframe, so
 the client stays in step exactly when each frame it receives arrives on top of the same chain
 the encoder built it on. Back-to-back repeats count once: dropping them is what the program
 regards as harmless.
 */
module GfxChain {
  import opened Basics
  import opened GfxModel

  function Extend(c: seq<Print>, p: Print): (r: seq<Print>)
    ensures r != [] && r[|r| - 1] == p
  {
    if p.isKey then [p]
    else if c != [] && c[|c| - 1] == p then c
    else c + [p]
  }

  /** Of the first `n` frames: those since the last keyframe (all of them when there is none), repeats removed. */
  function Chain(fs: seq<Frame>, n: nat): seq<Print>
    requires n <= |fs|
    decreases n
  {
    if n == 0 then [] else Extend(Chain(fs, n - 1), PrintOf(fs[n - 1]))
  }

  function Held(s: State): seq<Frame> {
    match s.worker
    case Holding(f) => [f]
    case Transmitting(f, _) => [f]
    case _ => []
  }

  /** Everything the client has or will receive, if nothing more is lost. */
  function Pipe(s: State): seq<Frame> {
    s.transmitted + Held(s) + s.queue
  }

  /** The encoder outputs the main thread has finished handling. */
  function Handled(s: State): seq<Frame> {
    if s.main.Sending? && s.encoded != [] then s.encoded[..|s.encoded| - 1] else s.encoded
  }

  /** The frames the queue can no longer lose. */
  function Taken(s: State): seq<Frame> {
    s.transmitted + Held(s)
  }

  function Whole(fs: seq<Frame>): seq<Print> {
    Chain(fs, |fs|)
  }

  /** What the main thread lets through next decodes on the chain `c`: the frame it is sending, or,
      with the gate down on a ready channel, whatever the encoder puts out next. */
  predicate NextDecodes(s: State, c: seq<Print>) {
    match s.main
    case Sending(f) => Extend(c, PrintOf(f)) == Whole(s.encoded)
    case MainIdle => s.gate || !s.ready || c == Whole(s.encoded)
    case _ => true
  }

  /** The stream goes on decoding when `back` follows right after `front`. */
  predicate Decodes(s: State, front: seq<Frame>, back: seq<Frame>) {
    if back == [] then NextDecodes(s, Whole(front))
    else
      && back[0].seqNo < |s.encoded|
      && Extend(Whole(front), PrintOf(back[0])) == Chain(s.encoded, back[0].seqNo + 1)
  }

  /** The guards under which the program discards something that changes the chain and does not wait
      for a keyframe: output dropped or a queue cleared by suppression, a held frame dropped by a
      worker that finds the channel not ready or suppressed, a frame whose StartFrame or
      SurfaceCommand failed, and capabilities that make the channel ready again with the gate down
      after output was discarded. */
  predicate SilentLoss(s: State, step: Step)
    requires Enabled(s, step)
  {
    match step
    case SendCheck(data, isKey, hash) =>
      && data != [] && s.ready && s.suppressed && !s.gate
      && Extend(Whole(s.encoded), Print(isKey, |data|, hash)) != Whole(s.encoded)
    case Suppress(on) => on && !NextDecodes(s, Whole(Taken(s)))
    case Submit(_) => (!s.ready || s.suppressed) && !Decodes(s, s.transmitted, s.queue)
    case Transmit(outcome) => outcome != Sent && !Decodes(s, s.transmitted, s.queue)
    case Caps(_) => s.main.MainIdle? && !s.ready && !s.gate && Whole(Pipe(s)) != Whole(s.encoded)
    case _ => false
  }

  predicate Lossless(s0: State, steps: seq<Step>)
    requires Exec(s0, steps).Some?
    decreases |steps|
  {
    steps == [] ||
    (var before := steps[..|steps| - 1];
     Lossless(s0, before) && !SilentLoss(Exec(s0, before).value, steps[|steps| - 1]))
  }

  predicate Placed(pipe: seq<Frame>, encoded: seq<Frame>, p: nat)
    requires p < |pipe|
  {
    pipe[p].seqNo < |encoded| && encoded[pipe[p].seqNo] == pipe[p]
  }

  /** The client's chain at frame `p` of `pipe` is the encoder's chain at that same frame. */
  ghost predicate InStep(pipe: seq<Frame>, encoded: seq<Frame>, p: nat)
    requires p < |pipe|
  {
    Placed(pipe, encoded, p) && Chain(pipe, p + 1) == Chain(encoded, pipe[p].seqNo + 1)
  }

  predicate Before(pipe: seq<Frame>, p: nat, q: nat)
    requires p < |pipe| && q < |pipe|
  {
    pipe[p].seqNo < pipe[q].seqNo
  }

  ghost predicate Ordered(pipe: seq<Frame>) {
    forall p, q {:trigger Before(pipe, p, q)} :: 0 <= p < q < |pipe| ==> Before(pipe, p, q)
  }

  ghost predicate PipeInv(pipe: seq<Frame>, encoded: seq<Frame>) {
    Ordered(pipe) && forall p {:trigger InStep(pipe, encoded, p)} :: 0 <= p < |pipe| ==> InStep(pipe, encoded, p)
  }

  /** What holds of the bookkeeping in every run, with or without losses. */
  ghost predicate Books(s: State) {
    && Ordered(Pipe(s))
    && (forall p {:trigger Placed(Pipe(s), Handled(s), p)} :: 0 <= p < |Pipe(s)| ==> Placed(Pipe(s), Handled(s), p))
    && (forall k :: 0 <= k < |s.encoded| ==> s.encoded[k].seqNo == k)
    && (s.main.Sending? ==> s.ready && s.encoded != [] && s.main.frame == s.encoded[|s.encoded| - 1])
  }

  /** Every frame on its way decodes on the encoder's chain, and so does what comes next. */
  ghost predicate ChainInv(s: State) {
    && PipeInv(Pipe(s), Handled(s))
    && (forall k :: 0 <= k < |s.encoded| ==> s.encoded[k].seqNo == k)
    && (s.main.Sending? ==> s.ready && s.encoded != [] && s.main.frame == s.encoded[|s.encoded| - 1])
    && NextDecodes(s, Whole(Pipe(s)))
  }

  lemma {:induction false} SamePrefix(a: seq<Frame>, b: seq<Frame>, n: nat)
    requires n <= |a| && n <= |b| && forall k :: 0 <= k < n ==> a[k] == b[k]
    ensures Chain(a, n) == Chain(b, n)
  {
    if n > 0 { SamePrefix(a, b, n - 1); }
  }

  /** Once two fronts agree on the chain of the first frame after them, they agree from then on. */
  lemma {:induction false} ChainsMerge(x: seq<Frame>, z: seq<Frame>, y: seq<Frame>, n: nat)
    requires 0 < n <= |y| && Extend(Whole(x), PrintOf(y[0])) == Extend(Whole(z), PrintOf(y[0]))
    ensures Chain(x + y, |x| + n) == Chain(z + y, |z| + n)
  {
    assert (x + y)[|x| + n - 1] == y[n - 1] == (z + y)[|z| + n - 1];
    if n > 1 {
      ChainsMerge(x, z, y, n - 1);
    } else {
      SamePrefix(x + y, x, |x|);
      SamePrefix(z + y, z, |z|);
    }
  }

  /** `InStep` looks at nothing beyond position `p` and the output it names. */
  lemma {:induction false} InStepLocal(pipe: seq<Frame>, encoded: seq<Frame>, pipe': seq<Frame>, encoded': seq<Frame>,
          p: nat)
    requires p < |pipe| && p < |pipe'| && InStep(pipe, encoded, p)
    requires forall k :: 0 <= k <= p ==> pipe'[k] == pipe[k]
    requires encoded <= encoded' || (pipe[p].seqNo < |encoded'| && encoded' <= encoded)
    ensures InStep(pipe', encoded', p)
  {
    SamePrefix(pipe, pipe', p + 1);
    SamePrefix(encoded, encoded', pipe[p].seqNo + 1);
  }

  lemma {:induction false} MoreEncoded(pipe: seq<Frame>, encoded: seq<Frame>, more: seq<Frame>)
    requires PipeInv(pipe, encoded)
    ensures PipeInv(pipe, encoded + more)
  {
    hide Chain, InStep;
    forall p | 0 <= p < |pipe| ensures InStep(pipe, encoded + more, p) {
      InStepLocal(pipe, encoded, pipe, encoded + more, p);
    }
  }

  lemma {:induction false} Truncate(pipe: seq<Frame>, encoded: seq<Frame>, n: nat)
    requires PipeInv(pipe, encoded) && n <= |pipe|
    ensures PipeInv(pipe[..n], encoded)
  {
    hide Chain, InStep;
    forall p, q | 0 <= p < q < n ensures Before(pipe[..n], p, q) { assert Before(pipe, p, q); }
    forall p | 0 <= p < n ensures InStep(pipe[..n], encoded, p) { InStepLocal(pipe, encoded, pipe[..n], encoded, p); }
  }

  lemma {:induction false} DropInStep(front: seq<Frame>, held: Frame, back: seq<Frame>, encoded: seq<Frame>, p: nat)
    requires p < |front + back|
    requires back != [] ==> Extend(Whole(front), PrintOf(back[0])) == Extend(Whole(front + [held]), PrintOf(back[0]))
    requires InStep(front + [held] + back, encoded, if p < |front| then p else p + 1)
    ensures InStep(front + back, encoded, p)
  {
    hide Chain, Whole, Extend;
    var pipe, rest := front + [held] + back, front + back;
    if p < |front| {
      SamePrefix(pipe, rest, p + 1);
    } else {
      ChainsMerge(front, front + [held], back, p + 1 - |front|);
    }
  }

  lemma {:induction false} DropOrdered(front: seq<Frame>, held: Frame, back: seq<Frame>)
    requires Ordered(front + [held] + back)
    ensures Ordered(front + back)
  {
    var pipe, rest := front + [held] + back, front + back;
    forall p, q | 0 <= p < q < |rest| ensures Before(rest, p, q) {
      var p', q' := if p < |front| then p else p + 1, if q < |front| then q else q + 1;
      assert rest[p] == pipe[p'] && rest[q] == pipe[q'] && Before(pipe, p', q');
    }
  }

  /** The frame after the held one is in step without it exactly when its chain is the same. */
  lemma {:induction false} SuccessorInStep(front: seq<Frame>, held: Frame, back: seq<Frame>, encoded: seq<Frame>)
    requires back != [] && InStep(front + [held] + back, encoded, |front| + 1)
    ensures back[0].seqNo < |encoded|
    ensures InStep(front + back, encoded, |front|) <==>
              Extend(Whole(front), PrintOf(back[0])) == Chain(encoded, back[0].seqNo + 1)
    ensures Extend(Whole(front + [held]), PrintOf(back[0])) == Chain(encoded, back[0].seqNo + 1)
  {
    hide Chain, Extend;
    assert Chain(front + back, |front| + 1) == Extend(Whole(front), PrintOf(back[0])) by { NextChain(front, back); }
    assert front + [held] + back == (front + [held]) + back;
    NextChain(front + [held], back);
  }

  lemma {:induction false} NextChain(front: seq<Frame>, back: seq<Frame>)
    requires back != []
    ensures Chain(front + back, |front| + 1) == Extend(Whole(front), PrintOf(back[0]))
  {
    hide Extend;
    SamePrefix(front + back, front, |front|);
  }

  /** Losing one frame is harmless exactly when its successor decodes without it. */
  lemma {:induction false} DropIff(front: seq<Frame>, held: Frame, back: seq<Frame>, encoded: seq<Frame>)
    requires PipeInv(front + [held] + back, encoded)
    ensures PipeInv(front + back, encoded) <==>
              back == [] || (back[0].seqNo < |encoded|
                  && Extend(Whole(front), PrintOf(back[0])) == Chain(encoded, back[0].seqNo + 1))
    ensures PipeInv(front + back, encoded) && back != [] ==> Whole(front + back) == Whole(front + [held] + back)
  {
    hide InStep, Before, Chain, Extend;
    DropOrdered(front, held, back);
    if back != [] {
      assert InStep(front + [held] + back, encoded, |front| + 1);
      SuccessorInStep(front, held, back, encoded);
    }
    if back == [] || (back[0].seqNo < |encoded|
        && Extend(Whole(front), PrintOf(back[0])) == Chain(encoded, back[0].seqNo + 1)) {
      forall p | 0 <= p < |front + back| ensures InStep(front + back, encoded, p) {
        DropInStep(front, held, back, encoded, p);
      }
      if back != [] { ChainsMerge(front, front + [held], back, |back|); }
    } else {
      assert !InStep(front + back, encoded, |front|);
    }
  }

  lemma {:induction false} WholeSnoc(fs: seq<Frame>, f: Frame)
    ensures Whole(fs + [f]) == Extend(Whole(fs), PrintOf(f))
  {
    SamePrefix(fs + [f], fs, |fs|);
  }

  lemma {:induction false} ExtendKey(c: seq<Print>, d: seq<Print>, p: Print)
    requires p.isKey
    ensures Extend(c, p) == Extend(d, p)
  {
  }

  /** A nonempty output, before anything else is decided about it. */
  lemma {:induction false} SendCheckIff(s: State, step: Step)
    requires ChainInv(s) && step.SendCheck? && Enabled(s, step)
    ensures ChainInv(Apply(s, step)) <==> !SilentLoss(s, step)
  {
    hide Chain, InStep, Before, Extend, Whole, PipeInv;
    if step.data != [] {
      var f := Frame(step.data, step.isKey, step.hash, |s.encoded|);
      var t := Apply(s, step);
      assert Pipe(t) == Pipe(s) && t.encoded == s.encoded + [f] && Handled(s) == s.encoded;
      assert (s.encoded + [f])[..|s.encoded|] == s.encoded;
      if t.main.MainIdle? { MoreEncoded(Pipe(s), s.encoded, [f]); }
      WholeSnoc(s.encoded, f);
      if f.isKey { ExtendKey(Whole(Pipe(s)), Whole(s.encoded), PrintOf(f)); }
    }
  }

  lemma {:induction false} PushKeeps(pipe: seq<Frame>, encoded: seq<Frame>, f: Frame)
    requires PipeInv(pipe, encoded) && f.seqNo == |encoded|
    requires Extend(Whole(pipe), PrintOf(f)) == Whole(encoded + [f])
    ensures PipeInv(pipe + [f], encoded + [f]) && Whole(pipe + [f]) == Whole(encoded + [f])
  {
    hide Chain, Extend;
    var longer, out := pipe + [f], encoded + [f];
    WholeSnoc(pipe, f);
    forall p | 0 <= p < |longer| ensures InStep(longer, out, p) {
      if p < |pipe| { InStepLocal(pipe, encoded, longer, out, p); }
    }
    forall p, q | 0 <= p < q < |longer| ensures Before(longer, p, q) {
      if q < |pipe| { assert Before(pipe, p, q); } else { assert InStep(pipe, encoded, p); }
    }
  }

  /** A frame that repeats the last one of a list adds nothing to its chain. */
  lemma {:induction false} RepeatAddsNothing(pipe: seq<Frame>, f: Frame)
    requires pipe != [] && PrintOf(pipe[|pipe| - 1]) == PrintOf(f)
    ensures Extend(Whole(pipe), PrintOf(f)) == Whole(pipe)
  {
  }

  lemma {:induction false} ClearedPipe(s: State, t: State, encoded: seq<Frame>)
    requires PipeInv(Pipe(s), encoded)
    requires t.transmitted == s.transmitted && t.worker == s.worker && t.queue == []
    ensures PipeInv(Pipe(t), encoded) && Pipe(t) == Taken(s)
  {
    hide Chain, InStep, Before;
    Truncate(Pipe(s), encoded, |Taken(s)|);
    assert Pipe(t) == Pipe(s)[..|Taken(s)|];
  }

  lemma {:induction false} RepeatKeeps(s: State, t: State)
    requires ChainInv(s) && s.main.Sending? && t == s.(main := MainIdle)
    requires s.queue != [] && PrintOf(s.queue[|s.queue| - 1]) == PrintOf(s.main.frame)
    ensures ChainInv(t)
  {
    hide Chain, InStep, Before, Extend, Whole;
    var done, f := Handled(s), s.main.frame;
    assert s.encoded == done + [f] && Pipe(t) == Pipe(s);
    MoreEncoded(Pipe(s), done, [f]);
    RepeatAddsNothing(Pipe(s), f);
  }

  lemma {:induction false} OverflowKeeps(s: State, t: State)
    requires ChainInv(s) && s.main.Sending? && t == s.(main := MainIdle, queue := [], gate := true)
    ensures ChainInv(t)
  {
    hide Chain, InStep, Before, Extend, Whole;
    var done, f := Handled(s), s.main.frame;
    assert s.encoded == done + [f];
    MoreEncoded(Pipe(s), done, [f]);
    ClearedPipe(s, t, s.encoded);
  }

  lemma {:induction false} EnqueueKeeps(s: State, t: State)
    requires ChainInv(s) && s.main.Sending? && t == s.(main := MainIdle, queue := s.queue + [s.main.frame])
    ensures ChainInv(t)
  {
    hide Chain, InStep, Before, Extend, Whole;
    var done, f := Handled(s), s.main.frame;
    assert s.encoded == done + [f] && Pipe(t) == Pipe(s) + [f];
    PushKeeps(Pipe(s), done, f);
  }

  lemma {:induction false} SendEnqueueKeeps(s: State)
    requires ChainInv(s) && s.main.Sending?
    ensures ChainInv(ApplySendEnqueue(s))
  {
    hide ChainInv;
    var t := ApplySendEnqueue(s);
    if s.queue != [] && PrintOf(s.queue[|s.queue| - 1]) == PrintOf(s.main.frame) { RepeatKeeps(s, t); }
    else if |s.queue| > MAX_QUEUED { OverflowKeeps(s, t); }
    else { EnqueueKeeps(s, t); }
  }

  /** The worker gives the held frame up without transmitting it. */
  lemma {:induction false} HeldDroppedIff(s: State, t: State)
    requires ChainInv(s) && (s.worker.Holding? || s.worker.Transmitting?)
    requires t.worker.Waiting? && t.transmitted == s.transmitted && t.queue == s.queue
    requires t.encoded == s.encoded && t.main == s.main && t.gate == s.gate && t.ready == s.ready
    ensures ChainInv(t) <==> Decodes(s, s.transmitted, s.queue)
  {
    hide Chain, InStep, Before, Extend, Whole, PipeInv;
    var held := Held(s)[0];
    assert Pipe(s) == s.transmitted + [held] + s.queue && Pipe(t) == s.transmitted + s.queue;
    DropIff(s.transmitted, held, s.queue, Handled(s));
    if s.queue != [] {
      QueueHandled(s);
      PrefixChain(s.encoded, |Handled(s)|, s.queue[0].seqNo + 1);
    } else {
      assert Pipe(t) == s.transmitted;
    }
  }

  lemma {:induction false} QueueHandled(s: State)
    requires ChainInv(s) && s.queue != []
    ensures s.queue[0].seqNo < |Handled(s)|
  {
    hide Chain, Extend, NextDecodes;
    assert InStep(Pipe(s), Handled(s), |Taken(s)|) && Pipe(s)[|Taken(s)|] == s.queue[0];
  }

  lemma {:induction false} PrefixChain(fs: seq<Frame>, m: nat, n: nat)
    requires n <= m <= |fs|
    ensures Chain(fs[..m], n) == Chain(fs, n)
  {
    SamePrefix(fs[..m], fs, n);
  }

  lemma {:induction false} SubmitIff(s: State, now: int)
    requires ChainInv(s) && s.worker.Holding?
    ensures ChainInv(ApplySubmit(s, now)) <==> !SilentLoss(s, Submit(now))
  {
    hide Decodes, ChainInv;
    var t := ApplySubmit(s, now);
    if t.worker.Transmitting? { SamePipeKeeps(s, t); } else { HeldDroppedIff(s, t); }
  }

  lemma {:induction false} TransmitIff(s: State, outcome: Outcome)
    requires ChainInv(s) && s.worker.Transmitting?
    ensures ChainInv(ApplyTransmit(s, outcome)) <==> !SilentLoss(s, Transmit(outcome))
  {
    hide Decodes, ChainInv;
    var t := ApplyTransmit(s, outcome);
    if outcome == Sent {
      assert Pipe(t) == Pipe(s);
      SamePipeKeeps(s, t);
    } else {
      HeldDroppedIff(s, t);
    }
  }

  lemma {:induction false} SuppressIff(s: State, on: bool)
    requires ChainInv(s)
    ensures ChainInv(Apply(s, Suppress(on))) <==> !SilentLoss(s, Suppress(on))
  {
    hide Chain, InStep, Before, Extend, Whole, PipeInv;
    if on { ClearedPipe(s, Apply(s, Suppress(on)), Handled(s)); } else { SamePipeKeeps(s, Apply(s, Suppress(on))); }
  }

  lemma {:induction false} PurgeKeeps(s: State)
    requires ChainInv(s) && s.main.MainIdle?
    ensures ChainInv(Apply(s, PurgeQueue))
  {
    hide Chain, InStep, Before, Extend, Whole, PipeInv;
    ClearedPipe(s, Apply(s, PurgeQueue), s.encoded);
  }

  lemma {:induction false} SamePipeKeeps(s: State, t: State)
    requires ChainInv(s) && Pipe(t) == Pipe(s) && t.encoded == s.encoded
    requires t.main == s.main || (!s.main.Sending? && !t.main.Sending?)
    requires s.main.Sending? && s.ready ==> t.ready
    requires t.main.MainIdle? ==> t.gate || !t.ready || (s.main.MainIdle? && t.gate == s.gate && t.ready == s.ready)
    ensures ChainInv(t)
  {
    hide Chain, InStep, Before, Extend, Whole, PipeInv;
  }

  lemma {:induction false} CapsIff(s: State, size: Size)
    requires ChainInv(s)
    ensures ChainInv(Apply(s, Caps(size))) <==> !SilentLoss(s, Caps(size))
  {
    hide Chain, InStep, Before, Extend, Whole, PipeInv;
    assert Pipe(Apply(s, Caps(size))) == Pipe(s);
  }

  lemma {:induction false} PopKeeps(s: State)
    requires ChainInv(s) && s.worker.Admitted?
    ensures ChainInv(ApplyPop(s))
  {
    hide ChainInv;
    var t := ApplyPop(s);
    if t.worker.Holding? { assert s.queue == [s.queue[0]] + t.queue; }
    assert Pipe(t) == Pipe(s);
    SamePipeKeeps(s, t);
  }

  /** A step keeps the invariant exactly when it is no silent loss. */
  lemma {:induction false} ChainStepIff(s: State, step: Step)
    requires ChainInv(s) && Enabled(s, step)
    ensures ChainInv(Apply(s, step)) <==> !SilentLoss(s, step)
  {
    hide ChainInv, Decodes, NextDecodes, Extend, Whole, StampsAbove, NewestCovered;
    match step
    case SendCheck(_, _, _) => SendCheckIff(s, step);
    case SendEnqueue => SendEnqueueKeeps(s);
    case PurgeQueue => PurgeKeeps(s);
    case Suppress(on) => SuppressIff(s, on);
    case Pop => PopKeeps(s);
    case Submit(now) => SubmitIff(s, now);
    case Transmit(outcome) => TransmitIff(s, outcome);
    case Caps(size) => CapsIff(s, size);
    case _ => SamePipeKeeps(s, Apply(s, step));
  }

  lemma {:induction false} InitInStep(s: State)
    requires Init(s)
    ensures ChainInv(s)
  {
  }

  lemma {:induction false} LosslessInv(s0: State, steps: seq<Step>, s: State)
    requires Init(s0) && Exec(s0, steps) == Some(s) && Lossless(s0, steps)
    ensures ChainInv(s)
    decreases |steps|
  {
    hide ChainInv;
    if steps == [] {
      InitInStep(s0);
    } else {
      var before := Exec(s0, steps[..|steps| - 1]).value;
      LosslessInv(s0, steps[..|steps| - 1], before);
      ChainStepIff(before, steps[|steps| - 1]);
    }
  }

  /** Reference chain: in every interleaved run without a silent loss, each frame reaches the client
      on top of exactly the chain the encoder built it on, and frames arrive in encoder order. */
  lemma {:induction false} ClientDecodesEncoderChain(s0: State, steps: seq<Step>, s: State, t: nat)
    requires Init(s0) && Exec(s0, steps) == Some(s) && Lossless(s0, steps)
    requires t < |s.transmitted|
    ensures InStep(s.transmitted, s.encoded, t)
    ensures forall u :: 0 <= u < t ==> s.transmitted[u].seqNo < s.transmitted[t].seqNo
  {
    LosslessInv(s0, steps, s);
    TransmittedInStep(s, t);
  }

  lemma {:induction false} TransmittedInStep(s: State, t: nat)
    requires ChainInv(s) && t < |s.transmitted|
    ensures InStep(s.transmitted, s.encoded, t)
    ensures forall u :: 0 <= u < t ==> s.transmitted[u].seqNo < s.transmitted[t].seqNo
  {
    var pipe, done, g := Pipe(s), Handled(s), s.transmitted[t];
    assert forall u :: 0 <= u < |s.transmitted| ==> pipe[u] == s.transmitted[u];
    InStepLocal(pipe, done, s.transmitted, s.encoded, t);
    forall u | 0 <= u < t ensures s.transmitted[u].seqNo < g.seqNo { assert Before(pipe, u, t); }
  }

  /** Two frames sent one after the other: the second is a keyframe, or the encoder built it on
      exactly the chain the first one ends. */
  lemma {:induction false} ConsecutiveFramesLink(s0: State, steps: seq<Step>, s: State, t: nat)
    requires Init(s0) && Exec(s0, steps) == Some(s) && Lossless(s0, steps)
    requires t + 1 < |s.transmitted|
    ensures
      var f, g := s.transmitted[t], s.transmitted[t + 1];
      && f.seqNo < g.seqNo < |s.encoded|
      && (g.isKey || Chain(s.encoded, g.seqNo + 1) == Extend(Chain(s.encoded, f.seqNo + 1), PrintOf(g)))
  {
    ClientDecodesEncoderChain(s0, steps, s, t);
    ClientDecodesEncoderChain(s0, steps, s, t + 1);
  }

  /** Steps of the runs the gate is meant for: no suppression, no failed reset or submission, and
      no capability exchange in mid-session. */
  predicate Ordinary(step: Step) {
    match step
    case Reset(_, ok) => ok
    case Transmit(outcome) => outcome == Sent
    case Suppress(_) => false
    case Caps(_) => false
    case _ => true
  }

  lemma {:induction false} OrdinaryRunsLoseNothing(s0: State, steps: seq<Step>, s: State)
    requires s0.ready && !s0.suppressed && Exec(s0, steps) == Some(s)
    requires forall k :: 0 <= k < |steps| ==> Ordinary(steps[k])
    ensures Lossless(s0, steps) && s.ready && !s.suppressed
    decreases |steps|
  {
    if steps != [] {
      OrdinaryRunsLoseNothing(s0, steps[..|steps| - 1], Exec(s0, steps[..|steps| - 1]).value);
    }
  }

  // From fingerprints to bytes: without a hash collision the client holds the encoder's bytes.

  ghost predicate NoCollision(fs: seq<Frame>) {
    forall f, g :: f in fs && g in fs && PrintOf(f) == PrintOf(g) ==> f.data == g.data
  }

  /** The payloads `Chain` stands for. */
  function ChainBytes(fs: seq<Frame>, n: nat): seq<Payload>
    requires n <= |fs|
    decreases n
  {
    if n == 0 then []
    else
      var c, f := Chain(fs, n - 1), fs[n - 1];
      if f.isKey then [f.data]
      else if c != [] && c[|c| - 1] == PrintOf(f) then ChainBytes(fs, n - 1)
      else ChainBytes(fs, n - 1) + [f.data]
  }

  ghost predicate Carries(fs: seq<Frame>, p: Print, data: Payload) {
    exists f :: f in fs && PrintOf(f) == p && f.data == data
  }

  lemma {:induction false} CarriesOwn(fs: seq<Frame>, k: nat)
    requires k < |fs|
    ensures Carries(fs, PrintOf(fs[k]), fs[k].data)
  {
  }

  ghost predicate AllCarried(fs: seq<Frame>, c: seq<Print>, d: seq<Payload>) {
    |d| == |c| && forall k :: 0 <= k < |c| ==> Carries(fs, c[k], d[k])
  }

  lemma {:induction false} CarriedSnoc(fs: seq<Frame>, c: seq<Print>, d: seq<Payload>, k: nat)
    requires AllCarried(fs, c, d) && k < |fs|
    ensures AllCarried(fs, c + [PrintOf(fs[k])], d + [fs[k].data]) && AllCarried(fs, [PrintOf(fs[k])], [fs[k].data])
  {
    hide Carries;
    CarriesOwn(fs, k);
  }

  lemma {:induction false} ChainBytesMatch(fs: seq<Frame>, n: nat)
    requires n <= |fs|
    ensures AllCarried(fs, Chain(fs, n), ChainBytes(fs, n))
  {
    if n > 0 {
      hide AllCarried;
      ChainBytesMatch(fs, n - 1);
      CarriedSnoc(fs, Chain(fs, n - 1), ChainBytes(fs, n - 1), n - 1);
    }
  }

  lemma {:induction false} ClientHoldsEncoderBytes(s0: State, steps: seq<Step>, s: State, t: nat)
    requires Init(s0) && Exec(s0, steps) == Some(s) && Lossless(s0, steps)
    requires t < |s.transmitted| && NoCollision(s.encoded)
    ensures s.transmitted[t].seqNo < |s.encoded|
    ensures ChainBytes(s.transmitted, t + 1) == ChainBytes(s.encoded, s.transmitted[t].seqNo + 1)
  {
    hide Exec, Lossless, Chain, ChainBytes;
    ClientDecodesEncoderChain(s0, steps, s, t);
    var n := s.transmitted[t].seqNo + 1;
    ChainBytesMatch(s.transmitted, t + 1);
    ChainBytesMatch(s.encoded, n);
    forall f | f in s.transmitted ensures f in s.encoded {
      var u :| 0 <= u < |s.transmitted| && s.transmitted[u] == f;
      ClientDecodesEncoderChain(s0, steps, s, u);
    }
    forall k | 0 <= k < |Chain(s.encoded, n)| ensures ChainBytes(s.transmitted, t + 1)[k] ==
        ChainBytes(s.encoded, n)[k] {
      assert Carries(s.transmitted, Chain(s.transmitted, t + 1)[k], ChainBytes(s.transmitted, t + 1)[k]);
      assert Carries(s.encoded, Chain(s.encoded, n)[k], ChainBytes(s.encoded, n)[k]);
    }
  }
}
