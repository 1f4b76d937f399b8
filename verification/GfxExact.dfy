/**
 The reference chain is kept exactly in the runs without a silent loss: after one, calm steps alone
 bring a frame to the client that decodes on the wrong chain.
 */
module GfxExact {
  import opened Basics
  import opened GfxModel
  import opened GfxChain

  // The bookkeeping, with or without losses.

  ghost predicate Shelf(pipe: seq<Frame>, encoded: seq<Frame>) {
    && Ordered(pipe)
    && forall p {:trigger Placed(pipe, encoded, p)} :: 0 <= p < |pipe| ==> Placed(pipe, encoded, p)
  }

  lemma {:induction false} ShelfGrows(pipe: seq<Frame>, encoded: seq<Frame>, f: Frame)
    requires Shelf(pipe, encoded)
    ensures Shelf(pipe, encoded + [f])
  {
    forall p | 0 <= p < |pipe| ensures Placed(pipe, encoded + [f], p) { assert Placed(pipe, encoded, p); }
  }

  lemma {:induction false} ShelfTruncate(pipe: seq<Frame>, encoded: seq<Frame>, n: nat)
    requires Shelf(pipe, encoded) && n <= |pipe|
    ensures Shelf(pipe[..n], encoded)
  {
    forall p, q | 0 <= p < q < n ensures Before(pipe[..n], p, q) { assert Before(pipe, p, q); }
    forall p | 0 <= p < n ensures Placed(pipe[..n], encoded, p) { assert Placed(pipe, encoded, p); }
  }

  lemma {:induction false} ShelfDrop(front: seq<Frame>, held: Frame, back: seq<Frame>, encoded: seq<Frame>)
    requires Shelf(front + [held] + back, encoded)
    ensures Shelf(front + back, encoded)
  {
    DropOrdered(front, held, back);
    forall p | 0 <= p < |front + back| ensures Placed(front + back, encoded, p) {
      assert Placed(front + [held] + back, encoded, if p < |front| then p else p + 1);
    }
  }

  lemma {:induction false} ShelfPush(pipe: seq<Frame>, encoded: seq<Frame>, f: Frame)
    requires Shelf(pipe, encoded) && f.seqNo == |encoded|
    ensures Shelf(pipe + [f], encoded + [f])
  {
    var longer := pipe + [f];
    forall p | 0 <= p < |longer| ensures Placed(longer, encoded + [f], p) {
      if p < |pipe| { assert Placed(pipe, encoded, p); }
    }
    forall p, q | 0 <= p < q < |longer| ensures Before(longer, p, q) {
      if q < |pipe| { assert Before(pipe, p, q); } else { assert Placed(pipe, encoded, p); }
    }
  }

  lemma {:induction false} BooksMeanShelf(s: State)
    ensures Books(s) <==>
              && Shelf(Pipe(s), Handled(s))
              && (forall k :: 0 <= k < |s.encoded| ==> s.encoded[k].seqNo == k)
              && (s.main.Sending? ==> s.ready && s.encoded != [] && s.main.frame == s.encoded[|s.encoded| - 1])
  {
  }

  lemma {:induction false} SendEnqueueBooks(s: State)
    requires Books(s) && s.main.Sending?
    ensures Books(ApplySendEnqueue(s))
  {
    hide Books, Shelf;
    var t, f, done := ApplySendEnqueue(s), s.main.frame, Handled(s);
    BooksMeanShelf(s);
    BooksMeanShelf(t);
    assert s.encoded == done + [f];
    if s.queue != [] && PrintOf(s.queue[|s.queue| - 1]) == PrintOf(f) {
      ShelfGrows(Pipe(s), done, f);
      assert Pipe(t) == Pipe(s);
    } else if |s.queue| > MAX_QUEUED {
      ShelfTruncate(Pipe(s), done, |Taken(s)|);
      assert Pipe(t) == Pipe(s)[..|Taken(s)|];
      ShelfGrows(Pipe(t), done, f);
    } else {
      ShelfPush(Pipe(s), done, f);
      assert Pipe(t) == Pipe(s) + [f];
    }
  }

  lemma {:induction false} SendCheckBooks(s: State, step: Step)
    requires Books(s) && step.SendCheck? && Enabled(s, step)
    ensures Books(Apply(s, step))
  {
    hide Books, Shelf;
    var t := Apply(s, step);
    BooksMeanShelf(s);
    BooksMeanShelf(t);
    if step.data != [] {
      var f := Frame(step.data, step.isKey, step.hash, |s.encoded|);
      assert Pipe(t) == Pipe(s) && (s.encoded + [f])[..|s.encoded|] == s.encoded;
      ShelfGrows(Pipe(s), s.encoded, f);
    }
  }

  lemma {:induction false} ClearedBooks(s: State, t: State)
    requires Books(s) && t.transmitted == s.transmitted && t.worker == s.worker && t.queue == []
    requires t.encoded == s.encoded && (t.main == s.main || (s.main.MainIdle? && !t.main.Sending?))
        && t.ready == s.ready
    ensures Books(t)
  {
    hide Books, Shelf;
    BooksMeanShelf(s);
    BooksMeanShelf(t);
    ShelfTruncate(Pipe(s), Handled(s), |Taken(s)|);
    assert Pipe(t) == Pipe(s)[..|Taken(s)|];
  }

  lemma {:induction false} DroppedBooks(s: State, t: State)
    requires Books(s) && (s.worker.Holding? || s.worker.Transmitting?)
    requires t.worker.Waiting? && t.transmitted == s.transmitted && t.queue == s.queue
    requires t.encoded == s.encoded && t.main == s.main && t.ready == s.ready
    ensures Books(t)
  {
    hide Books, Shelf;
    BooksMeanShelf(s);
    BooksMeanShelf(t);
    assert Pipe(s) == s.transmitted + [Held(s)[0]] + s.queue && Pipe(t) == s.transmitted + s.queue;
    ShelfDrop(s.transmitted, Held(s)[0], s.queue, Handled(s));
  }

  lemma {:induction false} SamePipeBooks(s: State, t: State)
    requires Books(s) && Pipe(t) == Pipe(s) && t.encoded == s.encoded
    requires t.main == s.main || (!s.main.Sending? && !t.main.Sending?)
    requires s.main.Sending? && s.ready ==> t.ready
    ensures Books(t)
  {
    hide Books, Shelf;
    BooksMeanShelf(s);
    BooksMeanShelf(t);
    assert Handled(t) == Handled(s);
  }

  lemma {:induction false} BooksStep(s: State, step: Step)
    requires Books(s) && Enabled(s, step)
    ensures Books(Apply(s, step))
  {
    hide Books, StampsAbove, NewestCovered;
    match step
    case SendCheck(_, _, _) => SendCheckBooks(s, step);
    case SendEnqueue => SendEnqueueBooks(s);
    case PurgeQueue => ClearedBooks(s, Apply(s, step));
    case Suppress(on) => if on { ClearedBooks(s, Apply(s, step)); } else { SamePipeBooks(s, Apply(s, step)); }
    case Pop => PopBooks(s);
    case Submit(_) =>
      if s.ready && !s.suppressed { SamePipeBooks(s, Apply(s, step)); } else { DroppedBooks(s, Apply(s, step)); }
    case Transmit(outcome) => TransmitBooks(s, outcome);
    case _ => SamePipeBooks(s, Apply(s, step));
  }

  lemma {:induction false} PopBooks(s: State)
    requires Books(s) && s.worker.Admitted?
    ensures Books(ApplyPop(s))
  {
    hide Books;
    var t := ApplyPop(s);
    if t.worker.Holding? { assert s.queue == [s.queue[0]] + t.queue; }
    assert Pipe(t) == Pipe(s);
    SamePipeBooks(s, t);
  }

  lemma {:induction false} TransmitBooks(s: State, outcome: Outcome)
    requires Books(s) && s.worker.Transmitting?
    ensures Books(ApplyTransmit(s, outcome))
  {
    hide Books;
    var t := ApplyTransmit(s, outcome);
    if outcome == Sent {
      assert Pipe(t) == Pipe(s);
      SamePipeBooks(s, t);
    } else {
      DroppedBooks(s, t);
    }
  }

  lemma {:induction false} RunBooks(s0: State, steps: seq<Step>, s: State)
    requires Init(s0) && Exec(s0, steps) == Some(s)
    ensures Books(s)
    decreases |steps|
  {
    hide Books, Apply, Enabled;
    if steps == [] {
      InitBooks(s0);
    } else {
      var before := Exec(s0, steps[..|steps| - 1]).value;
      RunBooks(s0, steps[..|steps| - 1], before);
      BooksStep(before, steps[|steps| - 1]);
    }
  }

  lemma {:induction false} InitBooks(s: State)
    requires Init(s)
    ensures Books(s)
  {
  }

  // Calm continuations.

  ghost predicate OutOfStep(s: State) {
    exists t :: 0 <= t < |s.transmitted| && !InStep(s.transmitted, s.encoded, t)
  }

  /** A step in which nothing goes wrong: an ordinary one, with output and submissions on a channel
      that is ready and not suppressed, or the end of a suppression. */
  predicate Calm(s: State, step: Step) {
    || (Ordinary(step) && (step.SendCheck? || step.Submit? ==> s.ready && !s.suppressed))
    || step == Suppress(false)
  }

  /** `steps` lead from `s0` to `s` calmly. */
  ghost predicate Calmly(s0: State, steps: seq<Step>, s: State)
    decreases |steps|
  {
    if steps == [] then s == s0
    else
      var last := steps[|steps| - 1];
      exists before :: Calmly(s0, steps[..|steps| - 1], before) && Enabled(before, last) && Calm(before, last)
          && s == Apply(before, last)
  }

  /** However it goes on calmly, every frame the client gets decodes on the encoder's chain. */
  ghost predicate StaysInStep(s: State) {
    forall steps, t :: Calmly(s, steps, t) ==> !OutOfStep(t)
  }

  lemma {:induction false} CalmLosesNothing(s: State, step: Step)
    requires Enabled(s, step) && Calm(s, step)
    ensures !SilentLoss(s, step)
  {
    hide NextDecodes, Decodes, Whole;
  }

  lemma {:induction false} CalmKeepsChain(s0: State, steps: seq<Step>, s: State)
    requires ChainInv(s0) && Calmly(s0, steps, s)
    ensures ChainInv(s) && !OutOfStep(s)
    decreases |steps|
  {
    hide ChainInv, Calm, SilentLoss, Apply, Enabled, InStep;
    if steps != [] {
      var last := steps[|steps| - 1];
      var before :| Calmly(s0, steps[..|steps| - 1], before) && Enabled(before, last) && Calm(before, last)
          && s == Apply(before, last);
      CalmKeepsChain(s0, steps[..|steps| - 1], before);
      CalmLosesNothing(before, last);
      ChainStepIff(before, last);
    }
    forall t | 0 <= t < |s.transmitted| ensures InStep(s.transmitted, s.encoded, t) { TransmittedInStep(s, t); }
  }

  lemma {:induction false} Then(s0: State, steps: seq<Step>, s: State, step: Step) returns (more: seq<Step>, t: State)
    requires Calmly(s0, steps, s) && Enabled(s, step) && Calm(s, step)
    ensures t == Apply(s, step) && Calmly(s0, more, t)
  {
    hide Apply, Enabled, Calm;
    more, t := steps + [step], Apply(s, step);
    assert more[..|more| - 1] == steps && more[|more| - 1] == step;
    assert Calmly(s0, more[..|more| - 1], s);
  }

  /** What the worker's progress leaves alone. */
  predicate SameMain(s: State, t: State) {
    && t.main == s.main && t.encoded == s.encoded && t.gate == s.gate && t.ready == s.ready
    && t.suppressed == s.suppressed && t.surface == s.surface
  }

  predicate Open(s: State) {
    s.ready && !s.suppressed && !s.worker.Transmitting?
  }

  lemma {:induction false} BoundOf(ids: set<nat>) returns (bound: nat)
    ensures forall i :: i in ids ==> i <= bound
  {
    if ids == {} { return 0; }
    var top :| top in ids;
    var rest := ids - {top};
    bound := BoundOf(rest);
    assert forall i :: i in ids ==> i in rest || i == top;
    bound := if top > bound then top else bound;
  }

  /** An acknowledgement of everything makes room, then the front of the queue is taken. */
  lemma {:induction false} TakeFront(s0: State, steps: seq<Step>, s: State) returns (more: seq<Step>, t: State)
    requires Calmly(s0, steps, s) && Open(s) && !s.worker.Holding? && s.queue != []
    ensures Calmly(s0, more, t) && SameMain(s, t)
    ensures t.worker == Holding(s.queue[0]) && t.queue == s.queue[1..] && t.transmitted == s.transmitted
  {
    hide Calmly, StampsAbove, NewestCovered;
    var all := BoundOf(s.pending);
    var u := ApplyAck(s, all, 0);
    more, t := Then(s0, steps, s, Ack(all, 0));
    assert u.pending == {};
    more, t := Then(s0, more, u, CheckCapacity(0));
    var v := ApplyCheckCapacity(u, 0);
    more, t := Then(s0, more, v, Pop);
  }

  lemma {:induction false} Finish(s0: State, steps: seq<Step>, s: State) returns (more: seq<Step>, t: State)
    requires Calmly(s0, steps, s) && Open(s) && s.worker.Holding?
    ensures Calmly(s0, more, t) && SameMain(s, t)
    ensures t.worker.Waiting? && t.queue == s.queue && t.transmitted == s.transmitted + [s.worker.frame]
  {
    hide Calmly;
    var u := ApplySubmit(s, 0);
    more, t := Then(s0, steps, s, Submit(0));
    more, t := Then(s0, more, u, Transmit(Sent));
  }

  /** Everything on its way reaches the client. */
  lemma {:induction false} Drain(s0: State, steps: seq<Step>, s: State) returns (more: seq<Step>, t: State)
    requires Calmly(s0, steps, s) && Open(s)
    ensures Calmly(s0, more, t) && SameMain(s, t) && Open(t)
    ensures t.transmitted == Pipe(s) && t.queue == [] && !t.worker.Holding?
    decreases |s.queue|, s.worker.Holding?
  {
    hide Calmly;
    if s.worker.Holding? {
      more, t := Finish(s0, steps, s);
      assert Pipe(t) == Pipe(s);
      more, t := Drain(s0, more, t);
    } else if s.queue != [] {
      more, t := TakeFront(s0, steps, s);
      assert s.queue == [s.queue[0]] + t.queue;
      assert Pipe(t) == Pipe(s);
      more, t := Drain(s0, more, t);
    } else {
      more, t := steps, s;
      assert Pipe(s) == s.transmitted;
    }
  }

  /** The same frames are on their way, and as many outputs are handled. */
  predicate SameStream(s: State, t: State) {
    Pipe(t) == Pipe(s) && t.encoded == s.encoded && Handled(t) == Handled(s)
  }

  /** Ends a suppression and a transmission in progress. */
  lemma {:induction false} Settle(s0: State, steps: seq<Step>, s: State) returns (more: seq<Step>, t: State)
    requires Calmly(s0, steps, s)
    ensures Calmly(s0, more, t) && SameStream(s, t) && !t.suppressed && !t.worker.Transmitting?
    ensures t.main == s.main && t.gate == s.gate && t.ready == s.ready
  {
    hide Calmly;
    more, t := Then(s0, steps, s, Suppress(false));
    if t.worker.Transmitting? {
      var u := ApplyTransmit(t, Sent);
      more, t := Then(s0, more, t, Transmit(Sent));
      assert Pipe(u) == Pipe(s);
    }
  }

  lemma {:induction false} EndPurge(s0: State, steps: seq<Step>, s: State) returns (more: seq<Step>, t: State)
    requires Calmly(s0, steps, s) && !s.suppressed && !s.worker.Transmitting? && !s.main.Sending?
    ensures Calmly(s0, more, t) && SameStream(s, t) && !t.suppressed && !t.worker.Transmitting? && t.main.MainIdle?
  {
    hide Calmly;
    more, t := steps, s;
    if t.main.PurgedQueue? { more, t := Then(s0, more, t, PurgePending); }
    if t.main.PurgedPending? { more, t := Then(s0, more, t, PurgeGate); }
  }

  /** Opens the channel without touching what is on its way. */
  lemma {:induction false} Reopen(s0: State, steps: seq<Step>, s: State) returns (more: seq<Step>, t: State)
    requires Calmly(s0, steps, s) && (s.main.Sending? ==> s.ready)
    ensures Calmly(s0, more, t) && Open(t) && SameStream(s, t)
    ensures s.ready ==> t.main == s.main && t.gate == s.gate
  {
    hide Calmly;
    more, t := Settle(s0, steps, s);
    if !t.ready {
      more, t := EndPurge(s0, more, t);
      var size := if t.surface == Some(Size(1, 1)) then Size(2, 2) else Size(1, 1);
      more, t := Then(s0, more, t, Reset(size, true));
    }
  }

  lemma {:induction false} OnePieceOut(s: State, p: nat)
    requires Books(s) && p < |Pipe(s)| && !InStep(Pipe(s), Handled(s), p)
    ensures !InStep(Pipe(s), s.encoded, p)
  {
    hide Chain, Ordered, NextDecodes;
    assert Placed(Pipe(s), Handled(s), p);
    PrefixChain(s.encoded, |Handled(s)|, Pipe(s)[p].seqNo + 1);
  }

  lemma {:induction false} NotPipeInv(s: State) returns (p: nat)
    requires Books(s) && !PipeInv(Pipe(s), Handled(s))
    ensures p < |Pipe(s)| && !InStep(Pipe(s), Handled(s), p)
  {
    hide InStep, Before, Placed;
    p :| 0 <= p < |Pipe(s)| && !InStep(Pipe(s), Handled(s), p);
  }

  /** The frame that comes next reaches the client and is out of step. */
  lemma {:induction false} NextIsOut(s0: State, steps: seq<Step>, s: State) returns (more: seq<Step>, t: State)
    requires Calmly(s0, steps, s) && Open(s) && s.queue == [] && !s.worker.Holding? && s.main.Sending?
    requires s.encoded != [] && s.main.frame == s.encoded[|s.encoded| - 1] && s.main.frame.seqNo == |s.encoded| - 1
    requires Extend(Whole(s.transmitted), PrintOf(s.main.frame)) != Whole(s.encoded)
    ensures Calmly(s0, more, t) && OutOfStep(t)
  {
    hide Calmly, Chain, Extend;
    var f, u := s.main.frame, ApplySendEnqueue(s);
    more, t := Then(s0, steps, s, SendEnqueue);
    assert Pipe(u) == s.transmitted + [f];
    more, t := Drain(s0, more, u);
    WholeSnoc(s.transmitted, f);
    assert t.transmitted[|s.transmitted|] == f;
    assert !InStep(t.transmitted, t.encoded, |s.transmitted|);
  }

  function LastHash(c: seq<Print>): nat {
    if c == [] then 0 else c[|c| - 1].hash
  }

  lemma {:induction false} FreshDiffers(c: seq<Print>, d: seq<Print>, p: Print)
    requires c != d && !p.isKey && p.hash > LastHash(c) && p.hash > LastHash(d)
    ensures Extend(c, p) != Extend(d, p)
  {
    assert (c + [p])[..|c|] == c && (d + [p])[..|d|] == d;
  }

  /** With the chains apart and the gate down, a fresh delta is out of step. */
  lemma {:induction false} DeltaIsOut(s0: State, steps: seq<Step>, s: State) returns (more: seq<Step>, t: State)
    requires Calmly(s0, steps, s) && Open(s) && s.queue == [] && !s.worker.Holding? && s.main.MainIdle? && !s.gate
    requires Whole(s.transmitted) != Whole(s.encoded)
    ensures Calmly(s0, more, t) && OutOfStep(t)
  {
    hide Calmly, Chain, Extend, Whole;
    var a, b := LastHash(Whole(s.transmitted)), LastHash(Whole(s.encoded));
    var hash := a + b + 1;
    var u := ApplySendCheck(s, [0], false, hash);
    more, t := Then(s0, steps, s, SendCheck([0], false, hash));
    var f := u.main.frame;
    FreshDiffers(Whole(s.transmitted), Whole(s.encoded), PrintOf(f));
    WholeSnoc(s.encoded, f);
    more, t := NextIsOut(s0, more, u);
  }

  /** Where the invariant is gone, calm steps lead out of step. */
  lemma {:induction false} CalmlyOutOfStep(s: State) returns (steps: seq<Step>, t: State)
    requires Books(s) && !ChainInv(s)
    ensures Calmly(s, steps, t) && OutOfStep(t)
  {
    hide Calmly, Chain, Extend, Whole, Ordered, Placed, InStep;
    steps, t := [], s;
    assert Calmly(s, [], s) by { NoSteps(s); }
    steps, t := Reopen(s, steps, t);
    var u := t;
    steps, t := Drain(s, steps, t);
    if !PipeInv(Pipe(s), Handled(s)) {
      var p := NotPipeInv(s);
      OnePieceOut(s, p);
    } else if t.main.Sending? {
      LastPlaced(s);
      steps, t := NextIsOut(s, steps, t);
    } else {
      steps, t := DeltaIsOut(s, steps, t);
    }
  }

  lemma {:induction false} NoSteps(s: State)
    ensures Calmly(s, [], s)
  {
  }

  lemma {:induction false} LastPlaced(s: State)
    requires Books(s) && s.main.Sending?
    ensures s.main.frame.seqNo == |s.encoded| - 1
  {
  }

  /** A state stays in step exactly when the invariant holds. */
  lemma {:induction false} StaysInStepIff(s: State)
    requires Books(s)
    ensures StaysInStep(s) <==> ChainInv(s)
  {
    hide Books, ChainInv, Calmly, OutOfStep;
    if ChainInv(s) {
      forall steps, t | Calmly(s, steps, t) ensures !OutOfStep(t) { CalmKeepsChain(s, steps, t); }
    } else {
      var steps, t := CalmlyOutOfStep(s);
    }
  }

  /** Reference chain, exactly: a run is without silent loss if and only if, wherever it is stopped and
      however it then goes on calmly, every frame reaches the client on the encoder's chain. */
  lemma {:induction false} ChainKeptIff(s0: State, steps: seq<Step>)
    requires Init(s0) && Exec(s0, steps).Some?
    ensures Lossless(s0, steps) <==>
              forall n :: 0 <= n <= |steps| ==> Exec(s0, steps[..n]).Some? && StaysInStep(Exec(s0, steps[..n]).value)
  {
    hide Books, ChainInv, StaysInStep, Apply, Enabled, SilentLoss;
    var last := |steps| - 1;
    RunBooks(s0, steps, Exec(s0, steps).value);
    StaysInStepIff(Exec(s0, steps).value);
    assert steps[..|steps|] == steps;
    if steps == [] {
      InitInStep(s0);
    } else {
      var before := steps[..last];
      ChainKeptIff(s0, before);
      assert forall n :: 0 <= n <= last ==> before[..n] == steps[..n];
      if Lossless(s0, before) { StepDecides(s0, steps); }
    }
  }

  lemma {:induction false} StepDecides(s0: State, steps: seq<Step>)
    requires Init(s0) && Exec(s0, steps).Some? && steps != [] && Lossless(s0, steps[..|steps| - 1])
    ensures Lossless(s0, steps) <==> ChainInv(Exec(s0, steps).value)
  {
    hide ChainInv, Apply, Enabled, SilentLoss;
    var before := Exec(s0, steps[..|steps| - 1]).value;
    LosslessInv(s0, steps[..|steps| - 1], before);
    ChainStepIff(before, steps[|steps| - 1]);
  }
}
