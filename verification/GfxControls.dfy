/**
 What the controls of the video channel do, over runs: a reset and a purge wait for a keyframe, a failed
 reset and a suppression stop the stream, a keyframe gets through, and the window is counted and timed.
 */
module GfxControls {
  import opened Basics
  import opened GfxModel
  import opened GfxInFlight
  import opened GfxChain
  import opened GfxExact

  predicate KeyOutput(step: Step) {
    step.SendCheck? && step.isKey && step.data != []
  }

  ghost predicate NoKeyOutput(steps: seq<Step>) {
    forall k :: 0 <= k < |steps| ==> !KeyOutput(steps[k])
  }

  /** Nothing was added to the queue; frames may have been taken off its front. */
  predicate Shortened(before: seq<Frame>, after: seq<Frame>) {
    |after| <= |before| && after == before[|before| - |after|..]
  }

  predicate SetsSurface(step: Step) {
    (step.Reset? && step.ok) || step.Caps?
  }

  /** The gate is up, and the main thread holds no frame that passed it. */
  predicate Awaiting(s: State) {
    s.gate && !s.main.Sending?
  }

  lemma {:induction false} AwaitingStep(s: State, step: Step)
    requires Awaiting(s) && Enabled(s, step) && !KeyOutput(step)
    ensures Awaiting(Apply(s, step)) && Shortened(s.queue, Apply(s, step).queue)
  {
    hide StampsAbove, NewestCovered, IdsAbove;
  }

  lemma {:induction false} ShortenedTwice(a: seq<Frame>, b: seq<Frame>, c: seq<Frame>)
    requires Shortened(a, b) && Shortened(b, c)
    ensures Shortened(a, c)
  {
  }

  lemma {:induction false} AwaitingRun(s: State, steps: seq<Step>, t: State)
    requires Awaiting(s) && Exec(s, steps) == Some(t) && NoKeyOutput(steps)
    ensures Awaiting(t) && Shortened(s.queue, t.queue)
    decreases |steps|
  {
    hide Apply, Enabled, Awaiting, KeyOutput, Shortened;
    if steps == [] {
      ShortenedNot(s.queue);
    } else {
      var before := Exec(s, steps[..|steps| - 1]).value;
      AwaitingRun(s, steps[..|steps| - 1], before);
      AwaitingStep(before, steps[|steps| - 1]);
      ShortenedTwice(s.queue, before.queue, t.queue);
    }
  }

  lemma {:induction false} ShortenedNot(queue: seq<Frame>)
    ensures Shortened(queue, queue)
  {
  }

  lemma {:induction false} SurfaceStep(s: State, step: Step)
    requires Enabled(s, step) && !step.Reset? && !step.Caps?
    ensures Apply(s, step).ready == s.ready && Apply(s, step).surface == s.surface
  {
    hide StampsAbove, NewestCovered, IdsAbove;
  }

  lemma {:induction false} SurfaceRun(s: State, steps: seq<Step>, t: State)
    requires Exec(s, steps) == Some(t) && forall k :: 0 <= k < |steps| ==> !steps[k].Reset? && !steps[k].Caps?
    ensures t.ready == s.ready && t.surface == s.surface
    decreases |steps|
  {
    hide Apply, Enabled;
    if steps != [] {
      var before := Exec(s, steps[..|steps| - 1]).value;
      SurfaceRun(s, steps[..|steps| - 1], before);
      SurfaceStep(before, steps[|steps| - 1]);
    }
  }

  /** The main thread lets exactly this nonempty output through. */
  predicate Passes(s: State, isKey: bool, hash: nat, data: Payload)
    requires s.main.MainIdle?
  {
    Apply(s, SendCheck(data, isKey, hash)).main == Sending(Frame(data, isKey, hash, |s.encoded|))
  }

  /** After a successful reset to another size the channel is ready with that surface until it is reset
      or announced anew, and from then until the next key output no frame passes the gate and none is
      added to the queue; a key output passes it, unless the output is suppressed. A reset to the
      current size changes nothing, whatever the protocol calls would return. */
  lemma {:induction false} ResetAwaitsKeyframe(s: State, size: Size, steps: seq<Step>, t: State)
    requires Enabled(s, Reset(size, true)) && Exec(Apply(s, Reset(size, true)), steps) == Some(t)
    ensures s.surface == Some(size) ==> forall ok :: Apply(s, Reset(size, ok)) == s
    ensures (forall k :: 0 <= k < |steps| ==> !steps[k].Reset? && !steps[k].Caps?) ==>
              t.surface == Some(size) && (s.surface != Some(size) ==> t.ready)
    ensures s.surface != Some(size) && NoKeyOutput(steps) ==>
              && !t.main.Sending? && Shortened(s.queue, t.queue)
              && (t.main.MainIdle? ==> forall hash, data :: data != [] ==> !Passes(t, false, hash, data))
              && (t.main.MainIdle? && t.ready && !t.suppressed ==>
                    forall hash, data :: data != [] ==> Passes(t, true, hash, data))
  {
    var s1 := Apply(s, Reset(size, true));
    hide Exec;
    if forall k :: 0 <= k < |steps| ==> !steps[k].Reset? && !steps[k].Caps? { SurfaceRun(s1, steps, t); }
    if s.surface != Some(size) && NoKeyOutput(steps) { AwaitingRun(s1, steps, t); }
  }

  /** The channel is not ready, and neither thread holds a frame that got further. */
  predicate Closed(s: State) {
    !s.ready && s.surface.None? && !s.main.Sending? && !s.worker.Transmitting?
  }

  lemma {:induction false} ClosedStep(s: State, step: Step)
    requires Closed(s) && Enabled(s, step) && !SetsSurface(step)
    ensures Closed(Apply(s, step)) && Apply(s, step).transmitted == s.transmitted
    ensures Shortened(s.queue, Apply(s, step).queue) && (!Clears(step) ==> Apply(s, step).queue == s.queue)
  {
    hide StampsAbove, NewestCovered, IdsAbove;
  }

  predicate Clears(step: Step) {
    step.PurgeQueue? || step == Suppress(true)
  }

  lemma {:induction false} ClosedRun(s: State, steps: seq<Step>, t: State)
    requires Closed(s) && Exec(s, steps) == Some(t) && forall k :: 0 <= k < |steps| ==> !SetsSurface(steps[k])
    ensures Closed(t) && t.transmitted == s.transmitted && Shortened(s.queue, t.queue)
    ensures (forall k :: 0 <= k < |steps| ==> !Clears(steps[k])) ==> t.queue == s.queue
    decreases |steps|
  {
    hide Apply, Enabled, Closed, SetsSurface, Shortened, Clears;
    if steps == [] {
      ShortenedNot(s.queue);
    } else {
      var before := Exec(s, steps[..|steps| - 1]).value;
      ClosedRun(s, steps[..|steps| - 1], before);
      ClosedStep(before, steps[|steps| - 1]);
      ShortenedTwice(s.queue, before.queue, t.queue);
    }
  }

  /** A failed reset to another size leaves the channel not ready and without a surface, and until a reset
      succeeds or the client announces itself nothing is queued and nothing is transmitted; what is queued
      stays queued, unless it is purged or the output suppressed. */
  lemma {:induction false} FailedResetStops(s: State, size: Size, steps: seq<Step>, t: State)
    requires Enabled(s, Reset(size, false)) && s.surface != Some(size)
    requires Exec(Apply(s, Reset(size, false)), steps) == Some(t)
    requires forall k :: 0 <= k < |steps| ==> !SetsSurface(steps[k])
    ensures !t.ready && t.surface == None && t.transmitted == s.transmitted && Shortened(s.queue, t.queue)
    ensures (forall k :: 0 <= k < |steps| ==> !Clears(steps[k])) ==> t.queue == s.queue
  {
    hide Exec;
    ClosedRun(Apply(s, Reset(size, false)), steps, t);
  }

  /** Capabilities open the channel until a reset fails. */
  lemma {:induction false} CapsOpen(s: State, size: Size, steps: seq<Step>, t: State)
    requires Exec(Apply(s, Caps(size)), steps) == Some(t)
    requires forall k :: 0 <= k < |steps| ==> !steps[k].Reset? && !steps[k].Caps?
    ensures t.ready && t.surface == Some(size)
  {
    hide Exec;
    SurfaceRun(Apply(s, Caps(size)), steps, t);
  }

  // Delivery.

  ghost predicate NoEmpty(fs: seq<Frame>) {
    forall f :: f in fs ==> f.data != []
  }

  lemma {:induction false} NonemptyStep(s: State, step: Step)
    requires Enabled(s, step) && NoEmpty(s.encoded)
    ensures NoEmpty(Apply(s, step).encoded)
  {
    hide StampsAbove, NewestCovered, IdsAbove;
  }

  lemma {:induction false} NonemptyRun(s0: State, steps: seq<Step>, s: State)
    requires Init(s0) && Exec(s0, steps) == Some(s)
    ensures NoEmpty(s.encoded)
    decreases |steps|
  {
    hide Apply, Enabled, NoEmpty;
    if steps == [] {
      InitNonempty(s0);
    } else {
      var before := Exec(s0, steps[..|steps| - 1]).value;
      NonemptyRun(s0, steps[..|steps| - 1], before);
      NonemptyStep(before, steps[|steps| - 1]);
    }
  }

  lemma {:induction false} InitNonempty(s: State)
    requires Init(s)
    ensures NoEmpty(s.encoded)
  {
  }

  /** Nothing but nonempty encoder outputs is ever on its way to the client. */
  lemma {:induction false} NothingEmpty(s: State)
    requires Reachable(s)
    ensures NoEmpty(Pipe(s)) && forall f :: f in Pipe(s) ==> f in s.encoded
  {
    hide Exec, Books, NoEmpty, Pipe;
    var s0, steps :| Init(s0) && Exec(s0, steps) == Some(s);
    NonemptyRun(s0, steps, s);
    RunBooks(s0, steps, s);
    PipeFromEncoder(s);
  }

  lemma {:induction false} PipeFromEncoder(s: State)
    requires Books(s) && NoEmpty(s.encoded)
    ensures NoEmpty(Pipe(s)) && forall f :: f in Pipe(s) ==> f in s.encoded
  {
    hide Ordered, Pipe;
    forall f | f in Pipe(s) ensures f in s.encoded {
      var p :| 0 <= p < |Pipe(s)| && Pipe(s)[p] == f;
      assert Placed(Pipe(s), Handled(s), p);
      assert Handled(s)[f.seqNo] in s.encoded;
    }
  }

  /** A keyframe produced on a ready channel reaches the client by calm steps alone, behind everything on
      its way: what the client gets last is that keyframe or the equal one it repeats. */
  lemma {:induction false} KeyframeArrives(s: State, data: Payload, hash: nat) returns (steps: seq<Step>, t: State)
    requires s.main.MainIdle? && s.ready && !s.suppressed && data != [] && |s.queue| <= 20
    ensures Calmly(s, steps, t) && t.encoded == s.encoded + [Frame(data, true, hash, |s.encoded|)] && !t.gate
    ensures t.transmitted != [] && PrintOf(t.transmitted[|t.transmitted| - 1]) == Print(true, |data|, hash)
    ensures s.transmitted <= t.transmitted
  {
    hide Calmly;
    steps, t := [], s;
    assert Calmly(s, steps, t) by { NoSteps(s); }
    steps, t := Then(s, steps, t, SendCheck(data, true, hash));
    steps, t := Then(s, steps, t, SendEnqueue);
    var queued := t;
    assert queued.queue != [] && PrintOf(queued.queue[|queued.queue| - 1]) == Print(true, |data|, hash);
    if t.worker.Transmitting? {
      steps, t := Then(s, steps, t, Transmit(Sent));
    }
    assert Pipe(t) == Pipe(queued) && Pipe(queued)[|Pipe(queued)| - 1] == queued.queue[|queued.queue| - 1];
    steps, t := Drain(s, steps, t);
  }

  lemma {:induction false} NoSteps(s: State)
    ensures Calmly(s, [], s)
  {
  }

  // Suppression.

  /** With output suppressed no output gets any further, and nothing but a frame already in transmission
      reaches the client. */
  ghost predicate Muted(s: State, t: State) {
    && t.suppressed
    && (t.main.Sending? ==> s.main.Sending?)
    && (t.worker.Transmitting? ==> t.worker == s.worker && t.transmitted == s.transmitted)
    && (t.worker.Holding? ==> t.worker == s.worker)
    && (t.transmitted == s.transmitted
        || (s.worker.Transmitting? && t.transmitted == s.transmitted + [s.worker.frame]))
    && (forall f :: f in t.queue ==> s.main == Sending(f))
    && (s.main.Sending? && t.main.Sending? ==> t.main == s.main)
  }

  lemma {:induction false} MutedStep(s: State, t: State, step: Step)
    requires Muted(s, t) && Enabled(t, step) && step != Suppress(false)
    ensures Muted(s, Apply(t, step))
  {
    hide StampsAbove, NewestCovered, IdsAbove, Muted;
    match step
    case SendEnqueue => MutedEnqueue(s, t);
    case Transmit(outcome) => MutedTransmit(s, t, outcome);
    case _ => MutedApart(s, t, step);
  }

  lemma {:induction false} MutedEnqueue(s: State, t: State)
    requires Muted(s, t) && t.main.Sending?
    ensures Muted(s, ApplySendEnqueue(t))
  {
  }

  lemma {:induction false} MutedTransmit(s: State, t: State, outcome: Outcome)
    requires Muted(s, t) && t.worker.Transmitting?
    ensures Muted(s, ApplyTransmit(t, outcome))
  {
  }

  lemma {:induction false} MutedApart(s: State, t: State, step: Step)
    requires Muted(s, t) && Enabled(t, step) && step != Suppress(false) && !step.SendEnqueue? && !step.Transmit?
    ensures Muted(s, Apply(t, step))
  {
    hide StampsAbove, NewestCovered, IdsAbove;
    var u := Apply(t, step);
    assert u.suppressed && u.transmitted == t.transmitted && (u.main.Sending? ==> u.main == t.main);
    assert u.worker.Transmitting? ==> u.worker == t.worker;
  }

  lemma {:induction false} MutedRun(s: State, first: State, steps: seq<Step>, t: State)
    requires Muted(s, first) && Exec(first, steps) == Some(t)
    requires forall k :: 0 <= k < |steps| ==> steps[k] != Suppress(false)
    ensures Muted(s, t)
    decreases |steps|
  {
    hide Apply, Enabled, Muted;
    if steps != [] {
      var before := Exec(first, steps[..|steps| - 1]).value;
      MutedRun(s, first, steps[..|steps| - 1], before);
      MutedStep(s, before, steps[|steps| - 1]);
    }
  }

  /** From a suppression on until it ends, the client gets at most the frame that was in transmission, the
      worker takes no other frame, and the queue holds at most what the main thread had let through. */
  lemma {:induction false} SuppressionMutes(s: State, steps: seq<Step>, t: State)
    requires Exec(Apply(s, Suppress(true)), steps) == Some(t)
    requires forall k :: 0 <= k < |steps| ==> steps[k] != Suppress(false)
    ensures t.transmitted == s.transmitted
        || (s.worker.Transmitting? && t.transmitted == s.transmitted + [s.worker.frame])
    ensures (forall f :: f in t.queue ==> s.main == Sending(f)) && (t.worker.Holding? ==> t.worker == s.worker)
  {
    hide Exec;
    MutedRun(s, Apply(s, Suppress(true)), steps, t);
  }

  // The purge.

  /** What holds from the first part of a purge, begun in `s`, until the next key output. */
  ghost predicate Purged(s: State, t: State) {
    && t.queue == [] && !t.main.Sending? && (t.main.MainIdle? ==> t.gate)
    && (t.transmitted == s.transmitted || (Carried(s) != [] && t.transmitted == s.transmitted + Carried(s)))
    && (t.worker.Holding? || t.worker.Transmitting? ==>
          Carried(s) == [t.worker.frame] && t.transmitted == s.transmitted)
  }

  ghost predicate PurgedWindow(s: State, t: State) {
    t.frameId >= s.frameId && !t.main.Sending?
    && (!t.main.PurgedQueue? ==> forall id :: id in t.pending ==> id >= s.frameId)
  }

  /** The frame in the worker's hands. */
  function Carried(s: State): seq<Frame> {
    if s.worker.Holding? || s.worker.Transmitting? then [s.worker.frame] else []
  }

  lemma {:induction false} PurgedStep(s: State, t: State, step: Step)
    requires Purged(s, t) && Enabled(t, step) && !KeyOutput(step)
    ensures Purged(s, Apply(t, step))
  {
    hide StampsAbove, NewestCovered, IdsAbove;
  }

  lemma {:induction false} PurgedWindowStep(s: State, t: State, step: Step)
    requires Purged(s, t) && PurgedWindow(s, t) && Enabled(t, step) && !KeyOutput(step)
    ensures PurgedWindow(s, Apply(t, step))
  {
    hide StampsAbove, NewestCovered, Carried, IdsAbove, Purged;
    NotSending(s, t);
    match step
    case Ack(id, now) => AcknowledgedIds(t.pending, id);
    case _ =>
  }

  lemma {:induction false} NotSending(s: State, t: State)
    requires Purged(s, t)
    ensures !t.main.Sending? && (t.main.MainIdle? ==> t.gate)
  {
  }

  lemma {:induction false} AcknowledgedIds(ids: set<nat>, id: nat)
    ensures IdsAbove(ids, id) <= ids
  {
  }

  lemma {:induction false} PurgedRun(s: State, first: State, steps: seq<Step>, t: State)
    requires Purged(s, first) && PurgedWindow(s, first) && Exec(first, steps) == Some(t) && NoKeyOutput(steps)
    ensures Purged(s, t) && PurgedWindow(s, t)
    decreases |steps|
  {
    hide Apply, Enabled, Purged, PurgedWindow, KeyOutput;
    if steps != [] {
      var before := Exec(first, steps[..|steps| - 1]).value;
      PurgedRun(s, first, steps[..|steps| - 1], before);
      PurgedStep(s, before, steps[|steps| - 1]);
      PurgedWindowStep(s, before, steps[|steps| - 1]);
    }
  }

  /** Whatever the other threads do meanwhile, from a purge until the next key output the queue is empty
      and the client gets at most the frame that the worker had taken; once the main thread is through
      with it the gate is up, and no id from before the purge is in flight. */
  lemma {:induction false} PurgeDiscards(s: State, steps: seq<Step>, t: State)
    requires s.main.MainIdle? && Exec(Apply(s, PurgeQueue), steps) == Some(t) && NoKeyOutput(steps)
    ensures t.queue == [] && (t.transmitted == s.transmitted || t.transmitted == s.transmitted + Carried(s))
    ensures t.main.MainIdle? ==> t.gate && forall id :: id in t.pending ==> id >= s.frameId
  {
    hide Exec;
    PurgedRun(s, Apply(s, PurgeQueue), steps, t);
  }

  // Numbering and timing.

  function InsertedIds(events: seq<Event>): seq<nat> {
    if events == [] then []
    else
      var last := events[|events| - 1];
      InsertedIds(events[..|events| - 1]) + (if last.Inserted? then [last.id] else [])
  }

  function FailedStarts(events: seq<Event>): nat {
    if events == [] then 0
    else FailedStarts(events[..|events| - 1]) + (if events[|events| - 1].StartFailed? then 1 else 0)
  }

  lemma {:induction false} EventsSnoc(events: seq<Event>, e: Event)
    ensures InsertedIds(events + [e]) == InsertedIds(events) + (if e.Inserted? then [e.id] else [])
    ensures FailedStarts(events + [e]) == FailedStarts(events) + (if e.StartFailed? then 1 else 0)
  {
    assert (events + [e])[..|events|] == events;
  }

  function UpTo(n: nat): (ids: seq<nat>)
    ensures |ids| == n && forall k :: 0 <= k < n ==> ids[k] == k
  {
    seq(n, k requires 0 <= k < n => k)
  }

  ghost predicate Counted(s: State) {
    && InsertedIds(s.events) == UpTo(s.frameId)
    && |s.transmitted| + FailedStarts(s.events) + (if s.worker.Transmitting? then 1 else 0) <= s.frameId
    && (s.worker.Transmitting? ==> s.worker.id == s.frameId - 1)
  }

  lemma {:induction false} CountedStep(s: State, step: Step)
    requires Counted(s) && Enabled(s, step)
    ensures Counted(Apply(s, step))
  {
    hide StampsAbove, NewestCovered, IdsAbove, InsertedIds, FailedStarts, UpTo, Counted;
    match step
    case Submit(now) => CountedSubmit(s, now);
    case Transmit(outcome) => CountedTransmit(s, outcome);
    case _ => OthersApart(s, step); CountedApart(s, Apply(s, step));
  }

  lemma {:induction false} OthersApart(s: State, step: Step)
    requires Enabled(s, step) && !step.Submit? && !step.Transmit?
    ensures var t := Apply(s, step);
            && t.frameId == s.frameId && t.transmitted == s.transmitted
            && (t.worker.Transmitting? ==> t.worker == s.worker)
            && (t.events == s.events
                || exists e: Event :: t.events == s.events + [e] && (e.Cleared? || e.Acked?))
  {
    hide StampsAbove, NewestCovered, IdsAbove;
  }

  lemma {:induction false} CountedApart(s: State, t: State)
    requires Counted(s) && t.frameId == s.frameId && t.transmitted == s.transmitted
    requires t.worker.Transmitting? ==> t.worker == s.worker
    requires t.events == s.events || exists e: Event :: t.events == s.events + [e] && (e.Cleared? || e.Acked?)
    ensures Counted(t)
  {
    hide InsertedIds, FailedStarts, UpTo;
    if t.events != s.events {
      var e: Event :| t.events == s.events + [e] && (e.Cleared? || e.Acked?);
      EventsSnoc(s.events, e);
    }
  }

  lemma {:induction false} CountedSubmit(s: State, now: int)
    requires Counted(s) && s.worker.Holding?
    ensures Counted(ApplySubmit(s, now))
  {
    hide InsertedIds, FailedStarts, UpTo;
    EventsSnoc(s.events, Inserted(s.frameId));
    OneMoreId(s.frameId);
  }

  lemma {:induction false} CountedTransmit(s: State, outcome: Outcome)
    requires Counted(s) && s.worker.Transmitting?
    ensures Counted(ApplyTransmit(s, outcome))
  {
    hide InsertedIds, FailedStarts, UpTo;
    EventsSnoc(s.events, StartFailed(s.worker.id));
  }

  lemma {:induction false} OneMoreId(n: nat)
    ensures UpTo(n + 1) == UpTo(n) + [n]
  {
  }

  lemma {:induction false} CountedRun(s0: State, steps: seq<Step>, s: State)
    requires Init(s0) && Exec(s0, steps) == Some(s)
    ensures Counted(s)
    decreases |steps|
  {
    hide Counted, Apply, Enabled;
    if steps == [] {
      InitCounted(s0);
    } else {
      var before := Exec(s0, steps[..|steps| - 1]).value;
      CountedRun(s0, steps[..|steps| - 1], before);
      CountedStep(before, steps[|steps| - 1]);
    }
  }

  lemma {:induction false} InitCounted(s: State)
    requires Init(s)
    ensures Counted(s)
  {
  }

  /** Every submission enters the window under an id of its own: the ids inserted are 0, 1, 2, and so on,
      and there are at least as many of them as frames transmitted, refused and in transmission. */
  lemma {:induction false} FramesNumbered(s: State)
    requires Reachable(s)
    ensures InsertedIds(s.events) == UpTo(s.frameId)
    ensures |s.transmitted| + FailedStarts(s.events) + (if s.worker.Transmitting? then 1 else 0) <= s.frameId
  {
    var s0, steps :| Init(s0) && Exec(s0, steps) == Some(s);
    CountedRun(s0, steps, s);
  }

  /** A check is granted exactly while the window has fewer than 16, 20 or 24 ids, by the last round trip
      time, or when its oldest send time is both more than 120 ms and more than two round trips ago; and
      then alone is the window cleared. */
  lemma {:induction false} GrantedIff(s: State, now: int)
    requires s.worker.Waiting? || s.worker.Admitted?
    ensures var t := Apply(s, CheckCapacity(now));
            var room :=
              |s.pending| < 16 || (s.lastRtt > 50 && |s.pending| < 20) || (s.lastRtt > 100 && |s.pending| < 24);
            var late := s.stamps != [] && now - s.stamps[0].sentAt > 120 && now - s.stamps[0].sentAt > 2 * s.lastRtt;
            && (t.worker.Admitted? <==> room || late)
            && t.pending == (if late && !room then {} else s.pending)
            && t.stamps == (if late && !room then [] else s.stamps)
  {
  }

  ghost predicate SentAt(stamps: seq<Stamp>, id: nat, time: int) {
    forall k :: 0 <= k < |stamps| && stamps[k].id == id ==> stamps[k].sentAt == time
  }

  lemma {:induction false} SentAtStep(s: State, step: Step, id: nat, time: int)
    requires WindowInv(s) && Enabled(s, step) && id < s.frameId && SentAt(s.stamps, id, time)
    ensures WindowInv(Apply(s, step)) && id < Apply(s, step).frameId && SentAt(Apply(s, step).stamps, id, time)
  {
    hide StampsAbove, NewestCovered, IdsAbove, WindowInv;
    WindowStep(s, step);
    if step.Ack? { StampsAboveSource(s.stamps, step.id); }
  }

  lemma {:induction false} SentAtRun(s: State, steps: seq<Step>, t: State, id: nat, time: int)
    requires WindowInv(s) && id < s.frameId && SentAt(s.stamps, id, time) && Exec(s, steps) == Some(t)
    ensures WindowInv(t) && id < t.frameId && SentAt(t.stamps, id, time)
    decreases |steps|
  {
    hide Apply, Enabled, WindowInv, SentAt;
    if steps != [] {
      var before := Exec(s, steps[..|steps| - 1]).value;
      SentAtRun(s, steps[..|steps| - 1], before, id, time);
      SentAtStep(before, steps[|steps| - 1], id, time);
    }
  }

  /** The round trip time is measured: acknowledging the frame submitted at `sent`, as long as its send
      time is on record, sets it to the time since then, whatever happened in between. */
  lemma {:induction false} RttMeasured(s: State, sent: int, steps: seq<Step>, t: State, now: int)
    requires Reachable(s) && s.worker.Holding? && s.ready && !s.suppressed
    requires Exec(Apply(s, Submit(sent)), steps) == Some(t) && HasStamp(t.stamps, s.frameId)
    ensures Apply(t, Ack(s.frameId, now)).lastRtt == now - sent
  {
    hide Exec, WindowInv, StampsAbove;
    var s0, first :| Init(s0) && Exec(s0, first) == Some(s);
    ReachableInv(s0, first, s);
    WindowStep(s, Submit(sent));
    assert SentAt(Apply(s, Submit(sent)).stamps, s.frameId, sent) by { FreshStamp(s, sent); }
    SentAtRun(Apply(s, Submit(sent)), steps, t, s.frameId, sent);
    var k :| 0 <= k < |t.stamps| && t.stamps[k].id == s.frameId;
    NewestAt(t, k);
  }

  lemma {:induction false} FreshStamp(s: State, sent: int)
    requires WindowInv(s)
    ensures SentAt(s.stamps + [Stamp(s.frameId, sent)], s.frameId, sent)
  {
  }

  lemma {:induction false} NewestAt(s: State, k: nat)
    requires WindowInv(s) && k < |s.stamps|
    ensures NewestCovered(s.stamps, s.stamps[k].id) == Some(s.stamps[k])
  {
    PrefixPopIsFilter(s.stamps, s.stamps[k].id, k + 1);
  }

  /** An acknowledgement that covers no send time on record leaves the round trip time alone. */
  lemma {:induction false} UncoveredAck(s: State, id: nat, now: int)
    requires forall k :: 0 <= k < |s.stamps| ==> s.stamps[k].id > id
    ensures Apply(s, Ack(id, now)).lastRtt == s.lastRtt
  {
    NothingCovered(s.stamps, id);
  }

  lemma {:induction false} NothingCovered(stamps: seq<Stamp>, id: nat)
    requires forall k :: 0 <= k < |stamps| ==> stamps[k].id > id
    ensures NewestCovered(stamps, id) == None
  {
    if stamps != [] { NothingCovered(stamps[..|stamps| - 1], id); }
  }
}
