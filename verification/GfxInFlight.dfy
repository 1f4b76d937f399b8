/**
 The in-flight window: `m_pendingFrames` and `m_pendingFrameTimestamps` against the history of
 insertions, acknowledgements and clears, and the bounds that hold although the capacity check,
 the insertion and the acknowledgements are separate critical sections.
 */
module GfxInFlight {
  import opened Basics
  import opened GfxModel

  /** Frame `id` still awaits its acknowledgement, from the history alone. */
  ghost predicate InFlight(h: seq<Event>, id: nat) {
    exists k :: 0 <= k < |h| && h[k] == Inserted(id) && forall j :: k < j < |h| ==> !Settles(h[j], id)
  }

  /** The send time of `id` is still on record: a failed StartFrame does not remove it. */
  ghost predicate Stamped(h: seq<Event>, id: nat) {
    exists k :: 0 <= k < |h| && h[k] == Inserted(id) && forall j :: k < j < |h| ==> !Expires(h[j], id)
  }

  predicate Expires(e: Event, id: nat) {
    e.Cleared? || (e.Acked? && id <= e.id)
  }

  predicate Settles(e: Event, id: nat) {
    Expires(e, id) || e == StartFailed(id)
  }

  ghost predicate HasStamp(stamps: seq<Stamp>, id: nat) {
    exists k :: 0 <= k < |stamps| && stamps[k].id == id
  }

  ghost predicate Increasing(stamps: seq<Stamp>) {
    forall i, j :: 0 <= i < j < |stamps| ==> stamps[i].id < stamps[j].id
  }

  /** The set and the deque say exactly what the history says. */
  ghost predicate WindowInv(s: State) {
    && Increasing(s.stamps)
    && (forall k :: 0 <= k < |s.stamps| ==> s.stamps[k].id < s.frameId)
    && (forall k :: 0 <= k < |s.events| && s.events[k].Inserted? ==> s.events[k].id < s.frameId)
    && (forall id :: id in s.pending <==> InFlight(s.events, id))
    && (forall id :: HasStamp(s.stamps, id) <==> Stamped(s.events, id))
  }

  lemma {:induction false} InFlightSnoc(h: seq<Event>, e: Event, id: nat)
    ensures InFlight(h + [e], id) <==> e == Inserted(id) || (InFlight(h, id) && !Settles(e, id))
  {
    var g := h + [e];
    assert g[|h|] == e && forall k :: 0 <= k < |h| ==> g[k] == h[k];
    if InFlight(g, id) {
      var k :| 0 <= k < |g| && g[k] == Inserted(id) && forall j :: k < j < |g| ==> !Settles(g[j], id);
      if k < |h| {
        assert forall j :: k < j < |h| ==> !Settles(h[j], id) by {
          forall j | k < j < |h| ensures !Settles(h[j], id) { assert g[j] == h[j]; }
        }
        assert h[k] == Inserted(id);
        assert !Settles(g[|h|], id);
      }
    }
    if InFlight(h, id) && !Settles(e, id) {
      var k :| 0 <= k < |h| && h[k] == Inserted(id) && forall j :: k < j < |h| ==> !Settles(h[j], id);
      assert g[k] == Inserted(id);
    }
  }

  lemma {:induction false} StampedSnoc(h: seq<Event>, e: Event, id: nat)
    ensures Stamped(h + [e], id) <==> e == Inserted(id) || (Stamped(h, id) && !Expires(e, id))
  {
    var g := h + [e];
    assert g[|h|] == e && forall k :: 0 <= k < |h| ==> g[k] == h[k];
    if Stamped(g, id) {
      var k :| 0 <= k < |g| && g[k] == Inserted(id) && forall j :: k < j < |g| ==> !Expires(g[j], id);
      if k < |h| {
        assert forall j :: k < j < |h| ==> !Expires(h[j], id) by {
          forall j | k < j < |h| ensures !Expires(h[j], id) { assert g[j] == h[j]; }
        }
        assert h[k] == Inserted(id);
        assert !Expires(g[|h|], id);
      }
    }
    if Stamped(h, id) && !Expires(e, id) {
      var k :| 0 <= k < |h| && h[k] == Inserted(id) && forall j :: k < j < |h| ==> !Expires(h[j], id);
      assert g[k] == Inserted(id);
    }
  }

  lemma {:induction false} HasStampCons(first: Stamp, rest: seq<Stamp>, id: nat)
    ensures HasStamp([first] + rest, id) <==> first.id == id || HasStamp(rest, id)
  {
    var all := [first] + rest;
    assert all[0] == first;
    if HasStamp(rest, id) {
      var k :| 0 <= k < |rest| && rest[k].id == id;
      assert all[k + 1].id == id;
    }
    if HasStamp(all, id) && first.id != id {
      var k :| 0 <= k < |all| && all[k].id == id;
      assert rest[k - 1].id == id;
    }
  }

  lemma {:induction false} StampsAboveSource(stamps: seq<Stamp>, id: nat)
    ensures forall k :: 0 <= k < |StampsAbove(stamps, id)| ==> StampsAbove(stamps, id)[k] in stamps
  {
    if stamps != [] { StampsAboveSource(stamps[1..], id); }
  }

  lemma {:induction false} StampsAboveHas(stamps: seq<Stamp>, id: nat, i: nat)
    ensures HasStamp(StampsAbove(stamps, id), i) <==> HasStamp(stamps, i) && i > id
  {
    if stamps != [] {
      var rest := StampsAbove(stamps[1..], id);
      StampsAboveHas(stamps[1..], id, i);
      assert stamps == [stamps[0]] + stamps[1..];
      HasStampCons(stamps[0], stamps[1..], i);
      HasStampCons(stamps[0], rest, i);
      assert StampsAbove(stamps, id) == if stamps[0].id > id then [stamps[0]] + rest else rest;
    }
  }

  lemma {:induction false} StampsAboveIncreasing(stamps: seq<Stamp>, id: nat)
    requires Increasing(stamps)
    ensures Increasing(StampsAbove(stamps, id))
  {
    if stamps != [] {
      StampsAboveIncreasing(stamps[1..], id);
      StampsAboveSource(stamps[1..], id);
      assert forall k :: 0 < k < |stamps| ==> stamps[0].id < stamps[k].id;
    }
  }

  /** With increasing ids, popping covered stamps off the front equals filtering the whole deque. */
  lemma {:induction false} PrefixPopIsFilter(stamps: seq<Stamp>, id: nat, n: nat)
    requires Increasing(stamps) && n <= |stamps|
    requires forall k :: 0 <= k < n ==> stamps[k].id <= id
    requires n < |stamps| ==> stamps[n].id > id
    ensures StampsAbove(stamps, id) == stamps[n..]
    ensures NewestCovered(stamps, id) == if n == 0 then None else Some(stamps[n - 1])
  {
    AllAbove(stamps[n..], id);
    PopAll(stamps, id, n);
    NewestIs(stamps, id, n);
  }

  lemma {:induction false} AllAbove(stamps: seq<Stamp>, id: nat)
    requires Increasing(stamps) && (stamps != [] ==> stamps[0].id > id)
    ensures StampsAbove(stamps, id) == stamps
  {
    if stamps != [] { AllAbove(stamps[1..], id); }
  }

  lemma {:induction false} PopAll(stamps: seq<Stamp>, id: nat, n: nat)
    requires n <= |stamps| && forall k :: 0 <= k < n ==> stamps[k].id <= id
    ensures StampsAbove(stamps, id) == StampsAbove(stamps[n..], id)
  {
    if n > 0 {
      PopAll(stamps[1..], id, n - 1);
      assert stamps[1..][n - 1..] == stamps[n..];
    } else {
      assert stamps[0..] == stamps;
    }
  }

  lemma {:induction false} NewestIs(stamps: seq<Stamp>, id: nat, n: nat)
    requires Increasing(stamps) && n <= |stamps|
    requires forall k :: 0 <= k < n ==> stamps[k].id <= id
    requires n < |stamps| ==> stamps[n].id > id
    ensures NewestCovered(stamps, id) == if n == 0 then None else Some(stamps[n - 1])
  {
    if n < |stamps| {
      var last := |stamps| - 1;
      assert stamps[last].id > id;
      NewestIs(stamps[..last], id, n);
    }
  }

  // What each kind of event does to a window that agrees with the history.

  lemma {:induction false} InsertKeeps(s: State, t: State, now: int)
    requires WindowInv(s)
    requires t.frameId == s.frameId + 1 && t.pending == s.pending + {s.frameId}
    requires t.stamps == s.stamps + [Stamp(s.frameId, now)] && t.events == s.events + [Inserted(s.frameId)]
    ensures WindowInv(t)
  {
    forall id ensures id in t.pending <==> InFlight(t.events, id) { InFlightSnoc(s.events, Inserted(s.frameId), id); }
    forall id ensures HasStamp(t.stamps, id) <==> Stamped(t.events, id) {
      StampedSnoc(s.events, Inserted(s.frameId), id);
      assert t.stamps[|s.stamps|].id == s.frameId;
      if HasStamp(s.stamps, id) {
        var k :| 0 <= k < |s.stamps| && s.stamps[k].id == id;
        assert t.stamps[k].id == id;
      }
      if HasStamp(t.stamps, id) && id != s.frameId {
        var k :| 0 <= k < |t.stamps| && t.stamps[k].id == id;
        assert s.stamps[k].id == id;
      }
    }
  }

  lemma {:induction false} AckKeeps(s: State, t: State, ack: nat)
    requires WindowInv(s)
    requires t.frameId == s.frameId && t.pending == IdsAbove(s.pending, ack)
    requires t.stamps == StampsAbove(s.stamps, ack) && t.events == s.events + [Acked(ack)]
    ensures WindowInv(t)
  {
    StampsAboveIncreasing(s.stamps, ack);
    StampsAboveSource(s.stamps, ack);
    forall id ensures id in t.pending <==> InFlight(t.events, id) { InFlightSnoc(s.events, Acked(ack), id); }
    forall id ensures HasStamp(t.stamps, id) <==> Stamped(t.events, id) {
      StampedSnoc(s.events, Acked(ack), id);
      StampsAboveHas(s.stamps, ack, id);
    }
  }

  lemma {:induction false} ClearKeeps(s: State, t: State)
    requires WindowInv(s)
    requires t.frameId == s.frameId && t.pending == {} && t.stamps == [] && t.events == s.events + [Cleared]
    ensures WindowInv(t)
  {
    forall id ensures id in t.pending <==> InFlight(t.events, id) { InFlightSnoc(s.events, Cleared, id); }
    forall id ensures HasStamp(t.stamps, id) <==> Stamped(t.events, id) { StampedSnoc(s.events, Cleared, id); }
  }

  lemma {:induction false} StartFailureKeeps(s: State, t: State, failed: nat)
    requires WindowInv(s)
    requires t.frameId == s.frameId && t.pending == s.pending - {failed}
    requires t.stamps == s.stamps && t.events == s.events + [StartFailed(failed)]
    ensures WindowInv(t)
  {
    forall id ensures id in t.pending <==> InFlight(t.events, id) { InFlightSnoc(s.events, StartFailed(failed), id); }
    forall id ensures HasStamp(t.stamps, id) <==> Stamped(t.events, id) {
      StampedSnoc(s.events, StartFailed(failed), id);
    }
  }

  lemma {:induction false} UntouchedKeeps(s: State, t: State)
    requires WindowInv(s)
    requires t.frameId == s.frameId && t.pending == s.pending && t.stamps == s.stamps && t.events == s.events
    ensures WindowInv(t)
  {
  }

  lemma {:induction false} WindowStep(s: State, step: Step)
    requires WindowInv(s) && Enabled(s, step)
    ensures WindowInv(Apply(s, step))
  {
    hide WindowInv, StampsAbove, NewestCovered;
    var t := Apply(s, step);
    match step
    case Submit(now) => if s.ready && !s.suppressed { InsertKeeps(s, t, now); } else { UntouchedKeeps(s, t); }
    case Ack(id, _) => AckKeeps(s, t, id);
    case Transmit(outcome) =>
      if outcome == StartFrameFailed { StartFailureKeeps(s, t, s.worker.id); } else { UntouchedKeeps(s, t); }
    case PurgePending => ClearKeeps(s, t);
    case CheckCapacity(_) => if t.events != s.events { ClearKeeps(s, t); } else { UntouchedKeeps(s, t); }
    case _ => UntouchedKeeps(s, t);
  }

  /** The bounds, with the room the worker still holds after a granted check. */
  ghost predicate BoundInv(s: State) {
    && |s.queue| <= MAX_QUEUED + 1
    && |s.pending| <= 24
    && (s.worker.Admitted? || s.worker.Holding? ==> |s.pending| <= 23)
  }

  lemma {:induction false} SubsetSize(a: set<nat>, b: set<nat>)
    requires a <= b
    ensures |a| <= |b|
  {
    if a != {} {
      var x :| x in a;
      SubsetSize(a - {x}, b - {x});
    }
  }

  lemma {:induction false} SubmitBound(s: State, now: int)
    requires BoundInv(s) && s.worker.Holding?
    ensures BoundInv(ApplySubmit(s, now))
  {
    assert |s.pending + {s.frameId}| <= |s.pending| + 1;
  }

  lemma {:induction false} ShrinkBound(s: State, t: State)
    requires BoundInv(s) && t.queue == s.queue && t.pending <= s.pending && (t.worker == s.worker || t.worker.Waiting?)
    ensures BoundInv(t)
  {
    SubsetSize(t.pending, s.pending);
  }

  lemma {:induction false} BoundStep(s: State, step: Step)
    requires BoundInv(s) && Enabled(s, step)
    ensures BoundInv(Apply(s, step))
  {
    match step
    case Submit(now) =>
      hide BoundInv, ApplySubmit;
      SubmitBound(s, now);
    case Transmit(outcome) =>
      hide BoundInv;
      ShrinkBound(s, ApplyTransmit(s, outcome));
    case Ack(id, now) =>
      hide BoundInv, StampsAbove, NewestCovered;
      ShrinkBound(s, ApplyAck(s, id, now));
    case _ =>
  }

  ghost predicate Inv(s: State) {
    WindowInv(s) && BoundInv(s)
  }

  lemma {:induction false} InvStep(s: State, step: Step)
    requires Inv(s) && Enabled(s, step)
    ensures Inv(Apply(s, step))
  {
    WindowStep(s, step);
    BoundStep(s, step);
  }

  lemma {:induction false} ReachableInv(s0: State, steps: seq<Step>, s: State)
    requires Init(s0) && Exec(s0, steps) == Some(s)
    ensures Inv(s)
    decreases |steps|
  {
    if steps != [] {
      var before := Exec(s0, steps[..|steps| - 1]).value;
      ReachableInv(s0, steps[..|steps| - 1], before);
      InvStep(before, steps[|steps| - 1]);
    }
  }

  /** In-flight refinement, over every run of the three threads. */
  lemma {:induction false} WindowRefinesHistory(s: State)
    requires Reachable(s)
    ensures forall id :: id in s.pending <==> InFlight(s.events, id)
    ensures Increasing(s.stamps) && forall k :: 0 <= k < |s.stamps| ==> s.stamps[k].id < s.frameId
    ensures forall id :: HasStamp(s.stamps, id) <==> Stamped(s.events, id)
    ensures forall id :: id in s.pending ==> HasStamp(s.stamps, id)
    ensures (forall k :: 0 <= k < |s.events| ==> !s.events[k].StartFailed?) ==>
              forall id :: HasStamp(s.stamps, id) ==> id in s.pending
  {
    var s0, steps :| Init(s0) && Exec(s0, steps) == Some(s);
    ReachableInv(s0, steps, s);
    forall id ensures id in s.pending ==> Stamped(s.events, id) {
      if InFlight(s.events, id) {
        var k :| 0 <= k < |s.events| && s.events[k] == Inserted(id) && forall j :: k < j < |s.events| ==>
            !Settles(s.events[j], id);
        assert forall j :: k < j < |s.events| ==> !Expires(s.events[j], id) by {
          forall j | k < j < |s.events| ensures !Expires(s.events[j], id) { assert !Settles(s.events[j], id); }
        }
      }
    }
    if forall k :: 0 <= k < |s.events| ==> !s.events[k].StartFailed? {
      forall id | Stamped(s.events, id) ensures InFlight(s.events, id) {
        var k :| 0 <= k < |s.events| && s.events[k] == Inserted(id) && forall j :: k < j < |s.events| ==>
            !Expires(s.events[j], id);
        assert forall j :: k < j < |s.events| ==> !Settles(s.events[j], id);
      }
    }
  }

  /** Bounds under concurrency, with the RTT free to change between the check and the insertion. */
  lemma {:induction false} QueueAndWindowBounded(s: State)
    requires Reachable(s)
    ensures |s.queue| <= 21 && |s.pending| <= 24
  {
    var s0, steps :| Init(s0) && Exec(s0, steps) == Some(s);
    ReachableInv(s0, steps, s);
  }

  /** A full window never stalls the worker for good: it always has a send time on record, and
      every check made late enough after that time is granted. */
  lemma {:induction false} FullWindowTimesOut(s: State, now: int)
    requires Reachable(s) && (s.worker.Waiting? || s.worker.Admitted?)
    requires s.stamps != [] ==> now > s.stamps[0].sentAt + TimeoutMs(s.lastRtt)
    ensures |s.pending| >= MaxInFlight(s.lastRtt) ==> s.stamps != []
    ensures Apply(s, CheckCapacity(now)).worker.Admitted?
  {
    WindowRefinesHistory(s);
    if |s.pending| >= MaxInFlight(s.lastRtt) {
      var id :| id in s.pending;
      assert HasStamp(s.stamps, id);
    }
  }
}
