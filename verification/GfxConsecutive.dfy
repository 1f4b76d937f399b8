/**
 The literal reading of the gate's promise: two frames sent in succession are consecutive encoder
 outputs, back-to-back repeats aside, or the second one is a keyframe. Ordinary runs can break it;
 this module says exactly when they do.
 */
module GfxConsecutive {
  import opened Basics
  import opened GfxModel
  import opened GfxChain

  /** The outputs discarded because the channel waited for a keyframe. */
  ghost function Gated(s0: State, steps: seq<Step>): set<nat>
    requires Exec(s0, steps).Some?
  {
    if steps == [] then {}
    else
      var before := steps[..|steps| - 1];
      Gated(s0, before) + GatedBy(Exec(s0, before).value, steps[|steps| - 1])
  }

  ghost function GatedBy(s: State, step: Step): set<nat> {
    if step.SendCheck? && step.data != [] && s.gate && !step.isKey then {|s.encoded|} else {}
  }

  ghost predicate KeyBetween(encoded: seq<Frame>, x: nat, y: nat) {
    exists k :: x < k < y && k < |encoded| && encoded[k].isKey
  }

  /** Every output after number `from` and below `to` was gated or repeats `f`. */
  ghost predicate OnlyGatedOrRepeats(encoded: seq<Frame>, gated: set<nat>, f: Frame, to: nat) {
    to <= |encoded| && forall j :: f.seqNo < j < to ==> j in gated || PrintOf(encoded[j]) == PrintOf(f)
  }

  ghost predicate KeyAfterGated(encoded: seq<Frame>, gated: set<nat>, f: Frame, g: Frame) {
    forall x :: x in gated && f.seqNo < x < g.seqNo ==> KeyBetween(encoded, x, g.seqNo)
  }

  ghost predicate Link(encoded: seq<Frame>, gated: set<nat>, f: Frame, g: Frame) {
    g.isKey || (OnlyGatedOrRepeats(encoded, gated, f, g.seqNo) && KeyAfterGated(encoded, gated, f, g))
  }

  ghost predicate LinkAt(pipe: seq<Frame>, encoded: seq<Frame>, gated: set<nat>, p: nat)
    requires p + 1 < |pipe|
  {
    Link(encoded, gated, pipe[p], pipe[p + 1])
  }

  ghost predicate Links(pipe: seq<Frame>, encoded: seq<Frame>, gated: set<nat>) {
    forall p {:trigger LinkAt(pipe, encoded, gated, p)} :: 0 <= p < |pipe| - 1 ==> LinkAt(pipe, encoded, gated, p)
  }

  /** The queue is empty and only a keyframe can get past the gate into it. */
  predicate KeyNext(s: State) {
    s.queue == [] && (match s.main case Sending(f) => f.isKey case MainIdle => s.gate case _ => true)
  }

  /** After the last frame still to reach the client there is nothing but gated outputs and repeats,
      or a keyframe comes next. */
  ghost predicate TailOk(s: State, gated: set<nat>) {
    var pipe := Pipe(s);
    pipe != [] ==> KeyNext(s) || OnlyGatedOrRepeats(s.encoded, gated, pipe[|pipe| - 1], |Handled(s)|)
  }

  /** A gated output is a delta, and a keyframe came after it or is still awaited. */
  ghost predicate GatedOk(encoded: seq<Frame>, gated: set<nat>, gate: bool) {
    forall x :: x in gated ==> x < |encoded| && !encoded[x].isKey && (gate || KeyBetween(encoded, x, |encoded|))
  }

  ghost predicate Inv(s: State, gated: set<nat>) {
    && s.ready && !s.suppressed && (s.main.Sending? ==> !s.gate)
        && (s.main.PurgedQueue? || s.main.PurgedPending? ==> s.queue == [])
    && GatedOk(s.encoded, gated, s.gate)
    && Links(Pipe(s), s.encoded, gated) && TailOk(s, gated)
  }

  ghost predicate InRange(s: State) {
    && (forall p :: 0 <= p < |Pipe(s)| ==> Pipe(s)[p].seqNo < |Handled(s)|)
    && (s.main.Sending? ==>
          && s.encoded != [] && s.main.frame == s.encoded[|s.encoded| - 1]
          && s.main.frame.seqNo == |s.encoded| - 1)
  }

  lemma {:induction false} ChainInvInRange(s: State)
    requires ChainInv(s)
    ensures InRange(s)
  {
    hide Chain;
    forall p | 0 <= p < |Pipe(s)| ensures Pipe(s)[p].seqNo < |Handled(s)| { assert InStep(Pipe(s), Handled(s), p); }
  }

  lemma {:induction false} LinkGrows(encoded: seq<Frame>, gated: set<nat>, e: Frame, more: set<nat>, f: Frame, g: Frame)
    requires Link(encoded, gated, f, g) && g.seqNo < |encoded| && more <= {|encoded|}
    ensures Link(encoded + [e], gated + more, f, g)
  {
    if !g.isKey {
      forall x | x in gated && f.seqNo < x < g.seqNo ensures KeyBetween(encoded + [e], x, g.seqNo) {
        var k :| x < k < g.seqNo && k < |encoded| && encoded[k].isKey;
        assert (encoded + [e])[k].isKey;
      }
    }
  }

  lemma {:induction false} GatedGrows(encoded: seq<Frame>, gated: set<nat>, gate: bool, e: Frame)
    requires GatedOk(encoded, gated, gate)
    ensures if !e.isKey && gate then GatedOk(encoded + [e], gated + {|encoded|}, true)
        else GatedOk(encoded + [e], gated, false)
  {
    var after := encoded + [e];
    forall x | x in gated ensures x < |after| && !after[x].isKey
        && ((gate && !e.isKey) || KeyBetween(after, x, |after|)) {
      if e.isKey {
        assert after[|encoded|].isKey;
      } else if !gate {
        var k :| x < k < |encoded| && encoded[k].isKey;
        assert after[k].isKey;
      }
    }
  }

  lemma {:induction false} SendCheckKeeps(s: State, step: Step, gated: set<nat>)
    requires Inv(s, gated) && InRange(s) && step.SendCheck? && Enabled(s, step)
    ensures Inv(Apply(s, step), gated + GatedBy(s, step))
  {
    hide Link, GatedOk;
    if step.data != [] {
      var e := Frame(step.data, step.isKey, step.hash, |s.encoded|);
      var t, gated1 := Apply(s, step), gated + GatedBy(s, step);
      GatedGrows(s.encoded, gated, s.gate, e);
      assert gated + {} == gated;
      assert Pipe(t) == Pipe(s);
      forall p | 0 <= p < |Pipe(t)| - 1 ensures LinkAt(Pipe(t), t.encoded, gated1, p) {
        assert LinkAt(Pipe(s), s.encoded, gated, p);
        LinkGrows(s.encoded, gated, e, GatedBy(s, step), Pipe(s)[p], Pipe(s)[p + 1]);
      }
    } else {
      assert gated + {} == gated;
    }
  }

  lemma {:induction false} LinksPrefix(pipe: seq<Frame>, encoded: seq<Frame>, gated: set<nat>, n: nat)
    requires Links(pipe, encoded, gated) && n <= |pipe|
    ensures Links(pipe[..n], encoded, gated)
  {
    hide Link;
    forall p | 0 <= p < n - 1 ensures LinkAt(pipe[..n], encoded, gated, p) { assert LinkAt(pipe, encoded, gated, p); }
  }

  lemma {:induction false} LinksSnoc(pipe: seq<Frame>, encoded: seq<Frame>, gated: set<nat>, g: Frame)
    requires Links(pipe, encoded, gated) && (pipe != [] ==> Link(encoded, gated, pipe[|pipe| - 1], g))
    ensures Links(pipe + [g], encoded, gated)
  {
    hide Link;
    var all := pipe + [g];
    forall p | 0 <= p < |all| - 1 ensures LinkAt(all, encoded, gated, p) {
      if p < |pipe| - 1 { assert LinkAt(pipe, encoded, gated, p); }
    }
  }

  /** The new frame's link to the last one still under way. */
  lemma {:induction false} NewLink(s: State, gated: set<nat>)
    requires Inv(s, gated) && InRange(s) && s.main.Sending? && Pipe(s) != []
    ensures Link(s.encoded, gated, Pipe(s)[|Pipe(s)| - 1], s.main.frame)
  {
    var f, g := Pipe(s)[|Pipe(s)| - 1], s.main.frame;
    if !g.isKey {
      forall x | x in gated && f.seqNo < x < g.seqNo ensures KeyBetween(s.encoded, x, g.seqNo) {
        var k :| x < k < |s.encoded| && s.encoded[k].isKey;
        assert k != g.seqNo;
      }
    }
  }

  lemma {:induction false} SendEnqueueKeeps(s: State, gated: set<nat>)
    requires Inv(s, gated) && InRange(s) && s.main.Sending?
    ensures Inv(ApplySendEnqueue(s), gated)
  {
    hide Link, Links, GatedOk;
    var f, t := s.main.frame, ApplySendEnqueue(s);
    if s.queue != [] && PrintOf(s.queue[|s.queue| - 1]) == PrintOf(f) {
      assert Pipe(t) == Pipe(s) && Pipe(s)[|Pipe(s)| - 1] == s.queue[|s.queue| - 1];
    } else if |s.queue| > MAX_QUEUED {
      LinksPrefix(Pipe(s), s.encoded, gated, |Taken(s)|);
      assert Pipe(t) == Pipe(s)[..|Taken(s)|];
      GateRaised(s.encoded, gated, s.gate);
    } else {
      if Pipe(s) != [] { NewLink(s, gated); }
      LinksSnoc(Pipe(s), s.encoded, gated, f);
      assert Pipe(t) == Pipe(s) + [f];
    }
  }

  lemma {:induction false} GateRaised(encoded: seq<Frame>, gated: set<nat>, gate: bool)
    requires GatedOk(encoded, gated, gate)
    ensures GatedOk(encoded, gated, true)
  {
  }

  /** Steps that leave the frames under way where they are, or only raise the gate. */
  lemma {:induction false} SameFramesKeep(s: State, t: State, gated: set<nat>)
    requires Inv(s, gated) && Pipe(t) == Pipe(s) && t.encoded == s.encoded && t.ready && !t.suppressed
    requires t.main == s.main || (s.main.PurgedQueue? && t.main.PurgedPending?)
        || (s.main.PurgedPending? && t.main.MainIdle? && t.gate)
    requires t.gate == s.gate || (t.gate && !s.main.Sending?)
    requires s.queue == [] ==> t.queue == []
    ensures Inv(t, gated)
  {
    hide Link, GatedOk;
    GateRaised(s.encoded, gated, s.gate);
    assert Handled(t) == Handled(s);
  }

  lemma {:induction false} PurgeKeeps(s: State, gated: set<nat>)
    requires Inv(s, gated) && s.main.MainIdle?
    ensures Inv(Apply(s, PurgeQueue), gated)
  {
    hide Link, GatedOk;
    LinksPrefix(Pipe(s), s.encoded, gated, |Taken(s)|);
    assert Pipe(Apply(s, PurgeQueue)) == Pipe(s)[..|Taken(s)|];
  }

  lemma {:induction false} StepKeeps(s: State, step: Step, gated: set<nat>)
    requires Inv(s, gated) && InRange(s) && Enabled(s, step) && Ordinary(step)
    ensures Inv(Apply(s, step), gated + GatedBy(s, step))
  {
    hide Links, GatedOk, TailOk, StampsAbove, NewestCovered;
    if step.SendCheck? {
      SendCheckKeeps(s, step, gated);
    } else {
      assert gated + {} == gated;
      if step.SendEnqueue? {
        SendEnqueueKeeps(s, gated);
      } else if step.PurgeQueue? {
        PurgeKeeps(s, gated);
      } else {
        assert Pipe(Apply(s, step)) == Pipe(s);
        SameFramesKeep(s, Apply(s, step), gated);
      }
    }
  }

  lemma {:induction false} InitInv(s: State)
    requires Init(s) && s.ready && !s.suppressed
    ensures Inv(s, {})
  {
  }

  lemma {:induction false} RunInv(s0: State, steps: seq<Step>, s: State)
    requires Init(s0) && s0.ready && !s0.suppressed && Exec(s0, steps) == Some(s)
    requires forall k :: 0 <= k < |steps| ==> Ordinary(steps[k])
    ensures Inv(s, Gated(s0, steps)) && InRange(s)
    decreases |steps|
  {
    hide Inv, Apply, ChainInv, InRange, Enabled;
    OrdinaryRunsLoseNothing(s0, steps, s);
    LosslessInv(s0, steps, s);
    ChainInvInRange(s);
    if steps == [] {
      InitInv(s0);
    } else {
      var before := steps[..|steps| - 1];
      RunInv(s0, before, Exec(s0, before).value);
      StepKeeps(Exec(s0, before).value, steps[|steps| - 1], Gated(s0, before));
    }
  }

  /** Every output strictly between the two repeats the first. */
  ghost predicate OnlyRepeatsBetween(encoded: seq<Frame>, f: Frame, g: Frame)
    requires g.seqNo <= |encoded|
  {
    forall j :: f.seqNo < j < g.seqNo ==> PrintOf(encoded[j]) == PrintOf(f)
  }

  /** In every ordinary run two frames sent in succession are consecutive encoder outputs, repeats of
      the first aside, or the second is a keyframe, exactly when the second is a keyframe or no
      output between them was discarded at the gate. */
  lemma {:induction false} ConsecutiveOutputsIff(s0: State, steps: seq<Step>, s: State, t: nat)
    requires Init(s0) && s0.ready && !s0.suppressed && Exec(s0, steps) == Some(s)
    requires forall k :: 0 <= k < |steps| ==> Ordinary(steps[k])
    requires t + 1 < |s.transmitted|
    ensures var f, g := s.transmitted[t], s.transmitted[t + 1];
            && g.seqNo < |s.encoded|
            && (g.isKey || OnlyRepeatsBetween(s.encoded, f, g)
                <==> g.isKey || forall x :: f.seqNo < x < g.seqNo ==> x !in Gated(s0, steps))
  {
    hide Gated, Exec;
    RunInv(s0, steps, s);
    var f, g, gated := s.transmitted[t], s.transmitted[t + 1], Gated(s0, steps);
    assert Pipe(s)[t] == f && Pipe(s)[t + 1] == g;
    assert LinkAt(Pipe(s), s.encoded, gated, t);
    if !g.isKey && exists x :: x in gated && f.seqNo < x < g.seqNo {
      var x :| x in gated && f.seqNo < x < g.seqNo;
      var k :| x < k < g.seqNo && k < |s.encoded| && s.encoded[k].isKey;
      assert PrintOf(s.encoded[x]) != PrintOf(s.encoded[k]);
    }
  }
}
