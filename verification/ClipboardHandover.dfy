/**
 What becomes of a descriptor list once nothing is in transfer any more: it was handed over and
 forgotten, or it stays.
 */
module ClipboardHandover {
  import opened Basics
  import opened ClipboardTransfer

  /** The list the channel works on: the last one received, unless the channel was closed since. */
  function ListOf(steps: seq<Step>): Option<seq<Offer>>
    decreases |steps|
  {
    if steps == [] then None
    else
      match steps[|steps| - 1]
      case Descriptors(offer, _) => Some(offer)
      case Close => None
      case _ => ListOf(steps[..|steps| - 1])
  }

  /** Some file of the last list entered the completed list. */
  ghost predicate SomeCompleted(s: State) {
    exists k :: 0 <= k < |s.log| && s.log[k].offerNo == OfferNo(s)
  }

  ghost predicate LastHandedOver(s: State) {
    s.deliveries != [] && s.deliveries[|s.deliveries| - 1].offerNo == OfferNo(s)
  }

  /** Between the steps of the loop over the list. */
  ghost predicate ListMid(s: State, list: Option<seq<Offer>>) {
    && (forall k :: 0 <= k < |s.log| ==> s.log[k].offerNo < |s.offers|)
    && (list.None? ==> s.items == [] && s.completed == [])
    && (list.Some? ==>
          && s.offers != [] && Current(s) == list.value
          && (if s.items == [] then s.completed == [] && (list.value == [] || (SomeCompleted(s) && LastHandedOver(s)))
              else |s.items| == |list.value| && (s.completed != [] <==> SomeCompleted(s))))
  }

  ghost predicate ListInv(s: State, list: Option<seq<Offer>>) {
    ListMid(s, list) && (!Active(s) && s.items != [] ==> s.completed == [])
  }

  lemma {:induction false} CompleteMid(s: State, list: Option<seq<Offer>>)
    requires ListMid(s, list) && Active(s)
    ensures ListMid(Complete(s), list)
  {
    var t := Complete(s);
    assert t.log[|s.log|].offerNo == OfferNo(t);
  }

  lemma {:induction false} SameListMid(s: State, t: State, list: Option<seq<Offer>>)
    requires ListMid(s, list) && |t.items| == |s.items| && t.completed == s.completed && t.log == s.log
    requires t.offers == s.offers && t.deliveries == s.deliveries
    ensures ListMid(t, list)
  {
  }

  lemma {:induction false} StartNextInv(s: State, openOk: set<nat>, list: Option<seq<Offer>>)
    requires ListMid(s, list)
    ensures ListInv(StartNext(s, openOk), list)
    decreases |s.items| - s.index
  {
    if Active(s) {
      hide ListMid;
      if !s.items[s.index].open && s.index !in openOk {
        SameListMid(s, s.(index := s.index + 1), list);
        StartNextInv(s.(index := s.index + 1), openOk, list);
      } else {
        var t := OpenCurrent(s);
        SameListMid(s, t, list);
        if s.items[s.index].fileSize == 0 {
          CompleteMid(t, list);
          StartNextInv(Complete(t), openOk, list);
        } else {
          SameListMid(s, BeginCurrent(t), list);
        }
      }
    }
  }

  lemma {:induction false} HandleInv(s: State, streamId: nat, reply: Reply, written: int, openOk: set<nat>,
          list: Option<seq<Offer>>)
    requires ListInv(s, list) && (reply.Data? ==> written <= |reply.bytes|)
    ensures ListInv(Handle(s, streamId, reply, written, openOk), list)
  {
    hide ListMid, StartNext, WriteAt;
    if Active(s) {
      if reply.Failed? || (streamId == s.streamId && reply.bytes == []) {
        SameListMid(s, Advance(s), list);
        StartNextInv(Advance(s), openOk, list);
      } else if streamId == s.streamId {
        var t := StoreBytes(s, reply.bytes, written);
        SameListMid(s, t, list);
        CompleteMid(t, list);
        StartNextInv(Complete(t), openOk, list);
        SameListMid(t, RequestChunk(t), list);
      }
    }
  }

  lemma {:induction false} DescriptorsInv(s: State, offer: seq<Offer>, openOk: set<nat>, list: Option<seq<Offer>>)
    requires ListInv(s, list)
    ensures ListInv(ApplyDescriptors(s, offer, openOk), Some(offer))
  {
    hide StartNext;
    var t := s.(items := ItemsFor(offer), completed := [], completedAt := [], index := 0, offers := s.offers + [offer]);
    StartNextInv(t, openOk, Some(offer));
  }

  lemma {:induction false} RunListInv(steps: seq<Step>, s: State)
    requires Exec(steps) == Some(s)
    ensures ListInv(s, ListOf(steps))
    decreases |steps|
  {
    hide StartNext, ListMid;
    if steps == [] {
      assert ListMid(FRESH, None) by { FreshMid(); }
    } else {
      var before, list, last := Exec(steps[..|steps| - 1]).value, ListOf(steps[..|steps| - 1]), steps[|steps| - 1];
      RunListInv(steps[..|steps| - 1], before);
      match last
      case Descriptors(offer, openOk) => DescriptorsInv(before, offer, openOk, list);
      case Answer(r, reply, written, openOk) =>
        SameListMid(before, before.(unanswered := before.unanswered - multiset{r}), list);
        HandleInv(before.(unanswered := before.unanswered - multiset{r}), r.streamId, reply, written, openOk, list);
      case LateAnswer(r, reply, written, openOk) =>
        SameListMid(before, before.(orphaned := before.orphaned - multiset{r}), list);
        HandleInv(before.(orphaned := before.orphaned - multiset{r}), r.streamId, reply, written, openOk, list);
      case Close => CloseMid(before, list);
    }
  }

  lemma {:induction false} FreshMid()
    ensures ListMid(FRESH, None)
  {
  }

  lemma {:induction false} CloseMid(s: State, list: Option<seq<Offer>>)
    requires ListMid(s, list)
    ensures ListMid(ApplyClose(s), None)
  {
  }

  /** In every run, once nothing is in transfer: the list is still there exactly when there is one, it
      is not empty and no file of it was completed; otherwise it was handed over, unless it was empty. */
  lemma {:induction false} ListStaysIff(steps: seq<Step>, s: State)
    requires Exec(steps) == Some(s) && !Active(s)
    ensures s.items != [] <==> ListOf(steps).Some? && ListOf(steps).value != [] && !SomeCompleted(s)
    ensures ListOf(steps).Some? && ListOf(steps).value != [] && s.items == [] ==> LastHandedOver(s)
  {
    RunListInv(steps, s);
  }

  // After a close.

  /** What a close leaves of the state `s`. */
  ghost predicate AsClosed(t: State, s: State) {
    && t.items == [] && t.index == 0 && t.streamId == 0 && t.completed == [] && t.completedAt == []
    && t.unanswered == multiset{}
    && t.disk == s.disk && t.log == s.log && t.deliveries == s.deliveries
  }

  lemma {:induction false} ClosedStep(s: State, t: State, step: Step)
    requires AsClosed(t, s) && Enabled(t, step) && !step.Descriptors?
    ensures AsClosed(Apply(t, step), s)
  {
  }

  /** From a close until the next list nothing is requested, written, completed or handed over, whatever
      answers still arrive. */
  lemma {:induction false} ClosedIsIdle(steps: seq<Step>, k: nat)
    requires Exec(steps).Some? && k < |steps| && steps[k].Close? && Exec(steps[..k]).Some?
    requires forall j :: k < j < |steps| ==> !steps[j].Descriptors?
    ensures AsClosed(Exec(steps).value, Exec(steps[..k]).value)
    decreases |steps|
  {
    hide AsClosed, Enabled;
    var n := |steps| - 1;
    var s := Exec(steps[..k]).value;
    if k == n {
      ClosedNow(s);
    } else {
      assert steps[..n][..k] == steps[..k] && steps[..n][k] == steps[k];
      ClosedIsIdle(steps[..n], k);
      ClosedStep(s, Exec(steps[..n]).value, steps[n]);
    }
  }

  lemma {:induction false} ClosedNow(s: State)
    ensures AsClosed(ApplyClose(s), s)
  {
  }
}
