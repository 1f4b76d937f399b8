/**
 The whole clipboard channel: downloads and the host's clipboard side by side. The host's changes are
 held back as long as the list of incoming files is not empty.
 */
module ClipboardChannel {
  import opened Basics
  import opened ClipboardHandover
  import opened ClipboardSender
  import T = ClipboardTransfer

  datatype State = State(transfer: T.State, host: Host)

  datatype Event = Transfer(step: T.Step) | Changed(change: Change)

  predicate IsReceiving(c: State) {
    c.transfer.items != []
  }

  /** A hand-over is remembered; a close forgets the host's side, too. */
  function AfterTransfer(host: Host, before: T.State, after: T.State, step: T.Step): Host {
    if step.Close? then EMPTY
    else
      match T.HandedOver(before, after)
      case Some(paths) => host.(lastIncomingFiles := paths)
      case None => host
  }

  predicate Enabled(c: State, event: Event) {
    event.Transfer? ==> T.Enabled(c.transfer, event.step)
  }

  function Apply(c: State, event: Event): State
    requires Enabled(c, event)
  {
    match event
    case Transfer(step) =>
      var after := T.Apply(c.transfer, step);
      State(after, AfterTransfer(c.host, c.transfer, after, step))
    case Changed(change) => c.(host := Take(c.host, IsReceiving(c), change))
  }

  const START: State := State(T.FRESH, EMPTY)

  function Exec(c: State, events: seq<Event>): Option<State>
    decreases |events|
  {
    if events == [] then Some(c)
    else
      var before := Exec(c, events[..|events| - 1]);
      var last := events[|events| - 1];
      if before.Some? && Enabled(before.value, last) then Some(Apply(before.value, last)) else None
  }

  ghost predicate SizedEvent(event: Event) {
    event.Changed? ==> Sized(event.change)
  }

  lemma {:induction false} RunOfferOk(events: seq<Event>, c: State)
    requires Exec(START, events) == Some(c) && forall k :: 0 <= k < |events| ==> SizedEvent(events[k])
    ensures OfferOk(c.host)
    decreases |events|
  {
    hide Take, T.Apply, T.Enabled, Sized;
    if events != [] {
      var before, last := Exec(START, events[..|events| - 1]).value, events[|events| - 1];
      RunOfferOk(events[..|events| - 1], before);
      assert SizedEvent(last);
      if last.Changed? { TakeKeepsOffer(before.host, IsReceiving(before), last.change); }
    }
  }

  /** In every run of the whole channel descriptor i describes outgoing file i. */
  lemma {:induction false} DescriptorsMatchFiles(events: seq<Event>, c: State)
    requires Exec(START, events) == Some(c) && forall k :: 0 <= k < |events| ==> SizedEvent(events[k])
    ensures Described(c.host)
  {
    hide Exec, OfferOk, Described;
    RunOfferOk(events, c);
    OfferDescribed(c.host);
  }

  /** The transfer steps of a run. */
  function StepsOf(events: seq<Event>): seq<T.Step>
    decreases |events|
  {
    if events == [] then []
    else
      var last := events[|events| - 1];
      if last.Transfer? then StepsOf(events[..|events| - 1]) + [last.step] else StepsOf(events[..|events| - 1])
  }

  lemma {:induction false} TransferRuns(events: seq<Event>, c: State)
    requires Exec(START, events) == Some(c)
    ensures T.Exec(StepsOf(events)) == Some(c.transfer)
    decreases |events|
  {
    hide Take, T.Apply, T.Enabled;
    if events != [] {
      var before, last := Exec(START, events[..|events| - 1]).value, events[|events| - 1];
      TransferRuns(events[..|events| - 1], before);
      var steps := StepsOf(events[..|events| - 1]);
      if last.Transfer? { assert (steps + [last.step])[..|steps|] == steps; }
    }
  }

  /** Neither a descriptor list nor a close. */
  predicate NoNewList(event: Event) {
    event.Transfer? ==> event.step.Answer? || event.step.LateAnswer?
  }

  lemma {:induction false} IdleStep(c: State, event: Event)
    requires !T.Active(c.transfer) && Enabled(c, event) && NoNewList(event)
    ensures var d := Apply(c, event); !T.Active(d.transfer) && d.transfer.items == c.transfer.items
  {
    hide Take;
  }

  lemma {:induction false} IdleRun(c: State, more: seq<Event>, d: State)
    requires !T.Active(c.transfer) && Exec(c, more) == Some(d) && forall k :: 0 <= k < |more| ==> NoNewList(more[k])
    ensures !T.Active(d.transfer) && d.transfer.items == c.transfer.items
    decreases |more|
  {
    hide Apply, Enabled, NoNewList, T.Active;
    if more != [] {
      var before := Exec(c, more[..|more| - 1]).value;
      IdleRun(c, more[..|more| - 1], before);
      IdleStep(before, more[|more| - 1]);
    }
  }

  /** The last list is not empty and no file of it was completed. */
  ghost predicate NothingCame(events: seq<Event>, c: State) {
    var list := ListOf(StepsOf(events));
    list.Some? && list.value != [] && !SomeCompleted(c.transfer)
  }

  /** Once nothing is in transfer: until the next list or a close, whatever else happens, the host's
      changes are held back exactly when the last list was not empty and no file of it was completed,
      and then not one of them has any effect. */
  lemma {:induction false} HeldBackIff(events: seq<Event>, c: State, more: seq<Event>, d: State)
    requires Exec(START, events) == Some(c) && !T.Active(c.transfer)
    requires Exec(c, more) == Some(d) && forall k :: 0 <= k < |more| ==> NoNewList(more[k])
    ensures IsReceiving(d) <==> NothingCame(events, c)
    ensures NothingCame(events, c) ==> forall change: Change :: !change.ClientText? ==> Apply(d, Changed(change)) == d
  {
    hide Exec, T.Exec;
    TransferRuns(events, c);
    ListStaysIff(StepsOf(events), c.transfer);
    IdleRun(c, more, d);
  }
}
