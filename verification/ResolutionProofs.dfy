/** One live pipeline: when it holds, when it does not, and what it gives. */
module ResolutionProofs {
  import opened Basics
  import opened ResolutionModel

  function Tagged(pending: seq<Callback>, generation: nat): nat {
    if pending == [] then 0
    else (if pending[0].generation == generation then 1 else 0) + Tagged(pending[1..], generation)
  }

  /** How many timers and process callbacks can still act for the current generation. */
  function Live(s: State): nat {
    Tagged(s.pending, s.generation) + (if s.debounce then 1 else 0)
  }

  lemma {:induction false} TaggedAppend(a: seq<Callback>, b: seq<Callback>, generation: nat)
    ensures Tagged(a + b, generation) == Tagged(a, generation) + Tagged(b, generation)
  {
    if a == [] {
      assert a + b == b;
    } else {
      assert (a + b)[1..] == a[1..] + b;
      TaggedAppend(a[1..], b, generation);
    }
  }

  lemma {:induction false} TaggedRemove(pending: seq<Callback>, at: nat, generation: nat)
    requires at < |pending|
    ensures Tagged(pending, generation) ==
        Tagged(Remove(pending, at), generation) + (if pending[at].generation == generation then 1 else 0)
  {
    hide Tagged;
    assert pending == pending[..at] + ([pending[at]] + pending[at + 1..]);
    TaggedAppend(pending[..at], [pending[at]] + pending[at + 1..], generation);
    TaggedAppend([pending[at]], pending[at + 1..], generation);
    TaggedAppend(pending[..at], pending[at + 1..], generation);
    TaggedOne(pending[at], generation);
  }

  lemma {:induction false} TaggedOne(c: Callback, generation: nat)
    ensures Tagged([c], generation) == if c.generation == generation then 1 else 0
  {
  }

  lemma {:induction false} NoneTagged(pending: seq<Callback>, generation: nat)
    requires forall c :: c in pending ==> c.generation < generation
    ensures Tagged(pending, generation) == 0
  {
    if pending != [] { NoneTagged(pending[1..], generation); }
  }

  /** `chains` bounds what can act, and each chain is good for three mode retries. */
  ghost predicate Inv(s: State) {
    && (forall c :: c in s.pending ==> c.generation <= s.generation)
    && (Live(s) > 0 ==> s.active)
    && Live(s) <= s.chains <= 2 && s.retries <= 3
    && s.modeRetries <= 3 * s.chains
    && (Live(s) > 0 ==> s.modeRetries <= s.retries + 3 * (s.chains - Live(s)))
  }

  lemma {:induction false} QueueLive(s: State, stage: Stage)
    ensures Live(Queue(s, stage)) == Live(s) + 1
    ensures forall c :: c in Queue(s, stage).pending ==> c in s.pending || c == Callback(stage, s.generation)
  {
    TaggedAppend(s.pending, [Callback(stage, s.generation)], s.generation);
    TaggedOne(Callback(stage, s.generation), s.generation);
  }

  /** A fresh generation has no tagged callback yet. */
  lemma {:induction false} BeganLive(s: State, chains: nat)
    requires forall c :: c in s.pending ==> c.generation <= s.generation
    ensures Live(Began(s, chains)) == if s.debounce then 1 else 0
  {
    NoneTagged(s.pending, s.generation + 1);
  }

  /** A live callback hands over to at most one other; only the check touches the counters. */
  lemma {:induction false} ActsEffect(s: State, stage: Stage, outcome: Outcome)
    requires s.active
    ensures var t := Acts(s, stage, outcome);
            && Live(s) <= Live(t) <= Live(s) + 1 && t.chains == s.chains && t.generation == s.generation && t.active
            && (forall c :: c in t.pending ==> c in s.pending || c.generation == s.generation)
            && (|| (t.retries == s.retries && t.modeRetries == s.modeRetries)
                || (t.retries == s.retries + 1 <= 3 && t.modeRetries == s.modeRetries + 1)
                || (t.retries == 0 && t.modeRetries == s.modeRetries && Live(t) == Live(s)))
  {
    hide Tagged, ChooseMode, FirstAdded, Near, CvtWidth;
    match stage
    case Query =>
      QueueLive(s, RetryTimer);
      if outcome.Listed? {
        var m := ChooseMode(outcome.modes, s.requested);
        QueueLive(s.(requested := m.size),
            if m.spec == [] then AddMode(Size(CvtWidth(m.size.width), m.size.height)) else ApplyMode(m.spec));
      }
    case AddMode(added) => QueueLive(s, Recheck(added.width));
    case Recheck(cvtWidth) =>
      var found := if outcome.Listed? then FirstAdded(outcome.modes, s.requested, cvtWidth) else None;
      if found.Some? {
        QueueLive(s.(requested := Size(found.value.size.width, s.requested.height)), ApplyMode(found.value.spec));
      } else {
        QueueLive(s, ApplyMode([]));
      }
    case ApplyMode(_) => QueueLive(s, Check);
    case Check =>
      QueueLive(s.(retries := s.retries + 1, modeRetries := s.modeRetries + 1), ModeRetryTimer);
    case _ => QueueLive(s, Query);
  }

  lemma {:induction false} ActsKeeps(s: State, stage: Stage, outcome: Outcome)
    requires s.active && (forall c :: c in s.pending ==> c.generation <= s.generation)
    requires Live(s) + 1 <= s.chains <= 2 && s.retries <= 3
        && s.modeRetries <= s.retries + 3 * (s.chains - (Live(s) + 1))
    ensures Inv(Acts(s, stage, outcome)) && Live(Acts(s, stage, outcome)) <= Live(s) + 1
  {
    hide Acts, Live;
    ActsEffect(s, stage, outcome);
  }

  /** A response that the start handler accepts: it activates the display. */
  predicate Starts(s: State, event: Event) {
    event.Response? && event.taker == Start && event.ok && s.request == Some(event.of)
  }

  /** Nothing but a start response raises the number of live callbacks above one. */
  lemma {:induction false} StepKeeps(s: State, event: Event)
    requires Inv(s) && Enabled(s, event)
    ensures Inv(Apply(s, event))
    ensures var t := Apply(s, event);
            Live(t) <= (if Starts(s, event) then (if s.debounce then 2 else 1) else if event.ChangeResolution?
                && t != s then 1 else Live(s))
    ensures Starts(s, event) ==> Live(Apply(s, event)) == if s.debounce then 2 else 1
  {
    hide Inv, Live, Acts, Near, Created, Destroyed, Changed, Responded, Setup, Fired;
    match event
    case CreateDisplay(size, unhook) => CreatedKeeps(s, size, unhook);
    case Response(taker, of, ok) => RespondedKeeps(s, taker, of, ok);
    case ChangeResolution(size, scaleChanged) => ChangedKeeps(s, size, scaleChanged);
    case DestroyDisplay(unhook) => DestroyedKeeps(s, unhook);
    case DebounceFires => DebounceKeeps(s);
    case Fires(at, outcome) => FiredKeeps(s, at, outcome);
    case _ => PortalKeeps(s, Apply(s, event));
  }

  /** The handshake's own fields are no matter of the pipeline's. */
  lemma {:induction false} PortalKeeps(s: State, t: State)
    requires Inv(s) && t == s.(calls := t.calls, made := t.made, request := t.request, hooks := t.hooks)
    ensures Inv(t) && Live(t) == Live(s)
  {
    hide Tagged;
  }

  lemma {:induction false} DestroyedKeeps(s: State, unhook: bool)
    requires Inv(s)
    ensures Inv(Destroyed(s, unhook)) && Live(Destroyed(s, unhook)) == 0
  {
    hide Tagged;
    BeganLive(s.(debounce := false), 0);
  }

  lemma {:induction false} CreatedKeeps(s: State, size: Size, unhook: bool)
    requires Inv(s)
    ensures Inv(Created(s, size, unhook)) && Live(Created(s, size, unhook)) <= Live(s)
  {
    hide Tagged;
    BeganLive(s.(retries := 0, debounce := false), 0);
  }

  lemma {:induction false} ChangedKeeps(s: State, size: Size, scaleChanged: bool)
    requires Inv(s)
    ensures var t := Changed(s, size, scaleChanged); Inv(t) && (t != s ==> Live(t) == 1)
  {
    hide Tagged, Near;
    BeganLive(s.(requested := size, retries := 0, debounce := true), 1);
  }

  lemma {:induction false} DebounceKeeps(s: State)
    requires Inv(s) && s.debounce
    ensures var t := Setup(s.(debounce := false)); Inv(t) && Live(t) <= Live(s)
  {
    hide Tagged;
    QueueLive(s.(debounce := false), Query);
  }

  lemma {:induction false} FiredKeeps(s: State, at: nat, outcome: Outcome)
    requires Inv(s) && at < |s.pending|
    ensures Inv(Fired(s, at, outcome)) && Live(Fired(s, at, outcome)) <= Live(s)
  {
    hide Acts, Tagged;
    TaggedRemove(s.pending, at, s.generation);
    if s.pending[at].generation == s.generation {
      ActsKeeps(s.(pending := Remove(s.pending, at)), s.pending[at].stage, outcome);
    }
  }

  lemma {:induction false} RespondedKeeps(s: State, taker: Slot, of: Call, ok: bool)
    requires Inv(s)
    ensures var t := Responded(s, taker, of, ok);
            Inv(t) && Live(t) == if Starts(s, Response(taker, of, ok)) then (if s.debounce then 2 else 1) else Live(s)
  {
    hide Tagged;
    if Starts(s, Response(taker, of, ok)) {
      var s1 := s.(hooks := s.hooks - {taker}, request := None, active := true);
      BeganLive(s1, if s.debounce then 2 else 1);
      QueueLive(Began(s1, if s.debounce then 2 else 1), InitialTimer);
    }
  }

  /** The event after the first k of a run is an accepted start response. */
  ghost predicate StartsAt(events: seq<Event>, k: nat) {
    k < |events| && Exec(events[..k]).Some? && Starts(Exec(events[..k]).value, events[k])
  }

  /** No start response was accepted while the debounce timer was running. */
  ghost predicate Orderly(events: seq<Event>) {
    forall k: nat :: StartsAt(events, k) ==> !Exec(events[..k]).value.debounce
  }

  /** A prefix of an orderly run is orderly. */
  lemma {:induction false} OrderlyBefore(events: seq<Event>, n: nat)
    requires Orderly(events) && n <= |events|
    ensures Orderly(events[..n])
  {
    hide Exec, Starts;
    forall k: nat | StartsAt(events[..n], k) ensures !Exec(events[..n][..k]).value.debounce {
      assert events[..n][..k] == events[..k];
      assert StartsAt(events, k);
    }
  }

  lemma {:induction false} OrderlyLast(events: seq<Event>)
    requires Orderly(events) && events != [] && Exec(events[..|events| - 1]).Some?
    ensures Starts(Exec(events[..|events| - 1]).value, events[|events| - 1]) ==>
        !Exec(events[..|events| - 1]).value.debounce
  {
    hide Exec, Starts;
    if Starts(Exec(events[..|events| - 1]).value, events[|events| - 1]) { assert StartsAt(events, |events| - 1); }
  }

  lemma {:induction false} ExecPrefix(events: seq<Event>, n: nat)
    requires n <= |events| && Exec(events).Some?
    ensures Exec(events[..n]).Some?
  {
    if n < |events| {
      assert events[..|events| - 1][..n] == events[..n];
      ExecPrefix(events[..|events| - 1], n);
    } else {
      assert events[..n] == events;
    }
  }

  lemma {:induction false} ExecInv(events: seq<Event>)
    requires Exec(events).Some?
    ensures Inv(Exec(events).value)
  {
    hide Inv;
    if events == [] {
      IdleInv();
    } else {
      ExecInv(events[..|events| - 1]);
      StepKeeps(Exec(events[..|events| - 1]).value, events[|events| - 1]);
    }
  }

  lemma {:induction false} IdleInv()
    ensures Inv(IDLE) && Live(IDLE) == 0
  {
  }

  /** In every run whatever, at most two timers or callbacks can act for the current generation, and
      only while the display is active. */
  lemma {:induction false} AtMostTwoLive(events: seq<Event>)
    requires Exec(events).Some?
    ensures var s := Exec(events).value; Live(s) <= 2 && (Live(s) > 0 ==> s.active)
  {
    ExecInv(events);
  }

  lemma {:induction false} OrderlyLive(events: seq<Event>)
    requires Exec(events).Some? && Orderly(events)
    ensures Live(Exec(events).value) <= 1
  {
    hide Inv, Apply;
    if events == [] {
      IdleInv();
    } else {
      var before := events[..|events| - 1];
      OrderlyBefore(events, |events| - 1);
      OrderlyLast(events);
      OrderlyLive(before);
      ExecInv(before);
      StepKeeps(Exec(before).value, events[|events| - 1]);
    }
  }

  /** A single live pipeline: a run has at most one live timer or callback at every moment exactly
      when no start response is accepted while the debounce timer is running. */
  lemma {:induction false} SingleLiveIff(events: seq<Event>)
    requires Exec(events).Some?
    ensures (forall n :: 0 <= n <= |events| ==> Exec(events[..n]).Some? && Live(Exec(events[..n]).value) <= 1) <==>
        Orderly(events)
  {
    hide Exec, Inv, Live, Apply;
    if Orderly(events) {
      forall n | 0 <= n <= |events| ensures Exec(events[..n]).Some? && Live(Exec(events[..n]).value) <= 1 {
        ExecPrefix(events, n);
        OrderlyBefore(events, n);
        OrderlyLive(events[..n]);
      }
    } else {
      var k: nat :| StartsAt(events, k) && Exec(events[..k]).value.debounce;
      ExecPrefix(events, k + 1);
      LateStart(events, k);
    }
  }

  lemma {:induction false} LateStart(events: seq<Event>, k: nat)
    requires StartsAt(events, k) && Exec(events[..k]).value.debounce
    requires Exec(events[..k + 1]).Some?
    ensures Live(Exec(events[..k + 1]).value) == 2
  {
    hide Inv, Apply, Enabled;
    ExecInv(events[..k]);
    assert events[..k + 1][..k] == events[..k] && events[..k + 1][k] == events[k];
    StepKeeps(Exec(events[..k]).value, events[k]);
  }

  lemma {:induction false} Then(events: seq<Event>, s: State, event: Event) returns (more: seq<Event>, t: State)
    requires Exec(events) == Some(s) && Enabled(s, event)
    ensures more == events + [event] && t == Apply(s, event) && Exec(more) == Some(t)
  {
    hide Apply, Enabled;
    more, t := events + [event], Apply(s, event);
    assert more[..|more| - 1] == events;
  }

  /** Every response of the run is about the pending request and given to that request's own handler. */
  ghost predicate OwnHandlers(events: seq<Event>) {
    forall k :: 0 <= k < |events| && events[k].Response? ==>
        events[k].taker == events[k].of.slot
            && Exec(events[..k]).Some? && Exec(events[..k]).value.request == Some(events[k].of)
  }

  lemma {:induction false} ThenOwn(events: seq<Event>, s: State, event: Event)
          returns (more: seq<Event>, t: State)
    requires Exec(events) == Some(s) && Enabled(s, event) && OwnHandlers(events)
    requires event.Response? ==> event.taker == event.of.slot && s.request == Some(event.of)
    ensures t == Apply(s, event) && Exec(more) == Some(t) && OwnHandlers(more)
  {
    hide Apply, Enabled, Exec;
    more, t := Then(events, s, event);
    assert more[..|events|] == events;
    forall k | 0 <= k < |more| && more[k].Response?
      ensures more[k].taker == more[k].of.slot
          && Exec(more[..k]).Some? && Exec(more[..k]).value.request == Some(more[k].of)
    {
      if k < |events| { assert more[..k] == events[..k] && more[k] == events[k]; }
    }
  }

  /** A call is replied to and answered. */
  lemma {:induction false} Answered(events: seq<Event>, s: State, c: Call) returns (more: seq<Event>, t: State)
    requires Exec(events) == Some(s) && OwnHandlers(events) && c in s.calls && c.slot in s.hooks
    ensures Exec(more) == Some(t) && OwnHandlers(more)
    ensures t == Accepted(s.(calls := s.calls - {c}, request := None), c.slot, c, true)
  {
    hide Exec, Accepted, OwnHandlers;
    more, t := ThenOwn(events, s, Replied(c));
    more, t := ThenOwn(more, t, Response(c.slot, c, true));
  }

  /** From the first call of the handshake to its last one. */
  lemma {:induction false} Handshake(events: seq<Event>, s: State, first: Call)
          returns (more: seq<Event>, t: State, last: Call)
    requires Exec(events) == Some(s) && OwnHandlers(events)
    requires first.slot == CreateSession && first in s.calls && CreateSession in s.hooks
    ensures Exec(more) == Some(t) && OwnHandlers(more)
    ensures last.slot == Start && last in t.calls && Start in t.hooks && t.request.None?
    ensures t.session && t.active == s.active && t.debounce == s.debounce && t.requested == s.requested
    ensures t.pending == s.pending
  {
    hide Exec, OwnHandlers;
    more, t := Answered(events, s, first);
    more, t := Answered(more, t, Call(SelectDevices, t.made - 1));
    more, t := Answered(more, t, Call(SelectSources, t.made - 1));
    last := Call(Start, t.made - 1);
  }

  /** The display is created again while the start call of the first handshake is on its way; that call
      is still answered, which activates a display without a session. */
  lemma {:induction false} ActiveWithoutSession(unhook: bool) returns (events: seq<Event>, s: State)
    ensures Exec(events) == Some(s) && OwnHandlers(events)
    ensures s.active && !s.session && s.requested == Size(800, 600)
  {
    hide Exec, Accepted, OwnHandlers;
    NoEvents();
    var last;
    events, s := ThenOwn([], IDLE, CreateDisplay(Size(800, 600), unhook));
    events, s, last := Handshake(events, s, Call(CreateSession, s.made - 1));
    events, s := ThenOwn(events, s, CreateDisplay(Size(800, 600), unhook));
    AcceptedStart(s.(calls := s.calls - {last}, request := None), last);
    events, s := Answered(events, s, last);
  }

  lemma {:induction false} AcceptedStart(s: State, c: Call)
    ensures var t := Accepted(s, Start, c, true);
            t.active && t.session == s.session && t.requested == s.requested
  {
  }

  /** It stays active throughout the next handshake, and so accepts a resolution change. */
  lemma {:induction false} DebouncedInHandshake(unhook: bool) returns (events: seq<Event>, s: State, last: Call)
    ensures Exec(events) == Some(s) && OwnHandlers(events)
    ensures s.debounce && s.request == Some(last) && last.slot == Start && Start in s.hooks
  {
    hide Exec, OwnHandlers;
    events, s := ActiveWithoutSession(unhook);
    events, s := ThenOwn(events, s, CreateDisplay(Size(800, 600), unhook));
    events, s, last := Handshake(events, s, Call(CreateSession, s.made - 1));
    events, s := ThenOwn(events, s, ChangeResolution(Size(1024, 768), false));
    events, s := ThenOwn(events, s, Replied(last));
  }

  /** Two callbacks live at once, although every response is about the pending request and taken by its
      own handler. */
  lemma {:induction false} TwoLiveThroughHandshake(unhook: bool) returns (events: seq<Event>, s: State)
    ensures Exec(events) == Some(s) && OwnHandlers(events) && Live(s) == 2
  {
    hide Exec, Live, Inv, Apply, OwnHandlers;
    var last;
    events, s, last := DebouncedInHandshake(unhook);
    ExecInv(events);
    StepKeeps(s, Response(Start, last, true));
    events, s := ThenOwn(events, s, Response(Start, last, true));
  }

  lemma {:induction false} NoEvents()
    ensures Exec([]) == Some(IDLE) && OwnHandlers([])
  {
  }

  /** An accepted start response that finds the display inactive never finds the debounce timer running; so the
      ordinary handshake, which starts by tearing an active display down, makes for orderly runs. */
  lemma {:induction false} InactiveStartsAreOrderly(events: seq<Event>)
    requires forall k: nat :: StartsAt(events, k) ==> !Exec(events[..k]).value.active
    ensures Orderly(events)
  {
    hide Exec, Inv;
    forall k: nat | StartsAt(events, k) ensures !Exec(events[..k]).value.debounce {
      ExecInv(events[..k]);
      InvActive(Exec(events[..k]).value);
    }
  }

  // Stale responses.

  /** Every call has its own number. */
  ghost predicate Numbered(s: State) {
    && (forall c :: c in s.calls ==> c.id < s.made)
    && (s.request.Some? ==> s.request.value.id < s.made && s.request.value !in s.calls)
  }

  /** The call was replied to, and its request path is not the current one. */
  ghost predicate Spent(s: State, c: Call) {
    c.id < s.made && c !in s.calls && s.request != Some(c)
  }

  /** From `s` to `t` no path of a spent call comes back. */
  ghost predicate Ages(s: State, t: State, c: Call) {
    && Numbered(t) && (Spent(s, c) ==> Spent(t, c))
    && (s.request == Some(c) && t.request != Some(c) ==> Spent(t, c))
  }

  lemma {:induction false} SpentStep(s: State, event: Event, c: Call)
    requires Numbered(s) && Enabled(s, event)
    ensures Ages(s, Apply(s, event), c)
  {
    hide Acts, Near, Setup, Fired, Responded, Changed, Created, Ages, Numbered;
    match event
    case CreateDisplay(size, unhook) => CreatedAges(s, size, unhook, c);
    case Response(taker, of, ok) => RespondedAges(s, taker, of, ok, c);
    case Fires(at, outcome) => FiredApart(s, at, outcome); SameAges(s, Apply(s, event), c);
    case Replied(_) => ReplyAges(s, event, c);
    case CallFailed(_) => ReplyAges(s, event, c);
    case DestroyDisplay(unhook) => DestroyedAges(s, unhook, c);
    case _ => OthersApart(s, event); SameAges(s, Apply(s, event), c);
  }

  lemma {:induction false} SameAges(s: State, t: State, c: Call)
    requires Numbered(s) && t.calls == s.calls && t.made == s.made && t.request == s.request
    ensures Ages(s, t, c)
  {
  }

  lemma {:induction false} ReplyAges(s: State, event: Event, c: Call)
    requires Numbered(s) && Enabled(s, event) && (event.Replied? || event.CallFailed?)
    ensures Ages(s, Apply(s, event), c)
  {
  }

  lemma {:induction false} DestroyedAges(s: State, unhook: bool, c: Call)
    requires Numbered(s)
    ensures Ages(s, Destroyed(s, unhook), c)
  {
  }

  lemma {:induction false} CalledAges(s: State, slot: Slot, c: Call)
    requires Numbered(s)
    ensures Ages(s, Called(s, slot), c)
  {
  }

  lemma {:induction false} CreatedAges(s: State, size: Size, unhook: bool, c: Call)
    requires Numbered(s)
    ensures Ages(s, Created(s, size, unhook), c)
  {
    hide Destroyed, Called;
    var s1 := s.(retries := 0);
    var s2 := (if s.active || s.session then Destroyed(s1, unhook) else s1).(requested := size);
    DestroyedAges(s1, unhook, c);
    CalledAges(s2, CreateSession, c);
  }

  lemma {:induction false} RespondedAges(s: State, taker: Slot, of: Call, ok: bool, c: Call)
    requires Numbered(s)
    ensures Ages(s, Responded(s, taker, of, ok), c)
  {
    hide Called;
    if s.request == Some(of) && ok {
      var s1 := s.(hooks := s.hooks - {taker}, request := None);
      match taker
      case CreateSession => CalledAges(s1.(session := of.slot == CreateSession), SelectDevices, c);
      case SelectDevices => CalledAges(s1, SelectSources, c);
      case SelectSources => CalledAges(s1, Start, c);
      case Start =>
    }
  }

  lemma {:induction false} ExecNumbered(events: seq<Event>)
    requires Exec(events).Some?
    ensures Numbered(Exec(events).value)
  {
    hide Apply, Enabled, Numbered;
    if events == [] {
      IdleNumbered();
    } else {
      ExecNumbered(events[..|events| - 1]);
      SpentStep(Exec(events[..|events| - 1]).value, events[|events| - 1], Call(Start, 0));
    }
  }

  lemma {:induction false} IdleNumbered()
    ensures Numbered(IDLE)
  {
  }

  lemma {:induction false} CurrentOrSpent(events: seq<Event>, i: nat, c: Call)
    requires i <= |events| && Exec(events).Some? && Exec(events[..i]).Some?
    requires var s := Exec(events[..i]).value; s.request == Some(c) || Spent(s, c)
    ensures Exec(events).value.request == Some(c) || Spent(Exec(events).value, c)
    ensures Spent(Exec(events[..i]).value, c) ==> Spent(Exec(events).value, c)
    decreases |events|
  {
    hide Apply, Enabled, Numbered, Spent;
    if i == |events| {
      assert events[..i] == events;
    } else {
      var before := events[..|events| - 1];
      assert before[..i] == events[..i];
      CurrentOrSpent(before, i, c);
      ExecNumbered(before);
      SpentStep(Exec(before).value, events[|events| - 1], c);
    }
  }

  /** Once a request path stops being the current one, be it used up, replaced or dropped, it never is
      again; so a response to that call is ignored from then on, whichever handler it is given to. */
  lemma {:induction false} StaleStaysStale(events: seq<Event>, i: nat, j: nat, c: Call)
    requires i <= j <= |events| && Exec(events).Some?
    requires Exec(events[..i]).Some? && Exec(events[..i]).value.request == Some(c)
    requires Exec(events[..j]).Some? && Exec(events[..j]).value.request != Some(c)
    ensures Spent(Exec(events).value, c)
    ensures forall taker, ok :: Responded(Exec(events).value, taker, c, ok) == Exec(events).value
  {
    hide Exec, Accepted;
    assert events[..j][..i] == events[..i];
    CurrentOrSpent(events[..j], i, c);
    CurrentOrSpent(events, j, c);
  }

  /** Nothing of a handshake is under way. */
  predicate Settled(s: State) {
    s.calls == {} && s.request.None?
  }

  /** The display is created and destroyed only between handshakes. */
  ghost predicate Undisturbed(events: seq<Event>) {
    forall k :: 0 <= k < |events| && Exec(events[..k]).Some? ==>
      events[k].CreateDisplay? || events[k].DestroyDisplay? ==> Settled(Exec(events[..k]).value)
  }

  ghost predicate OneCall(s: State, c: Call) {
    s.calls == {c} && s.hooks == {c.slot} && (c.slot.CreateSession? || s.session)
  }

  /** At most one call or request at a time, its handler the only one connected, and the display active
      only with a session and between handshakes. */
  ghost predicate HandshakeInv(s: State) {
    || (s.calls == {} && s.request.None? && s.hooks == {} && (s.active ==> s.session))
    || (!s.active && s.request.None? && exists c: Call :: OneCall(s, c))
    || (!s.active && s.calls == {} && s.request.Some? && s.hooks == {s.request.value.slot}
        && (s.request.value.slot.CreateSession? || s.session))
  }

  lemma {:induction false} CalledAlone(s: State, slot: Slot)
    requires s.calls == {} && s.request.None? && s.hooks == {} && !s.active && (slot.CreateSession? || s.session)
    ensures HandshakeInv(Called(s, slot))
  {
    assert OneCall(Called(s, slot), Call(slot, s.made));
  }

  lemma {:induction false} HandshakeStep(s: State, event: Event)
    requires HandshakeInv(s) && Enabled(s, event)
    requires event.CreateDisplay? || event.DestroyDisplay? ==> Settled(s)
    ensures HandshakeInv(Apply(s, event))
    ensures Starts(s, event) ==> !s.active
  {
    hide HandshakeInv, Acts, Near, Created, Changed, Destroyed, Responded, Setup, Fired;
    match event
    case CreateDisplay(size, unhook) => CreateStep(s, size, unhook);
    case DestroyDisplay(unhook) => DestroyStep(s, unhook);
    case Replied(call) => ReplyStep(s, call);
    case CallFailed(call) => ReplyStep(s, call);
    case Response(taker, of, ok) => ResponseStep(s, taker, of, ok);
    case Fires(at, outcome) =>
      FiredApart(s, at, outcome);
      SameHandshake(s, Apply(s, event));
    case _ =>
      OthersApart(s, event);
      SameHandshake(s, Apply(s, event));
  }

  lemma {:induction false} SameHandshake(s: State, t: State)
    requires HandshakeInv(s) && t.calls == s.calls && t.request == s.request && t.hooks == s.hooks
    requires t.active == s.active && t.session == s.session
    ensures HandshakeInv(t)
  {
    if s.request.None? && exists c: Call :: OneCall(s, c) {
      var c: Call :| OneCall(s, c);
      assert OneCall(t, c);
    }
  }

  lemma {:induction false} OthersApart(s: State, event: Event)
    requires Enabled(s, event) && (event.ChangeResolution? || event.DebounceFires?)
    ensures var t := Apply(s, event);
            && t.calls == s.calls && t.made == s.made && t.request == s.request && t.hooks == s.hooks
            && t.active == s.active && t.session == s.session
  {
    hide Near;
  }

  lemma {:induction false} FiredApart(s: State, at: nat, outcome: Outcome)
    requires at < |s.pending|
    ensures var t := Fired(s, at, outcome);
            && t.calls == s.calls && t.made == s.made && t.request == s.request && t.hooks == s.hooks
            && t.active == s.active && t.session == s.session
  {
    hide Acts;
    ActsApart(s.(pending := Remove(s.pending, at)), s.pending[at].stage, outcome);
  }

  lemma {:induction false} CreateStep(s: State, size: Size, unhook: bool)
    requires HandshakeInv(s) && Settled(s)
    ensures HandshakeInv(Created(s, size, unhook))
  {
    var s1 := s.(retries := 0);
    assert forall c: Call :: !OneCall(s, c) by {
      forall c: Call ensures !OneCall(s, c) { assert c in {c}; }
    }
    CalledAlone((if s.active || s.session then Destroyed(s1, unhook) else s1).(requested := size), CreateSession);
  }

  lemma {:induction false} DestroyStep(s: State, unhook: bool)
    requires HandshakeInv(s) && Settled(s)
    ensures HandshakeInv(Destroyed(s, unhook))
  {
    assert forall c: Call :: !OneCall(s, c) by {
      forall c: Call ensures !OneCall(s, c) { assert c in {c}; }
    }
  }

  /** A call that comes back, with a request or without. */
  lemma {:induction false} ReplyStep(s: State, call: Call)
    requires HandshakeInv(s) && call in s.calls
    ensures HandshakeInv(s.(calls := s.calls - {call}, request := Some(call)))
    ensures HandshakeInv(s.(calls := s.calls - {call}, hooks := s.hooks - {call.slot}))
  {
    var c: Call :| OneCall(s, c);
    assert c == call;
    assert s.calls - {call} == {} && s.hooks - {call.slot} == {};
  }

  lemma {:induction false} ResponseStep(s: State, taker: Slot, of: Call, ok: bool)
    requires HandshakeInv(s) && taker in s.hooks
    ensures HandshakeInv(Responded(s, taker, of, ok)) && (s.request == Some(of) ==> !s.active)
  {
    if s.request == Some(of) {
      assert taker == of.slot;
      var s1 := s.(hooks := s.hooks - {taker}, request := None);
      assert s1.hooks == {};
      if ok {
        match taker
        case CreateSession => CalledAlone(s1.(session := true), SelectDevices);
        case SelectDevices => CalledAlone(s1, SelectSources);
        case SelectSources => CalledAlone(s1, Start);
        case Start =>
      }
    }
  }

  /** The pipeline does not touch the handshake. */
  lemma {:induction false} ActsApart(s: State, stage: Stage, outcome: Outcome)
    ensures var t := Acts(s, stage, outcome);
            && t.calls == s.calls && t.made == s.made && t.request == s.request && t.hooks == s.hooks
            && t.active == s.active && t.session == s.session
  {
    hide ChooseMode, FirstAdded, Near, CvtWidth;
  }

  lemma {:induction false} UndisturbedInv(events: seq<Event>)
    requires Exec(events).Some? && Undisturbed(events)
    ensures HandshakeInv(Exec(events).value) && Orderly(events)
  {
    hide HandshakeInv, Inv, Apply, Enabled, Settled;
    if events == [] {
      IdleHandshake();
      assert Orderly([]);
    } else {
      var before, last := events[..|events| - 1], events[|events| - 1];
      UndisturbedBefore(events);
      UndisturbedInv(before);
      HandshakeStep(Exec(before).value, last);
      ExecInv(before);
      InvActive(Exec(before).value);
      forall k: nat | StartsAt(events, k) ensures !Exec(events[..k]).value.debounce {
        if k < |before| {
          assert before[..k] == events[..k];
          assert StartsAt(before, k);
        }
      }
    }
  }

  lemma {:induction false} UndisturbedBefore(events: seq<Event>)
    requires Undisturbed(events) && events != []
    ensures Undisturbed(events[..|events| - 1])
  {
    hide Exec, Settled;
    var before := events[..|events| - 1];
    assert forall k :: 0 <= k < |before| ==> before[k] == events[k] && before[..k] == events[..k];
  }

  lemma {:induction false} IdleHandshake()
    ensures HandshakeInv(IDLE)
  {
  }

  /** With the display created and destroyed only between handshakes at most one callback is live. */
  lemma {:induction false} UndisturbedSingleLive(events: seq<Event>)
    requires Exec(events).Some? && Undisturbed(events)
    ensures Live(Exec(events).value) <= 1
  {
    hide Exec, Live;
    UndisturbedInv(events);
    OrderlyLive(events);
  }

  /** At most three mode retries for each chain the generation began with; so at most three per
      resolution change. */
  lemma {:induction false} ModeRetriesBounded(events: seq<Event>)
    requires Exec(events).Some?
    ensures Exec(events).value.retries <= 3 && Exec(events).value.modeRetries <= 6
    ensures Orderly(events) ==> Exec(events).value.modeRetries <= 3
  {
    hide Inv, Exec;
    ExecInv(events);
    InvBounds(Exec(events).value);
    if Orderly(events) { OrderlyChains(events); }
  }

  lemma {:induction false} InvBounds(s: State)
    requires Inv(s)
    ensures s.retries <= 3 && s.modeRetries <= 3 * s.chains && s.chains <= 2
  {
  }

  lemma {:induction false} StepChains(s: State, event: Event)
    requires Inv(s) && Enabled(s, event) && s.chains <= 1 && (Starts(s, event) ==> !s.debounce)
    ensures Apply(s, event).chains <= 1
  {
    hide Acts, Near, Tagged, Setup;
    match event
    case DebounceFires => SetupChains(s.(debounce := false));
    case Response(_, _, _) =>
    case Fires(at, outcome) =>
      if s.pending[at].generation == s.generation {
        TaggedRemove(s.pending, at, s.generation);
        ActsEffect(s.(pending := Remove(s.pending, at)), s.pending[at].stage, outcome);
      }
    case _ =>
  }

  lemma {:induction false} SetupChains(s: State)
    ensures Setup(s).chains == s.chains
  {
  }

  lemma {:induction false} OrderlyChains(events: seq<Event>)
    requires Exec(events).Some? && Orderly(events)
    ensures Exec(events).value.chains <= 1
  {
    hide Inv, Apply;
    if events != [] {
      var before := events[..|events| - 1];
      OrderlyBefore(events, |events| - 1);
      OrderlyLast(events);
      OrderlyChains(before);
      ExecInv(before);
      StepChains(Exec(before).value, events[|events| - 1]);
    }
  }

  /** Among the pipeline's own events only the live callback changes anything but the pending list:
      the requested size and the retry count, in an orderly run, are in one hand. */
  lemma {:induction false} OnlyLiveCallbackActs(events: seq<Event>, event: Event)
    requires Exec(events).Some? && Orderly(events) && Enabled(Exec(events).value, event)
        && (event.Fires? || event.DebounceFires?)
    ensures var s := Exec(events).value; var t := Apply(s, event);
            t.requested != s.requested || t.retries != s.retries
                || |t.pending| > |s.pending| - (if event.Fires? then 1 else 0) ==>
              && Live(s) == 1 && s.active
              && (event.Fires? ==> s.pending[event.at].generation == s.generation && !s.debounce)
              && (forall at :: 0 <= at < |s.pending| && s.pending[at].generation == s.generation ==>
                    event.Fires? && event.at == at)
  {
    hide Inv, Acts, Near, Exec, Tagged;
    ExecInv(events);
    OrderlyLive(events);
    var s := Exec(events).value;
    forall at | 0 <= at < |s.pending| && s.pending[at].generation == s.generation
      ensures Live(s) > 0 && (event.DebounceFires? ==> Live(s) > 1)
          && (event.Fires? && s.pending[event.at].generation == s.generation && at != event.at ==> Live(s) > 1)
    {
      TaggedRemove(s.pending, at, s.generation);
      if event.Fires? && at != event.at { TwoTagged(s.pending, at, event.at, s.generation); }
    }
    if event.Fires? { TaggedRemove(s.pending, event.at, s.generation); }
    InvActive(s);
  }

  lemma {:induction false} InvActive(s: State)
    requires Inv(s)
    ensures Live(s) > 0 ==> s.active
  {
  }

  lemma {:induction false} TwoTagged(pending: seq<Callback>, i: nat, j: nat, generation: nat)
    requires i < |pending| && j < |pending| && i != j
    ensures pending[i].generation == generation && pending[j].generation == generation ==>
        Tagged(pending, generation) >= 2
    decreases j
  {
    hide Tagged;
    if i > j {
      TwoTaggedOrdered(pending, j, i, generation);
    } else {
      TwoTaggedOrdered(pending, i, j, generation);
    }
  }

  lemma {:induction false} TwoTaggedOrdered(pending: seq<Callback>, i: nat, j: nat, generation: nat)
    requires i < j < |pending|
    ensures pending[i].generation == generation && pending[j].generation == generation ==>
        Tagged(pending, generation) >= 2
  {
    hide Tagged;
    TaggedRemove(pending, j, generation);
    TaggedRemove(Remove(pending, j), i, generation);
  }

  // The mode search.

  lemma {:induction false} FirstExactMeans(modes: seq<Mode>, size: Size)
    ensures FirstExact(modes, size).None? <==> forall m :: m in modes ==> m.size != size
    ensures FirstExact(modes, size).Some? ==>
              FirstExact(modes, size).value in modes && FirstExact(modes, size).value.size == size
  {
    if modes != [] { FirstExactMeans(modes[1..], size); }
  }

  lemma {:induction false} FirstNearMeans(modes: seq<Mode>, size: Size)
    ensures FirstNear(modes, size).None? <==> forall m :: m in modes ==> !Near(m.size, size)
    ensures FirstNear(modes, size).Some? ==>
              FirstNear(modes, size).value in modes && Near(FirstNear(modes, size).value.size, size)
  {
    if modes != [] { FirstNearMeans(modes[1..], size); }
  }

  ghost predicate Unnamed(m: Option<Mode>) {
    m.None? || m.value.spec == []
  }

  /** The size that is requested from the search on is near the one before. A custom mode is added
      exactly when neither the first exact nor the first near mode has an id or a name; with all modes
      named, exactly when no listed mode is near, and otherwise the exact one is used if listed. */
  lemma {:induction false} ModeAddedIff(modes: seq<Mode>, size: Size)
    ensures Near(ChooseMode(modes, size).size, size)
    ensures ChooseMode(modes, size).spec == [] <==> Unnamed(FirstExact(modes, size)) && Unnamed(FirstNear(modes, size))
    ensures (forall m :: m in modes ==> m.spec != []) ==>
              && (ChooseMode(modes, size).spec == [] <==> forall m :: m in modes ==> !Near(m.size, size))
              && ((exists m :: m in modes && m.size == size) ==> ChooseMode(modes, size).size == size)
  {
    hide FirstExact, FirstNear;
    FirstExactMeans(modes, size);
    FirstNearMeans(modes, size);
  }
}
