/**
 What the pipeline is run for: the size asked for stands until modes are listed for it, the mode applied is
 one of that size, and a pipeline once started goes on until it is done.
 */
module ResolutionRequests {
  import opened Basics
  import opened ResolutionModel
  import opened ResolutionProofs

  /** The callback that fires belongs to the current generation. */
  predicate Acting(s: State, event: Event) {
    event.Fires? && event.at < |s.pending| && s.pending[event.at].generation == s.generation
  }

  /** The query that acts and lists modes. */
  predicate Lists(s: State, event: Event) {
    Acting(s, event) && s.pending[event.at].stage.Query? && event.outcome.Listed?
  }

  /** Modes of one height whose widths are at most 8 pixels apart pass for one. */
  predicate Alike(a: Size, b: Size) {
    a.height == b.height && -8 <= a.width - b.width <= 8
  }

  /** The size an event asks for: a new display's, or that of a change that is not ignored. */
  function Asks(s: State, event: Event): Option<Size> {
    match event
    case CreateDisplay(size, _) => Some(size)
    case ChangeResolution(size, scaleChanged) =>
      if s.active && size.width >= 1 && size.height >= 1 && (scaleChanged || !Alike(size, s.requested)) then Some(size)
      else None
    case _ => None
  }

  /** No mode was listed in this generation. */
  ghost predicate Early(s: State) {
    forall c :: c in s.pending ==>
      && c.generation <= s.generation
      && (c.generation == s.generation ==> c.stage.InitialTimer? || c.stage.RetryTimer? || c.stage.Query?)
  }

  lemma {:induction false} NoneLive(s: State)
    requires Inv(s) && !s.active
    ensures forall c :: c in s.pending ==> c.generation < s.generation
  {
    hide Tagged;
    forall c | c in s.pending ensures c.generation < s.generation {
      var at :| 0 <= at < |s.pending| && s.pending[at] == c;
      TaggedRemove(s.pending, at, s.generation);
    }
  }

  lemma {:induction false} PendingKnown(s: State)
    requires Inv(s)
    ensures forall c :: c in s.pending ==> c.generation <= s.generation
  {
  }

  lemma {:induction false} AskedIs(s: State, event: Event)
    requires Inv(s) && Enabled(s, event) && Asks(s, event).Some?
    ensures Apply(s, event).requested == Asks(s, event).value && Early(Apply(s, event)) && Apply(s, event).retries == 0
  {
    hide Inv;
    PendingKnown(s);
    if event.CreateDisplay? && !s.active && !s.session { NoneLive(s); }
  }

  lemma {:induction false} StillAsked(s: State, event: Event)
    requires Early(s) && Enabled(s, event) && Asks(s, event).None? && !Lists(s, event)
    ensures var t := Apply(s, event); t.requested == s.requested && t.retries == s.retries && Early(t)
  {
    hide ChooseMode, FirstAdded, CvtWidth, Early;
    match event
    case Fires(at, outcome) => EarlyFires(s, at, outcome);
    case DebounceFires => EarlyGrows(s, Setup(s.(debounce := false)), [Callback(Query, s.generation)]);
    case Response(taker, of, ok) => EarlyResponded(s, taker, of, ok);
    case DestroyDisplay(unhook) => EarlyGeneration(s, Destroyed(s, unhook));
    case ChangeResolution(_, _) => EarlyGrows(s, Apply(s, event), []);
    case Replied(_) => EarlyGrows(s, Apply(s, event), []);
    case CallFailed(_) => EarlyGrows(s, Apply(s, event), []);
    case CreateDisplay(_, _) =>
  }

  lemma {:induction false} EarlyGrows(s: State, t: State, more: seq<Callback>)
    requires Early(s) && t.generation == s.generation && (t.pending == s.pending || t.pending == s.pending + more)
    requires forall c :: c in more ==> c == Callback(Query, s.generation)
    ensures Early(t)
  {
  }

  lemma {:induction false} EarlyGeneration(s: State, t: State)
    requires Early(s) && t.generation == s.generation + 1 && t.pending == s.pending
    ensures Early(t)
  {
  }

  lemma {:induction false} EarlyResponded(s: State, taker: Slot, of: Call, ok: bool)
    requires Early(s)
    ensures var t := Responded(s, taker, of, ok); Early(t) && t.requested == s.requested && t.retries == s.retries
  {
  }

  lemma {:induction false} EarlyFires(s: State, at: nat, outcome: Outcome)
    requires Early(s) && at < |s.pending| && !Lists(s, Fires(at, outcome))
    ensures var t := Fired(s, at, outcome); Early(t) && t.requested == s.requested && t.retries == s.retries
  {
    hide ChooseMode, FirstAdded, CvtWidth;
    assert s.pending[at] in s.pending;
  }

  /** Event `j` of the run neither asks for a size nor lists modes. */
  ghost predicate Quiet(events: seq<Event>, j: nat)
    requires j < |events|
  {
    Exec(events[..j]).Some? ==>
      Asks(Exec(events[..j]).value, events[j]).None? && !Lists(Exec(events[..j]).value, events[j])
  }

  /** Event `k` asked for this size, and after it none was asked for and no modes were listed. */
  ghost predicate AskedLast(events: seq<Event>, k: nat, size: Size) {
    && k < |events| && Exec(events[..k]).Some? && Asks(Exec(events[..k]).value, events[k]) == Some(size)
    && forall j :: k < j < |events| ==> Quiet(events, j)
  }

  lemma {:induction false} Stands(events: seq<Event>, k: nat, size: Size)
    requires Exec(events).Some? && AskedLast(events, k, size)
    ensures Exec(events).value.requested == size && Exec(events).value.retries == 0 && Early(Exec(events).value)
    decreases |events|
  {
    hide Apply, Enabled, Early, Asks, Inv;
    var n := |events| - 1;
    var before := Exec(events[..n]).value;
    ExecInv(events[..n]);
    if k == n {
      AskedIs(before, events[n]);
    } else {
      assert events[..n][..k] == events[..k] && events[..n][k] == events[k];
      forall j | k < j < n ensures Quiet(events[..n], j) {
        assert events[..n][..j] == events[..j];
        assert Quiet(events, j);
      }
      Stands(events[..n], k, size);
      assert Quiet(events, n);
      StillAsked(before, events[n]);
    }
  }

  lemma {:induction false} CvtWidthMeans(width: int)
    ensures CvtWidth(width) % 8 == 0 && (width >= 0 ==> CvtWidth(width) <= width < CvtWidth(width) + 8)
  {
  }

  lemma {:induction false} NearAlike(a: Size, b: Size)
    ensures Near(a, b) <==> Alike(a, b)
  {
  }

  /** What a query leads to for `size`: a listed mode of the size that is requested from then on is
      applied, or, when no named mode will do, one is added, 8-pixel aligned, of that height. */
  ghost predicate ModeFor(t: State, modes: seq<Mode>, size: Size) {
    && Alike(t.requested, size)
    && t.pending != [] && t.pending[|t.pending| - 1].generation == t.generation
    && match t.pending[|t.pending| - 1].stage
       case ApplyMode(spec) => spec != [] && Mode(t.requested, spec) in modes
       case AddMode(added) =>
         && added.height == t.requested.height && added.width % 8 == 0
         && (t.requested.width >= 0 ==> added.width <= t.requested.width < added.width + 8)
         && ((forall m :: m in modes ==> m.spec != []) ==> forall m :: m in modes ==> !Alike(m.size, size))
       case _ => false
  }

  lemma {:induction false} ListedChooses(s: State, modes: seq<Mode>)
    ensures ModeFor(QueryFinished(s, Listed(modes)), modes, s.requested)
  {
    hide FirstExact, FirstNear, CvtWidth, Near;
    var size, m := s.requested, ChooseMode(modes, s.requested);
    FirstExactMeans(modes, size);
    FirstNearMeans(modes, size);
    CvtWidthMeans(m.size.width);
    NearAlike(m.size, size);
    ModeAddedIff(modes, size);
    forall m | m in modes ensures Near(m.size, size) <==> Alike(m.size, size) { NearAlike(m.size, size); }
  }

  /** The pipeline runs for the size asked for: from a new display or an accepted change on, the requested
      size is that size, and no retry is used up, until a query of the current generation lists modes,
      whatever else happens; and that query's mode is for this size. */
  lemma {:induction false} RunsForRequest(events: seq<Event>, k: nat, size: Size, event: Event)
    requires Exec(events).Some? && AskedLast(events, k, size)
    ensures Exec(events).value.requested == size && Exec(events).value.retries == 0
    ensures Lists(Exec(events).value, event) ==>
        ModeFor(Apply(Exec(events).value, event), event.outcome.modes, size)
  {
    hide Exec, ModeFor, AskedLast, QueryFinished;
    Stands(events, k, size);
    var s := Exec(events).value;
    if Lists(s, event) {
      ListedChooses(s.(pending := Remove(s.pending, event.at)), event.outcome.modes);
    }
  }

  /** A mode listed after one was added. */
  predicate Acceptable(m: Mode, size: Size, cvtWidth: int) {
    m.size.height == size.height && (m.size.width == cvtWidth || Alike(m.size, size))
  }

  ghost predicate FirstAcceptable(modes: seq<Mode>, size: Size, cvtWidth: int, k: nat)
    requires k < |modes|
  {
    Acceptable(modes[k], size, cvtWidth) && forall i :: 0 <= i < k ==> !Acceptable(modes[i], size, cvtWidth)
  }

  lemma {:induction false} FirstAddedMeans(modes: seq<Mode>, size: Size, cvtWidth: int) returns (k: nat)
    ensures k <= |modes| && forall i :: 0 <= i < k ==> !Acceptable(modes[i], size, cvtWidth)
    ensures FirstAdded(modes, size, cvtWidth) ==
        if k == |modes| then None else Some(modes[k])
    ensures k < |modes| ==> Acceptable(modes[k], size, cvtWidth)
  {
    k := 0;
    if modes != [] {
      NearAlike(modes[0].size, size);
      if !Acceptable(modes[0], size, cvtWidth) {
        var rest := FirstAddedMeans(modes[1..], size, cvtWidth);
        k := rest + 1;
      }
    }
  }

  /** After a mode was added, the first acceptable one of the list is applied, and the requested size is its
      size; without one, no mode is. */
  lemma {:induction false} AddedModeApplied(s: State, at: nat, modes: seq<Mode>)
    requires Acting(s, Fires(at, Listed(modes))) && s.pending[at].stage.Recheck?
    ensures var t, width := Apply(s, Fires(at, Listed(modes))), s.pending[at].stage.cvtWidth;
            && t.pending != [] && t.pending[|t.pending| - 1].generation == t.generation
            && t.pending[|t.pending| - 1].stage.ApplyMode?
            && var spec := t.pending[|t.pending| - 1].stage.spec;
               if forall m :: m in modes ==> !Acceptable(m, s.requested, width)
               then spec == [] && t.requested == s.requested
               else exists k :: 0 <= k < |modes| && modes[k] == Mode(t.requested, spec)
                                && FirstAcceptable(modes, s.requested, width, k)
  {
    hide Acceptable, FirstAdded;
    var k := FirstAddedMeans(modes, s.requested, s.pending[at].stage.cvtWidth);
    if k < |modes| {
      assert modes[k] in modes && FirstAcceptable(modes, s.requested, s.pending[at].stage.cvtWidth, k);
      HeightKept(modes[k], s.requested, s.pending[at].stage.cvtWidth);
    }
  }

  lemma {:induction false} HeightKept(m: Mode, size: Size, cvtWidth: int)
    requires Acceptable(m, size, cvtWidth)
    ensures m.size.height == size.height
  {
  }

  // How long it goes on.

  /** The pipeline is done: the query failed, or the check finds the requested size, or has retried often
      enough. */
  predicate Ends(s: State, event: Event) {
    Acting(s, event) &&
    match s.pending[event.at].stage
    case Query => !event.outcome.Listed? && !event.outcome.NoVirtualOutput?
    case Check =>
      s.retries >= 3 || Alike(if event.outcome.Configured? then event.outcome.size else Size(0, 0), s.requested)
    case _ => false
  }

  lemma {:induction false} ActsLive(s: State, stage: Stage, outcome: Outcome)
    requires s.active
    ensures Live(Acts(s, stage, outcome)) == Live(s) +
        (if (stage.Query? && !outcome.Listed? && !outcome.NoVirtualOutput?)
            || (stage.Check? && !RetriesMode(s, outcome)) then 0 else 1)
  {
    hide Tagged, ChooseMode, FirstAdded, Near, CvtWidth;
    match stage
    case Query =>
      QueueLive(s, RetryTimer);
      if outcome.Listed? {
        var m := ChooseMode(outcome.modes, s.requested);
        QueueLive(s.(requested := m.size),
            if m.spec == [] then AddMode(Size(CvtWidth(m.size.width), m.size.height)) else ApplyMode(m.spec));
      }
    case AddMode(added) => QueueLive(s, Recheck(added.width));
    case Recheck(cvtWidth) =>
      var found := if outcome.Listed? then FirstAdded(outcome.modes, s.requested, cvtWidth) else None;
      if found.Some? {
        QueueLive(s.(requested := Size(found.value.size.width, s.requested.height)), ApplyMode(found.value.spec));
      } else {
        QueueLive(s, ApplyMode([]));
      }
    case ApplyMode(_) => QueueLive(s, Check);
    case Check => QueueLive(s.(retries := s.retries + 1, modeRetries := s.modeRetries + 1), ModeRetryTimer);
    case _ => QueueLive(s, Query);
  }

  lemma {:induction false} FiredLive(s: State, at: nat, outcome: Outcome)
    requires Inv(s) && at < |s.pending|
    ensures Live(Fired(s, at, outcome)) == if Ends(s, Fires(at, outcome)) then Live(s) - 1 else Live(s)
  {
    hide Acts, Tagged, Near, Alike;
    TaggedRemove(s.pending, at, s.generation);
    if s.pending[at].generation == s.generation {
      ActsLive(s.(pending := Remove(s.pending, at)), s.pending[at].stage, outcome);
      NearAlike(ConfiguredSize(outcome), s.requested);
    }
  }

  lemma {:induction false} ChangedLive(s: State, size: Size, scaleChanged: bool)
    requires Inv(s)
    ensures var t := Changed(s, size, scaleChanged);
            if Asks(s, Event.ChangeResolution(size, scaleChanged)).Some? then Live(t) == 1 else t == s
  {
    hide Tagged, Near, Alike;
    NearAlike(size, s.requested);
    BeganLive(s.(requested := size, retries := 0, debounce := true), 1);
  }

  lemma {:induction false} DebounceLive(s: State)
    requires Inv(s) && s.debounce
    ensures Live(Setup(s.(debounce := false))) == Live(s)
  {
    hide Tagged;
    QueueLive(s.(debounce := false), Query);
  }

  /** The number of timers and callbacks that can act is conserved: only a teardown or a new display sets it
      to zero, an accepted change to one, an accepted start response to one, or two with the debounce timer
      running, and the end of a pipeline takes one away. */
  lemma {:induction false} LiveConserved(s: State, event: Event)
    requires Inv(s) && Enabled(s, event)
    ensures Live(Apply(s, event)) ==
        if event.CreateDisplay? || event.DestroyDisplay? then 0
        else if Starts(s, event) then (if s.debounce then 2 else 1)
        else if Asks(s, event).Some? then 1
        else if Ends(s, event) then Live(s) - 1
        else Live(s)
  {
    hide Inv, Live, Acts, Near, Alike, Created, Destroyed, Changed, Responded, Setup, Fired;
    match event
    case CreateDisplay(size, unhook) => CreatedKeeps(s, size, unhook); CreatedLive(s, size, unhook);
    case Response(taker, of, ok) => RespondedKeeps(s, taker, of, ok);
    case ChangeResolution(size, scaleChanged) => ChangedLive(s, size, scaleChanged);
    case DestroyDisplay(unhook) => DestroyedKeeps(s, unhook);
    case DebounceFires => DebounceLive(s);
    case Fires(at, outcome) => FiredLive(s, at, outcome);
    case _ => PortalKeeps(s, Apply(s, event));
  }

  lemma {:induction false} CreatedLive(s: State, size: Size, unhook: bool)
    requires Inv(s)
    ensures Live(Created(s, size, unhook)) == 0
  {
    hide Tagged;
    BeganLive(s.(retries := 0, debounce := false), 0);
  }

  /** Event `j` of the run starts a pipeline. */
  ghost predicate Begins(events: seq<Event>, j: nat)
    requires j < |events|
  {
    && Exec(events[..j]).Some?
    && var s := Exec(events[..j]).value;
       Starts(s, events[j]) || (events[j].ChangeResolution? && Asks(s, events[j]).Some?)
  }

  ghost predicate Finishes(events: seq<Event>, j: nat)
    requires j < |events|
  {
    events[j].CreateDisplay? || events[j].DestroyDisplay?
        || (Exec(events[..j]).Some? && Ends(Exec(events[..j]).value, events[j]))
  }

  /** A pipeline once begun has a timer or a callback that can act, exactly one in orderly runs, until it is
      done, or the display is created anew or destroyed; and the display stays active. */
  lemma {:induction false} GoesOnUntilDone(events: seq<Event>, k: nat)
    requires Exec(events).Some? && k < |events| && Begins(events, k)
    requires forall j :: k < j < |events| ==> !Finishes(events, j)
    ensures Live(Exec(events).value) >= 1 && Exec(events).value.active
    ensures Orderly(events) ==> Live(Exec(events).value) == 1
    decreases |events|
  {
    hide Apply, Enabled, Asks, Inv, Live, Ends;
    var n := |events| - 1;
    ExecInv(events[..n]);
    LiveConserved(Exec(events[..n]).value, events[n]);
    if k < n {
      var init := events[..n];
      assert init[..k] == events[..k] && init[k] == events[k];
      assert Begins(init, k);
      forall j | k < j < n ensures !Finishes(init, j) {
        assert init[..j] == events[..j];
        assert !Finishes(events, j);
      }
      GoesOnUntilDone(init, k);
      assert !Finishes(events, n);
    } else {
      assert Begins(events, n);
    }
    ExecInv(events);
    InvActive(Exec(events).value);
    if Orderly(events) { OrderlyLive(events); }
  }

  /** The check of a mode: it is retried, with the size and the pipeline unchanged, until it fits or was
      retried three times; then the reported size, if there is one, is the requested one from then on, and
      it fits, too, unless the retries were used up. */
  lemma {:induction false} CheckDecides(s: State, at: nat, outcome: Outcome)
    requires Acting(s, Fires(at, outcome)) && s.pending[at].stage.Check?
    ensures var t, fits := Apply(s, Fires(at, outcome)),
                Alike(if outcome.Configured? then outcome.size else Size(0, 0), s.requested);
            if fits || s.retries >= 3 then
              && t.retries == 0 && |t.pending| == |s.pending| - 1
              && t.requested == (if outcome.Configured? && outcome.size.width > 0 && outcome.size.height > 0
                                 then outcome.size else s.requested)
              && (s.retries < 3 ==> Alike(t.requested, s.requested))
            else
              && t.retries == s.retries + 1 && t.requested == s.requested && |t.pending| == |s.pending|
              && t.pending[|t.pending| - 1] == Callback(ModeRetryTimer, s.generation)
  {
    hide Near;
    NearAlike(ConfiguredSize(outcome), s.requested);
  }

  // Teardown and start.

  /** A session is there from the response to a CreateSession call that its handler accepts, until a
      teardown, a new display, or another response that this handler accepts. */
  lemma {:induction false} SessionFollows(s: State, event: Event)
    requires Enabled(s, event)
    ensures Apply(s, event).session ==
        match event
        case CreateDisplay(_, _) => false
        case DestroyDisplay(_) => false
        case Response(taker, of, ok) =>
          if s.request == Some(of) && taker == CreateSession && ok then of.slot == CreateSession else s.session
        case _ => s.session
  {
    hide Acts, Near, Setup;
    match event
    case Fires(at, outcome) => FiredApart(s, at, outcome);
    case DebounceFires => OthersApart(s, event);
    case _ =>
  }

  /** A teardown, and so a new display over an old one, drops the current request for good: no response to
      that call is accepted any more; and where the library takes handlers off, none is left. */
  lemma {:induction false} TeardownDropsRequest(events: seq<Event>, k: nat, c: Call)
    requires Exec(events).Some? && k < |events| && Exec(events[..k]).Some?
    requires var s := Exec(events[..k]).value;
             && s.request == Some(c)
             && (events[k].DestroyDisplay? || (events[k].CreateDisplay? && (s.active || s.session)))
    ensures forall taker, ok :: Responded(Exec(events).value, taker, c, ok) == Exec(events).value
    ensures events[k].DestroyDisplay? && events[k].unhook ==> Apply(Exec(events[..k]).value, events[k]).hooks == {}
  {
    hide Responded;
    ExecPrefix(events, k + 1);
    assert events[..k + 1][..k] == events[..k] && events[..k + 1][k] == events[k];
    StaleStaysStale(events, k, k + 1, c);
  }

  /** A teardown ends the session; it deactivates the display exactly if there was one, and an inactive
      display stays so, with nothing that can act and no size accepted, until a start response is. */
  lemma {:induction false} TornDown(events: seq<Event>, k: nat)
    requires Exec(events).Some? && k < |events| && events[k].DestroyDisplay? && Exec(events[..k]).Some?
    requires forall j :: k < j < |events| ==> !StartsAt(events, j)
    ensures var s := Exec(events[..k]).value;
            && !Apply(s, events[k]).session && (Apply(s, events[k]).active <==> s.active && !s.session)
            && (Exec(events).value.active ==> s.active && !s.session)
    ensures !Exec(events).value.active ==> Live(Exec(events).value) == 0
    ensures !Exec(events).value.active ==>
              forall size, scaleChanged ::
                Apply(Exec(events).value, ChangeResolution(size, scaleChanged)) == Exec(events).value
    decreases |events|
  {
    hide Inv, Live, Acts, Setup, Near;
    var n := |events| - 1;
    ExecInv(events);
    InvActive(Exec(events).value);
    ExecPrefix(events, k);
    if k < n {
      var init := events[..n];
      assert init[..k] == events[..k] && init[k] == events[k];
      forall j | k < j < n ensures !StartsAt(init, j) {
        assert init[..j] == events[..j];
        assert !StartsAt(events, j);
      }
      TornDown(init, k);
      assert !StartsAt(events, n);
      StaysInactive(Exec(init).value, events[n]);
    }
  }

  lemma {:induction false} StaysInactive(s: State, event: Event)
    requires Enabled(s, event) && !Starts(s, event)
    ensures Apply(s, event).active ==> s.active
  {
    hide Acts, Near;
    if event.Fires? { FiredApart(s, event.at, event.outcome); }
  }

  /** Of several modes of the size asked for the first is chosen, if it has a name; and with none of that
      size the first that passes for it. */
  lemma {:induction false} FirstIsChosen(modes: seq<Mode>, size: Size, k: nat)
    requires k < |modes|
    ensures modes[k].size == size && modes[k].spec != [] && (forall i :: 0 <= i < k ==> modes[i].size != size) ==>
                ChooseMode(modes, size) == modes[k]
    ensures Alike(modes[k].size, size) && (forall i :: 0 <= i < k ==> !Alike(modes[i].size, size))
              && (forall i :: 0 <= i < |modes| ==> modes[i].size != size) ==>
                ChooseMode(modes, size) == modes[k]
  {
    hide FirstExact, FirstNear, Near;
    forall i | 0 <= i < |modes| ensures Near(modes[i].size, size) <==> Alike(modes[i].size, size) {
      NearAlike(modes[i].size, size);
    }
    if forall i :: 0 <= i < k ==> modes[i].size != size { ExactAt(modes, size, k); }
    if forall i :: 0 <= i < k ==> !Near(modes[i].size, size) { NearAt(modes, size, k); }
    FirstExactMeans(modes, size);
  }

  lemma {:induction false} ExactAt(modes: seq<Mode>, size: Size, k: nat)
    requires k < |modes| && forall i :: 0 <= i < k ==> modes[i].size != size
    ensures modes[k].size == size ==> FirstExact(modes, size) == Some(modes[k])
  {
    if k > 0 { ExactAt(modes[1..], size, k - 1); }
  }

  lemma {:induction false} NearAt(modes: seq<Mode>, size: Size, k: nat)
    requires k < |modes| && forall i :: 0 <= i < k ==> !Near(modes[i].size, size)
    ensures Near(modes[k].size, size) ==> FirstNear(modes, size) == Some(modes[k])
  {
    hide Near;
    if k > 0 { NearAt(modes[1..], size, k - 1); }
  }

  // A display that comes up undisturbed.

  /** The newest callback fires. */
  lemma {:induction false} NewestFires(events: seq<Event>, s: State, outcome: Outcome)
          returns (more: seq<Event>, t: State)
    requires Exec(events) == Some(s) && s.pending != [] && s.pending[|s.pending| - 1].generation == s.generation
    ensures Exec(more) == Some(t)
    ensures var n := |s.pending| - 1; t == Acts(s.(pending := s.pending[..n]), s.pending[n].stage, outcome)
  {
    hide Exec, Acts;
    var n := |s.pending| - 1;
    assert Remove(s.pending, n) == s.pending[..n];
    more, t := Then(events, s, Fires(n, outcome));
  }

  /** From an accepted request on, with a listed mode of that size applied at the first attempt. */
  lemma {:induction false} QueryToEnd(events: seq<Event>, s: State, modes: seq<Mode>, size: Size)
          returns (more: seq<Event>, t: State, applied: Name)
    requires Exec(events) == Some(s) && s.active && s.requested == size && size.width > 0 && size.height > 0
    requires s.pending != [] && s.pending[|s.pending| - 1] == Callback(Query, s.generation)
    requires exists m :: m in modes && m.size == size
    requires forall m :: m in modes ==> m.spec != []
    ensures Exec(more) == Some(t) && Mode(size, applied) in modes
    ensures t.active && t.session == s.session && t.requested == size && t.retries == 0 && t.debounce == s.debounce
    ensures t.pending == s.pending[..|s.pending| - 1] && t.generation == s.generation
  {
    hide Exec, FirstExact, FirstNear, Near;
    ModeAddedIff(modes, size);
    FirstExactMeans(modes, size);
    applied := ChooseMode(modes, size).spec;
    more, t := NewestFires(events, s, Listed(modes));
    assert t.pending[..|t.pending| - 1] == s.pending[..|s.pending| - 1];
    assert t.pending[|t.pending| - 1].stage == ApplyMode(applied);
    more, t := NewestFires(more, t, Failed);
    assert t.pending[..|t.pending| - 1] == s.pending[..|s.pending| - 1];
    NearAlike(size, size);
    more, t := NewestFires(more, t, Configured(size));
  }

  /** Whatever its size, a display comes up: through the handshake, with its calls answered, the timer and
      the query, to the mode applied and checked, nothing else happening; then it is active at the size
      asked for, and nothing is pending. */
  lemma {:induction false} DisplayComesUp(size: Size, unhook: bool, modes: seq<Mode>)
          returns (events: seq<Event>, s: State, applied: Name)
    requires size.width > 0 && size.height > 0
    requires (exists m :: m in modes && m.size == size) && forall m :: m in modes ==> m.spec != []
    ensures Exec(events) == Some(s) && Mode(size, applied) in modes
    ensures s.active && s.session && s.requested == size && s.pending == [] && !s.debounce && Live(s) == 0
  {
    hide Exec, OwnHandlers;
    NoEvents();
    var last: Call;
    events, s := ThenOwn([], IDLE, CreateDisplay(size, unhook));
    events, s, last := Handshake(events, s, Call(CreateSession, s.made - 1));
    events, s := Answered(events, s, last);
    assert s.pending == [Callback(InitialTimer, s.generation)];
    events, s := NewestFires(events, s, Failed);
    assert s.pending == [Callback(Query, s.generation)];
    events, s, applied := QueryToEnd(events, s, modes, size);
  }
}
