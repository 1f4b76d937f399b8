/**
 What holds in every run of the cursor cache: the client displays the cursor that was asked for, and
 the cache is exactly the front of the recency list.
 */
module CursorCoherence {
  import opened Basics
  import opened CursorGeometry
  import opened CursorMask
  import opened CursorCache
  import opened CursorLru

  /** For a cursor that fits nothing is cut off. */
  lemma {:induction false} PointerUpdateExact(slot: nat, c: Cursor)
    requires slot < 0x1_0000 && HotspotInside(c) && c.image.width <= 384 && c.image.height <= 384
    ensures PointerUpdate(slot, c, AndMask(c.image)) ==
        if c.image.width <= 96 && c.image.height <= 96 then NewPointer(slot, PointerFor(c))
        else LargePointer(slot, PointerFor(c))
  {
    hide WellFormed, AndMask, Offset;
    MaskDecodes(c.image);
    if c.image.width <= 96 && c.image.height <= 96 { MaskLengthsFit(c.image.width, c.image.height); }
    assert AndMask(c.image)[..|AndMask(c.image)|] == AndMask(c.image);
  }

  /** What `SlotFor` picks is a usable position. */
  lemma {:induction false} SlotInRange(env: Env, s: State, c: Cursor, key: int, slot: nat)
    requires ValidEnv(env) && LruOk(Capacity(env), s.cache, s.clock, s.order, Mru(s.requests))
        && SlotFor(env, s.cache, c, key, slot)
    ensures slot < Capacity(env) < 0x1_0000
  {
    hide WellFormed, Mru, Resizes, Matches, Falling;
    if slot in s.cache { assert slot in s.order; }
  }

  /** The lookup finds an entry exactly when the cursor is cached, hash collisions or not. */
  lemma {:induction false} HitIffCached(cache: map<nat, Entry>, keys: map<int, Picture>, c: Cursor, key: int, hash: int)
    requires KeysOk(cache, keys) && KeyFits(keys, key, c.image)
    ensures Hit(cache, c, key, hash) <==> exists id :: id in cache && cache[id].cursor == c
    ensures forall id :: id in cache ==> (Matches(cache[id], c, key, hash) <==> cache[id].cursor == c)
  {
    hide WellFormed;
    forall id | id in cache ensures Matches(cache[id], c, key, hash) <==> cache[id].cursor == c {
      MatchIff(cache[id], c, key, hash, keys);
    }
    hide Matches;
  }

  /** An update that gets past the fast path, for a visible cursor. */
  ghost predicate Placeable(env: Env, s: State, r: Request, c: Cursor) {
    && ValidEnv(env) && r.now > s.clock && HotspotInside(c) && c.image.width <= 384 && c.image.height <= 384
    && KeyFits(s.keys, r.key, r.image) && KeyFits(s.keys[r.key := r.image], r.croppedKey, c.image)
    && SlotFor(env, s.cache, c, r.croppedKey, r.slot)
  }

  ghost predicate CacheOk(env: Env, s: State) {
    && KeysOk(s.cache, s.keys) && MirrorOk(s.cache, s.client.slots)
    && Distinct(Mru(s.requests)) && LruOk(Capacity(env), s.cache, s.clock, s.order, Mru(s.requests))
  }

  lemma {:induction false} KeysGrow(cache: map<nat, Entry>, keys: map<int, Picture>, key: int, image: Picture)
    requires KeysOk(cache, keys) && KeyFits(keys, key, image)
    ensures KeysOk(cache, keys[key := image])
  {
    hide WellFormed;
  }

  lemma {:induction false} PlaceEnters(env: Env, s: State, r: Request, c: Cursor)
    requires Placeable(env, s, r, c) && CacheOk(env, s)
    ensures var t := Place(env, s, r, c);
            Entered(s.cache, t.cache, r.slot, c, r.now) && KeysOk(t.cache, t.keys)
  {
    hide WellFormed, Mru, ToFront, Distinct, Resizes, LruOk, Processed, Matches, PointerUpdate, Hit, SlotFor,
        MirrorOk, Receive;
    KeysGrow(s.cache, s.keys, r.key, r.image);
    HitIffCached(s.cache, s.keys[r.key := r.image], c, r.croppedKey, env.hash(c.image));
  }

  lemma {:induction false} PlaceShows(env: Env, s: State, r: Request, c: Cursor)
    requires Placeable(env, s, r, c) && CacheOk(env, s)
    ensures var t := Place(env, s, r, c); t.client.shown == Some(PointerFor(c)) && MirrorOk(t.cache, t.client.slots)
  {
    hide WellFormed, Mru, ToFront, Distinct, Resizes, LruOk, Processed, Matches, PointerUpdate, Hit, SlotFor, KeysOk,
        AndMask;
    KeysGrow(s.cache, s.keys, r.key, r.image);
    SlotInRange(env, s, c, r.croppedKey, r.slot);
    PointerUpdateExact(r.slot, c);
    HitIffCached(s.cache, s.keys[r.key := r.image], c, r.croppedKey, env.hash(c.image));
  }

  lemma {:induction false} PlaceKeepsLru(env: Env, s: State, r: Request, c: Cursor)
    requires Placeable(env, s, r, c) && CacheOk(env, s)
    ensures var t := Place(env, s, r, c);
            Distinct(Mru(t.requests)) && LruOk(Capacity(env), t.cache, t.clock, t.order, Mru(t.requests))
                && Mru(t.requests) != [] && Mru(t.requests)[0] == c
  {
    hide WellFormed, AndMask, Mru, ToFront, Without, Distinct, Resizes, LruOk, Processed, Matches, PointerUpdate,
        MirrorOk, KeysOk, Entered;
    var t := Place(env, s, r, c);
    PlaceEnters(env, s, r, c);
    MruSnoc(s.requests, c);
    MruDistinct(t.requests);
    var hash := env.hash(c.image);
    KeysGrow(s.cache, s.keys, r.key, r.image);
    HitIffCached(s.cache, s.keys[r.key := r.image], c, r.croppedKey, hash);
    assert ToFront(Mru(s.requests), c)[0] == c by { FrontIs(Mru(s.requests), c); }
    if Hit(s.cache, c, r.croppedKey, hash) {
      HitKeepsLru(Capacity(env), s.cache, t.cache, s.clock, s.order, Mru(s.requests), r.slot, r.now);
    } else if |s.cache| >= Capacity(env) {
      EvictKeepsLru(Capacity(env), s.cache, t.cache, s.clock, s.order, Mru(s.requests), r.slot, c, r.now);
    } else {
      FreeKeepsLru(Capacity(env), s.cache, t.cache, s.clock, s.order, Mru(s.requests), r.slot, c, r.now);
    }
  }

  lemma {:induction false} FrontIs(s: seq<Cursor>, c: Cursor)
    ensures ToFront(s, c) != [] && ToFront(s, c)[0] == c
  {
  }

  lemma {:induction false} LastKept(env: Env, s: State, key: int, image: Picture)
    requires LastOk(env, s.last, s.keys, s.client.shown, Mru(s.requests)) && KeyFits(s.keys, key, image)
    ensures LastOk(env, s.last, s.keys[key := image], s.client.shown, Mru(s.requests))
  {
    hide WellFormed, Mru, Processed;
  }

  /** What an update leaves behind: the invariant, and on the client's screen the cursor asked for. */
  lemma {:induction false} UpdatedKeeps(env: Env, s: State, r: Request)
    requires ValidEnv(env) && Inv(env, s) && Enabled(env, s, Update(r))
    ensures Inv(env, Updated(env, s, r))
    ensures !IsNull(r.image) ==> Updated(env, s, r).client.shown == Displayed(Expected(env, r.image, r.hotspot))
  {
    hide WellFormed, AndMask, Mru, ToFront, Without, Distinct, Resizes, LruOk, Processed, Matches, PointerUpdate,
        MirrorOk, KeysOk, Entered, Place, KeyFits, SlotFor;
    if !IsNull(r.image) {
      var expected := Expected(env, r.image, r.hotspot);
      KeysGrow(s.cache, s.keys, r.key, r.image);
      ProcessedFits(r.image, r.hotspot, Limit(env), env.resample);
      if FastPath(s.last, r) {
        SameImage(s.last.value, r, s.keys);
        LastKept(env, s, r.key, r.image);
        if expected.Some? { MruSnoc(s.requests, expected.value); } else { assert s.requests + [] == s.requests; }
      } else if expected.Some? {
        PlaceEnters(env, s, r, expected.value);
        PlaceShows(env, s, r, expected.value);
        PlaceKeepsLru(env, s, r, expected.value);
        PlaceLast(env, s, r, expected.value);
      } else {
        assert s.keys[r.key := r.image][r.key] == r.image;
      }
    }
  }

  lemma {:induction false} SameImage(last: Last, r: Request, keys: map<int, Picture>)
    requires last.key in keys && keys[last.key] == last.image && KeyFits(keys, r.key, r.image)
        && FastPath(Some(last), r)
    ensures last.image == r.image && last.hotspot == r.hotspot
  {
    hide WellFormed;
  }

  lemma {:induction false} PlaceLast(env: Env, s: State, r: Request, c: Cursor)
    requires Placeable(env, s, r, c) && Expected(env, r.image, r.hotspot) == Some(c)
    ensures var t := Place(env, s, r, c);
            t.last == Some(Last(r.image, r.hotspot, r.key)) && r.key in t.keys && t.keys[r.key] == r.image
  {
    hide WellFormed, Mru, ToFront, Processed, Matches, PointerUpdate, SlotFor;
  }

  lemma {:induction false} ExecInv(env: Env, steps: seq<Step>)
    requires ValidEnv(env)
    ensures Exec(env, steps).Some? ==> Inv(env, Exec(env, steps).value)
  {
    hide WellFormed, Inv, Updated, Enabled, Mru;
    if steps == [] {
      StartInv(env, START);
    } else {
      var before, last := steps[..|steps| - 1], steps[|steps| - 1];
      ExecInv(env, before);
      if Exec(env, steps).Some? {
        var s := Exec(env, before).value;
        match last
        case Update(r) => UpdatedKeeps(env, s, r);
        case Reset => StartInv(env, START.(clock := s.clock, keys := s.keys));
      }
    }
  }

  lemma {:induction false} StartInv(env: Env, s: State)
    requires s.cache == map[] && s.requests == [] && s.order == [] && s.last == None
    ensures Inv(env, s)
  {
    hide WellFormed;
  }

  /** The client, reading the mask bytes it holds, sees through exactly the transparent pixels. */
  ghost predicate SeesThrough(p: Pointer) {
    forall x: nat, y: nat :: x < p.cursor.image.width && y < p.cursor.image.height ==>
        (Transparent(p.andMask, p.cursor.image.width, p.cursor.image.height, x, y) <==>
            At(p.cursor.image, x, y).alpha == 0)
  }

  lemma {:induction false} PointerSeesThrough(c: Cursor)
    ensures SeesThrough(PointerFor(c))
  {
    hide WellFormed, Transparent, AndMask, At;
    forall x: nat, y: nat | x < c.image.width && y < c.image.height
      ensures Transparent(AndMask(c.image), c.image.width, c.image.height, x, y) <==> At(c.image, x, y).alpha == 0
    {
      MaskSaysTransparent(c.image, x, y);
    }
  }

  /** Coherence: after every update of any run, what the client displays by replaying the updates it
      was sent is the processed cursor for the requested image and hotspot, with its AND mask byte for
      byte, also when the fast path sent nothing and whatever the hash function does. */
  lemma {:induction false} ClientShowsRequested(env: Env, steps: seq<Step>, r: Request)
    requires ValidEnv(env) && !IsNull(r.image)
    ensures var t := Exec(env, steps + [Update(r)]);
            t.Some? ==>
              var shown, expected := t.value.client.shown, Expected(env, r.image, r.hotspot);
              && shown == Displayed(expected)
              && (expected.Some? ==> shown.value.cursor == expected.value && SeesThrough(shown.value))
  {
    hide WellFormed, Inv, Updated, Enabled, Mru, Processed, SeesThrough, AndMask;
    assert (steps + [Update(r)])[..|steps|] == steps;
    ExecInv(env, steps);
    if Exec(env, steps + [Update(r)]).Some? {
      UpdatedKeeps(env, Exec(env, steps).value, r);
      if Expected(env, r.image, r.hotspot).Some? { PointerSeesThrough(Expected(env, r.image, r.hotspot).value); }
    }
  }

  /** What is displayed after an update is within the client's limit, 384 or 96 pixels where it supports
      them and 32 otherwise, and where the crop is, too, it is the crop itself. */
  lemma {:induction false} ShownFits(env: Env, steps: seq<Step>, r: Request)
    requires ValidEnv(env) && !IsNull(r.image) && Exec(env, steps + [Update(r)]).Some?
    ensures var limit := if env.largePointer384 then 384 else if env.largePointer96 then 96 else 32;
            var shown, crop := Exec(env, steps + [Update(r)]).value.client.shown, Cropped(r.image, r.hotspot);
            && (shown.Some? <==> exists x: int, y: int :: Visible(r.image, x, y))
            && (shown.Some? ==>
                  && 0 < shown.value.cursor.image.width <= limit && 0 < shown.value.cursor.image.height <= limit
                  && crop.Some?
                  && (crop.value.image.width <= limit && crop.value.image.height <= limit ==>
                        shown.value.cursor == crop.value))
  {
    hide WellFormed, Exec, Cropped, Fit, SeesThrough, AndMask, Visible, Resizes;
    ClientShowsRequested(env, steps, r);
    ProcessedFits(r.image, r.hotspot, Limit(env), env.resample);
    CropKeepsPicture(r.image, r.hotspot, 0, 0);
  }

  /** Asking for the same image and hotspot again changes neither what the client holds nor the cache. */
  lemma {:induction false} RepeatChangesNothing(env: Env, steps: seq<Step>, r: Request, again: Request)
    requires ValidEnv(env) && !IsNull(r.image) && again.image == r.image && again.hotspot == r.hotspot
    requires Exec(env, steps + [Update(r), Update(again)]).Some?
    ensures Exec(env, steps + [Update(r)]).Some?
    ensures var t, u := Exec(env, steps + [Update(r)]).value, Exec(env, steps + [Update(r), Update(again)]).value;
            u.client == t.client && u.cache == t.cache
  {
    hide WellFormed, Inv, Updated, Enabled, Mru, Processed;
    var first, both := steps + [Update(r)], steps + [Update(r), Update(again)];
    assert first[..|steps|] == steps && both[..|first|] == first;
    ExecInv(env, steps);
    var s, t := Exec(env, steps).value, Exec(env, first).value;
    assert both[|both| - 1] == Update(again) && first[|first| - 1] == Update(r);
    LastIs(env, s, r);
    SameAgain(env, t, again);
  }

  lemma {:induction false} LastIs(env: Env, s: State, r: Request)
    requires ValidEnv(env) && Inv(env, s) && Enabled(env, s, Update(r)) && !IsNull(r.image)
    ensures var t := Updated(env, s, r);
            t.last.Some? && t.last.value.image == r.image && t.last.value.hotspot == r.hotspot
  {
    hide WellFormed, Mru, ToFront, Without, Distinct, Resizes, LruOk, Processed, Matches, PointerUpdate, MirrorOk,
        KeysOk, AndMask;
    if FastPath(s.last, r) {
      SameImage(s.last.value, r, s.keys);
    } else {
      ProcessedFits(r.image, r.hotspot, Limit(env), env.resample);
    }
  }

  lemma {:induction false} SameAgain(env: Env, t: State, r: Request)
    requires ValidEnv(env) && t.last.Some? && t.last.value.image == r.image && t.last.value.hotspot == r.hotspot
    ensures var u := Updated(env, t, r); u.client == t.client && u.cache == t.cache
  {
    hide WellFormed, Mru, ToFront, Processed, Matches, PointerUpdate, Place;
  }

  /** Exact LRU: the cache holds the most recently requested distinct cursors, as many as fit, each
      once, in slots below the capacity, and uses them up in that order. */
  lemma {:induction false} CacheIsRecencyFront(env: Env, steps: seq<Step>)
    requires ValidEnv(env) && Exec(env, steps).Some?
    ensures var s := Exec(env, steps).value; var recent, n := Mru(s.requests), |s.cache|;
            && n == Min(if env.cacheSize == 0 then 20 else env.cacheSize, |recent|)
            && (forall id :: id in s.cache ==> id < Capacity(env))
            && (forall c :: c in recent[..n] <==> exists id :: id in s.cache && s.cache[id].cursor == c)
            && (forall i, j :: i in s.cache && j in s.cache && s.cache[i].cursor == s.cache[j].cursor ==> i == j)
            && (forall id :: Oldest(s.cache, id) ==> s.cache[id].cursor == recent[n - 1])
  {
    hide WellFormed, Mru, Exec, LastOk, KeysOk, MirrorOk, Processed;
    ExecInv(env, steps);
    var s := Exec(env, steps).value;
    FrontOfRecent(Capacity(env), s.cache, s.clock, s.order, Mru(s.requests));
  }

  lemma {:induction false} FrontOfRecent(size: nat, cache: map<nat, Entry>, clock: nat, order: seq<nat>,
          recent: seq<Cursor>)
    requires LruOk(size, cache, clock, order, recent) && Distinct(recent)
    ensures |cache| == Min(size, |recent|)
    ensures forall id :: id in cache ==> id < size
    ensures forall c :: c in recent[..|cache|] <==> exists id :: id in cache && cache[id].cursor == c
    ensures forall i, j :: i in cache && j in cache && cache[i].cursor == cache[j].cursor ==> i == j
    ensures forall id :: Oldest(cache, id) ==> cache[id].cursor == recent[|cache| - 1]
  {
    hide WellFormed, Oldest;
    CacheCount(size, cache, clock, order, recent);
    forall id | id in cache ensures id < size {
      var p :| 0 <= p < |order| && order[p] == id;
    }
    forall c | c in recent[..|cache|] ensures exists id :: id in cache && cache[id].cursor == c {
      var p :| 0 <= p < |cache| && recent[p] == c;
      assert order[p] in cache;
    }
    forall c | exists id :: id in cache && cache[id].cursor == c ensures c in recent[..|cache|] {
      var id :| id in cache && cache[id].cursor == c;
      var p :| 0 <= p < |order| && order[p] == id;
      assert recent[..|cache|][p] == c;
    }
    forall i, j | i in cache && j in cache && cache[i].cursor == cache[j].cursor ensures i == j {
      var p :| 0 <= p < |order| && order[p] == i;
      var q :| 0 <= q < |order| && order[q] == j;
    }
    OldestHolds(size, cache, clock, order, recent);
  }

  lemma {:induction false} OldestHolds(size: nat, cache: map<nat, Entry>, clock: nat, order: seq<nat>,
          recent: seq<Cursor>)
    requires LruOk(size, cache, clock, order, recent)
    ensures |cache| == Min(size, |recent|)
    ensures forall id :: Oldest(cache, id) ==> cache[id].cursor == recent[|cache| - 1]
  {
    hide WellFormed, Falling, Listed;
    CacheCount(size, cache, clock, order, recent);
    forall id | id in cache && Oldest(cache, id) ensures |cache| > 0 && cache[id].cursor == recent[|cache| - 1] {
      OldestIsLast(size, cache, clock, order, recent, id);
    }
  }

  // The free position.

  lemma {:induction false} Pigeonhole(ids: set<nat>, size: nat)
    requires forall id :: 0 <= id < size ==> id in ids
    ensures |ids| >= size
    decreases size
  {
    if size > 0 { Pigeonhole(ids - {size - 1}, size - 1); }
  }

  /** A position below the capacity is free exactly when the cache is not full. */
  lemma {:induction false} FreeIff(size: nat, ids: set<nat>)
    requires forall id :: id in ids ==> id < size
    ensures |ids| < size <==> exists id :: 0 <= id < size && id !in ids
  {
    if |ids| < size {
      if forall id :: 0 <= id < size ==> id in ids { Pigeonhole(ids, size); }
    } else {
      AtMost(ids, size);
    }
  }

  lemma {:induction false} AtMost(ids: set<nat>, size: nat)
    requires |ids| >= size && forall id :: id in ids ==> id < size
    ensures forall id :: 0 <= id < size ==> id in ids
    decreases size
  {
    if size > 0 {
      if size - 1 in ids {
        var rest := ids - {size - 1};
        AtMost(rest, size - 1);
        forall id | 0 <= id < size ensures id in ids {
          if id < size - 1 { assert id in rest; }
        }
      } else {
        TooMany(ids, size - 1);
      }
    }
  }

  lemma {:induction false} TooMany(ids: set<nat>, size: nat)
    requires forall id :: id in ids ==> id < size
    ensures |ids| <= size
    decreases size
  {
    if size > 0 { TooMany(ids - {size - 1}, size - 1); } else { assert ids == {}; }
  }

  lemma {:induction false} FirstFreeFrom(cache: map<nat, Entry>, size: nat, from: nat) returns (slot: nat)
    requires from <= size && (forall id :: 0 <= id < from ==> id in cache)
    requires exists id :: from <= id < size && id !in cache
    ensures FirstFree(cache, size, slot)
    decreases size - from
  {
    if from !in cache { slot := from; } else { slot := FirstFreeFrom(cache, size, from + 1); }
  }

  /** No update is ever stuck: in every reachable state there is a position for the cursor. */
  lemma {:induction false} SlotAlways(env: Env, steps: seq<Step>, c: Cursor, key: int) returns (slot: nat)
    requires ValidEnv(env) && Exec(env, steps).Some?
    ensures SlotFor(env, Exec(env, steps).value.cache, c, key, slot)
  {
    hide WellFormed, Mru, Exec, LastOk, KeysOk, MirrorOk, Processed, Matches, Distinct;
    ExecInv(env, steps);
    var s := Exec(env, steps).value;
    CacheCount(Capacity(env), s.cache, s.clock, s.order, Mru(s.requests));
    if Hit(s.cache, c, key, env.hash(c.image)) {
      slot :| slot in s.cache && Matches(s.cache[slot], c, key, env.hash(c.image));
    } else if |s.cache| >= Capacity(env) {
      slot := s.order[|s.order| - 1];
      forall id | id in s.cache ensures s.cache[slot].lastUsed <= s.cache[id].lastUsed {
        var p :| 0 <= p < |s.order| && s.order[p] == id;
        assert p < |s.order| - 1 ==> UsedLater(s.cache, s.order, p, |s.order| - 1);
      }
    } else {
      FreeIff(Capacity(env), s.cache.Keys);
      slot := FirstFreeFrom(s.cache, Capacity(env), 0);
    }
  }
}
