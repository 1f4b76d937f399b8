/** The cursor manager itself, its update method against the transition it performs. */
module CursorManager {
  import opened Basics
  import opened CursorGeometry
  import opened CursorMask
  import opened CursorCache
  import opened CursorLru
  import opened CursorCoherence

  /** The cache lookup; the table has no order, so any match may be the one found. */
  method FindCached(cache: map<nat, Entry>, c: Cursor, key: int, hash: int) returns (slot: Option<nat>)
    ensures slot.Some? <==> Hit(cache, c, key, hash)
    ensures slot.Some? ==> slot.value in cache && Matches(cache[slot.value], c, key, hash)
  {
    hide Matches, WellFormed;
    var rest := cache.Keys;
    while rest != {}
      invariant rest <= cache.Keys
      invariant forall id :: id in cache && id !in rest ==> !Matches(cache[id], c, key, hash)
      decreases |rest|
    {
      var id :| id in rest;
      if Matches(cache[id], c, key, hash) { return Some(id); }
      rest := rest - {id};
    }
    return None;
  }

  method FindOldest(cache: map<nat, Entry>) returns (slot: nat)
    requires |cache| > 0
    ensures Oldest(cache, slot)
  {
    hide WellFormed;
    var rest := cache.Keys;
    assert rest != {};
    slot :| slot in rest;
    rest := rest - {slot};
    while rest != {}
      invariant rest <= cache.Keys && slot in cache
      invariant forall id :: id in cache && id !in rest ==> cache[slot].lastUsed <= cache[id].lastUsed
      decreases |rest|
    {
      var id :| id in rest;
      if cache[id].lastUsed < cache[slot].lastUsed { slot := id; }
      rest := rest - {id};
    }
  }

  /** The search always succeeds when the cache is not full, so position 0 is never a mere default. */
  method FindFree(cache: map<nat, Entry>, size: nat) returns (slot: nat)
    requires |cache| < size && forall id :: id in cache ==> id < size
    ensures FirstFree(cache, size, slot)
    ensures slot < size && slot !in cache && forall id :: 0 <= id < slot ==> id in cache
  {
    hide WellFormed;
    FreeIff(size, cache.Keys);
    var usedIds := cache.Keys;
    slot := 0;
    var id := 0;
    while id < size
      invariant id <= size && forall i :: 0 <= i < id ==> i in cache
      decreases size - id
    {
      if id !in usedIds {
        return id;
      }
      id := id + 1;
    }
  }

  class Manager {
    const env: Env
    var cursorCache: map<nat, Entry>
    var lastUsed: Option<Last>
    ghost var client: Client
    ghost var clock: nat
    ghost var keys: map<int, Picture>
    ghost var requests: seq<Cursor>
    ghost var order: seq<nat>

    ghost function Model(): State
      reads this
    {
      State(cursorCache, lastUsed, client, clock, keys, requests, order)
    }

    ghost predicate Valid()
      reads this
    {
      ValidEnv(env) && Inv(env, Model())
    }

    constructor (env: Env)
      requires ValidEnv(env)
      ensures Valid() && Model() == START && this.env == env
    {
      this.env := env;
      cursorCache, lastUsed := map[], None;
      client, clock, keys, requests, order := START.client, 0, map[], [], [];
      new;
      StartInv(env, START);
    }

    method Reset()
      requires Valid()
      modifies this
      ensures Valid() && Model() == Apply(env, old(Model()), CursorCache.Reset)
    {
      cursorCache, lastUsed := map[], None;
      client, requests, order := START.client, [], [];
      StartInv(env, Model());
    }

    /** Crops and scales a visible cursor. */
    method Process(image: Picture, hotspot: Point, bounds: Rect) returns (c: Cursor)
      requires ValidEnv(env) && Bounds(image) == Some(bounds)
      ensures Expected(env, image, hotspot) == Some(c)
      ensures HotspotInside(c) && 0 < c.image.width <= Limit(env) && 0 < c.image.height <= Limit(env)
    {
      hide WellFormed, Bounds, Resizes, Fit;
      BoundsLeast(image, bounds);
      var cropRect := Expand(bounds, hotspot);
      var cropped := Cursor(Crop(image, cropRect), Point(hotspot.x - cropRect.left, hotspot.y - cropRect.top));
      c := Fit(cropped, Limit(env), env.resample);
      ProcessedFits(image, hotspot, Limit(env), env.resample);
    }

    /** Returns the pointer update sent, if any; `slot` is the position used. */
    method UpdateCursorShape(image: Picture, hotspot: Point, key: int, croppedKey: int, now: nat)
            returns (sent: Option<Message>, ghost slot: nat)
      requires Valid() && now > clock && KeyFits(keys, key, image)
      requires Expected(env, image, hotspot).Some? ==>
          KeyFits(keys[key := image], croppedKey, Expected(env, image, hotspot).value.image)
      modifies this
      ensures Enabled(env, old(Model()), Update(Request(image, hotspot, key, croppedKey, now, slot)))
      ensures Valid() && Model() == Updated(env, old(Model()), Request(image, hotspot, key, croppedKey, now, slot))
      ensures client == if sent.Some? then Receive(old(client), sent.value) else old(client)
      ensures sent.None? <==>
                || image.width == 0 || image.height == 0
                || (old(lastUsed).Some? && old(lastUsed).value.hotspot == hotspot
                    && (old(lastUsed).value.key == key || old(lastUsed).value.image == image))
      ensures !IsNull(image) ==> client.shown == Displayed(Expected(env, image, hotspot))
    {
      hide WellFormed, Inv, Bounds, Resizes, Processed, Matches, Mru, ToFront, SlotFor, KeyFits;
      slot := 0;
      ghost var s := Model();
      if image.width == 0 || image.height == 0 { return None, slot; }
      ghost var expected := Expected(env, image, hotspot);
      if lastUsed.Some? && lastUsed.value.hotspot == hotspot
          && (lastUsed.value.key == key || lastUsed.value.image == image) {
        UpdatedKeeps(env, s, Request(image, hotspot, key, croppedKey, now, slot));
        requests := requests + (if expected.None? then [] else [expected.value]);
        keys := keys[key := image];
        return None, slot;
      }
      var bounds := FindContentBounds(image);
      if bounds.None? {
        NothingExpected(env, image, hotspot);
        UpdatedKeeps(env, s, Request(image, hotspot, key, croppedKey, now, slot));
        client := Receive(client, NullPointer);
        lastUsed := Some(Last(image, hotspot, key));
        keys := keys[key := image];
        return Some(NullPointer), slot;
      }
      var c := Process(image, hotspot, bounds.value);
      sent, slot := PlaceCursor(image, hotspot, key, c, croppedKey, now);
      UpdatedKeeps(env, s, Request(image, hotspot, key, croppedKey, now, slot));
    }

    /** Evicts the least recently used entry of a full cache; otherwise finds a free position. */
    method TakeSlot() returns (cacheId: nat)
      requires Valid()
      modifies `cursorCache
      ensures if |old(cursorCache)| >= Capacity(env) then Oldest(old(cursorCache), cacheId)
          else FirstFree(old(cursorCache), Capacity(env), cacheId)
      ensures cursorCache == old(cursorCache) - {cacheId}
    {
      hide WellFormed, Resizes, Mru, Oldest, FirstFree, LastOk, KeysOk, MirrorOk, Distinct, LruOk;
      CacheBounded(env, Model());
      if |cursorCache| >= Capacity(env) {
        cacheId := FindOldest(cursorCache);
        cursorCache := cursorCache - {cacheId};
      } else {
        cacheId := FindFree(cursorCache, Capacity(env));
        FreeNotIn(cursorCache, Capacity(env), cacheId);
      }
    }

    /** The part behind the fast path: look up, else make room, then send. */
    method PlaceCursor(image: Picture, hotspot: Point, key: int, c: Cursor, croppedKey: int, now: nat)
            returns (sent: Option<Message>, ghost slot: nat)
      requires Valid() && c.image.width > 0 && c.image.height > 0
      modifies this
      ensures SlotFor(env, old(cursorCache), c, croppedKey, slot)
      ensures Model() == Place(env, old(Model()), Request(image, hotspot, key, croppedKey, now, slot), c)
      ensures sent.Some? && client == Receive(old(client), sent.value)
    {
      hide WellFormed, Resizes, Matches, Mru, ToFront, Oldest, FirstFree, PointerUpdate, LastOk, KeysOk, MirrorOk,
          Distinct, LruOk, Receive;
      hide Activated, Stored, Noted;
      var hash := env.hash(c.image);
      var found := FindCached(cursorCache, c, croppedKey, hash);
      if found.Some? {
        slot := found.value;
        Note(Request(image, hotspot, key, croppedKey, now, found.value), c);
        sent := Activate(found.value, now);
      } else {
        var cacheId := TakeSlot();
        slot := cacheId;
        NotedApart(old(Model()), cursorCache, Request(image, hotspot, key, croppedKey, now, slot), c);
        Note(Request(image, hotspot, key, croppedKey, now, cacheId), c);
        sent := Store(old(cursorCache), cacheId, Entry(c, croppedKey, hash, now));
      }
    }

    method Note(r: Request, c: Cursor)
      modifies `lastUsed, `keys, `clock, `requests, `order
      ensures Model() == Noted(old(Model()), r, c)
    {
      lastUsed := Some(Last(r.image, r.hotspot, r.key));
      keys, clock := keys[r.key := r.image][r.croppedKey := c.image], r.now;
      requests, order := requests + [c], ToFront(order, r.slot);
    }

    method Activate(cacheId: nat, now: nat) returns (sent: Option<Message>)
      requires cacheId in cursorCache
      modifies `cursorCache, `client
      ensures Model() == Activated(old(Model()), cacheId, now)
      ensures sent.Some? && client == Receive(old(client), sent.value)
    {
      sent := Some(CachedPointer(cacheId));
      cursorCache := cursorCache[cacheId := cursorCache[cacheId].(lastUsed := now)];
      client := Receive(client, sent.value);
    }

    /** `before` is the cache before a slot was taken. */
    method Store(ghost before: map<nat, Entry>, cacheId: nat, e: Entry) returns (sent: Option<Message>)
      requires e.cursor.image.width > 0 && e.cursor.image.height > 0 && cursorCache == before - {cacheId}
      modifies `cursorCache, `client
      ensures Model() == Stored(old(Model()).(cache := before), cacheId, e)
      ensures sent.Some? && client == Receive(old(client), sent.value)
    {
      hide WellFormed, PointerUpdate, AndMask, Decodes;
      var andMask := CreateAndMask(e.cursor.image);
      sent := Some(PointerUpdate(cacheId, e.cursor, andMask[..]));
      cursorCache := cursorCache[cacheId := e];
      assert cursorCache == before[cacheId := e];
      client := Receive(client, sent.value);
    }
  }

  lemma {:induction false} NotedApart(s: State, cache: map<nat, Entry>, r: Request, c: Cursor)
    ensures Noted(s.(cache := cache), r, c).(cache := s.cache) == Noted(s, r, c)
  {
    hide WellFormed;
  }

  lemma {:induction false} FreeNotIn(cache: map<nat, Entry>, size: nat, slot: nat)
    requires FirstFree(cache, size, slot)
    ensures slot !in cache && cache - {slot} == cache
  {
  }

  lemma {:induction false} NothingExpected(env: Env, image: Picture, hotspot: Point)
    requires Bounds(image).None?
    ensures Expected(env, image, hotspot).None?
  {
  }

  lemma {:induction false} CacheBounded(env: Env, s: State)
    requires ValidEnv(env) && Inv(env, s)
    ensures |s.cache| <= Capacity(env) && Capacity(env) > 0 && forall id :: id in s.cache ==> id < Capacity(env)
  {
    hide WellFormed, Resizes, Mru, LastOk, KeysOk, MirrorOk;
    CacheCount(Capacity(env), s.cache, s.clock, s.order, Mru(s.requests));
  }
}
