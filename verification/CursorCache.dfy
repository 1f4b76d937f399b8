/**
 The cursor cache as a state machine, with the client beside it: a slot table that only the sent
 pointer updates fill ([MS-RDPBCGR] sections 2.2.9.1.1.4.4 to 2.2.9.1.1.4.6), and what it displays.
 */
module CursorCache {
  import opened Basics
  import opened CursorGeometry
  import opened CursorMask

  datatype Entry = Entry(cursor: Cursor, key: int, hash: int, lastUsed: nat)

  /** A pointer as it is sent: the colours and the hotspot, and the AND mask's bytes. */
  datatype Pointer = Pointer(cursor: Cursor, andMask: seq<bv8>)

  datatype Message = NewPointer(slot: nat, pointer: Pointer) | LargePointer(slot: nat, pointer: Pointer)
      | CachedPointer(slot: nat) | NullPointer

  datatype Client = Client(slots: map<nat, Pointer>, shown: Option<Pointer>)

  /** The last applied request. */
  datatype Last = Last(image: Picture, hotspot: Point, key: int)

  /** The session's settings, and the two library functions. */
  datatype Env = Env(
    largePointer384: bool,
    largePointer96: bool,
    cacheSize: nat,
    resample: Resampler,
    hash: Picture -> int
  )

  datatype State = State(
    cache: map<nat, Entry>,
    last: Option<Last>,
    client: Client,
    clock: nat,                      // the last clock reading
    keys: map<int, Picture>,         // history: what each image key stood for
    requests: seq<Cursor>,           // history: the visible cursors requested, the newest last
    order: seq<nat>                  // history: the cached slots, the most recently used first
  )

  /** `slot` is the cache position the update settles on, `now` its clock reading. */
  datatype Request = Request(image: Picture, hotspot: Point, key: int, croppedKey: int, now: nat, slot: nat)

  datatype Step = Update(r: Request) | Reset

  const START: State := State(map[], None, Client(map[], None), 0, map[], [], [])

  /** The client's limit on both sides of a cursor. */
  function Limit(env: Env): nat {
    MaxAllowed(env.largePointer384, env.largePointer96)
  }

  function Capacity(env: Env): nat {
    if env.cacheSize == 0 then 20 else env.cacheSize
  }

  /** The cursor that ought to be displayed. */
  function Expected(env: Env, image: Picture, hotspot: Point): Option<Cursor> {
    Processed(image, hotspot, Limit(env), env.resample)
  }

  function Receive(c: Client, m: Message): Client {
    match m
    case NewPointer(slot, pointer) => Client(c.slots[slot := pointer], Some(pointer))
    case LargePointer(slot, pointer) => Client(c.slots[slot := pointer], Some(pointer))
    case CachedPointer(slot) => c.(shown := if slot in c.slots then Some(c.slots[slot]) else None)
    case NullPointer => c.(shown := None)
  }

  predicate IsNull(image: Picture) {
    image.width == 0 || image.height == 0
  }

  predicate FastPath(last: Option<Last>, r: Request) {
    last.Some? && last.value.hotspot == r.hotspot && (last.value.key == r.key || last.value.image == r.image)
  }

  /** The cache lookup's test: a key that agrees settles it; pixels are compared otherwise, whether
      the hashes agree or not. */
  predicate Matches(e: Entry, c: Cursor, key: int, hash: int) {
    && e.cursor.hotspot == c.hotspot && e.cursor.image.width == c.image.width && e.cursor.image.height == c.image.height
    && (e.key == key || (if e.hash == hash then e.cursor.image == c.image else e.cursor.image == c.image))
  }

  /** The update that carries the pixels: only a small cursor fits the New form, whose mask length is
      cut to 16 bits. The hotspot is clamped and both it and the slot are cut to 16 bits. */
  function PointerUpdate(slot: nat, c: Cursor, andMask: seq<bv8>): Message
    requires c.image.width > 0 && c.image.height > 0
  {
    var sent := Cursor(c.image,
        Point(Bound(0, c.hotspot.x, c.image.width - 1) % 0x1_0000,
        Bound(0, c.hotspot.y, c.image.height - 1) % 0x1_0000));
    if c.image.width <= 96 && c.image.height <= 96
        then NewPointer(slot % 0x1_0000, Pointer(sent, andMask[..|andMask| % 0x1_0000]))
    else LargePointer(slot % 0x1_0000, Pointer(sent, andMask))
  }

  /** The cursor as the client ought to hold it. */
  function PointerFor(c: Cursor): Pointer {
    Pointer(c, AndMask(c.image))
  }

  function Displayed(c: Option<Cursor>): Option<Pointer> {
    if c.None? then None else Some(PointerFor(c.value))
  }

  function Without<T(==, !new)>(s: seq<T>, x: T): (r: seq<T>)
    ensures |r| <= |s| && forall y :: y in r <==> y in s && y != x
  {
    if s == [] then [] else if s[0] == x then Without(s[1..], x) else [s[0]] + Without(s[1..], x)
  }

  /** `s` with `x` moved or put to the front. */
  function ToFront<T(==, !new)>(s: seq<T>, x: T): seq<T> {
    [x] + Without(s, x)
  }

  /** The distinct requested cursors, the most recently requested first. */
  function Mru(requests: seq<Cursor>): seq<Cursor> {
    if requests == [] then [] else ToFront(Mru(requests[..|requests| - 1]), requests[|requests| - 1])
  }

  /** The bookkeeping of an update that gets past the fast path. */
  function Noted(s: State, r: Request, c: Cursor): State {
    s.(last := Some(Last(r.image, r.hotspot, r.key)), keys := s.keys[r.key := r.image][r.croppedKey := c.image],
       clock := r.now, requests := s.requests + [c], order := ToFront(s.order, r.slot))
  }

  function Activated(s: State, slot: nat, now: nat): State
    requires slot in s.cache
  {
    s.(cache := s.cache[slot := s.cache[slot].(lastUsed := now)], client := Receive(s.client, CachedPointer(slot)))
  }

  function Stored(s: State, slot: nat, e: Entry): State
    requires e.cursor.image.width > 0 && e.cursor.image.height > 0
  {
    s.(cache := s.cache[slot := e], client := Receive(s.client, PointerUpdate(slot, e.cursor, AndMask(e.cursor.image))))
  }

  function Place(env: Env, s: State, r: Request, c: Cursor): State
    requires c.image.width > 0 && c.image.height > 0
  {
    var hash := env.hash(c.image);
    if r.slot in s.cache && Matches(s.cache[r.slot], c, r.croppedKey, hash)
        then Activated(Noted(s, r, c), r.slot, r.now)
    else Stored(Noted(s, r, c), r.slot, Entry(c, r.croppedKey, hash, r.now))
  }

  ghost predicate ValidEnv(env: Env) {
    Resizes(env.resample) && env.cacheSize < 0x1_0000
  }

  /** `updateCursorShape` */
  ghost function Updated(env: Env, s: State, r: Request): State
    requires ValidEnv(env)
  {
    if IsNull(r.image) then s
    else
      var expected := Expected(env, r.image, r.hotspot);
      var requested := s.requests + (if expected.None? then [] else [expected.value]);
      if FastPath(s.last, r) then s.(requests := requested, keys := s.keys[r.key := r.image])
      else if expected.None? then
        s.(last := Some(Last(r.image, r.hotspot, r.key)), keys := s.keys[r.key := r.image],
            client := Receive(s.client, NullPointer))
      else
        ProcessedFits(r.image, r.hotspot, Limit(env), env.resample);
        Place(env, s, r, expected.value)
  }

  /** Equal keys stand for equal images. */
  ghost predicate KeyFits(keys: map<int, Picture>, key: int, image: Picture) {
    key in keys ==> keys[key] == image
  }

  ghost predicate Oldest(cache: map<nat, Entry>, slot: nat) {
    slot in cache && forall id :: id in cache ==> cache[slot].lastUsed <= cache[id].lastUsed
  }

  ghost predicate FirstFree(cache: map<nat, Entry>, size: nat, slot: nat) {
    slot < size && slot !in cache && forall id :: 0 <= id < slot ==> id in cache
  }

  ghost predicate Hit(cache: map<nat, Entry>, c: Cursor, key: int, hash: int) {
    exists id :: id in cache && Matches(cache[id], c, key, hash)
  }

  /** Where the cursor goes: a matching entry, else the least recently used one of a full cache, else
      the first free position. */
  ghost predicate SlotFor(env: Env, cache: map<nat, Entry>, c: Cursor, key: int, slot: nat) {
    if Hit(cache, c, key, env.hash(c.image)) then slot in cache && Matches(cache[slot], c, key, env.hash(c.image))
    else if |cache| >= Capacity(env) then Oldest(cache, slot)
    else FirstFree(cache, Capacity(env), slot)
  }

  ghost predicate Enabled(env: Env, s: State, step: Step) {
    step.Update? && !IsNull(step.r.image) ==>
      var r := step.r;
      && KeyFits(s.keys, r.key, r.image) && r.now > s.clock
      && var c := Expected(env, r.image, r.hotspot);
         c.Some? && !FastPath(s.last, r) ==>
           && KeyFits(s.keys[r.key := r.image], r.croppedKey, c.value.image)
           && SlotFor(env, s.cache, c.value, r.croppedKey, r.slot)
  }

  /** A reset goes with a new connection, whose client starts empty. */
  ghost function Apply(env: Env, s: State, step: Step): State
    requires ValidEnv(env)
  {
    match step
    case Update(r) => Updated(env, s, r)
    case Reset => START.(clock := s.clock, keys := s.keys)
  }

  ghost function Exec(env: Env, steps: seq<Step>): Option<State>
    requires ValidEnv(env)
    decreases |steps|
  {
    if steps == [] then Some(START)
    else
      var before := Exec(env, steps[..|steps| - 1]);
      var last := steps[|steps| - 1];
      if before.Some? && Enabled(env, before.value, last) then Some(Apply(env, before.value, last)) else None
  }

  // The invariant.

  ghost predicate KeysOk(cache: map<nat, Entry>, keys: map<int, Picture>) {
    forall id :: id in cache ==> cache[id].key in keys && keys[cache[id].key] == cache[id].cursor.image
  }

  /** The client's slots hold what the cache says. */
  ghost predicate MirrorOk(cache: map<nat, Entry>, slots: map<nat, Pointer>) {
    forall id :: id in cache ==> id in slots && slots[id] == PointerFor(cache[id].cursor)
  }

  ghost predicate LastOk(env: Env, last: Option<Last>, keys: map<int, Picture>, shown: Option<Pointer>,
          recent: seq<Cursor>) {
    last.Some? ==>
      && last.value.key in keys && keys[last.value.key] == last.value.image
      && var c := Expected(env, last.value.image, last.value.hotspot);
         shown == Displayed(c) && (c.Some? ==> recent != [] && recent[0] == c.value)
  }

  ghost predicate Listed(cache: map<nat, Entry>, order: seq<nat>) {
    forall id :: id in cache ==> id in order
  }

  ghost predicate Held(size: nat, cache: map<nat, Entry>, clock: nat, order: seq<nat>, recent: seq<Cursor>) {
    && |order| <= |recent|
    && forall k :: 0 <= k < |order| ==>
         order[k] in cache && order[k] < size && cache[order[k]].cursor == recent[k]
             && cache[order[k]].lastUsed <= clock
  }

  ghost predicate UsedLater(cache: map<nat, Entry>, order: seq<nat>, j: nat, k: nat)
    requires j < |order| && k < |order|
  {
    order[j] in cache && order[k] in cache && cache[order[j]].lastUsed > cache[order[k]].lastUsed
  }

  ghost predicate Falling(cache: map<nat, Entry>, order: seq<nat>) {
    forall j, k {:trigger UsedLater(cache, order, j, k)} :: 0 <= j < k < |order| ==> UsedLater(cache, order, j, k)
  }

  /** `order` lists the cached slots by falling time of use; they hold the first cursors of `recent`,
      as many as fit. */
  ghost predicate LruOk(size: nat, cache: map<nat, Entry>, clock: nat, order: seq<nat>, recent: seq<Cursor>) {
    |order| == Min(size, |recent|) && Listed(cache, order) && Held(size, cache, clock, order, recent)
        && Falling(cache, order)
  }

  ghost predicate Distinct<T(!new)>(s: seq<T>) {
    forall j, k :: 0 <= j < k < |s| ==> s[j] != s[k]
  }

  ghost predicate Inv(env: Env, s: State) {
    && KeysOk(s.cache, s.keys) && MirrorOk(s.cache, s.client.slots)
    && Distinct(Mru(s.requests)) && LruOk(Capacity(env), s.cache, s.clock, s.order, Mru(s.requests))
    && LastOk(env, s.last, s.keys, s.client.shown, Mru(s.requests))
  }
}
