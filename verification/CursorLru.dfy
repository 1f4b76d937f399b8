/** The list reasoning behind the cache: what moving to the front does, and that each of the three ways
    an update ends keeps the cache the front part of the recency list. */
module CursorLru {
  import opened CursorGeometry
  import opened CursorCache

  // Lists.

  lemma {:induction false} WithoutNothing<T(!new)>(s: seq<T>, x: T)
    requires x !in s
    ensures Without(s, x) == s
  {
    if s != [] {
      assert s == [s[0]] + s[1..];
      WithoutNothing(s[1..], x);
    }
  }

  lemma {:induction false} WithoutAt<T(!new)>(s: seq<T>, p: nat)
    requires Distinct(s) && p < |s|
    ensures Without(s, s[p]) == s[..p] + s[p + 1..]
    decreases |s|
  {
    if p == 0 {
      WithoutNothing(s[1..], s[0]);
    } else {
      WithoutAt(s[1..], p - 1);
      assert s[..p] == [s[0]] + s[1..][..p - 1];
      assert s[1..][p - 1 + 1..] == s[p + 1..];
    }
  }

  lemma {:induction false} DistinctWithout<T(!new)>(s: seq<T>, x: T)
    requires Distinct(s)
    ensures Distinct(ToFront(s, x))
    ensures x in s ==> |ToFront(s, x)| == |s|
    ensures x !in s ==> |ToFront(s, x)| == |s| + 1
  {
    if x in s {
      var p :| 0 <= p < |s| && s[p] == x;
      WithoutAt(s, p);
    } else {
      WithoutNothing(s, x);
    }
  }

  lemma {:induction false} MruDistinct(requests: seq<Cursor>)
    ensures Distinct(Mru(requests))
  {
    if requests != [] {
      MruDistinct(requests[..|requests| - 1]);
      DistinctWithout(Mru(requests[..|requests| - 1]), requests[|requests| - 1]);
    }
  }

  lemma {:induction false} MruSnoc(requests: seq<Cursor>, c: Cursor)
    ensures Mru(requests + [c]) == ToFront(Mru(requests), c)
    ensures Mru(requests) != [] && Mru(requests)[0] == c ==> Mru(requests + [c]) == Mru(requests)
  {
    assert (requests + [c])[..|requests|] == requests;
    if Mru(requests) != [] && Mru(requests)[0] == c {
      MruDistinct(requests);
      WithoutAt(Mru(requests), 0);
    }
  }

  /** The index of the last request for `c`, or -1. */
  function LastRequest(requests: seq<Cursor>, c: Cursor): (i: int)
    ensures -1 <= i < |requests| && (i >= 0 <==> c in requests) && (i >= 0 ==> requests[i] == c)
    ensures forall k :: i < k < |requests| ==> requests[k] != c
  {
    if requests == [] then -1
    else if requests[|requests| - 1] == c then |requests| - 1
    else LastRequest(requests[..|requests| - 1], c)
  }

  /** `t` is `s` with the element at `p` moved to the front. */
  ghost predicate Moved<T>(s: seq<T>, t: seq<T>, p: nat) {
    && p < |s| == |t| && t[0] == s[p]
    && (forall k :: 0 < k <= p ==> t[k] == s[k - 1])
    && (forall k :: p < k < |t| ==> t[k] == s[k])
  }

  lemma {:induction false} ToFrontMoves<T(!new)>(s: seq<T>, p: nat)
    requires Distinct(s) && p < |s|
    ensures Moved(s, ToFront(s, s[p]), p)
  {
    hide Without;
    WithoutAt(s, p);
  }

  lemma {:induction false} ToFrontAdds<T(!new)>(s: seq<T>, x: T)
    requires x !in s
    ensures ToFront(s, x) == [x] + s
  {
    hide Without;
    WithoutNothing(s, x);
  }

  /** `m` lists cursors by falling position of the last request for them. */
  ghost predicate ByRecency(requests: seq<Cursor>, m: seq<Cursor>) {
    forall j, k :: 0 <= j < k < |m| ==> LastRequest(requests, m[j]) > LastRequest(requests, m[k])
  }

  lemma {:induction false} LastRequestSnoc(before: seq<Cursor>, c: Cursor, d: Cursor)
    ensures LastRequest(before + [c], d) == if d == c then |before| else LastRequest(before, d)
  {
    hide WellFormed;
    assert (before + [c])[..|before|] == before;
  }

  lemma {:induction false} MovedByRecency(before: seq<Cursor>, m: seq<Cursor>, t: seq<Cursor>, p: nat)
    requires Distinct(m) && ByRecency(before, m) && Moved(m, t, p)
    ensures ByRecency(before + [m[p]], t)
  {
    hide LastRequest, WellFormed;
    forall j, k | 0 <= j < k < |t| ensures LastRequest(before + [m[p]], t[j]) > LastRequest(before + [m[p]], t[k]) {
      LastRequestSnoc(before, m[p], t[j]);
      LastRequestSnoc(before, m[p], t[k]);
    }
  }

  lemma {:induction false} AddedByRecency(before: seq<Cursor>, m: seq<Cursor>, c: Cursor)
    requires c !in m && ByRecency(before, m)
    ensures ByRecency(before + [c], [c] + m)
  {
    hide LastRequest, WellFormed;
    var t := [c] + m;
    forall j, k | 0 <= j < k < |t| ensures LastRequest(before + [c], t[j]) > LastRequest(before + [c], t[k]) {
      LastRequestSnoc(before, c, t[j]);
      LastRequestSnoc(before, c, t[k]);
      assert t[k] == m[k - 1];
    }
  }

  /** `Mru` is what its name says: exactly the requested cursors, each once, by falling position of
      the last request for them. */
  lemma {:induction false} MruIsByRecency(requests: seq<Cursor>)
    ensures Distinct(Mru(requests)) && ByRecency(requests, Mru(requests))
    ensures forall c :: c in Mru(requests) <==> c in requests
  {
    hide WellFormed, Distinct, ByRecency, LastRequest, Without;
    MruDistinct(requests);
    if requests != [] {
      var before, c := requests[..|requests| - 1], requests[|requests| - 1];
      MruIsByRecency(before);
      MruSnoc(before, c);
      assert before + [c] == requests;
      var m := Mru(before);
      if c in m {
        var p :| 0 <= p < |m| && m[p] == c;
        ToFrontMoves(m, p);
        MovedByRecency(before, m, ToFront(m, c), p);
      } else {
        ToFrontAdds(m, c);
        AddedByRecency(before, m, c);
      }
    } else {
      assert ByRecency([], []) by { NothingByRecency(); }
    }
  }

  lemma {:induction false} NothingByRecency()
    ensures ByRecency([], [])
  {
  }

  // Slots.

  lemma {:induction false} SetOfDistinct(order: seq<nat>, ids: set<nat>)
    requires Distinct(order) && forall id :: id in ids <==> id in order
    ensures |ids| == |order|
  {
    if order == [] {
      assert ids == {};
    } else {
      assert order == [order[0]] + order[1..];
      SetOfDistinct(order[1..], ids - {order[0]});
    }
  }

  lemma {:induction false} CacheCount(size: nat, cache: map<nat, Entry>, clock: nat, order: seq<nat>,
          recent: seq<Cursor>)
    requires LruOk(size, cache, clock, order, recent)
    ensures Distinct(order) && |cache| == |order| && forall id :: id in order <==> id in cache
  {
    forall j, k | 0 <= j < k < |order| ensures order[j] != order[k] { assert UsedLater(cache, order, j, k); }
    SetOfDistinct(order, cache.Keys);
  }

  lemma {:induction false} MatchIff(e: Entry, c: Cursor, key: int, hash: int, keys: map<int, Picture>)
    requires e.key in keys && keys[e.key] == e.cursor.image && KeyFits(keys, key, c.image)
    ensures Matches(e, c, key, hash) <==> e.cursor == c
  {
  }

  lemma {:induction false} OldestIsLast(size: nat, cache: map<nat, Entry>, clock: nat, order: seq<nat>,
          recent: seq<Cursor>, slot: nat)
    requires LruOk(size, cache, clock, order, recent) && Oldest(cache, slot)
    ensures order != [] && slot == order[|order| - 1]
  {
    assert slot in order;
    var p :| 0 <= p < |order| && order[p] == slot;
    assert p < |order| - 1 ==> UsedLater(cache, order, p, |order| - 1);
  }

  /** The slot holds the cursor now, as the newest entry. */
  ghost predicate Entered(before: map<nat, Entry>, after: map<nat, Entry>, slot: nat, c: Cursor, now: nat) {
    && after.Keys == before.Keys + {slot} && after[slot].cursor == c && after[slot].lastUsed == now
    && forall id :: id in before && id != slot ==> after[id] == before[id]
  }

  lemma {:induction false} HitKeepsLru(size: nat, cache: map<nat, Entry>, after: map<nat, Entry>, clock: nat,
          order: seq<nat>, recent: seq<Cursor>, slot: nat, now: nat)
    requires LruOk(size, cache, clock, order, recent) && Distinct(recent) && slot in cache && now > clock
    requires Entered(cache, after, slot, cache[slot].cursor, now)
    ensures LruOk(size, after, now, ToFront(order, slot), ToFront(recent, cache[slot].cursor))
  {
    hide WellFormed, ToFront, Without;
    CacheCount(size, cache, clock, order, recent);
    var p :| 0 <= p < |order| && order[p] == slot;
    ToFrontMoves(order, p);
    ToFrontMoves(recent, p);
    MovedLru(size, cache, after, clock, order, ToFront(order, slot), recent, ToFront(recent, recent[p]), p, now);
  }

  lemma {:induction false} MovedListed(cache: map<nat, Entry>, after: map<nat, Entry>, order: seq<nat>,
          order1: seq<nat>, p: nat)
    requires Listed(cache, order) && Moved(order, order1, p) && after.Keys == cache.Keys + {order[p]}
    ensures Listed(after, order1)
  {
    hide WellFormed;
    forall id | id in after ensures id in order1 {
      if id in cache {
        var k :| 0 <= k < |order| && order[k] == id;
        assert if k < p then order1[k + 1] == id else if k == p then order1[0] == id else order1[k] == id;
      } else {
        assert order1[0] == id;
      }
    }
  }

  /** Where an element of a list with one element moved to the front was before. */
  function Before(k: nat, p: nat): (b: nat) {
    if k == 0 then p else if k <= p then k - 1 else k
  }

  lemma {:induction false} MovedFrom<T>(s: seq<T>, t: seq<T>, p: nat, k: nat)
    requires Moved(s, t, p) && k < |t|
    ensures Before(k, p) < |s| && t[k] == s[Before(k, p)] && (k > 0 <==> Before(k, p) != p)
  {
  }

  lemma {:induction false} MovedFalling(size: nat, cache: map<nat, Entry>, after: map<nat, Entry>, clock: nat,
          order: seq<nat>, order1: seq<nat>, recent: seq<Cursor>, p: nat, c: Cursor, now: nat)
    requires Held(size, cache, clock, order, recent) && Falling(cache, order) && now > clock
    requires Moved(order, order1, p) && Distinct(order) && Entered(cache, after, order[p], c, now)
    ensures Falling(after, order1)
  {
    hide WellFormed, Moved, Before, Held, Entered, Distinct;
    MovedLength(order, order1, p);
    forall j, k | 0 <= j < k < |order1| ensures UsedLater(after, order1, j, k) {
      MovedFrom(order, order1, p, j);
      MovedFrom(order, order1, p, k);
      UntouchedEntry(size, cache, after, clock, order, recent, p, Before(k, p), c, now);
      if j == 0 {
        NewestEntry(cache, after, order[p], c, now);
      } else {
        BeforeRises(j, k, p);
        UntouchedEntry(size, cache, after, clock, order, recent, p, Before(j, p), c, now);
        assert UsedLater(cache, order, Before(j, p), Before(k, p));
      }
    }
  }

  lemma {:induction false} NewestEntry(cache: map<nat, Entry>, after: map<nat, Entry>, slot: nat, c: Cursor, now: nat)
    requires Entered(cache, after, slot, c, now)
    ensures slot in after && after[slot].lastUsed == now
  {
    hide WellFormed;
  }

  lemma {:induction false} UntouchedEntry(size: nat, cache: map<nat, Entry>, after: map<nat, Entry>, clock: nat,
          order: seq<nat>, recent: seq<Cursor>, p: nat, b: nat, c: Cursor, now: nat)
    requires Held(size, cache, clock, order, recent) && Distinct(order) && p < |order| && b < |order| && b != p
        && now > clock
    requires Entered(cache, after, order[p], c, now)
    ensures order[b] in cache && order[b] in after && after[order[b]] == cache[order[b]]
        && cache[order[b]].lastUsed < now
  {
    hide WellFormed;
    assert order[b] != order[p];
  }

  lemma {:induction false} BeforeRises(j: nat, k: nat, p: nat)
    requires 0 < j < k
    ensures Before(j, p) < Before(k, p)
  {
  }

  lemma {:induction false} MovedHeld(size: nat, cache: map<nat, Entry>, after: map<nat, Entry>, clock: nat,
          order: seq<nat>, order1: seq<nat>, recent: seq<Cursor>, recent1: seq<Cursor>, p: nat, now: nat)
    requires Held(size, cache, clock, order, recent) && now > clock
    requires Moved(order, order1, p) && Moved(recent, recent1, p) && Distinct(order)
    requires Entered(cache, after, order[p], recent[p], now)
    ensures Held(size, after, now, order1, recent1)
  {
    hide WellFormed, Before, Moved;
    MovedLength(order, order1, p);
    MovedLength(recent, recent1, p);
    forall k | 0 <= k < |order1|
      ensures order1[k] in after && order1[k] < size && after[order1[k]].cursor == recent1[k]
          && after[order1[k]].lastUsed <= now
    {
      MovedFrom(order, order1, p, k);
      MovedFrom(recent, recent1, p, k);
    }
  }

  lemma {:induction false} MovedLength<T>(s: seq<T>, t: seq<T>, p: nat)
    requires Moved(s, t, p)
    ensures p < |t| == |s|
  {
  }

  lemma {:induction false} MovedLru(size: nat, cache: map<nat, Entry>, after: map<nat, Entry>, clock: nat,
          order: seq<nat>, order1: seq<nat>, recent: seq<Cursor>, recent1: seq<Cursor>, p: nat, now: nat)
    requires LruOk(size, cache, clock, order, recent) && now > clock
    requires Moved(order, order1, p) && Moved(recent, recent1, p) && Distinct(order)
    requires Entered(cache, after, order[p], recent[p], now)
    ensures LruOk(size, after, now, order1, recent1)
  {
    hide WellFormed, Listed, Held, Falling;
    MovedListed(cache, after, order, order1, p);
    MovedHeld(size, cache, after, clock, order, order1, recent, recent1, p, now);
    MovedFalling(size, cache, after, clock, order, order1, recent, p, recent[p], now);
  }

  lemma {:induction false} FreeKeepsLru(size: nat, cache: map<nat, Entry>, after: map<nat, Entry>, clock: nat,
          order: seq<nat>, recent: seq<Cursor>, slot: nat, c: Cursor, now: nat)
    requires LruOk(size, cache, clock, order, recent) && Distinct(recent) && |cache| < size && now > clock
    requires slot < size && slot !in cache && Entered(cache, after, slot, c, now)
    requires forall id :: id in cache ==> cache[id].cursor != c
    ensures LruOk(size, after, now, ToFront(order, slot), ToFront(recent, c))
  {
    hide WellFormed, ToFront, Without, Distinct;
    CacheCount(size, cache, clock, order, recent);
    ToFrontAdds(order, slot);
    ToFrontAdds(recent, c);
    AddedLru(size, cache, after, clock, order, recent, slot, c, now);
  }

  lemma {:induction false} AddedLru(size: nat, cache: map<nat, Entry>, after: map<nat, Entry>, clock: nat,
          order: seq<nat>, recent: seq<Cursor>, slot: nat, c: Cursor, now: nat)
    requires LruOk(size, cache, clock, order, recent) && |order| == |recent| < size && now > clock
    requires slot < size && slot !in cache && Entered(cache, after, slot, c, now)
    ensures LruOk(size, after, now, [slot] + order, [c] + recent)
  {
    hide WellFormed;
    var order1, recent1 := [slot] + order, [c] + recent;
    assert forall k :: 0 < k < |order1| ==> order1[k] == order[k - 1] && recent1[k] == recent[k - 1];
    forall j, k | 0 <= j < k < |order1| ensures UsedLater(after, order1, j, k) {
      if j > 0 { assert UsedLater(cache, order, j - 1, k - 1); }
    }
  }

  lemma {:induction false} EvictKeepsLru(size: nat, cache: map<nat, Entry>, after: map<nat, Entry>, clock: nat,
          order: seq<nat>, recent: seq<Cursor>, slot: nat, c: Cursor, now: nat)
    requires LruOk(size, cache, clock, order, recent) && Distinct(recent) && |cache| >= size && now > clock
    requires Oldest(cache, slot) && Entered(cache, after, slot, c, now)
    requires forall id :: id in cache ==> cache[id].cursor != c
    ensures LruOk(size, after, now, ToFront(order, slot), ToFront(recent, c))
  {
    hide WellFormed, ToFront, Without, Distinct;
    CacheCount(size, cache, clock, order, recent);
    OldestIsLast(size, cache, clock, order, recent, slot);
    var n := |order|;
    ToFrontMoves(order, n - 1);
    TailDropped(recent, c, n);
    ReplacedLru(size, cache, after, clock, order, ToFront(order, slot), recent, ToFront(recent, c), c, now);
  }

  lemma {:induction false} ReplacedHeld(size: nat, cache: map<nat, Entry>, after: map<nat, Entry>, clock: nat,
          order: seq<nat>, order1: seq<nat>, recent: seq<Cursor>, recent1: seq<Cursor>, c: Cursor, now: nat)
    requires Held(size, cache, clock, order, recent) && Distinct(order) && 0 < |order| == size && now > clock
    requires Moved(order, order1, size - 1) && Shifted(recent, recent1, c, size)
    requires Entered(cache, after, order[size - 1], c, now)
    ensures Held(size, after, now, order1, recent1)
  {
    hide WellFormed;
    forall k | 0 <= k < |order1|
      ensures order1[k] in after && order1[k] < size && after[order1[k]].cursor == recent1[k]
          && after[order1[k]].lastUsed <= now
    {
      if k > 0 { assert order1[k] == order[k - 1] && recent1[k] == recent[k - 1]; }
    }
  }

  lemma {:induction false} ReplacedLru(size: nat, cache: map<nat, Entry>, after: map<nat, Entry>, clock: nat,
          order: seq<nat>, order1: seq<nat>, recent: seq<Cursor>, recent1: seq<Cursor>, c: Cursor, now: nat)
    requires LruOk(size, cache, clock, order, recent) && Distinct(order) && 0 < |order| == size && now > clock
    requires Moved(order, order1, size - 1) && Shifted(recent, recent1, c, size)
    requires Entered(cache, after, order[size - 1], c, now)
    ensures LruOk(size, after, now, order1, recent1)
  {
    hide WellFormed, Listed, Held, Falling;
    MovedListed(cache, after, order, order1, size - 1);
    ReplacedHeld(size, cache, after, clock, order, order1, recent, recent1, c, now);
    MovedFalling(size, cache, after, clock, order, order1, recent, size - 1, c, now);
  }

  /** `t` starts with `c` and then the first n - 1 elements of `s`. */
  ghost predicate Shifted(s: seq<Cursor>, t: seq<Cursor>, c: Cursor, n: nat) {
    0 < n <= |s| && |t| >= n && t[0] == c && forall k :: 0 < k < n ==> t[k] == s[k - 1]
  }

  lemma {:induction false} TailDropped(recent: seq<Cursor>, c: Cursor, n: nat)
    requires Distinct(recent) && 0 < n <= |recent| && forall k :: 0 <= k < n ==> recent[k] != c
    ensures Shifted(recent, ToFront(recent, c), c, n)
  {
    hide WellFormed, ToFront, Without;
    if c in recent {
      var p :| 0 <= p < |recent| && recent[p] == c;
      ToFrontMoves(recent, p);
    } else {
      ToFrontAdds(recent, c);
    }
  }
}
