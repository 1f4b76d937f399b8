/** The stateful UTF-16 keyboard decoder (RFC 2781 section 2.2). */
module UnicodeKeyboard {
  import opened Basics

  /** A keyboard event carries one UTF-16 code unit. */
  datatype Key = Key(code: Unit, release: bool)

  /** What is passed on for keysym lookup. */
  datatype Stroke = Stroke(codepoint: nat, release: bool)

  predicate IsHigh(u: Unit) { 0xD800 <= u <= 0xDBFF }

  predicate IsLow(u: Unit) { 0xDC00 <= u <= 0xDFFF }

  function Combined(high: Unit, low: Unit): (c: nat)
    requires IsHigh(high) && IsLow(low)
    ensures 0x10000 <= c <= 0x10FFFF
  {
    0x10000 + (high - 0xD800) * 1024 + (low - 0xDC00)
  }

  /** Nothing is passed on for the code point zero. */
  function Passed(codepoint: nat, release: bool): seq<Stroke> {
    if codepoint == 0 then [] else [Stroke(codepoint, release)]
  }

  // What a stream of units means, unit by unit, without a decoder state.

  /** What the event at position `i` completes: a unit outside the surrogates by itself, a low
      surrogate together with a high one right before it. */
  function CompletedAt(keys: seq<Key>, i: nat): seq<Stroke>
    requires i < |keys|
  {
    var u := keys[i].code;
    if IsHigh(u) then []
    else if !IsLow(u) then Passed(u, keys[i].release)
    else if i > 0 && IsHigh(keys[i - 1].code) then Passed(Combined(keys[i - 1].code, u), keys[i].release)
    else []
  }

  function Scalars(keys: seq<Key>): seq<Stroke> {
    if keys == [] then [] else Scalars(keys[..|keys| - 1]) + CompletedAt(keys, |keys| - 1)
  }

  lemma {:induction false} ScalarsSnoc(keys: seq<Key>, k: Key)
    ensures Scalars(keys + [k]) == Scalars(keys) + CompletedAt(keys + [k], |keys|)
  {
    assert (keys + [k])[..|keys|] == keys;
  }

  /** The buffered surrogate of the decoder is a high one exactly when the last event was. */
  ghost predicate Buffers(highSurrogate: Unit, keys: seq<Key>) {
    if keys != [] && IsHigh(keys[|keys| - 1].code) then highSurrogate == keys[|keys| - 1].code
        else !IsHigh(highSurrogate)
  }

  class Decoder {
    var highSurrogate: Unit
    ghost var keys: seq<Key>
    ghost var strokes: seq<Stroke>

    ghost predicate Valid()
      reads this
    {
      Buffers(highSurrogate, keys) && strokes == Scalars(keys)
    }

    constructor ()
      ensures Valid() && keys == [] && strokes == []
    {
      highSurrogate, keys, strokes := 0, [], [];
    }

    /** Over any stream of events the strokes passed on are exactly the stream's well-formed nonzero
        scalars, in order, each with the flag of the event that completed it. */
    method PeerUnicodeKeyboardEvent(code: Unit, release: bool) returns (passed: Option<Stroke>)
      requires Valid()
      modifies this
      ensures Valid() && keys == old(keys) + [Key(code, release)]
      ensures strokes == old(strokes) + (if passed.Some? then [passed.value] else [])
    {
      hide Scalars, Combined;
      ScalarsSnoc(keys, Key(code, release));
      keys := keys + [Key(code, release)];
      var codepoint := 0;
      if 0xD800 <= code <= 0xDBFF {
        highSurrogate := code;
        return None;
      } else if 0xDC00 <= code <= 0xDFFF {
        if 0xD800 <= highSurrogate <= 0xDBFF {
          codepoint := Combined(highSurrogate, code);
          highSurrogate := 0;
        } else {
          highSurrogate := 0;
          return None;
        }
      } else {
        highSurrogate := 0;
        codepoint := code;
      }
      if codepoint == 0 { return None; }
      strokes := strokes + [Stroke(codepoint, release)];
      return Some(Stroke(codepoint, release));
    }
  }

  // Encoding.

  predicate IsScalar(c: nat) {
    c < 0xD800 || 0xE000 <= c <= 0x10FFFF
  }

  type Scalar = c: nat | IsScalar(c)

  function Units(c: Scalar): (us: seq<Unit>)
    ensures 1 <= |us| <= 2
  {
    if c < 0x10000 then [c]
    else
      assert IsScalar(c);
      var high: Unit, low: Unit := 0xD800 + (c - 0x10000) / 1024, 0xDC00 + (c - 0x10000) % 1024;
      [high, low]
  }

  function Encode(cs: seq<Scalar>): seq<Unit> {
    if cs == [] then [] else Encode(cs[..|cs| - 1]) + Units(cs[|cs| - 1])
  }

  /** Units that are all pressed, or all released. */
  function Sent(us: seq<Unit>, release: bool): (ks: seq<Key>)
    ensures |ks| == |us| && forall i :: 0 <= i < |us| ==> ks[i] == Key(us[i], release)
  {
    seq(|us|, i requires 0 <= i < |us| => Key(us[i], release))
  }

  function Strokes(cs: seq<Scalar>, release: bool): (r: seq<Stroke>)
    ensures |r| == |cs| && forall i :: 0 <= i < |cs| ==> r[i] == Stroke(cs[i], release)
  {
    seq(|cs|, i requires 0 <= i < |cs| => Stroke(cs[i], release))
  }

  lemma {:induction false} PairCombines(c: Scalar)
    requires c >= 0x10000
    ensures |Units(c)| == 2 && IsHigh(Units(c)[0]) && IsLow(Units(c)[1]) && Combined(Units(c)[0], Units(c)[1]) == c
  {
    assert IsScalar(c);
  }

  /** Keys that complete exactly the scalar `c` after anything. */
  lemma {:induction false} OneScalar(keys: seq<Key>, c: Scalar, release: bool)
    requires c != 0
    ensures Scalars(keys + Sent(Units(c), release)) == Scalars(keys) + [Stroke(c, release)]
  {
    hide Scalars, Combined;
    var us := Units(c);
    if c < 0x10000 {
      assert IsScalar(c);
      assert Sent(us, release) == [Key(us[0], release)];
      ScalarsSnoc(keys, Key(us[0], release));
    } else {
      PairCombines(c);
      var k0, k1 := Key(us[0], release), Key(us[1], release);
      assert keys + Sent(us, release) == (keys + [k0]) + [k1];
      ScalarsSnoc(keys, k0);
      ScalarsSnoc(keys + [k0], k1);
    }
  }

  lemma {:induction false} SentAppend(a: seq<Unit>, b: seq<Unit>, release: bool)
    ensures Sent(a + b, release) == Sent(a, release) + Sent(b, release)
  {
  }

  lemma {:induction false} StrokesSnoc(cs: seq<Scalar>, c: Scalar, release: bool)
    ensures Strokes(cs + [c], release) == Strokes(cs, release) + [Stroke(c, release)]
  {
  }

  /** Decoding the units of any sequence of nonzero scalars, all pressed or all released, gives that
      sequence back. */
  lemma {:induction false} DecodeInvertsEncode(cs: seq<Scalar>, release: bool)
    requires 0 !in cs
    ensures Scalars(Sent(Encode(cs), release)) == Strokes(cs, release)
  {
    hide Units, Scalars, Sent, Strokes;
    if cs == [] {
      assert Scalars(Sent([], release)) == Strokes([], release) by { NothingTyped(release); }
    } else {
      var before, c := cs[..|cs| - 1], cs[|cs| - 1];
      assert cs == before + [c];
      DecodeInvertsEncode(before, release);
      OneScalar(Sent(Encode(before), release), c, release);
      SentAppend(Encode(before), Units(c), release);
      StrokesSnoc(before, c, release);
    }
  }

  lemma {:induction false} NothingTyped(release: bool)
    ensures Scalars(Sent([], release)) == Strokes([], release)
  {
  }

  /** Nothing but nonzero scalars is ever passed on. */
  lemma {:induction false} StrokesAreScalars(keys: seq<Key>)
    ensures forall s :: s in Scalars(keys) ==> IsScalar(s.codepoint) && s.codepoint != 0
  {
    if keys != [] { StrokesAreScalars(keys[..|keys| - 1]); }
  }

  /** A low surrogate without a high one right before it, or a high one without a low one right after. */
  predicate Unpaired(before: seq<Key>, k: Key, after: seq<Key>) {
    || (IsLow(k.code) && (before == [] || !IsHigh(before[|before| - 1].code)))
    || (IsHigh(k.code) && (after == [] || !IsLow(after[0].code)))
  }

  /** An unpaired surrogate makes no difference, wherever it stands. */
  lemma {:induction false} UnpairedDropped(before: seq<Key>, k: Key, after: seq<Key>)
    requires Unpaired(before, k, after)
    ensures Scalars(before + [k] + after) == Scalars(before + after)
    decreases |after|
  {
    hide Scalars, Combined;
    if after == [] {
      assert before + [k] + after == before + [k] && before + after == before;
      ScalarsSnoc(before, k);
    } else {
      var init, last := after[..|after| - 1], after[|after| - 1];
      UnpairedDropped(before, k, init);
      assert before + [k] + after == (before + [k] + init) + [last] && before + after == (before + init) + [last];
      ScalarsSnoc(before + [k] + init, last);
      ScalarsSnoc(before + init, last);
      SameCompletion(before + [k] + init, before + init, last);
    }
  }

  lemma {:induction false} SameCompletion(a: seq<Key>, b: seq<Key>, k: Key)
    requires IsLow(k.code) ==>
        (a != [] && IsHigh(a[|a| - 1].code) <==> b != [] && IsHigh(b[|b| - 1].code))
        && (a != [] && b != [] && IsHigh(a[|a| - 1].code) ==> a[|a| - 1].code == b[|b| - 1].code)
    ensures CompletedAt(a + [k], |a|) == CompletedAt(b + [k], |b|)
  {
  }

  /** A unit typed by itself: pressed, then released. */
  function Typed(u: Unit): seq<Key> {
    [Key(u, false), Key(u, true)]
  }

  function TypedUnits(us: seq<Unit>): seq<Key> {
    if us == [] then [] else TypedUnits(us[..|us| - 1]) + Typed(us[|us| - 1])
  }

  /** A scalar whose units are each pressed and released in turn is always passed on as pressed, but
      as released exactly when it is a single unit: the release of a low surrogate finds no high
      surrogate before it. */
  lemma {:induction false} ReleaseSeenIff(keys: seq<Key>, c: Scalar)
    requires c != 0
    ensures Scalars(keys + TypedUnits(Units(c))) ==
        Scalars(keys) + [Stroke(c, false)] + (if c < 0x10000 then [Stroke(c, true)] else [])
  {
    hide Scalars, Combined;
    var us := Units(c);
    var k0, r0 := Key(us[0], false), Key(us[0], true);
    ScalarsSnoc(keys, k0);
    ScalarsSnoc(keys + [k0], r0);
    if c < 0x10000 {
      assert IsScalar(c);
      assert us[..0] == [] && TypedUnits(us) == [k0, r0];
      assert keys + TypedUnits(us) == (keys + [k0]) + [r0];
    } else {
      PairCombines(c);
      var k1, r1 := Key(us[1], false), Key(us[1], true);
      assert us[..1][..0] == [] && TypedUnits(us[..1]) == [k0, r0] && TypedUnits(us) == [k0, r0, k1, r1];
      assert keys + TypedUnits(us) == (((keys + [k0]) + [r0]) + [k1]) + [r1];
      ScalarsSnoc(keys + [k0] + [r0], k1);
      ScalarsSnoc(keys + [k0] + [r0] + [k1], r1);
    }
  }
}
