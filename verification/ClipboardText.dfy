/** CF_UNICODETEXT: what the channel sends for a text, what it makes of a payload, and exactly which
    texts survive the trip. */
module ClipboardText {
  import opened Basics
  import opened ClipboardDescriptor

  const CR: Unit := 13
  const LF: Unit := 10

  predicate HasCrLf(t: Name) {
    exists k :: 0 <= k < |t| - 1 && t[k] == CR && t[k + 1] == LF
  }

  /** Every LF becomes CR LF. */
  function Expand(t: Name): Name {
    if t == [] then [] else (if t[0] == LF then [CR, LF] else [t[0]]) + Expand(t[1..])
  }

  /** Every CR LF becomes LF, left to right. */
  function Collapse(t: Name): Name {
    if t == [] then []
    else if t[0] == CR && |t| > 1 && t[1] == LF then [LF] + Collapse(t[2..])
    else [t[0]] + Collapse(t[1..])
  }

  function Chop(t: Name): Name {
    if t == [] || t[|t| - 1] != 0 then t else Chop(t[..|t| - 1])
  }

  function ToSend(t: Name): Name {
    if HasCrLf(t) then t else Expand(t)
  }

  /** The reply to a CF_UNICODETEXT request: the text and a terminating NUL. */
  function TextPayload(t: Name): Bytes {
    Words(ToSend(t) + [0])
  }

  /** What the channel makes of a decoded text, in whatever format it came. */
  function Received(decoded: Name): Name {
    Collapse(Chop(decoded))
  }

  /** The same for a CF_UNICODETEXT payload. */
  function ReceivedText(data: Bytes): Name {
    Received(FromUtf16(UnitsFrom(data, 0)))
  }

  /** The receive conversion, with the program's loop over trailing NULs. */
  method ReceiveText(decoded: Name) returns (text: Name)
    ensures text == Received(decoded)
  {
    text := decoded;
    while text != [] && text[|text| - 1] == 0
      invariant Chop(text) == Chop(decoded)
      decreases |text|
    {
      text := text[..|text| - 1];
    }
    text := Collapse(text);
  }

  lemma {:induction false} ExpandSnoc(t: Name, u: Unit)
    ensures Expand(t + [u]) == Expand(t) + (if u == LF then [CR, LF] else [u])
  {
    if t == [] {
      assert [u][1..] == [];
    } else {
      assert (t + [u])[1..] == t[1..] + [u];
      ExpandSnoc(t[1..], u);
    }
  }

  lemma {:induction false} WordsSnoc(us: Name, u: Unit)
    ensures Words(us + [u]) == Words(us) + Word(u)
  {
    hide Word;
    if us == [] {
      assert [u][1..] == [];
    } else {
      assert (us + [u])[1..] == us[1..] + [u];
      WordsSnoc(us[1..], u);
    }
  }

  method ContainsCrLf(t: Name) returns (found: bool)
    ensures found == HasCrLf(t)
  {
    for i := 0 to |t|
      invariant forall k :: 0 <= k < i && k < |t| - 1 ==> !(t[k] == CR && t[k + 1] == LF)
    {
      if i < |t| - 1 && t[i] == CR && t[i + 1] == LF { return true; }
    }
    return false;
  }

  /** The send conversion: every LF expanded unless the text has a CR LF already, a NUL appended, the
      units laid out in bytes. */
  method SendText(text: Name) returns (data: Bytes)
    ensures data == TextPayload(text)
  {
    hide Expand, Words, Word, HasCrLf;
    var textToSend := text;
    var found := ContainsCrLf(text);
    if !found {
      textToSend := [];
      assert Expand([]) == [] by { ExpandNothing(); }
      for i := 0 to |text|
        invariant textToSend == Expand(text[..i])
      {
        ExpandSnoc(text[..i], text[i]);
        assert text[..i + 1] == text[..i] + [text[i]];
        textToSend := textToSend + (if text[i] == LF then [CR, LF] else [text[i]]);
      }
      assert text[..|text|] == text;
    }
    var units := textToSend + [0];
    data := [];
    assert Words([]) == [] by { WordsOfNothing(); }
    for i := 0 to |units|
      invariant data == Words(units[..i])
    {
      WordsSnoc(units[..i], units[i]);
      assert units[..i + 1] == units[..i] + [units[i]];
      data := data + Word(units[i]);
    }
    assert units[..|units|] == units;
  }

  lemma {:induction false} ExpandNothing()
    ensures Expand([]) == []
  {
  }

  lemma {:induction false} WordsOfNothing()
    ensures Words([]) == []
  {
  }

  lemma {:induction false} UnitsReadBack(data: Bytes, at: nat, us: Name)
    requires at <= |data| && data[at..] == Words(us)
    ensures UnitsFrom(data, at) == us
    decreases |us|
  {
    if us != [] {
      assert data[at..][..2] == Word(us[0]) && data[at..][2..] == Words(us[1..]);
      assert data[at] == data[at..][0] && data[at + 1] == data[at..][1];
      WordReadsBack(us[0]);
      assert data[at + 2..] == data[at..][2..];
      UnitsReadBack(data, at + 2, us[1..]);
    }
  }

  lemma {:induction false} NoCrLfTail(t: Name)
    requires t != [] && !HasCrLf(t)
    ensures !HasCrLf(t[1..]) && (t[0] == CR && |t| > 1 ==> t[1] != LF)
  {
    var tail := t[1..];
    forall k | 0 <= k < |tail| - 1 ensures !(tail[k] == CR && tail[k + 1] == LF) {
      assert !(t[k + 1] == CR && t[(k + 1) + 1] == LF);
    }
    assert |t| > 1 ==> !(t[0] == CR && t[0 + 1] == LF);
  }

  /** Without CR LF, expanding and collapsing are inverse, and collapsing alone changes nothing. */
  lemma {:induction false} CollapseUndoesExpand(t: Name)
    requires !HasCrLf(t)
    ensures Collapse(Expand(t)) == t && Collapse(t) == t
    ensures t != [] && t[0] != LF ==> Expand(t) != [] && Expand(t)[0] == t[0]
  {
    if t != [] {
      NoCrLfTail(t);
      CollapseUndoesExpand(t[1..]);
      var rest := Expand(t[1..]);
      if t[0] == LF {
        assert ([CR, LF] + rest)[2..] == rest;
      } else {
        assert ([t[0]] + rest)[1..] == rest;
        assert rest != [] ==> t[1..] != [];
      }
    }
  }

  /** What CR LF is turned into is LF, wherever it stands, and nothing else is changed: with
      `CollapseUndoesExpand` this determines the result. */
  lemma {:induction false} CollapseSplits(a: Name, b: Name)
    ensures Collapse(a + [CR, LF] + b) == Collapse(a) + [LF] + Collapse(b)
    decreases |a|
  {
    var t := a + [CR, LF] + b;
    if a == [] {
      assert t[2..] == b;
    } else if a[0] == CR && |a| > 1 && a[1] == LF {
      assert t[2..] == a[2..] + [CR, LF] + b;
      CollapseSplits(a[2..], b);
    } else {
      assert t[1..] == a[1..] + [CR, LF] + b;
      assert t[0] == CR ==> t[1] != LF;
      CollapseSplits(a[1..], b);
    }
  }

  /** The longest part that does not end in NUL. */
  lemma {:induction false} ChopMeans(t: Name)
    ensures Chop(t) <= t && (Chop(t) != [] ==> Chop(t)[|Chop(t)| - 1] != 0)
    ensures forall k :: |Chop(t)| <= k < |t| ==> t[k] == 0
  {
    if t != [] && t[|t| - 1] == 0 { ChopMeans(t[..|t| - 1]); }
  }

  /** A line feed that follows no carriage return. */
  predicate LoneLf(t: Name, k: nat)
    requires k < |t|
  {
    t[k] == LF && (k == 0 || t[k - 1] != CR)
  }

  lemma {:induction false} ExpandNoLone(t: Name, k: nat)
    requires k < |Expand(t)|
    ensures !LoneLf(Expand(t), k)
  {
    if t != [] {
      var first := if t[0] == LF then [CR, LF] else [t[0]];
      if k >= |first| {
        ExpandNoLone(t[1..], k - |first|);
        assert Expand(t)[k] == Expand(t[1..])[k - |first|];
        assert k > |first| ==> Expand(t)[k - 1] == Expand(t[1..])[k - 1 - |first|];
        if k == |first| && |t| > 1 && t[1] == LF { assert Expand(t[1..])[0] == CR; }
      }
    }
  }

  /** What goes on the wire: the units end in a NUL; a text with a CR LF is sent as it is; any other is
      sent without a lone line feed, and taking the added carriage returns away gives it back. */
  lemma {:induction false} SentUnits(t: Name)
    ensures var sent := UnitsFrom(TextPayload(t), 0);
            && |TextPayload(t)| % 2 == 0 && sent != [] && sent[|sent| - 1] == 0
            && (HasCrLf(t) ==> sent == t + [0])
            && (!HasCrLf(t) ==> Collapse(sent) == t + [0] && forall k :: 0 <= k < |sent| ==> !LoneLf(sent, k))
  {
    hide Expand, Collapse, Words, HasCrLf;
    assert TextPayload(t)[0..] == TextPayload(t);
    UnitsReadBack(TextPayload(t), 0, ToSend(t) + [0]);
    if !HasCrLf(t) {
      var sent := Expand(t) + [0];
      CollapseUndoesExpand(t);
      CollapseSnocNul(Expand(t));
      forall k | 0 <= k < |sent| ensures !LoneLf(sent, k) {
        if k < |Expand(t)| { ExpandNoLone(t, k); }
      }
    }
  }

  lemma {:induction false} CollapseSent(t: Name)
    ensures Collapse(ToSend(t)) == Collapse(t)
  {
    if !HasCrLf(t) { CollapseUndoesExpand(t); }
  }

  lemma {:induction false} CollapseSnocNul(t: Name)
    ensures Collapse(t + [0]) == Collapse(t) + [0]
    decreases |t|
  {
    if t != [] {
      if t[0] == CR && |t| > 1 && t[1] == LF {
        assert (t + [0])[2..] == t[2..] + [0];
        CollapseSnocNul(t[2..]);
      } else {
        assert (t + [0])[1..] == t[1..] + [0];
        CollapseSnocNul(t[1..]);
      }
    } else {
      assert (t + [0])[1..] == [];
    }
  }

  lemma {:induction false} CollapseKeepsLast(t: Name)
    requires t != []
    ensures Collapse(t) != [] && Collapse(t)[|Collapse(t)| - 1] == t[|t| - 1]
    decreases |t|
  {
    if t[0] == CR && |t| > 1 && t[1] == LF {
      if |t| > 2 { CollapseKeepsLast(t[2..]); }
    } else if |t| > 1 {
      CollapseKeepsLast(t[1..]);
    }
  }

  lemma {:induction false} ChopCommutes(t: Name)
    ensures Collapse(Chop(t)) == Chop(Collapse(t))
    decreases |t|
  {
    if t != [] {
      CollapseKeepsLast(t);
      if t[|t| - 1] == 0 {
        var init := t[..|t| - 1];
        assert t == init + [0];
        CollapseSnocNul(init);
        ChopCommutes(init);
        assert Collapse(t)[..|Collapse(t)| - 1] == Collapse(init);
      }
    }
  }

  lemma {:induction false} ChopShortens(t: Name)
    ensures |Chop(t)| <= |t| && Chop(t) == t[..|Chop(t)|]
    ensures Chop(t) == t <==> t == [] || t[|t| - 1] != 0
    ensures Chop(t + [0]) == Chop(t)
    decreases |t|
  {
    assert (t + [0])[..|t|] == t;
    if t != [] && t[|t| - 1] == 0 { ChopShortens(t[..|t| - 1]); }
  }

  lemma {:induction false} ChopTail(t: Name)
    requires t != [] && t[0] != 0
    ensures Chop(t) != [] && Chop(t)[0] == t[0] && Chop(t)[1..] == Chop(t[1..])
    decreases |t|
  {
    if t[|t| - 1] == 0 {
      ChopTail(t[..|t| - 1]);
      assert t[..|t| - 1][1..] == t[1..][..|t| - 2];
    }
  }

  predicate Mark(u: Unit) {
    u == 0xFEFF || u == 0xFFFE
  }

  lemma {:induction false} SwapTail(b: Name)
    requires b != []
    ensures SwapAll(b)[1..] == SwapAll(b[1..])
  {
    hide SwapBytes;
  }

  /** Byte-swapping everything after a mark never gives the text back. */
  lemma {:induction false} SwappedDiffers(x: Unit, b: Name)
    requires Mark(x)
    ensures Collapse(Chop(SwapAll(b))) != [x] + Collapse(b)
    decreases |b|
  {
    var c := SwapAll(b);
    var d := Chop(c);
    ChopShortens(c);
    var whole := [x] + Collapse(b);
    assert whole[0] == x && whole[1..] == Collapse(b);
    if d == [] {
      assert Collapse(d) == [];
    } else if d[0] == CR && |d| > 1 && d[1] == LF {
      assert Collapse(d)[0] == LF;
    } else if d[0] != x {
      assert Collapse(d)[0] == d[0];
    } else {
      assert c[0] == x && b[0] == SwapBytes(x) by { assert SwapBytes(SwapBytes(b[0])) == b[0]; }
      ChopTail(c);
      SwapTail(b);
      SwappedDiffers(b[0], b[1..]);
      assert Collapse(d)[1..] == Collapse(d[1..]);
    }
  }

  /** Text round trip: the receiving side gets the text with CR LF turned into LF exactly when the
      text is empty, or neither ends in NUL nor starts with a byte order mark. */
  lemma {:induction false} TextRoundTripIff(t: Name)
    ensures ReceivedText(TextPayload(t)) == Collapse(t) <==>
              t == [] || (t[|t| - 1] != 0 && t[0] != 0xFEFF && t[0] != 0xFFFE)
  {
    var sent := ToSend(t);
    UnitsReadBack(TextPayload(t), 0, sent + [0]);
    assert TextPayload(t)[0..] == TextPayload(t);
    CollapseSent(t);
    if t == [] {
      assert sent + [0] == [0] && FromUtf16([0]) == [0] && Chop([0]) == Chop([]) by { ChopShortens([]); }
    } else {
      SentEnds(t);
      if !Mark(t[0]) {
        ChopShortens(sent);
        ChopCommutes(sent);
        ChopShortens(Collapse(sent));
        CollapseKeepsLast(sent);
      } else {
        MarkedTextDiffers(sent);
      }
    }
  }

  lemma {:induction false} SentEnds(t: Name)
    requires t != []
    ensures var s := ToSend(t);
            && s != [] && s[|s| - 1] == t[|t| - 1]
            && (Mark(s[0]) <==> Mark(t[0])) && (Mark(t[0]) ==> s[0] == t[0])
    ensures (ToSend(t) + [0])[0] == ToSend(t)[0]
  {
    if !HasCrLf(t) { ExpandEnds(t); }
  }

  lemma {:induction false} ExpandEnds(t: Name)
    requires t != []
    ensures var s := Expand(t); s != [] && s[|s| - 1] == t[|t| - 1] && s[0] == if t[0] == LF then CR else t[0]
  {
    if |t| > 1 { ExpandEnds(t[1..]); }
  }

  lemma {:induction false} MarkedTextDiffers(s: Name)
    requires s != [] && Mark(s[0])
    ensures Collapse(Chop(FromUtf16(s + [0]))) != Collapse(s)
  {
    var b := s[1..];
    assert Collapse(s) == [s[0]] + Collapse(b);
    assert (s + [0])[1..] == b + [0];
    if s[0] == 0xFEFF {
      ChopShortens(b);
      ChopCommutes(b);
      ChopShortens(Collapse(b));
    } else {
      assert SwapAll(b + [0]) == SwapAll(b) + [0];
      ChopShortens(SwapAll(b));
      SwappedDiffers(s[0], b);
    }
  }

  /** Texts without CR LF arrive unchanged, lone CRs included. */
  lemma {:induction false} TextUnchanged(t: Name)
    requires !HasCrLf(t) && (t != [] ==> t[|t| - 1] != 0 && t[0] != 0xFEFF && t[0] != 0xFFFE)
    ensures ReceivedText(TextPayload(t)) == t
  {
    TextRoundTripIff(t);
    CollapseUndoesExpand(t);
  }
}
