/**
 The FileGroupDescriptorW payload ([MS-RDPECLIP] section 2.2.5.2.3), byte for byte: the builder that
 fills a zeroed buffer in place, the parser that walks it, and what the one makes of the other.
 */
module ClipboardDescriptor {
  import opened Basics

  datatype Entry = Entry(relativePath: Name, isDirectory: bool, fileSize: nat, mtimeMs: nat)

  datatype Parsed = Parsed(name: Name, fileSize: nat)

  const RECORD: nat := 592
  const SLASH: Unit := 47

  // Little-endian fields.

  function Word(n: nat): (r: Bytes)
    ensures |r| == 2
  {
    [n % 256, (n / 256) % 256]
  }

  function DWord(n: nat): (r: Bytes)
    ensures |r| == 4
  {
    [n % 256, (n / 256) % 256, (n / 65536) % 256, (n / 16777216) % 256]
  }

  function WordAt(s: Bytes, i: nat): Unit
    requires i + 2 <= |s|
  {
    s[i] as int + 256 * s[i + 1] as int
  }

  function DWordAt(s: Bytes, i: nat): nat
    requires i + 4 <= |s|
  {
    s[i] as int + 256 * s[i + 1] as int + 65536 * s[i + 2] as int + 16777216 * s[i + 3] as int
  }

  lemma {:induction false} WordReadsBack(n: nat)
    requires n < 0x1_0000
    ensures WordAt(Word(n), 0) == n
  {
  }

  lemma {:induction false} DWordReadsBack(n: nat)
    requires n < 0x1_0000_0000
    ensures DWordAt(DWord(n), 0) == n
  {
    assert n / 65536 == n / 256 / 256 && n / 16777216 == n / 65536 / 256;
    assert n == n % 256 + 256 * (n / 256);
    assert n / 256 == n / 256 % 256 + 256 * (n / 65536);
    assert n / 65536 == n / 65536 % 256 + 256 * (n / 16777216);
  }

  function Words(us: Name): (r: Bytes)
    ensures |r| == 2 * |us|
  {
    if us == [] then [] else Word(us[0]) + Words(us[1..])
  }

  /** Whole units from byte `i` to the end of the data. */
  function UnitsFrom(s: Bytes, i: nat): Name
    requires i <= |s|
    decreases |s| - i
  {
    if i + 2 > |s| then [] else [WordAt(s, i)] + UnitsFrom(s, i + 2)
  }

  function UntilNul(us: Name): Name {
    if us == [] || us[0] == 0 then [] else [us[0]] + UntilNul(us[1..])
  }

  function SwapBytes(u: Unit): Unit {
    (u % 256) * 256 + u / 256
  }

  function SwapAll(us: Name): (r: Name)
    ensures |r| == |us| && forall k :: 0 <= k < |us| ==> r[k] == SwapBytes(us[k])
  {
    seq(|us|, i requires 0 <= i < |us| => SwapBytes(us[i]))
  }

  /** Qt's decoder: a leading byte order mark is consumed, and a reversed one swaps the rest. */
  function FromUtf16(us: Name): Name {
    if us == [] then []
    else if us[0] == 0xFEFF then us[1..]
    else if us[0] == 0xFFFE then SwapAll(us[1..])
    else us
  }

  /** The part after the last slash. */
  function BaseName(us: Name): (r: Name)
    ensures |r| <= |us| && SLASH !in r
    ensures SLASH in us ==> |r| < |us|
    ensures SLASH !in us ==> r == us
  {
    if us == [] then []
    else if us[|us| - 1] == SLASH then []
    else BaseName(us[..|us| - 1]) + [us[|us| - 1]]
  }

  function Digits(n: nat): (r: Name)
    ensures r != [] && forall k :: 0 <= k < |r| ==> 48 <= r[k] <= 57
  {
    if n < 10 then [48 + n] else Digits(n / 10) + [48 + n % 10]
  }

  /** "clipboard_file_<i>" */
  function DefaultName(i: nat): Name {
    [99, 108, 105, 112, 98, 111, 97, 114, 100, 95, 102, 105, 108, 101, 95] + Digits(i)
  }

  function LocalName(i: nat, us: Name): Name {
    var base := BaseName(FromUtf16(us));
    if base == [] then DefaultName(i) else base
  }

  // The builder.

  function Splice(s: Bytes, i: nat, field: Bytes): (r: Bytes)
    requires i + |field| <= |s|
    ensures |r| == |s|
  {
    s[..i] + field + s[i + |field|..]
  }

  function Zeros(n: nat): (r: Bytes)
    ensures |r| == n
  {
    seq(n, _ => 0)
  }

  /** 100 ns ticks since 1601, in 64 bits. */
  function WinTime(mtimeMs: nat): nat {
    ((mtimeMs + 11644473600000) * 10000) % 0x1_0000_0000_0000_0000
  }

  function SentSize(e: Entry): nat {
    if e.isDirectory then 0 else e.fileSize
  }

  function SentName(e: Entry): (r: Name)
    ensures |r| <= 259
  {
    e.relativePath[..Min(|e.relativePath|, 259)]
  }

  /** One FILEDESCRIPTORW: dwFlags at 0, dwFileAttributes at 36, ftLastWriteTime at 56, nFileSizeHigh
      at 64, nFileSizeLow at 68, cFileName at 72; the rest zero. */
  function Record(e: Entry): (r: Bytes)
    ensures |r| == RECORD
  {
    var r0 := Splice(Zeros(RECORD), 0, DWord(0x64));
    var r1 := Splice(r0, 36, DWord(if e.isDirectory then 0x10 else 0x80));
    var r2 := Splice(r1, 68, DWord(SentSize(e) % 0x1_0000_0000));
    var r3 := Splice(r2, 64, DWord(SentSize(e) / 0x1_0000_0000));
    var r4 := Splice(r3, 56, DWord(WinTime(e.mtimeMs) % 0x1_0000_0000));
    var r5 := Splice(r4, 60, DWord(WinTime(e.mtimeMs) / 0x1_0000_0000));
    Splice(r5, 72, Words(SentName(e)))
  }

  function Records(es: seq<Entry>): (r: Bytes)
    ensures |r| == RECORD * |es|
  {
    if es == [] then [] else Records(es[..|es| - 1]) + Record(es[|es| - 1])
  }

  function Payload(es: seq<Entry>): Bytes {
    DWord(|es|) + Records(es)
  }

  method WriteField(buffer: array<Byte>, i: nat, field: Bytes)
    requires i + |field| <= buffer.Length
    modifies buffer
    ensures buffer[..] == Splice(old(buffer[..]), i, field)
  {
    for k := 0 to |field|
      invariant buffer[..] == old(buffer[..i]) + field[..k] + old(buffer[i + k..])
    {
      buffer[i + k] := field[k];
    }
  }

  lemma {:induction false} SpliceWithin(before: Bytes, r: Bytes, after: Bytes, i: nat, field: Bytes)
    requires i + |field| <= |r|
    ensures Splice(before + r + after, |before| + i, field) == before + Splice(r, i, field) + after
  {
  }

  /** Fills in one zeroed record in place, in the order the program writes the fields. */
  method WriteRecord(buffer: array<Byte>, at: nat, e: Entry)
    requires at + RECORD <= buffer.Length && buffer[at..at + RECORD] == Zeros(RECORD)
    modifies buffer
    ensures buffer[..] == old(buffer[..at]) + Record(e) + old(buffer[at + RECORD..])
  {
    hide DWord, Words, Splice, WinTime, SentSize, SentName;
    ghost var before, after := buffer[..at], buffer[at + RECORD..];
    ghost var r := Zeros(RECORD);
    assert buffer[..] == before + r + after;
    WriteField(buffer, at, DWord(0x64));
    SpliceWithin(before, r, after, 0, DWord(0x64));
    r := Splice(r, 0, DWord(0x64));
    var attributes := if e.isDirectory then 0x10 else 0x80;
    WriteField(buffer, at + 36, DWord(attributes));
    SpliceWithin(before, r, after, 36, DWord(attributes));
    r := Splice(r, 36, DWord(attributes));
    WriteField(buffer, at + 68, DWord(SentSize(e) % 0x1_0000_0000));
    SpliceWithin(before, r, after, 68, DWord(SentSize(e) % 0x1_0000_0000));
    r := Splice(r, 68, DWord(SentSize(e) % 0x1_0000_0000));
    WriteField(buffer, at + 64, DWord(SentSize(e) / 0x1_0000_0000));
    SpliceWithin(before, r, after, 64, DWord(SentSize(e) / 0x1_0000_0000));
    r := Splice(r, 64, DWord(SentSize(e) / 0x1_0000_0000));
    WriteField(buffer, at + 56, DWord(WinTime(e.mtimeMs) % 0x1_0000_0000));
    SpliceWithin(before, r, after, 56, DWord(WinTime(e.mtimeMs) % 0x1_0000_0000));
    r := Splice(r, 56, DWord(WinTime(e.mtimeMs) % 0x1_0000_0000));
    WriteField(buffer, at + 60, DWord(WinTime(e.mtimeMs) / 0x1_0000_0000));
    SpliceWithin(before, r, after, 60, DWord(WinTime(e.mtimeMs) / 0x1_0000_0000));
    r := Splice(r, 60, DWord(WinTime(e.mtimeMs) / 0x1_0000_0000));
    WriteField(buffer, at + 72, Words(SentName(e)));
    SpliceWithin(before, r, after, 72, Words(SentName(e)));
  }

  lemma {:induction false} ZerosAfter(front: Bytes, n: nat, m: nat)
    requires m <= n
    ensures var s := front + Zeros(n);
            && s[..|front|] == front
            && s[|front|..|front| + m] == Zeros(m)
            && s[|front| + m..] == Zeros(n - m)
  {
  }

  /** One more record, at the start of the zeros. */
  method AppendRecord(buffer: array<Byte>, at: nat, ghost front: Bytes, ghost rest: nat, e: Entry)
    requires at == |front| && RECORD <= rest && buffer[..] == front + Zeros(rest)
    modifies buffer
    ensures buffer[..] == front + Record(e) + Zeros(rest - RECORD)
  {
    hide Record, Zeros;
    ZerosAfter(front, rest, RECORD);
    assert buffer.Length == |buffer[..]|;
    assert buffer[at..at + RECORD] == buffer[..][at..at + RECORD];
    assert buffer[at + RECORD..] == buffer[..][at + RECORD..] && buffer[..at] == buffer[..][..at];
    WriteRecord(buffer, at, e);
  }

  lemma {:induction false} HeaderSpliced(header: Bytes, n: nat)
    ensures Splice(Zeros(|header| + n), 0, header) == header + Zeros(n)
  {
    assert Zeros(|header| + n)[|header|..] == Zeros(n);
  }

  /** The payload loop of `onHostClipboardFilesChanged`: a zeroed buffer, then record by record. */
  method BuildPayload(es: seq<Entry>) returns (buffer: array<Byte>)
    ensures fresh(buffer) && buffer[..] == Payload(es)
  {
    hide DWord, Record, Records, Zeros, Splice;
    buffer := new Byte[4 + RECORD * |es|](_ => 0);
    AllZeros(buffer[..]);
    HeaderSpliced(DWord(|es|), RECORD * |es|);
    WriteField(buffer, 0, DWord(|es|));
    ghost var front := DWord(|es|);
    NoRecords(es);
    for i := 0 to |es|
      invariant front == DWord(|es|) + Records(es[..i]) && buffer[..] == front + Zeros(RECORD * (|es| - i))
    {
      AppendRecord(buffer, 4 + RECORD * i, front, RECORD * (|es| - i), es[i]);
      RecordsSnoc(es, i);
      front := front + Record(es[i]);
    }
    assert es[..|es|] == es && Zeros(0) == [];
  }

  lemma {:induction false} AllZeros(s: Bytes)
    requires forall k :: 0 <= k < |s| ==> s[k] == 0
    ensures s == Zeros(|s|)
  {
  }

  lemma {:induction false} NoRecords(es: seq<Entry>)
    ensures Records(es[..0]) == []
  {
  }

  lemma {:induction false} RecordsSnoc(es: seq<Entry>, i: nat)
    requires i < |es|
    ensures Records(es[..i + 1]) == Records(es[..i]) + Record(es[i])
  {
    hide Record;
    assert es[..i + 1][..i] == es[..i];
  }

  // The parser.

  function ParseRecord(data: Bytes, i: nat): Parsed
    requires 4 + RECORD * (i + 1) <= |data|
  {
    var at := 4 + RECORD * i;
    Parsed(LocalName(i, UntilNul(UnitsFrom(data, at + 72))),
           DWordAt(data, at + 64) * 0x1_0000_0000 + DWordAt(data, at + 68))
  }

  /** How many records the parser takes from a payload that announces `announced`. */
  function RecordCount(announced: nat, length: nat): nat
    requires length >= 4
  {
    Min(announced, (length - 4) / RECORD)
  }

  /** The descriptor loop of `cliprdr_client_format_data_response`; None for a payload too short to
      hold the count. */
  method Parse(data: Bytes) returns (items: Option<seq<Parsed>>)
    ensures items.None? <==> |data| < 4
    ensures items.Some? ==>
              && |items.value| == RecordCount(DWordAt(data, 0), |data|)
              && forall i :: 0 <= i < |items.value| ==> items.value[i] == ParseRecord(data, i)
  {
    hide ParseRecord, DWordAt;
    if |data| < 4 { return None; }
    var announced := DWordAt(data, 0);
    var queued: seq<Parsed> := [];
    var i := 0;
    var at := 4;
    while i < announced
      invariant |queued| == i <= announced && at == 4 + RECORD * i <= |data|
      invariant forall k :: 0 <= k < i ==> queued[k] == ParseRecord(data, k)
      decreases announced - i
    {
      if at + RECORD > |data| { break; }
      queued := queued + [ParseRecord(data, i)];
      at := at + RECORD;
      i := i + 1;
    }
    return Some(queued);
  }

  // The round trip.

  lemma {:induction false} SpliceReads(s: Bytes, i: nat, field: Bytes)
    requires i + |field| <= |s|
    ensures Splice(s, i, field)[i..i + |field|] == field
  {
  }

  lemma {:induction false} SpliceElsewhere(s: Bytes, i: nat, field: Bytes, j: nat, n: nat)
    requires i + |field| <= |s| && j + n <= |s| && (j + n <= i || i + |field| <= j)
    ensures Splice(s, i, field)[j..j + n] == s[j..j + n]
  {
  }

  /** The three fields the parser reads, at their places, and the NUL after the name. */
  lemma {:induction false} RecordFields(e: Entry)
    ensures Record(e)[64..68] == DWord(SentSize(e) / 0x1_0000_0000)
    ensures Record(e)[68..72] == DWord(SentSize(e) % 0x1_0000_0000)
    ensures Record(e)[72..72 + 2 * |SentName(e)|] == Words(SentName(e))
    ensures Record(e)[72 + 2 * |SentName(e)|..74 + 2 * |SentName(e)|] == [0, 0]
  {
    hide DWord, Words, Splice, WinTime, SentSize, SentName;
    var n := 2 * |SentName(e)|;
    var s0 := Zeros(RECORD);
    var f1, f2, f3, f4, f5, f6, f7 := DWord(0x64), DWord(if e.isDirectory then 0x10 else 0x80),
        DWord(SentSize(e) % 0x1_0000_0000),
      DWord(SentSize(e) / 0x1_0000_0000), DWord(WinTime(e.mtimeMs) % 0x1_0000_0000),
          DWord(WinTime(e.mtimeMs) / 0x1_0000_0000), Words(SentName(e));
    var s1 := Splice(s0, 0, f1);
    var s2 := Splice(s1, 36, f2);
    var s3 := Splice(s2, 68, f3);
    var s4 := Splice(s3, 64, f4);
    var s5 := Splice(s4, 56, f5);
    var s6 := Splice(s5, 60, f6);
    SpliceReads(s2, 68, f3);
    SpliceElsewhere(s3, 64, f4, 68, 4);
    SpliceElsewhere(s4, 56, f5, 68, 4);
    SpliceElsewhere(s5, 60, f6, 68, 4);
    SpliceElsewhere(s6, 72, f7, 68, 4);
    SpliceReads(s3, 64, f4);
    SpliceElsewhere(s4, 56, f5, 64, 4);
    SpliceElsewhere(s5, 60, f6, 64, 4);
    SpliceElsewhere(s6, 72, f7, 64, 4);
    SpliceReads(s6, 72, f7);
    SpliceElsewhere(s0, 0, f1, 72 + n, 2);
    SpliceElsewhere(s1, 36, f2, 72 + n, 2);
    SpliceElsewhere(s2, 68, f3, 72 + n, 2);
    SpliceElsewhere(s3, 64, f4, 72 + n, 2);
    SpliceElsewhere(s4, 56, f5, 72 + n, 2);
    SpliceElsewhere(s5, 60, f6, 72 + n, 2);
    SpliceElsewhere(s6, 72, f7, 72 + n, 2);
    assert s0[72 + n..74 + n] == [0, 0];
  }

  /** The other fields of a record. */
  lemma {:induction false} RecordMetadata(e: Entry)
    ensures Record(e)[0..4] == DWord(0x64)
    ensures Record(e)[36..40] == DWord(if e.isDirectory then 0x10 else 0x80)
    ensures Record(e)[56..60] == DWord(WinTime(e.mtimeMs) % 0x1_0000_0000)
    ensures Record(e)[60..64] == DWord(WinTime(e.mtimeMs) / 0x1_0000_0000)
  {
    hide DWord, Words, Splice, WinTime, SentSize, SentName;
    var s0 := Zeros(RECORD);
    var f1, f2, f3, f4, f5, f6, f7 := DWord(0x64), DWord(if e.isDirectory then 0x10 else 0x80),
        DWord(SentSize(e) % 0x1_0000_0000), DWord(SentSize(e) / 0x1_0000_0000),
        DWord(WinTime(e.mtimeMs) % 0x1_0000_0000), DWord(WinTime(e.mtimeMs) / 0x1_0000_0000), Words(SentName(e));
    var s1 := Splice(s0, 0, f1);
    var s2 := Splice(s1, 36, f2);
    var s3 := Splice(s2, 68, f3);
    var s4 := Splice(s3, 64, f4);
    var s5 := Splice(s4, 56, f5);
    var s6 := Splice(s5, 60, f6);
    SpliceReads(s0, 0, f1);
    SpliceElsewhere(s1, 36, f2, 0, 4);
    SpliceElsewhere(s2, 68, f3, 0, 4);
    SpliceElsewhere(s3, 64, f4, 0, 4);
    SpliceElsewhere(s4, 56, f5, 0, 4);
    SpliceElsewhere(s5, 60, f6, 0, 4);
    SpliceElsewhere(s6, 72, f7, 0, 4);
    SpliceReads(s1, 36, f2);
    SpliceElsewhere(s2, 68, f3, 36, 4);
    SpliceElsewhere(s3, 64, f4, 36, 4);
    SpliceElsewhere(s4, 56, f5, 36, 4);
    SpliceElsewhere(s5, 60, f6, 36, 4);
    SpliceElsewhere(s6, 72, f7, 36, 4);
    SpliceReads(s4, 56, f5);
    SpliceElsewhere(s5, 60, f6, 56, 4);
    SpliceElsewhere(s6, 72, f7, 56, 4);
    SpliceReads(s5, 60, f6);
    SpliceElsewhere(s6, 72, f7, 60, 4);
  }

  lemma {:induction false} RecordsAt(es: seq<Entry>, i: nat)
    requires i < |es|
    ensures Records(es)[RECORD * i..RECORD * (i + 1)] == Record(es[i])
    decreases |es|
  {
    hide Record;
    var init := es[..|es| - 1];
    if i < |init| {
      RecordsAt(init, i);
      assert Records(es)[RECORD * i..RECORD * (i + 1)] == Records(init)[RECORD * i..RECORD * (i + 1)];
    }
  }

  lemma {:induction false} NameReads(data: Bytes, at: nat, us: Name)
    requires at + 2 * |us| + 2 <= |data|
    requires data[at..at + 2 * |us|] == Words(us) && data[at + 2 * |us|..at + 2 * |us| + 2] == [0, 0]
    ensures UntilNul(UnitsFrom(data, at)) == UntilNul(us)
    decreases |us|
  {
    if us == [] {
      assert data[at] == data[at..at + 2][0] && data[at + 1] == data[at..at + 2][1];
    } else {
      var head := data[at..at + 2 * |us|];
      assert head[..2] == Word(us[0]) && head[2..] == Words(us[1..]);
      assert data[at] == head[0] && data[at + 1] == head[1];
      WordReadsBack(us[0]);
      assert WordAt(data, at) == us[0];
      assert data[at + 2..at + 2 + 2 * |us[1..]|] == head[2..];
      NameReads(data, at + 2, us[1..]);
    }
  }

  lemma {:induction false} DWordMoves(data: Bytes, at: nat, record: Bytes, k: nat, n: nat)
    requires at + |record| <= |data| && data[at..at + |record|] == record && k + 4 <= |record|
    requires record[k..k + 4] == DWord(n) && n < 0x1_0000_0000
    ensures DWordAt(data, at + k) == n
  {
    DWordReadsBack(n);
    var field := record[k..k + 4];
    assert forall j {:trigger field[j]} :: 0 <= j < 4 ==>
        field[j] == record[k + j] == data[at..at + |record|][k + j] == data[at + (k + j)];
    assert field[0] == data[at + k] && field[1] == data[at + k + 1] && field[2] == data[at + k + 2]
        && field[3] == data[at + k + 3];
    assert DWordAt(data, at + k) == DWordAt(DWord(n), 0);
  }

  lemma {:induction false} PartOfPart(data: Bytes, at: nat, part: Bytes, i: nat, j: nat)
    requires at + |part| <= |data| && data[at..at + |part|] == part && i <= j <= |part|
    ensures data[at + i..at + j] == part[i..j]
  {
    var a := data[at + i..at + j];
    forall k | 0 <= k < |a| ensures a[k] == part[i..j][k] {
      assert data[at..at + |part|][i + k] == data[at + (i + k)];
    }
  }

  /** What the parser makes of any built payload: as many items as were built, with the 64-bit size
      sent and the name the receiving side derives from the units sent. */
  lemma {:induction false} BuiltPayloadParses(es: seq<Entry>, i: nat)
    requires i < |es| < 0x1_0000_0000 && es[i].fileSize < 0x1_0000_0000_0000_0000
    ensures |Payload(es)| == 4 + RECORD * |es| && RecordCount(DWordAt(Payload(es), 0), |Payload(es)|) == |es|
    ensures ParseRecord(Payload(es), i) == Parsed(LocalName(i, UntilNul(SentName(es[i]))), SentSize(es[i]))
  {
    hide Record, DWord, DWordAt, UnitsFrom, UntilNul, LocalName, Words, SentName;
    var data, e, at := Payload(es), es[i], 4 + RECORD * i;
    DWordMoves(data, 0, DWord(|es|), 0, |es|);
    var record, n := Record(e), |SentName(e)|;
    RecordsAt(es, i);
    RecordFields(e);
    assert data[at..at + RECORD] == record by {
      assert data[at..at + RECORD] == Records(es)[RECORD * i..RECORD * (i + 1)];
    }
    DWordMoves(data, at, record, 64, SentSize(e) / 0x1_0000_0000);
    DWordMoves(data, at, record, 68, SentSize(e) % 0x1_0000_0000);
    PartOfPart(data, at, record, 72, 72 + 2 * n);
    PartOfPart(data, at, record, 72 + 2 * n, 74 + 2 * n);
    NameReads(data, at + 72, SentName(e));
  }

  lemma {:induction false} WinTimeReads(mtimeMs: nat)
    requires (mtimeMs + 11644473600000) * 10000 < 0x1_0000_0000_0000_0000
    ensures WinTime(mtimeMs) % 10000 == 0 && WinTime(mtimeMs) / 10000 == mtimeMs + 11644473600000
  {
  }

  lemma {:induction false} TimeHalves(mtimeMs: nat)
    ensures WinTime(mtimeMs) / 0x1_0000_0000 < 0x1_0000_0000
  {
  }

  /** What the payload says about item i beside its size and name: that size, write time and attributes
      are stated (FD_FILESIZE, FD_WRITESTIME, FD_ATTRIBUTES), whether it is a directory, and its time of
      modification, in ticks of 100 ns since 1601, 11644473600 seconds before 1970. */
  lemma {:induction false} MetadataReadsBack(es: seq<Entry>, i: nat)
    requires i < |es| < 0x1_0000_0000
    ensures |Payload(es)| == 4 + RECORD * |es|
    ensures var data, at := Payload(es), 4 + 592 * i;
            var ticks := DWordAt(data, at + 60) * 0x1_0000_0000 + DWordAt(data, at + 56);
            && DWordAt(data, at) == 0x40 + 0x20 + 0x04
            && DWordAt(data, at + 36) == (if es[i].isDirectory then 0x10 else 0x80)
            && ((es[i].mtimeMs + 11644473600000) * 10000 < 0x1_0000_0000_0000_0000 ==>
                  ticks % 10000 == 0 && ticks / 10000 - 11644473600000 == es[i].mtimeMs)
  {
    hide Record, DWord, DWordAt, WinTime;
    var data, e, at := Payload(es), es[i], 4 + RECORD * i;
    var record := Record(e);
    RecordsAt(es, i);
    RecordMetadata(e);
    TimeHalves(e.mtimeMs);
    assert data[at..at + RECORD] == record by {
      assert data[at..at + RECORD] == Records(es)[RECORD * i..RECORD * (i + 1)];
    }
    DWordMoves(data, at, record, 0, 0x64);
    DWordMoves(data, at, record, 36, if e.isDirectory then 0x10 else 0x80);
    DWordMoves(data, at, record, 56, WinTime(e.mtimeMs) % 0x1_0000_0000);
    DWordMoves(data, at, record, 60, WinTime(e.mtimeMs) / 0x1_0000_0000);
    if (e.mtimeMs + 11644473600000) * 10000 < 0x1_0000_0000_0000_0000 { WinTimeReads(e.mtimeMs); }
  }

  /** Names the round trip keeps. */
  predicate Portable(us: Name) {
    us != [] && |us| <= 259 && 0 !in us && SLASH !in us && us[0] != 0xFEFF && us[0] != 0xFFFE
  }

  lemma {:induction false} UntilNulCuts(us: Name)
    ensures |UntilNul(us)| <= |us| && (0 in us ==> |UntilNul(us)| < |us|) && (0 !in us ==> UntilNul(us) == us)
    ensures us != [] && us[0] != 0 ==> UntilNul(us) != [] && UntilNul(us)[0] == us[0]
  {
    if us != [] { UntilNulCuts(us[1..]); }
  }

  lemma {:induction false} FromUtf16Cuts(us: Name)
    ensures |FromUtf16(us)| <= |us|
    ensures us != [] && (us[0] == 0xFEFF || us[0] == 0xFFFE) ==> |FromUtf16(us)| < |us|
    ensures us == [] || (us[0] != 0xFEFF && us[0] != 0xFFFE) ==> FromUtf16(us) == us
  {
  }

  /** A file name survives the trip exactly when it is portable: nonempty, at most 259 units, free of
      NUL and '/', and not starting with a byte order mark of either kind. */
  lemma {:induction false} NameKeptIff(e: Entry, i: nat)
    requires i < 0x1_0000_0000
    ensures LocalName(i, UntilNul(SentName(e))) == e.relativePath <==> Portable(e.relativePath)
  {
    var us := e.relativePath;
    var cut := UntilNul(SentName(e));
    UntilNulCuts(SentName(e));
    FromUtf16Cuts(cut);
    if Portable(us) {
      assert SentName(e) == us && cut == us;
    } else {
      DefaultNamePortable(i);
      if us != [] && |us| <= 259 && 0 !in us && SLASH !in us {
        assert SentName(e) == us && cut == us;
      }
      if |us| <= 259 { assert SentName(e) == us; }
    }
  }

  /** What a path ends in after a slash is its base name, and without one it is all of it. */
  lemma {:induction false} BaseNameIs(front: Name, name: Name)
    requires SLASH !in name
    ensures BaseName(front + [SLASH] + name) == name && BaseName(name) == name
  {
    var us := front + [SLASH] + name;
    if name != [] {
      assert us[..|us| - 1] == front + [SLASH] + name[..|name| - 1];
      BaseNameIs(front, name[..|name| - 1]);
    }
  }

  /** Relative paths that arrive under their own base name. */
  predicate Nameable(us: Name) {
    BaseName(us) != [] && |us| <= 259 && 0 !in us && us[0] != 0xFEFF && us[0] != 0xFFFE
  }

  /** The directories of a relative path are dropped; a portable name is its own base name. */
  lemma {:induction false} BaseNameArrives(e: Entry, i: nat)
    requires Nameable(e.relativePath)
    ensures LocalName(i, UntilNul(SentName(e))) == BaseName(e.relativePath)
  {
    hide BaseName;
    UntilNulCuts(SentName(e));
    FromUtf16Cuts(e.relativePath);
    assert SentName(e) == e.relativePath;
  }

  lemma {:induction false} PortableNameable(us: Name)
    requires Portable(us)
    ensures Nameable(us) && BaseName(us) == us
  {
    hide BaseName;
  }

  /** Files without a usable name get different ones. */
  lemma {:induction false} DefaultNamesDiffer(i: nat, j: nat)
    ensures DefaultName(i) == DefaultName(j) <==> i == j
  {
    if DefaultName(i) == DefaultName(j) {
      var a, b := DefaultName(i), DefaultName(j);
      assert a[15..] == Digits(i) && b[15..] == Digits(j);
      DigitsDiffer(i, j);
    }
  }

  lemma {:induction false} DigitsDiffer(i: nat, j: nat)
    requires Digits(i) == Digits(j)
    ensures i == j
  {
    var a, b := Digits(i), Digits(j);
    assert a[|a| - 1] == 48 + i % 10 && b[|b| - 1] == 48 + j % 10;
    if i >= 10 && j >= 10 {
      assert a[..|a| - 1] == Digits(i / 10) && b[..|b| - 1] == Digits(j / 10);
      DigitsDiffer(i / 10, j / 10);
    }
  }

  lemma {:induction false} DigitsShort(n: nat, digits: nat, bound: nat)
    requires digits > 0 && n < bound && bound == Power10(digits)
    ensures |Digits(n)| <= digits
    decreases digits
  {
    if digits > 1 && n >= 10 { DigitsShort(n / 10, digits - 1, Power10(digits - 1)); }
  }

  function Power10(n: nat): nat {
    if n == 0 then 1 else 10 * Power10(n - 1)
  }

  lemma {:induction false} DefaultNamePortable(i: nat)
    requires i < 0x1_0000_0000
    ensures Portable(DefaultName(i))
  {
    var p := Power10(10);
    assert Power10(2) == 100 && Power10(4) == 10000 && Power10(6) == 1000000 && Power10(8) == 100000000
        && p == 10000000000;
    DigitsShort(i, 10, p);
  }

  /** Descriptor round trip: count, 64-bit sizes, and every portable name. */
  lemma {:induction false} DescriptorRoundTrip(es: seq<Entry>, i: nat)
    requires i < |es| < 0x1_0000_0000 && es[i].fileSize < 0x1_0000_0000_0000_0000 && Portable(es[i].relativePath)
    ensures RecordCount(DWordAt(Payload(es), 0), |Payload(es)|) == |es|
    ensures |Payload(es)| == 4 + RECORD * |es|
    ensures ParseRecord(Payload(es), i) == Parsed(es[i].relativePath, if es[i].isDirectory then 0 else es[i].fileSize)
  {
    hide Payload, DWordAt, ParseRecord, LocalName;
    BuiltPayloadParses(es, i);
    NameKeptIff(es[i], i);
  }
}
