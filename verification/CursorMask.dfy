/**
 The AND mask of a pointer update ([MS-RDPBCGR] section 2.2.9.1.1.4.4): bottom-up rows of one bit a
 pixel, most significant bit first, each row padded to an even number of bytes.
 */
module CursorMask {
  import opened CursorGeometry

  /** The bit of column k modulo 8. */
  function Bit(k: nat): bv8
    requires k < 8
  {
    match k
    case 0 => 0x80
    case 1 => 0x40
    case 2 => 0x20
    case 3 => 0x10
    case 4 => 0x08
    case 5 => 0x04
    case 6 => 0x02
    case 7 => 0x01
  }

  predicate HasBit(b: bv8, k: nat)
    requires k < 8
  {
    b & Bit(k) != 0
  }

  lemma {:induction false} BitAdvances(k: nat)
    requires k < 8
    ensures Bit(k) >> 1 == if k == 7 then 0 else Bit(k + 1)
  {
  }

  lemma {:induction false} OrBit(b: bv8, k: nat, j: nat)
    requires k < 8 && j < 8
    ensures HasBit(b | Bit(k), j) <==> HasBit(b, j) || j == k
  {
    var bit := Bit(k);
    var other := Bit(j);
    assert (b | bit) & other == (b & other) | (bit & other);
    assert bit & other == if j == k then bit else 0;
  }

  function RowBytes(width: nat): nat {
    (width + 7) / 8
  }

  /** The row stride. */
  function AndStep(width: nat): nat {
    (RowBytes(width) + 1) / 2 * 2
  }

  lemma {:induction false} StepFits(width: nat)
    ensures AndStep(width) % 2 == 0 && width <= 8 * AndStep(width) < width + 16 && RowBytes(width) <= AndStep(width)
  {
  }

  /** Column `x` of a row is transparent. */
  predicate Clear(img: Picture, x: nat, y: int) {
    x < img.width && At(img, x, y).alpha == 0
  }

  lemma {:induction false} ClearAt(img: Picture, x: nat, y: nat)
    requires x < img.width && y < img.height
    ensures Clear(img, x, y) <==> img.rows[y][x].alpha == 0
  {
  }

  /** Read bit by bit, padding included, the bytes say which pixels of row `y` are transparent. */
  ghost predicate RowDecodes(bytes: seq<bv8>, img: Picture, y: int) {
    forall x: nat :: x < 8 * |bytes| ==> (HasBit(bytes[x / 8], x % 8) <==> Clear(img, x, y))
  }

  /** The same for the first `x0` columns, the rest of the row still zero. */
  ghost predicate RowDecodesTo(bytes: seq<bv8>, img: Picture, y: int, x0: nat) {
    forall x: nat :: x < 8 * |bytes| ==> (HasBit(bytes[x / 8], x % 8) <==> x < x0 && Clear(img, x, y))
  }

  lemma {:induction false} ZeroRow(bytes: seq<bv8>, img: Picture, y: int)
    requires forall i :: 0 <= i < |bytes| ==> bytes[i] == 0
    ensures RowDecodesTo(bytes, img, y, 0)
  {
    forall x: nat | x < 8 * |bytes| ensures !HasBit(bytes[x / 8], x % 8) {
      assert bytes[x / 8] == 0;
      ZeroBits(x % 8);
    }
  }

  lemma {:induction false} ZeroBits(k: nat)
    requires k < 8
    ensures !HasBit(0, k)
  {
  }

  lemma {:induction false} ColumnWritten(before: seq<bv8>, after: seq<bv8>, img: Picture, y: int, x0: nat)
    requires RowDecodesTo(before, img, y, x0) && x0 < 8 * |before| && x0 < img.width
    requires after == if Clear(img, x0, y) then before[x0 / 8 := before[x0 / 8] | Bit(x0 % 8)] else before
    ensures RowDecodesTo(after, img, y, x0 + 1)
  {
    hide HasBit, Clear, Bit;
    forall x: nat | x < 8 * |after| ensures HasBit(after[x / 8], x % 8) <==> x < x0 + 1 && Clear(img, x, y) {
      assert HasBit(before[x / 8], x % 8) <==> x < x0 && Clear(img, x, y);
      if Clear(img, x0, y) && x / 8 == x0 / 8 {
        OrBit(before[x0 / 8], x0 % 8, x % 8);
        SameBit(x, x0);
      } else if x == x0 {
        assert !Clear(img, x0, y);
      }
    }
  }

  lemma {:induction false} ColumnSet(before: seq<bv8>, img: Picture, y: int, x0: nat)
    requires RowDecodesTo(before, img, y, x0) && x0 < 8 * |before| && x0 < img.width
    ensures RowDecodesTo(if Clear(img, x0, y) then before[x0 / 8 := before[x0 / 8] | Bit(x0 % 8)]
        else before, img, y, x0 + 1)
  {
    hide HasBit, Clear, Bit, RowDecodesTo;
    ColumnWritten(before, if Clear(img, x0, y) then before[x0 / 8 := before[x0 / 8] | Bit(x0 % 8)]
        else before, img, y, x0);
  }

  lemma {:induction false} SameBit(x: nat, y: nat)
    requires x / 8 == y / 8
    ensures x % 8 == y % 8 <==> x == y
  {
  }

  lemma {:induction false} RowComplete(bytes: seq<bv8>, img: Picture, y: int)
    requires RowDecodesTo(bytes, img, y, img.width)
    ensures RowDecodes(bytes, img, y)
  {
    hide HasBit;
  }

  lemma {:induction false} NextColumn(x: nat, byteIdx: nat)
    requires byteIdx == x / 8
    ensures if x % 8 == 7 then (x + 1) / 8 == byteIdx + 1 && (x + 1) % 8 == 0
            else (x + 1) / 8 == byteIdx && (x + 1) % 8 == x % 8 + 1
  {
  }

  /** One row, written in place into a zeroed part of the mask that starts at `base`. */
  method WriteRow(mask: array<bv8>, base: nat, img: Picture, srcY: nat)
    requires srcY < img.height && base + AndStep(img.width) <= mask.Length
    requires forall i :: base <= i < base + AndStep(img.width) ==> mask[i] == 0
    modifies mask
    ensures forall i :: 0 <= i < mask.Length && !(base <= i < base + AndStep(img.width)) ==> mask[i] == old(mask[i])
    ensures RowDecodes(mask[base..base + AndStep(img.width)], img, srcY)
  {
    hide RowDecodes, RowDecodesTo, Bit, AndStep, HasBit, Clear;
    var step := AndStep(img.width);
    StepFits(img.width);
    ZeroRow(mask[base..base + step], img, srcY);
    var bitMask: bv8 := 0x80;
    FirstBit();
    var byteIdx := 0;
    for x := 0 to img.width
      invariant byteIdx == x / 8 && bitMask == Bit(x % 8)
      invariant forall i :: 0 <= i < mask.Length && !(base <= i < base + step) ==> mask[i] == old(mask[i])
      invariant RowDecodesTo(mask[base..base + step], img, srcY, x)
    {
      assert byteIdx < step;
      WriteColumn(mask, base, step, img, srcY, x, byteIdx, bitMask);
      byteIdx, bitMask := NextBit(x, byteIdx, bitMask);
    }
    RowComplete(mask[base..base + step], img, srcY);
  }

  method WriteColumn(mask: array<bv8>, base: nat, step: nat, img: Picture, srcY: nat, x: nat, byteIdx: nat,
          bitMask: bv8)
    requires srcY < img.height && x < img.width && base + step <= mask.Length && x < 8 * step
    requires byteIdx == x / 8 && bitMask == Bit(x % 8)
    requires RowDecodesTo(mask[base..base + step], img, srcY, x)
    modifies mask
    ensures forall i :: 0 <= i < mask.Length && !(base <= i < base + step) ==> mask[i] == old(mask[i])
    ensures RowDecodesTo(mask[base..base + step], img, srcY, x + 1)
  {
    hide RowDecodesTo, Bit, HasBit, Clear;
    ghost var before := mask[base..base + step];
    ClearAt(img, x, srcY);
    ColumnSet(before, img, srcY, x);
    if img.rows[srcY][x].alpha == 0 {
      SetBits(mask, base, step, byteIdx, bitMask);
    }
  }

  method SetBits(mask: array<bv8>, base: nat, ghost step: nat, byteIdx: nat, bits: bv8)
    requires byteIdx < step && base + step <= mask.Length
    modifies mask
    ensures forall i :: 0 <= i < mask.Length && !(base <= i < base + step) ==> mask[i] == old(mask[i])
    ensures mask[base..base + step] == old(mask[base..base + step])[byteIdx := old(mask[base + byteIdx]) | bits]
  {
    mask[base + byteIdx] := mask[base + byteIdx] | bits;
  }

  /** The bit moves right, and from the last bit of a byte to the first of the next. */
  method NextBit(ghost x: nat, byteIdx: nat, bitMask: bv8) returns (nextByte: nat, nextMask: bv8)
    requires byteIdx == x / 8 && bitMask == Bit(x % 8)
    ensures nextByte == (x + 1) / 8 && nextMask == Bit((x + 1) % 8)
  {
    hide Bit;
    BitAdvances(x % 8);
    NextColumn(x, byteIdx);
    FirstBit();
    nextByte, nextMask := byteIdx, bitMask >> 1;
    if x % 8 < 7 { BitNonzero(x % 8 + 1); }
    if nextMask == 0 {
      nextMask := 0x80;
      nextByte := nextByte + 1;
    }
  }

  lemma {:induction false} FirstBit()
    ensures Bit(0) == 0x80
  {
  }

  lemma {:induction false} BitNonzero(k: nat)
    requires k < 8
    ensures Bit(k) != 0
  {
  }

  /** Where row `r` of a mask starts. */
  function Offset(r: nat, step: nat): nat {
    r * step
  }

  lemma {:induction false} OffsetsGrow(r: nat, n: nat, step: nat)
    requires r < n
    ensures Offset(r + 1, step) == Offset(r, step) + step <= Offset(n, step)
  {
    assert (r + 1) * step == r * step + step;
    TimesOrdered(r + 1, n, step);
  }

  lemma {:induction false} TimesOrdered(a: nat, b: nat, c: nat)
    requires a <= b
    ensures a * c <= b * c
  {
  }

  /** The mask of a whole image: row r of the mask belongs to image row height - 1 - r. */
  ghost predicate Decodes(mask: seq<bv8>, img: Picture, rows: nat) {
    forall r: nat :: r < rows ==>
      && Offset(r, AndStep(img.width)) + AndStep(img.width) <= |mask|
      && RowDecodes(mask[Offset(r, AndStep(img.width))..Offset(r, AndStep(img.width)) + AndStep(img.width)], img,
          img.height - 1 - r)
  }

  lemma {:induction false} RowAdded(before: seq<bv8>, after: seq<bv8>, img: Picture, y: nat, base: nat, step: nat)
    requires step == AndStep(img.width) && base == Offset(y, step)
    requires y < img.height && |before| == |after| && base + step <= |after|
    requires Decodes(before, img, y)
    requires forall i :: 0 <= i < base ==> before[i] == after[i]
    requires RowDecodes(after[base..base + step], img, img.height - 1 - y)
    ensures Decodes(after, img, y + 1)
  {
    hide RowDecodes, AndStep, Offset;
    forall r: nat | r < y + 1
      ensures Offset(r, step) + step <= |after|
          && RowDecodes(after[Offset(r, step)..Offset(r, step) + step], img, img.height - 1 - r)
    {
      if r < y {
        OffsetsGrow(r, y, step);
        var at := Offset(r, step);
        assert RowDecodes(before[at..at + step], img, img.height - 1 - r);
        assert before[at..at + step] == after[at..at + step];
      }
    }
  }

  // The bytes themselves.

  /** Byte `b` of the mask row for row `y` with its first `k` bits. */
  function MaskBits(img: Picture, y: int, b: nat, k: nat): bv8
    requires k <= 8
  {
    if k == 0 then 0
    else MaskBits(img, y, b, k - 1) | (if Clear(img, 8 * b + k - 1, y) then Bit(k - 1) else 0)
  }

  function MaskRow(img: Picture, y: int): seq<bv8> {
    seq(AndStep(img.width), b requires 0 <= b < AndStep(img.width) => MaskBits(img, y, b, 8))
  }

  /** The mask rows of the lowest `n` image rows. */
  function MaskRows(img: Picture, n: nat): seq<bv8> {
    if n == 0 then [] else MaskRows(img, n - 1) + MaskRow(img, img.height - n)
  }

  function AndMask(img: Picture): seq<bv8> {
    MaskRows(img, img.height)
  }

  lemma {:induction false} MaskBitsSay(img: Picture, y: int, b: nat, k: nat, j: nat)
    requires k <= 8 && j < 8
    ensures HasBit(MaskBits(img, y, b, k), j) <==> j < k && Clear(img, 8 * b + j, y)
  {
    hide HasBit, Clear, Bit;
    if k == 0 {
      ZeroBits(j);
    } else {
      MaskBitsSay(img, y, b, k - 1, j);
      OrBit(MaskBits(img, y, b, k - 1), k - 1, j);
      OrZero(MaskBits(img, y, b, k - 1));
    }
  }

  lemma {:induction false} OrZero(b: bv8)
    ensures b | 0 == b
  {
  }

  lemma {:induction false} MaskRowDecodes(img: Picture, y: int)
    ensures RowDecodes(MaskRow(img, y), img, y)
  {
    hide HasBit, Clear, Bit, MaskBits, AndStep;
    forall x: nat | x < 8 * |MaskRow(img, y)|
      ensures HasBit(MaskRow(img, y)[x / 8], x % 8) <==> Clear(img, x, y)
    {
      MaskBitsSay(img, y, x / 8, 8, x % 8);
    }
  }

  lemma {:induction false} SameBits(a: bv8, b: bv8)
    requires forall k: nat :: k < 8 ==> (HasBit(a, k) <==> HasBit(b, k))
    ensures a == b
  {
    assert HasBit(a, 0) <==> HasBit(b, 0);
    assert HasBit(a, 1) <==> HasBit(b, 1);
    assert HasBit(a, 2) <==> HasBit(b, 2);
    assert HasBit(a, 3) <==> HasBit(b, 3);
    assert HasBit(a, 4) <==> HasBit(b, 4);
    assert HasBit(a, 5) <==> HasBit(b, 5);
    assert HasBit(a, 6) <==> HasBit(b, 6);
    assert HasBit(a, 7) <==> HasBit(b, 7);
  }

  /** No other row of that length decodes so. */
  lemma {:induction false} RowUnique(bytes: seq<bv8>, img: Picture, y: int)
    requires |bytes| == AndStep(img.width) && RowDecodes(bytes, img, y)
    ensures bytes == MaskRow(img, y)
  {
    hide HasBit, Clear, Bit, MaskBits, AndStep;
    forall b: nat | b < |bytes| ensures bytes[b] == MaskRow(img, y)[b] {
      forall k: nat | k < 8 ensures HasBit(bytes[b], k) <==> HasBit(MaskBits(img, y, b, 8), k) {
        MaskBitsSay(img, y, b, 8, k);
        Column(b, k);
        assert HasBit(bytes[(8 * b + k) / 8], (8 * b + k) % 8) <==> Clear(img, 8 * b + k, y);
      }
      SameBits(bytes[b], MaskBits(img, y, b, 8));
    }
  }

  lemma {:induction false} Column(b: nat, k: nat)
    requires k < 8
    ensures (8 * b + k) / 8 == b && (8 * b + k) % 8 == k
  {
  }

  lemma {:induction false} MaskRowsDecode(img: Picture, n: nat)
    requires n <= img.height
    ensures |MaskRows(img, n)| == Offset(n, AndStep(img.width)) && Decodes(MaskRows(img, n), img, n)
  {
    hide RowDecodes, AndStep, Offset, Decodes;
    var step := AndStep(img.width);
    if n == 0 {
      NoRows([], img, step);
    } else {
      MaskRowsDecode(img, n - 1);
      OffsetsGrow(n - 1, n, step);
      MaskRowDecodes(img, img.height - n);
      RowAppended(MaskRows(img, n - 1), MaskRow(img, img.height - n), img, n - 1);
    }
  }

  lemma {:induction false} RowAppended(mask: seq<bv8>, row: seq<bv8>, img: Picture, n: nat)
    requires |mask| == Offset(n, AndStep(img.width)) && |row| == AndStep(img.width) && n < img.height
    requires Decodes(mask, img, n) && RowDecodes(row, img, img.height - 1 - n)
    ensures Decodes(mask + row, img, n + 1)
  {
    hide RowDecodes, AndStep, Offset;
    var step := AndStep(img.width);
    forall r: nat | r < n + 1
      ensures Offset(r, step) + step <= |mask + row|
          && RowDecodes((mask + row)[Offset(r, step)..Offset(r, step) + step], img, img.height - 1 - r)
    {
      var at := Offset(r, step);
      if r < n {
        OffsetsGrow(r, n, step);
        assert (mask + row)[at..at + step] == mask[at..at + step];
      } else {
        assert (mask + row)[at..at + step] == row;
      }
    }
  }

  lemma {:induction false} RowsUnique(mask: seq<bv8>, img: Picture, n: nat)
    requires n <= img.height && |mask| == Offset(img.height, AndStep(img.width)) && Decodes(mask, img, n)
    ensures Offset(n, AndStep(img.width)) <= |mask|
    ensures mask[..Offset(n, AndStep(img.width))] == MaskRows(img, n)
  {
    hide RowDecodes, AndStep, Offset, MaskRow;
    var step := AndStep(img.width);
    if n == 0 {
      NoRows(mask, img, step);
    } else {
      RowsUnique(mask, img, n - 1);
      OffsetsGrow(n - 1, img.height, step);
      OffsetsGrow(n - 1, n, step);
      var at := Offset(n - 1, step);
      RowUnique(mask[at..at + step], img, img.height - n);
      assert mask[..at + step] == mask[..at] + mask[at..at + step];
    }
  }

  /** Exactly one sequence of the mask's length, `AndMask`, says which pixels are transparent. */
  lemma {:induction false} DecodesIff(mask: seq<bv8>, img: Picture)
    requires |mask| == Offset(img.height, AndStep(img.width))
    ensures Decodes(mask, img, img.height) <==> mask == AndMask(img)
  {
    hide Decodes, AndStep, Offset, MaskRows;
    MaskRowsDecode(img, img.height);
    if Decodes(mask, img, img.height) {
      RowsUnique(mask, img, img.height);
      assert mask[..|mask|] == mask;
    }
  }

  /** Every write is in bounds, and reading the result back, bottom-up at the row stride, gives the
      alpha == 0 predicate of the image with all padding bits zero. */
  method CreateAndMask(img: Picture) returns (mask: array<bv8>)
    ensures fresh(mask) && mask.Length == Offset(img.height, AndStep(img.width))
    ensures Decodes(mask[..], img, img.height) && mask[..] == AndMask(img)
  {
    hide Decodes, AndMask, RowDecodes, AndStep, Offset;
    var step := AndStep(img.width);
    mask := new bv8[Offset(img.height, step)](_ => 0);
    var base := 0;
    NoRows(mask[..], img, step);
    for y := 0 to img.height
      invariant base == Offset(y, step) && mask.Length == Offset(img.height, step)
      invariant forall i :: base <= i < mask.Length ==> mask[i] == 0
      invariant Decodes(mask[..], img, y)
    {
      OffsetsGrow(y, img.height, step);
      ghost var before := mask[..];
      WriteRow(mask, base, img, img.height - 1 - y);
      assert mask[..][base..base + step] == mask[base..base + step];
      RowAdded(before, mask[..], img, y, base, step);
      base := base + step;
    }
    DecodesIff(mask[..], img);
  }

  lemma {:induction false} NoRows(mask: seq<bv8>, img: Picture, step: nat)
    ensures Decodes(mask, img, 0) && Offset(0, step) == 0
  {
  }

  /** How a client reads column `x` of row `y` of a pointer with these sides. */
  predicate Transparent(mask: seq<bv8>, width: nat, height: nat, x: nat, y: nat)
    requires y < height
  {
    var at := Offset(height - 1 - y, AndStep(width)) + x / 8;
    at < |mask| && HasBit(mask[at], x % 8)
  }

  /** The mask, read as a client does, says which pixels have alpha zero. */
  lemma {:induction false} MaskSaysTransparent(img: Picture, x: nat, y: nat)
    requires x < img.width && y < img.height
    ensures Offset(img.height - 1 - y, AndStep(img.width)) + x / 8 < |AndMask(img)|
    ensures Transparent(AndMask(img), img.width, img.height, x, y) <==> At(img, x, y).alpha == 0
  {
    hide HasBit, Offset, AndStep, AndMask;
    var mask := AndMask(img);
    MaskDecodes(img);
    var step := AndStep(img.width);
    StepFits(img.width);
    var base := Offset(img.height - 1 - y, step);
    var row := mask[base..base + step];
    assert RowDecodes(row, img, y);
    assert row[x / 8] == mask[base + x / 8];
    assert HasBit(row[x / 8], x % 8) <==> Clear(img, x, y);
  }

  lemma {:induction false} MaskDecodes(img: Picture)
    ensures |AndMask(img)| == Offset(img.height, AndStep(img.width)) && Decodes(AndMask(img), img, img.height)
  {
    MaskRowsDecode(img, img.height);
  }

  /** Images the size of a small pointer have mask lengths that survive the cast to 16 bits. */
  lemma {:induction false} MaskLengthsFit(width: nat, height: nat)
    requires width <= 96 && height <= 96
    ensures Offset(height, AndStep(width)) <= 1152 < 0x1_0000 && height * width * 4 <= 36864 < 0x1_0000
  {
    StepFits(width);
    assert AndStep(width) <= 12;
    TimesOrdered(height, 96, AndStep(width));
    TimesOrdered(height, 96, width);
  }
}
