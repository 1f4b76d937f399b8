/**
 From a requested image and hotspot to the cursor that is sent: the content rectangle, its extension
 to the hotspot, the crop, and the scaling to the client's limit.
 */
module CursorGeometry {
  import opened Basics

  datatype Pixel = Pixel(alpha: Byte, color: nat)

  const TRANSPARENT := Pixel(0, 0)

  datatype Image = Image(width: nat, height: nat, rows: seq<seq<Pixel>>)

  predicate WellFormed(img: Image) {
    |img.rows| == img.height && forall y :: 0 <= y < img.height ==> |img.rows[y]| == img.width
  }

  type Picture = img: Image | WellFormed(img) witness Image(0, 0, [])

  datatype Point = Point(x: int, y: int)

  /** Both corners belong to the rectangle. */
  datatype Rect = Rect(left: int, top: int, right: int, bottom: int)

  /** The running minima and maxima of the scan. */
  datatype Box = Box(minX: int, minY: int, maxX: int, maxY: int)

  datatype Cursor = Cursor(image: Picture, hotspot: Point)

  predicate Inside(img: Picture, x: int, y: int) {
    0 <= x < img.width && 0 <= y < img.height
  }

  /** Outside an image everything is transparent. */
  function At(img: Picture, x: int, y: int): Pixel {
    if Inside(img, x, y) then img.rows[y][x] else TRANSPARENT
  }

  predicate Visible(img: Picture, x: int, y: int) {
    At(img, x, y).alpha > 0
  }

  predicate Holds(r: Rect, x: int, y: int) {
    r.left <= x <= r.right && r.top <= y <= r.bottom
  }

  ghost predicate Encloses(r: Rect, img: Picture) {
    forall x: int, y: int :: Visible(img, x, y) ==> Holds(r, x, y)
  }

  // The scan.

  function Grow(b: Box, x: int, y: int): Box {
    Box(if x < b.minX then x else b.minX, if y < b.minY then y else b.minY,
        if x > b.maxX then x else b.maxX, if y > b.maxY then y else b.maxY)
  }

  function ScanPixel(img: Picture, b: Box, x: int, y: int): Box {
    if Visible(img, x, y) then Grow(b, x, y) else b
  }

  /** After the first `x` pixels of row `y`. */
  function ScanRow(img: Picture, y: nat, x: nat, b: Box): Box {
    if x == 0 then b else ScanPixel(img, ScanRow(img, y, x - 1, b), x - 1, y)
  }

  /** After the first `y` rows. */
  function ScanRows(img: Picture, y: nat): Box {
    if y == 0 then Box(img.width, img.height, -1, -1) else ScanRow(img, y - 1, img.width, ScanRows(img, y - 1))
  }

  function Bounds(img: Picture): Option<Rect> {
    var b := ScanRows(img, img.height);
    if b.minX > b.maxX || b.minY > b.maxY then None else Some(Rect(b.minX, b.minY, b.maxX, b.maxY))
  }

  method FindContentBounds(img: Picture) returns (bounds: Option<Rect>)
    ensures bounds == Bounds(img)
  {
    if img.width == 0 || img.height == 0 {
      EmptyScan(img, img.height);
      return None;
    }
    var minX, minY, maxX, maxY := img.width as int, img.height as int, -1, -1;
    for y := 0 to img.height
      invariant Box(minX, minY, maxX, maxY) == ScanRows(img, y)
    {
      for x := 0 to img.width
        invariant Box(minX, minY, maxX, maxY) == ScanRow(img, y, x, ScanRows(img, y))
      {
        if img.rows[y][x].alpha > 0 {
          if x < minX { minX := x; }
          if x > maxX { maxX := x; }
          if y < minY { minY := y; }
          if y > maxY { maxY := y; }
        }
      }
    }
    if minX > maxX || minY > maxY { return None; }
    return Some(Rect(minX, minY, maxX, maxY));
  }

  lemma {:induction false} EmptyScan(img: Picture, y: nat)
    requires img.width == 0 || y == 0
    ensures ScanRows(img, y) == Box(img.width, img.height, -1, -1)
  {
    if y > 0 { EmptyScan(img, y - 1); }
  }

  /** Pixels before (x0, y0) in scan order. */
  predicate Scanned(x: int, y: int, x0: int, y0: int) {
    y < y0 || (y == y0 && x < x0)
  }

  ghost predicate Seen(img: Picture, x: int, y: int, x0: int, y0: int) {
    Visible(img, x, y) && Scanned(x, y, x0, y0)
  }

  /** Every visible pixel scanned so far is in the box, and each side of the box holds one. */
  ghost predicate Tight(img: Picture, b: Box, x0: int, y0: int) {
    && (forall x: int, y: int :: Seen(img, x, y, x0, y0) ==> b.minX <= x <= b.maxX && b.minY <= y <= b.maxY)
    && (b == Box(img.width, img.height, -1, -1)
        || (&& (exists y: int :: Seen(img, b.minX, y, x0, y0)) && (exists y: int :: Seen(img, b.maxX, y, x0, y0))
            && (exists x: int :: Seen(img, x, b.minY, x0, y0)) && (exists x: int :: Seen(img, x, b.maxY, x0, y0))))
  }

  lemma {:induction false} PixelTight(img: Picture, b: Box, x0: nat, y0: nat)
    requires Tight(img, b, x0, y0) && x0 < img.width && y0 < img.height
    ensures Tight(img, ScanPixel(img, b, x0, y0), x0 + 1, y0)
  {
    hide Visible;
    assert forall x: int, y: int ::
        Seen(img, x, y, x0 + 1, y0) <==>
          Seen(img, x, y, x0, y0) || (x == x0 && y == y0 && Visible(img, x, y));
    var c := ScanPixel(img, b, x0, y0);
    if Visible(img, x0, y0) {
      assert Seen(img, x0, y0, x0 + 1, y0);
      if b == Box(img.width, img.height, -1, -1) {
        assert c == Box(x0, y0, x0, y0);
      }
    }
  }

  lemma {:induction false} RowTight(img: Picture, y: nat, x: nat, b: Box)
    requires Tight(img, b, 0, y) && x <= img.width && y < img.height
    ensures Tight(img, ScanRow(img, y, x, b), x, y)
  {
    hide Tight, ScanPixel;
    if x > 0 {
      RowTight(img, y, x - 1, b);
      PixelTight(img, ScanRow(img, y, x - 1, b), x - 1, y);
    }
  }

  lemma {:induction false} RowsTight(img: Picture, y: nat)
    requires y <= img.height
    ensures Tight(img, ScanRows(img, y), 0, y)
  {
    if y > 0 {
      RowsTight(img, y - 1);
      RowTight(img, y - 1, img.width, ScanRows(img, y - 1));
      NextRow(img, ScanRows(img, y), y - 1);
    }
  }

  lemma {:induction false} NextRow(img: Picture, b: Box, y: nat)
    requires Tight(img, b, img.width, y)
    ensures Tight(img, b, 0, y + 1)
  {
    assert forall x: int, z: int {:trigger Seen(img, x, z, 0, y + 1)} :: Seen(img, x, z, img.width, y) <==>
        Seen(img, x, z, 0, y + 1);
    if b != Box(img.width, img.height, -1, -1) {
      var y0: int :| Seen(img, b.minX, y0, img.width, y);
      var y1: int :| Seen(img, b.maxX, y1, img.width, y);
      var x0: int :| Seen(img, x0, b.minY, img.width, y);
      var x1: int :| Seen(img, x1, b.maxY, img.width, y);
      assert Seen(img, b.minX, y0, 0, y + 1) && Seen(img, b.maxX, y1, 0, y + 1);
      assert Seen(img, x0, b.minY, 0, y + 1) && Seen(img, x1, b.maxY, 0, y + 1);
    }
  }

  /** The scan finds the least rectangle that holds every visible pixel, and none exactly when no
      pixel is visible. */
  lemma {:induction false} BoundsLeast(img: Picture, other: Rect)
    ensures Bounds(img).None? <==> forall x: int, y: int :: !Visible(img, x, y)
    ensures Bounds(img).Some? ==>
              var r := Bounds(img).value;
              && Encloses(r, img) && 0 <= r.left <= r.right < img.width && 0 <= r.top <= r.bottom < img.height
              && (Encloses(other, img) ==>
                    other.left <= r.left && r.right <= other.right && other.top <= r.top && r.bottom <= other.bottom)
  {
    hide ScanRows;
    RowsTight(img, img.height);
    var b := ScanRows(img, img.height);
    assert forall x: int, y: int :: Visible(img, x, y) <==> Seen(img, x, y, 0, img.height);
    if b != Box(img.width, img.height, -1, -1) {
      var y0: int :| Seen(img, b.minX, y0, 0, img.height);
      var y1: int :| Seen(img, b.maxX, y1, 0, img.height);
      var x0: int :| Seen(img, x0, b.minY, 0, img.height);
      var x1: int :| Seen(img, x1, b.maxY, 0, img.height);
      assert Visible(img, b.minX, y0) && Visible(img, b.maxX, y1) && Visible(img, x0, b.minY)
          && Visible(img, x1, b.maxY);
    }
  }

  // The crop.

  /** The rectangle stretched to reach the hotspot. */
  function Expand(r: Rect, h: Point): (e: Rect)
    ensures Holds(e, h.x, h.y)
    ensures forall x, y :: Holds(r, x, y) ==> Holds(e, x, y)
  {
    Rect(if h.x < r.left then h.x else r.left, if h.y < r.top then h.y else r.top,
         if h.x > r.right then h.x else r.right, if h.y > r.bottom then h.y else r.bottom)
  }

  function CropRow(img: Picture, r: Rect, y: int): (row: seq<Pixel>)
    requires r.left <= r.right
    ensures |row| == r.right - r.left + 1 && forall x :: 0 <= x < |row| ==> row[x] == At(img, r.left + x, y)
  {
    seq(r.right - r.left + 1, x requires 0 <= x < r.right - r.left + 1 => At(img, r.left + x, y))
  }

  function Crop(img: Picture, r: Rect): (c: Picture)
    requires r.left <= r.right && r.top <= r.bottom
    ensures c.width == r.right - r.left + 1 && c.height == r.bottom - r.top + 1
    ensures forall x, y :: Inside(c, x, y) ==> At(c, x, y) == At(img, r.left + x, r.top + y)
  {
    var h := r.bottom - r.top + 1;
    var rows := seq(h, y requires 0 <= y < h => CropRow(img, r, r.top + y));
    assert forall y :: 0 <= y < h ==> rows[y] == CropRow(img, r, r.top + y);
    Image(r.right - r.left + 1, h, rows)
  }

  /** The cursor before scaling; None for an image without a visible pixel. */
  function Cropped(img: Picture, hotspot: Point): Option<Cursor> {
    if Bounds(img).None? then None
    else
      BoundsLeast(img, Rect(0, 0, 0, 0));
      var r := Expand(Bounds(img).value, hotspot);
      Some(Cursor(Crop(img, r), Point(hotspot.x - r.left, hotspot.y - r.top)))
  }

  predicate HotspotInside(c: Cursor) {
    Inside(c.image, c.hotspot.x, c.hotspot.y)
  }

  /** What is visible at an offset from the hotspot stays visible there, in the same colour, and
      nothing else appears; the hotspot lies inside the crop. */
  lemma {:induction false} CropKeepsPicture(img: Picture, hotspot: Point, dx: int, dy: int)
    ensures Cropped(img, hotspot).None? <==> forall x: int, y: int :: !Visible(img, x, y)
    ensures Cropped(img, hotspot).Some? ==>
              var c := Cropped(img, hotspot).value;
              && HotspotInside(c)
              && (Visible(c.image, c.hotspot.x + dx, c.hotspot.y + dy) <==>
                  Visible(img, hotspot.x + dx, hotspot.y + dy))
              && (Visible(img, hotspot.x + dx, hotspot.y + dy) ==>
                    At(c.image, c.hotspot.x + dx, c.hotspot.y + dy) == At(img, hotspot.x + dx, hotspot.y + dy))
  {
    hide Bounds, Crop;
    BoundsLeast(img, Rect(0, 0, 0, 0));
    if Bounds(img).Some? {
      var r := Expand(Bounds(img).value, hotspot);
      var c := Cropped(img, hotspot).value;
      var x, y := c.hotspot.x + dx, c.hotspot.y + dy;
      assert hotspot.x + dx == r.left + x && hotspot.y + dy == r.top + y;
      assert Inside(c.image, x, y) <==> Holds(r, hotspot.x + dx, hotspot.y + dy);
    }
  }

  /** No smaller crop would do: whatever rectangle holds the hotspot and every visible pixel is at
      least as large. */
  lemma {:induction false} CropLeast(img: Picture, hotspot: Point, other: Rect)
    requires Encloses(other, img) && Holds(other, hotspot.x, hotspot.y) && Cropped(img, hotspot).Some?
    ensures var c := Cropped(img, hotspot).value;
            c.image.width <= other.right - other.left + 1 && c.image.height <= other.bottom - other.top + 1
  {
    hide Bounds, Crop;
    BoundsLeast(img, other);
  }

  // The limit.

  /** `LargePointerFlag` as two bits. */
  function MaxAllowed(large384: bool, large96: bool): nat {
    if large384 then 384 else if large96 then 96 else 32
  }

  function Round(x: real): int {
    (x + 0.5).Floor
  }

  function Bound(low: int, x: int, high: int): int {
    if x < low then low else if x > high then high else x
  }

  function Scale(w: nat, h: nat, limit: nat): real
    requires w > 0 && h > 0
  {
    var byWidth, byHeight := limit as real / w as real, limit as real / h as real;
    if byWidth <= byHeight then byWidth else byHeight
  }

  function ScaledSide(side: nat, scale: real): nat
    requires scale >= 0.0
  {
    var r := Round(side as real * scale);
    if r > 1 then r else 1
  }

  /** A scaled coordinate, kept inside a side. */
  function ScaledPlace(n: int, scale: real, side: nat): int {
    Bound(0, Round(n as real * scale), side - 1)
  }

  /** `image`, resampled, at a given size; the resampling itself is not part of this model. */
  type Resampler = (Picture, nat, nat) -> Picture

  ghost predicate Resizes(resample: Resampler) {
    forall img: Picture, w: nat, h: nat :: resample(img, w, h).width == w && resample(img, w, h).height == h
  }

  function Fit(c: Cursor, limit: nat, resample: Resampler): Cursor
    requires c.image.width > 0 && c.image.height > 0
  {
    if c.image.width <= limit && c.image.height <= limit then c
    else
      var scale := Scale(c.image.width, c.image.height, limit);
      var image := resample(c.image, ScaledSide(c.image.width, scale), ScaledSide(c.image.height, scale));
      Cursor(image, Point(ScaledPlace(c.hotspot.x, scale, image.width), ScaledPlace(c.hotspot.y, scale, image.height)))
  }

  /** What is sent for a request; None stands for the null cursor. */
  function Processed(img: Picture, hotspot: Point, limit: nat, resample: Resampler): Option<Cursor> {
    match Cropped(img, hotspot)
    case None => None
    case Some(c) => Some(Fit(c, limit, resample))
  }

  lemma {:induction false} SideFits(side: nat, other: nat, limit: nat)
    requires side > 0 && other > 0 && limit > 0
    ensures 1 <= ScaledSide(side, Scale(side, other, limit)) <= limit
    ensures Scale(side, other, limit) == Scale(other, side, limit)
  {
    var scale := Scale(side, other, limit);
    assert limit as real / side as real * side as real == limit as real;
    assert scale * side as real <= limit as real by {
      TimesMonotone(scale, limit as real / side as real, side as real);
    }
    assert (limit as real + 0.5).Floor == limit;
  }

  lemma {:induction false} TimesMonotone(a: real, b: real, c: real)
    requires a <= b && c >= 0.0
    ensures a * c <= b * c
  {
  }

  /** Whatever is sent respects the client's limit in both directions, has its hotspot inside, and is
      the plain crop exactly when that fits already. */
  lemma {:induction false} ProcessedFits(img: Picture, hotspot: Point, limit: nat, resample: Resampler)
    requires limit > 0 && Resizes(resample)
    ensures Processed(img, hotspot, limit, resample).None? <==> Cropped(img, hotspot).None?
    ensures Processed(img, hotspot, limit, resample).Some? ==>
              var c, whole := Processed(img, hotspot, limit, resample).value, Cropped(img, hotspot).value;
              && 0 < c.image.width <= limit && 0 < c.image.height <= limit && HotspotInside(c)
              && (whole.image.width <= limit && whole.image.height <= limit ==> c == whole)
  {
    hide Cropped, Scale, ScaledSide;
    CropKeepsPicture(img, hotspot, 0, 0);
    if Cropped(img, hotspot).Some? {
      var whole := Cropped(img, hotspot).value;
      SideFits(whole.image.width, whole.image.height, limit);
      SideFits(whole.image.height, whole.image.width, limit);
    }
  }

  /** `scaled` is what `n` becomes, to the nearest whole number, when `longest` becomes `limit`. */
  predicate Nearest(scaled: int, n: int, longest: int, limit: int) {
    -longest <= 2 * (scaled * longest - n * limit) <= longest
  }

  /** What every length is multiplied by. */
  predicate ScaleOf(scale: real, longest: nat, limit: nat) {
    scale >= 0.0 && scale * longest as real == limit as real
  }

  function Times(a: real, b: real): real { a * b }

  lemma {:induction false} RoundHalf(x: real, n: nat, longest: nat, limit: nat)
    requires longest > 0 && x * longest as real == (n * limit) as real
    ensures Nearest(Round(x), n, longest, limit) && Round(x) >= 0
  {
    RoundWithin(x, longest, n * limit);
  }

  lemma {:induction false} RoundWithin(x: real, m: int, p: nat)
    requires m > 0 && Times(x, m as real) == p as real
    ensures -m <= 2 * (Round(x) * m - p) <= m && Round(x) >= 0
  {
    hide Times;
    var r := Round(x);
    RoundBetween(x);
    hide Round;
    HalfBelow(r as real, x, m as real);
    HalfBelow(x, r as real, m as real);
    IntTimes(r, m);
    WithinHalf(Times(r as real, m as real), Times(x, m as real), p, r * m, m);
    if r < 0 { TimesOne(r, m); }
  }

  lemma {:induction false} HalfBelow(a: real, b: real, c: real)
    requires a <= b + 0.5 && c >= 0.0
    ensures Times(a, c) <= Times(b, c) + 0.5 * c
  {
    var d := b + 0.5 - a;
    assert d * c >= 0.0;
    assert d * c == b * c + 0.5 * c - a * c;
  }

  lemma {:induction false} WithinHalf(rm: real, xm: real, p: int, a: int, m: int)
    requires rm <= xm + 0.5 * m as real && xm <= rm + 0.5 * m as real && xm == p as real && rm == a as real
    ensures -m <= 2 * (a - p) <= m
  {
  }

  lemma {:induction false} RoundBetween(x: real)
    ensures Round(x) as real - 0.5 <= x <= Round(x) as real + 0.5
  {
  }

  lemma {:induction false} IntTimes(a: int, b: int)
    ensures Times(a as real, b as real) == (a * b) as real
  {
  }

  lemma {:induction false} TimesOne(r: int, m: int)
    requires r < 0 && m > 0
    ensures r * m <= -m
  {
  }

  lemma {:induction false} Quotient(limit: nat, m: nat)
    requires m > 0
    ensures (limit as real / m as real) * m as real == limit as real
  {
  }

  lemma {:induction false} ScaledNearest(n: nat, scale: real, longest: nat, limit: nat)
    requires longest > 0 && ScaleOf(scale, longest, limit)
    ensures Nearest(Round(n as real * scale), n, longest, limit) && Round(n as real * scale) >= 0
    ensures n == longest ==> Round(n as real * scale) == limit
  {
    hide Round, Nearest, ScaleOf;
    ScaledTimes(n, scale, longest, limit);
    RoundHalf(n as real * scale, n, longest, limit);
    if n == longest {
      assert n as real * scale == limit as real by { ScaledLongest(scale, longest, limit); }
      RoundWhole(limit);
    }
  }

  lemma {:induction false} ScaledLongest(scale: real, longest: nat, limit: nat)
    requires ScaleOf(scale, longest, limit)
    ensures longest as real * scale == limit as real
  {
  }

  lemma {:induction false} ScaledTimes(n: nat, scale: real, longest: nat, limit: nat)
    requires ScaleOf(scale, longest, limit)
    ensures (n as real * scale) * longest as real == (n * limit) as real
  {
    TimesSwapped(n as real, scale, longest as real);
    assert n as real * limit as real == (n * limit) as real;
  }

  lemma {:induction false} TimesSwapped(a: real, b: real, c: real)
    ensures (a * b) * c == a * (b * c)
  {
  }

  lemma {:induction false} RoundWhole(n: nat)
    ensures Round(n as real) == n
  {
  }

  function Longest(img: Picture): nat {
    if img.width >= img.height then img.width else img.height
  }

  lemma {:induction false} ScaleIs(w: nat, h: nat, limit: nat)
    requires w > 0 && h > 0
    ensures ScaleOf(Scale(w, h, limit), if w >= h then w else h, limit)
  {
    Quotient(limit, w);
    Quotient(limit, h);
    if w >= h { QuotientFalls(limit, h, w); } else { QuotientFalls(limit, w, h); }
  }

  lemma {:induction false} QuotientFalls(limit: nat, small: nat, large: nat)
    requires 0 < small <= large
    ensures limit as real / large as real <= limit as real / small as real
  {
    var a, b := limit as real / large as real, limit as real / small as real;
    Quotient(limit, small);
    Quotient(limit, large);
    TimesMonotone(small as real, large as real, a);
    DivideMonotone(a, b, small as real);
  }

  lemma {:induction false} DivideMonotone(a: real, b: real, c: real)
    requires a * c <= b * c && c > 0.0
    ensures a <= b
  {
  }

  /** A crop over the limit is scaled so that its longer side is the limit; the other side and the hotspot
      keep their proportion to it, to the nearest pixel, except that a side is never less than one pixel
      and the hotspot never beyond the last one. */
  lemma {:induction false} ScaledInProportion(img: Picture, hotspot: Point, limit: nat, resample: Resampler)
    requires limit > 0 && Resizes(resample) && Cropped(img, hotspot).Some?
    requires Longest(Cropped(img, hotspot).value.image) > limit
    ensures Processed(img, hotspot, limit, resample).Some?
    ensures var c, whole := Processed(img, hotspot, limit, resample).value, Cropped(img, hotspot).value;
            var w, h, longest := whole.image.width, whole.image.height, Longest(whole.image);
            && c.image == resample(whole.image, c.image.width, c.image.height)
            && (w == longest ==> c.image.width == limit) && (h == longest ==> c.image.height == limit)
            && KeepsSide(c.image.width, w, longest, limit) && KeepsSide(c.image.height, h, longest, limit)
            && KeepsPlace(c.hotspot.x, whole.hotspot.x, c.image.width, longest, limit)
            && KeepsPlace(c.hotspot.y, whole.hotspot.y, c.image.height, longest, limit)
  {
    hide Cropped, Scale, ScaledSide, ScaledPlace, KeepsSide, KeepsPlace, ScaleOf;
    CropKeepsPicture(img, hotspot, 0, 0);
    var whole, c := Cropped(img, hotspot).value, Processed(img, hotspot, limit, resample).value;
    var longest := Longest(whole.image);
    ScaleIs(whole.image.width, whole.image.height, limit);
    var scale := Scale(whole.image.width, whole.image.height, limit);
    SideScaled(whole.image.width, scale, longest, limit);
    SideScaled(whole.image.height, scale, longest, limit);
    PlaceKept(whole.hotspot.x, c.image.width, scale, longest, limit);
    PlaceKept(whole.hotspot.y, c.image.height, scale, longest, limit);
  }

  /** The scaled coordinate, unless that lies beyond the last pixel. */
  predicate KeepsPlace(scaled: int, n: int, side: nat, longest: nat, limit: nat) {
    Nearest(scaled, n, longest, limit) || (scaled == side - 1 && 2 * (n * limit) >= (2 * side - 1) * longest)
  }

  /** The scaled side, unless that is less than one pixel. */
  predicate KeepsSide(scaled: int, n: int, longest: int, limit: int) {
    Nearest(scaled, n, longest, limit) || (scaled == 1 && 2 * (n * limit) <= longest)
  }

  lemma {:induction false} SmallSide(r: int, n: nat, longest: nat, limit: nat)
    requires Nearest(r, n, longest, limit) && r < 1
    ensures 2 * (n * limit) <= longest
  {
    TimesInts(r, 0, longest);
  }

  lemma {:induction false} SideScaled(side: nat, scale: real, longest: nat, limit: nat)
    requires longest > 0 && limit > 0 && ScaleOf(scale, longest, limit) && scale >= 0.0
    ensures var r := ScaledSide(side, scale);
            KeepsSide(r, side, longest, limit) && r >= 1 && (side == longest ==> r == limit)
  {
    hide Round, ScaleOf, Nearest;
    ScaledNearest(side, scale, longest, limit);
    if Round(side as real * scale) < 1 { SmallSide(Round(side as real * scale), side, longest, limit); }
  }

  lemma {:induction false} PlaceKept(n: nat, side: nat, scale: real, longest: nat, limit: nat)
    requires longest > 0 && side > 0 && ScaleOf(scale, longest, limit)
    ensures KeepsPlace(ScaledPlace(n, scale, side), n, side, longest, limit)
  {
    hide Round, Nearest, KeepsPlace, ScaleOf;
    ScaledNearest(n, scale, longest, limit);
    BoundKeepsPlace(Round(n as real * scale), n, side, longest, limit);
  }

  lemma {:induction false} BoundKeepsPlace(r: int, n: nat, side: nat, longest: nat, limit: nat)
    requires r >= 0 && side > 0 && Nearest(r, n, longest, limit)
    ensures KeepsPlace(Bound(0, r, side - 1), n, side, longest, limit)
  {
    if r > side - 1 { TimesInts(side, r, longest); }
  }

  lemma {:induction false} TimesInts(a: int, b: int, c: nat)
    requires a <= b
    ensures a * c <= b * c && (2 * a - 1) * c == 2 * (a * c) - c
  {
  }
}
