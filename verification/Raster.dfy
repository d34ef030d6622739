/**
 The icon's drawing routines on a scanline buffer: `size` rows of one filter byte and `size` pixels of
 four bytes. Each routine is proved to paint exactly its region of the canvas and nothing else.
 */
module Raster {
  import opened Crc32

  datatype Color = Color(r: byte, g: byte, b: byte, a: byte)

  function Stride(size: nat): nat { size * 4 + 1 }

  function Offset(size: nat, x: int, y: int): int { y * Stride(size) + 1 + x * 4 }

  predicate InCanvas(size: nat, x: int, y: int) { 0 <= x < size && 0 <= y < size }

  predicate IsRaster(s: seq<byte>, size: nat) { |s| == Stride(size) * size }

  // ------------------------------------------------------------------ layout

  lemma NextMultiple(a: int, b: int, s: nat)
    requires a < b
    ensures a * s + s <= b * s
  {
    assert (b - a - 1) * s >= 0;
    assert b * s == a * s + s + (b - a - 1) * s;
  }

  lemma RowsApart(size: nat, a: int, b: int)
    requires a < b
    ensures a * Stride(size) + Stride(size) <= b * Stride(size)
  {
    hide Stride;
    NextMultiple(a, b, Stride(size));
  }

  /** A pixel's four bytes lie inside the buffer, and no row starts on them. */
  lemma PixelInside(size: nat, x: int, y: int)
    requires InCanvas(size, x, y)
    ensures 0 <= Offset(size, x, y) && Offset(size, x, y) + 3 < Stride(size) * size
    ensures forall row: nat :: RowStart(size, row) < Offset(size, x, y) || RowStart(size, row) > Offset(size, x, y) + 3
  {
    RowsApart(size, y, size);
    assert y * Stride(size) >= 0;
    forall row: nat ensures RowStart(size, row) < Offset(size, x, y) || RowStart(size, row) > Offset(size, x, y) + 3 {
      if row <= y {
        if row < y { RowsApart(size, row, y); }
      } else {
        RowsApart(size, y, row);
      }
    }
  }

  function RowStart(size: nat, row: nat): nat { row * Stride(size) }

  /** Distinct pixels share no byte. */
  lemma PixelsApart(size: nat, x: int, y: int, px: int, py: int)
    requires InCanvas(size, x, y) && InCanvas(size, px, py) && (x != px || y != py)
    ensures Offset(size, x, y) + 3 < Offset(size, px, py) || Offset(size, px, py) + 3 < Offset(size, x, y)
  {
    if y < py { RowsApart(size, y, py); }
    if py < y { RowsApart(size, py, y); }
  }

  function PixelAt(s: seq<byte>, size: nat, x: int, y: int): Color
    requires IsRaster(s, size) && InCanvas(size, x, y)
  {
    PixelInside(size, x, y);
    var o := Offset(size, x, y);
    Color(s[o], s[o + 1], s[o + 2], s[o + 3])
  }

  function FilterByte(s: seq<byte>, size: nat, row: nat): byte
    requires IsRaster(s, size) && row < size
  {
    RowsApart(size, row, size);
    s[RowStart(size, row)]
  }

  // ------------------------------------------------------------------ painting

  /** What setPixel does to the buffer. */
  function Plot(s: seq<byte>, size: nat, x: int, y: int, c: Color): (t: seq<byte>)
    requires IsRaster(s, size)
    ensures IsRaster(t, size)
  {
    if !InCanvas(size, x, y) then s else
    PixelInside(size, x, y);
    var o := Offset(size, x, y);
    s[o := c.r][o + 1 := c.g][o + 2 := c.b][o + 3 := c.a]
  }

  /** Exactly the canvas pixels of `region` got the color; every other pixel and every filter byte is as before. */
  ghost predicate Painted(s: seq<byte>, t: seq<byte>, size: nat, region: (int, int) -> bool, c: Color) {
    && IsRaster(s, size) && IsRaster(t, size)
    && (forall row: nat :: row < size ==> FilterByte(t, size, row) == FilterByte(s, size, row))
    && (forall x, y :: InCanvas(size, x, y) ==>
          PixelAt(t, size, x, y) == if region(x, y) then c else PixelAt(s, size, x, y))
  }

  lemma PlotPixel(s: seq<byte>, size: nat, x: int, y: int, c: Color, px: int, py: int)
    requires IsRaster(s, size) && InCanvas(size, px, py)
    ensures PixelAt(Plot(s, size, x, y, c), size, px, py) ==
      if px == x && py == y then c else PixelAt(s, size, px, py)
  {
    if InCanvas(size, x, y) {
      PixelInside(size, x, y);
      PixelInside(size, px, py);
      if px != x || py != y { PixelsApart(size, x, y, px, py); }
    }
  }

  lemma PlotFilter(s: seq<byte>, size: nat, x: int, y: int, c: Color, row: nat)
    requires IsRaster(s, size) && row < size
    ensures FilterByte(Plot(s, size, x, y, c), size, row) == FilterByte(s, size, row)
  {
    if InCanvas(size, x, y) {
      PixelInside(size, x, y);
      RowsApart(size, row, size);
      hide Stride;
      assert RowStart(size, row) < Offset(size, x, y) || RowStart(size, row) > Offset(size, x, y) + 3;
    }
  }

  /** Plotting one more pixel adds it to the painted region. */
  lemma PaintOneMore(s: seq<byte>, t: seq<byte>, size: nat, region: (int, int) -> bool, next: (int, int) -> bool,
                     c: Color, x: int, y: int, hit: bool)
    requires Painted(s, t, size, region, c)
    requires forall px, py :: next(px, py) == (region(px, py) || (hit && px == x && py == y))
    ensures Painted(s, if hit then Plot(t, size, x, y, c) else t, size, next, c)
  {
    if hit {
      hide Plot, PixelAt, FilterByte;
      forall row: nat | row < size ensures FilterByte(Plot(t, size, x, y, c), size, row) == FilterByte(s, size, row) {
        PlotFilter(t, size, x, y, c, row);
      }
      forall px, py | InCanvas(size, px, py)
        ensures PixelAt(Plot(t, size, x, y, c), size, px, py) == if next(px, py) then c else PixelAt(s, size, px, py)
      {
        PlotPixel(t, size, x, y, c, px, py);
      }
    }
  }

  /** The pixels of `test` met so far by a row-by-row scan that is about to look at (x, y). */
  function Scanned(test: (int, int) -> bool, left: int, right: int, top: int, x: int, y: int): (int, int) -> bool {
    (px: int, py: int) => test(px, py) && left <= px < right && (top <= py < y || (py == y && px < x))
  }

  function Boxed(test: (int, int) -> bool, left: int, right: int, top: int, bottom: int): (int, int) -> bool {
    (px: int, py: int) => test(px, py) && left <= px < right && top <= py < bottom
  }

  lemma SamePainted(s: seq<byte>, t: seq<byte>, size: nat, region: (int, int) -> bool, next: (int, int) -> bool,
                    c: Color)
    requires Painted(s, t, size, region, c)
    requires forall px, py :: next(px, py) == region(px, py)
    ensures Painted(s, t, size, next, c)
  {
  }

  lemma NothingPainted(s: seq<byte>, size: nat, region: (int, int) -> bool, c: Color)
    requires IsRaster(s, size) && forall px, py :: !region(px, py)
    ensures Painted(s, s, size, region, c)
  {
  }

  lemma ScanStep(s: seq<byte>, t: seq<byte>, size: nat, test: (int, int) -> bool, left: int, right: int, top: int,
                 x: int, y: int, c: Color)
    requires Painted(s, t, size, Scanned(test, left, right, top, x, y), c) && left <= x < right && top <= y
    ensures var u := if test(x, y) then Plot(t, size, x, y, c) else t;
      Painted(s, u, size, Scanned(test, left, right, top, x + 1, y), c)
  {
    hide Painted, Plot;
    var done, next := Scanned(test, left, right, top, x, y), Scanned(test, left, right, top, x + 1, y);
    PaintOneMore(s, t, size, done, next, c, x, y, test(x, y));
  }

  lemma RowDone(s: seq<byte>, t: seq<byte>, size: nat, test: (int, int) -> bool, left: int, right: int, top: int,
                x: int, y: int, c: Color)
    requires Painted(s, t, size, Scanned(test, left, right, top, x, y), c) && right <= x && top <= y
    ensures Painted(s, t, size, Scanned(test, left, right, top, left, y + 1), c)
  {
    hide Painted;
    SamePainted(s, t, size, Scanned(test, left, right, top, x, y), Scanned(test, left, right, top, left, y + 1), c);
  }

  lemma ScanDone(s: seq<byte>, t: seq<byte>, size: nat, test: (int, int) -> bool, left: int, right: int, top: int,
                 bottom: int, y: int, c: Color)
    requires Painted(s, t, size, Scanned(test, left, right, top, left, y), c)
    requires y == bottom || (bottom <= y && y == top)
    ensures Painted(s, t, size, Boxed(test, left, right, top, bottom), c)
  {
    hide Painted;
    SamePainted(s, t, size, Scanned(test, left, right, top, left, y), Boxed(test, left, right, top, bottom), c);
  }

  lemma ScanStart(s: seq<byte>, size: nat, test: (int, int) -> bool, left: int, right: int, top: int, c: Color)
    requires IsRaster(s, size)
    ensures Painted(s, s, size, Scanned(test, left, right, top, left, top), c)
  {
    hide Painted;
    NothingPainted(s, size, Scanned(test, left, right, top, left, top), c);
  }

  method SetPixel(image: array<byte>, size: nat, x: int, y: int, c: Color)
    requires IsRaster(image[..], size)
    modifies image
    ensures image[..] == Plot(old(image[..]), size, x, y, c)
  {
    if x < 0 || y < 0 || x >= size || y >= size { return; }
    PixelInside(size, x, y);
    var offset := y * (size * 4 + 1) + 1 + x * 4;
    image[offset] := c.r;
    image[offset + 1] := c.g;
    image[offset + 2] := c.b;
    image[offset + 3] := c.a;
  }

  // ------------------------------------------------------------------ rectangles

  function Everywhere(): (int, int) -> bool { (px: int, py: int) => true }

  function Rect(x: int, y: int, width: int, height: int): (int, int) -> bool {
    (px: int, py: int) => x <= px < x + width && y <= py < y + height
  }

  /** fillRect paints exactly the rectangle's part of the canvas, wherever the rectangle lies. */
  method FillRect(image: array<byte>, size: nat, x: int, y: int, width: int, height: int, c: Color)
    requires IsRaster(image[..], size)
    modifies image
    ensures Painted(old(image[..]), image[..], size, Rect(x, y, width, height), c)
  {
    ghost var before, all, right := image[..], Everywhere(), x + width;
    ScanStart(before, size, all, x, right, y, c);
    assert forall px, py :: all(px, py);
    hide Painted, Plot, Scanned, Everywhere;
    var yy := y;
    while yy < y + height
      invariant y <= yy && (yy <= y + height || yy == y)
      invariant Painted(before, image[..], size, Scanned(all, x, right, y, x, yy), c) && IsRaster(image[..], size)
    {
      var xx := x;
      while xx < x + width
        invariant x <= xx
        invariant Painted(before, image[..], size, Scanned(all, x, right, y, xx, yy), c) && IsRaster(image[..], size)
      {
        ScanStep(before, image[..], size, all, x, right, y, xx, yy, c);
        SetPixel(image, size, xx, yy, c);
        xx := xx + 1;
      }
      RowDone(before, image[..], size, all, x, right, y, xx, yy, c);
      yy := yy + 1;
    }
    ScanDone(before, image[..], size, all, x, right, y, y + height, yy, c);
    SamePainted(before, image[..], size, Boxed(all, x, right, y, y + height), Rect(x, y, width, height), c);
  }

  // ------------------------------------------------------------------ rounded rectangles

  /** How far outside the straight part `[low, high]` the program counts a coordinate. */
  function Outside(p: int, low: int, high: int): int {
    if p < low then low - p else if p > high then p - high else 0
  }

  /** The test of fillRoundedRect for a pixel of its box. */
  function RoundedTest(x: int, y: int, width: int, height: int, radius: int): (int, int) -> bool {
    (px: int, py: int) =>
      var dx := Outside(px, x + radius, x + width - 1 - radius);
      var dy := Outside(py, y + radius, y + height - 1 - radius);
      (dx == 0 && dy == 0) || dx * dx + dy * dy <= radius * radius
  }

  function Rounded(x: int, y: int, width: int, height: int, radius: int): (int, int) -> bool {
    Boxed(RoundedTest(x, y, width, height, radius), x, x + width, y, y + height)
  }

  method FillRoundedRect(image: array<byte>, size: nat, x: int, y: int, width: int, height: int, radius: int, c: Color)
    requires IsRaster(image[..], size)
    modifies image
    ensures Painted(old(image[..]), image[..], size, Rounded(x, y, width, height, radius), c)
  {
    ghost var before, test, past := image[..], RoundedTest(x, y, width, height, radius), x + width;
    var right, bottom := x + width - 1, y + height - 1;
    ScanStart(before, size, test, x, past, y, c);
    hide Painted, Plot, Scanned, RoundedTest, Boxed;
    var yy := y;
    while yy <= bottom
      invariant y <= yy && (yy <= bottom + 1 || yy == y)
      invariant Painted(before, image[..], size, Scanned(test, x, past, y, x, yy), c) && IsRaster(image[..], size)
    {
      var xx := x;
      while xx <= right
        invariant x <= xx
        invariant Painted(before, image[..], size, Scanned(test, x, past, y, xx, yy), c) && IsRaster(image[..], size)
      {
        var dx := if xx < x + radius then x + radius - xx else if xx > right - radius then xx - (right - radius) else 0;
        var dy := if yy < y + radius then y + radius - yy
                  else if yy > bottom - radius then yy - (bottom - radius) else 0;
        ScanStep(before, image[..], size, test, x, past, y, xx, yy, c);
        RoundedTestIs(x, y, width, height, radius, xx, yy);
        if (dx == 0 && dy == 0) || dx * dx + dy * dy <= radius * radius {
          SetPixel(image, size, xx, yy, c);
        }
        xx := xx + 1;
      }
      RowDone(before, image[..], size, test, x, past, y, xx, yy, c);
      yy := yy + 1;
    }
    ScanDone(before, image[..], size, test, x, past, y, y + height, yy, c);
  }

  lemma RoundedTestIs(x: int, y: int, width: int, height: int, radius: int, xx: int, yy: int)
    ensures RoundedTest(x, y, width, height, radius)(xx, yy) <==>
      var dx := Outside(xx, x + radius, x + width - 1 - radius);
      var dy := Outside(yy, y + radius, y + height - 1 - radius);
      (dx == 0 && dy == 0) || dx * dx + dy * dy <= radius * radius
  {
  }

  function Sq(n: int): int { n * n }

  lemma SqMonotone(a: int, b: int)
    requires 0 <= a <= b || b <= a <= 0 || (a >= 0 && a <= -b) || (a <= 0 && -a <= b)
    ensures Sq(a) <= Sq(b)
  {
  }

  predicate InBox(x: int, y: int, width: int, height: int, px: int, py: int) {
    x <= px < x + width && y <= py < y + height
  }

  /** The points of one axis that a coordinate may be measured from: the straight part between the corners' centers,
      or, where the corners overlap, the center of the far corner on the other side of it. */
  predicate Anchor(p: int, low: int, high: int, c: int) {
    if low <= high then low <= c <= high else c == if p < low then low else high
  }

  /** Some anchor point lies within the radius of the pixel. */
  ghost predicate NearAnchor(x: int, y: int, width: int, height: int, radius: int, px: int, py: int) {
    exists cx, cy :: AnchorPoint(x, y, width, height, radius, px, py, cx, cy) && Sq(px - cx) + Sq(py - cy) <= Sq(radius)
  }

  predicate AnchorPoint(x: int, y: int, width: int, height: int, radius: int, px: int, py: int, cx: int, cy: int) {
    && Anchor(px, x + radius, x + width - 1 - radius, cx)
    && Anchor(py, y + radius, y + height - 1 - radius, cy)
  }

  lemma AnchorDistance(p: int, low: int, high: int, c: int)
    requires Anchor(p, low, high, c)
    ensures Sq(Outside(p, low, high)) <= Sq(p - c)
  {
    SqMonotone(Outside(p, low, high), p - c);
  }

  /** The anchor the program measures from. */
  lemma NearestAnchor(p: int, low: int, high: int) returns (c: int)
    ensures Anchor(p, low, high, c) && Sq(Outside(p, low, high)) == Sq(p - c)
  {
    c := if p < low then low else if p > high then high else p;
    assert p - c == Outside(p, low, high) || p - c == -Outside(p, low, high);
  }

  /** What a rounded rectangle is, for every size and radius, overlapping corners and negative radius included: the
      pixels of its box that lie within the radius of an anchor point. */
  lemma RoundedIs(x: int, y: int, width: int, height: int, radius: int, px: int, py: int)
    ensures Rounded(x, y, width, height, radius)(px, py) <==>
      InBox(x, y, width, height, px, py) && NearAnchor(x, y, width, height, radius, px, py)
  {
    var lx, hx, ly, hy := x + radius, x + width - 1 - radius, y + radius, y + height - 1 - radius;
    var dx, dy := Outside(px, lx, hx), Outside(py, ly, hy);
    RoundedTestIs(x, y, width, height, radius, px, py);
    assert dx * dx == Sq(dx) && dy * dy == Sq(dy) && radius * radius == Sq(radius) && Sq(radius) >= 0;
    var cornerX := NearestAnchor(px, lx, hx);
    var cornerY := NearestAnchor(py, ly, hy);
    hide Sq, Anchor, Outside;
    if InBox(x, y, width, height, px, py) && Sq(dx) + Sq(dy) <= Sq(radius) {
      assert AnchorPoint(x, y, width, height, radius, px, py, cornerX, cornerY);
    }
    if NearAnchor(x, y, width, height, radius, px, py) {
      var cx, cy :| AnchorPoint(x, y, width, height, radius, px, py, cx, cy) && Sq(px - cx) + Sq(py - cy) <= Sq(radius);
      AnchorDistance(px, lx, hx, cx);
      AnchorDistance(py, ly, hy, cy);
    }
  }

  /** A radius that fits the box makes the box itself superfluous: the region is the anchors, widened by the radius. */
  lemma RoundedIsDilation(x: int, y: int, width: int, height: int, radius: nat, px: int, py: int)
    requires width >= radius && height >= radius
    ensures Rounded(x, y, width, height, radius)(px, py) <==> NearAnchor(x, y, width, height, radius, px, py)
  {
    RoundedIs(x, y, width, height, radius, px, py);
    if NearAnchor(x, y, width, height, radius, px, py) {
      var cx, cy :| AnchorPoint(x, y, width, height, radius, px, py, cx, cy) && Sq(px - cx) + Sq(py - cy) <= Sq(radius);
      WithinRadius(px - cx, py - cy, radius);
      WithinRadius(py - cy, px - cx, radius);
    }
  }

  /** A bar as high as two radii, as the icon's base line is: its ends are not half discs but lenses, the pixels near
      both of its two middle rows. */
  lemma BarIsLens(x: int, y: int, width: int, radius: nat, px: int, py: int)
    requires width >= 2 * radius + 1
    ensures Rounded(x, y, width, 2 * radius, radius)(px, py) <==>
      exists cx :: Along(x, width, radius, cx) && NearBoth(cx, y + radius - 1, y + radius, radius, px, py)
  {
    var low, high := y + radius, y + radius - 1;
    RoundedIsDilation(x, y, width, 2 * radius, radius, px, py);
    if NearAnchor(x, y, width, 2 * radius, radius, px, py) {
      var cx, cy :| AnchorPoint(x, y, width, 2 * radius, radius, px, py, cx, cy) &&
        Sq(px - cx) + Sq(py - cy) <= Sq(radius);
      SqMonotone(py - low, py - cy);
      SqMonotone(py - high, py - cy);
      assert Along(x, width, radius, cx) && NearBoth(cx, high, low, radius, px, py);
    }
    if cx :| Along(x, width, radius, cx) && NearBoth(cx, high, low, radius, px, py) {
      assert AnchorPoint(x, y, width, 2 * radius, radius, px, py, cx, if py < low then low else high);
    }
  }

  /** A column of the straight part. */
  predicate Along(x: int, width: int, radius: int, cx: int) { x + radius <= cx < x + width - radius }

  predicate NearBoth(cx: int, row: int, next: int, radius: int, px: int, py: int) {
    && Sq(px - cx) + Sq(py - row) <= Sq(radius)
    && Sq(px - cx) + Sq(py - next) <= Sq(radius)
  }

  lemma WithinRadius(a: int, b: int, r: int)
    requires r >= 0 && Sq(a) + Sq(b) <= Sq(r)
    ensures -r <= a <= r
  {
    assert Sq(b) >= 0;
    if a > r { SqMonotone(r + 1, a); assert false; }
    if a < -r { SqMonotone(r + 1, a); assert false; }
  }

  // ------------------------------------------------------------------ thick lines

  function Clamp(t: real): real { if t < 0.0 then 0.0 else if t > 1.0 then 1.0 else t }

  function Times(a: real, b: real): real { a * b }

  function SqR(r: real): real { Times(r, r) }

  /** The squared distance from (px, py) to the point `t` of the way along the segment. */
  function DistanceSquared(x1: real, y1: real, x2: real, y2: real, t: real, px: real, py: real): real {
    SqR(px - (x1 + Times(t, x2 - x1))) + SqR(py - (y1 + Times(t, y2 - y1)))
  }

  function LengthSquared(x1: real, y1: real, x2: real, y2: real): real { SqR(x2 - x1) + SqR(y2 - y1) }

  function Dot(ax: real, ay: real, bx: real, cy: real): real { Times(ax, bx) + Times(ay, cy) }

  /** The parameter the program projects the pixel to. */
  function Projection(x1: real, y1: real, x2: real, y2: real, px: real, py: real): real
    requires LengthSquared(x1, y1, x2, y2) != 0.0
  {
    Clamp(Dot(px - x1, py - y1, x2 - x1, y2 - y1) / LengthSquared(x1, y1, x2, y2))
  }

  /** The program's test; a segment of length 0 divides by 0 and paints nothing. */
  function LineTest(x1: real, y1: real, x2: real, y2: real, thickness: real): (int, int) -> bool {
    (px: int, py: int) =>
      LengthSquared(x1, y1, x2, y2) != 0.0 &&
      DistanceSquared(x1, y1, x2, y2, Projection(x1, y1, x2, y2, px as real, py as real), px as real, py as real)
        <= SqR(thickness / 2.0)
  }

  function Min(a: real, b: real): real { if a <= b then a else b }
  function Max(a: real, b: real): real { if a >= b then a else b }
  function Ceil(r: real): int { -((-r).Floor) }

  function Line(x1: real, y1: real, x2: real, y2: real, thickness: real): (int, int) -> bool {
    Boxed(LineTest(x1, y1, x2, y2, thickness),
          (Min(x1, x2) - thickness).Floor, Ceil(Max(x1, x2) + thickness) + 1,
          (Min(y1, y2) - thickness).Floor, Ceil(Max(y1, y2) + thickness) + 1)
  }

  method DrawThickLine(image: array<byte>, size: nat, x1: real, y1: real, x2: real, y2: real, thickness: real, c: Color)
    requires IsRaster(image[..], size)
    modifies image
    ensures Painted(old(image[..]), image[..], size, Line(x1, y1, x2, y2, thickness), c)
  {
    ghost var before, test := image[..], LineTest(x1, y1, x2, y2, thickness);
    var minX, maxX := (Min(x1, x2) - thickness).Floor, Ceil(Max(x1, x2) + thickness);
    var minY, maxY := (Min(y1, y2) - thickness).Floor, Ceil(Max(y1, y2) + thickness);
    ScanStart(before, size, test, minX, maxX + 1, minY, c);
    hide Painted, Plot, Scanned, LineTest, Min, Max, Ceil, Boxed;
    var y := minY;
    while y <= maxY
      invariant minY <= y && (y <= maxY + 1 || y == minY)
      invariant Painted(before, image[..], size, Scanned(test, minX, maxX + 1, minY, minX, y), c) &&
        IsRaster(image[..], size)
    {
      var x := minX;
      while x <= maxX
        invariant minX <= x
        invariant Painted(before, image[..], size, Scanned(test, minX, maxX + 1, minY, x, y), c) &&
          IsRaster(image[..], size)
      {
        ScanStep(before, image[..], size, test, minX, maxX + 1, minY, x, y, c);
        var hit := LineHit(x1, y1, x2, y2, thickness, x, y);
        if hit {
          SetPixel(image, size, x, y, c);
        }
        x := x + 1;
      }
      RowDone(before, image[..], size, test, minX, maxX + 1, minY, x, y, c);
      y := y + 1;
    }
    ScanDone(before, image[..], size, test, minX, maxX + 1, minY, maxY + 1, y, c);
  }

  /** The body of drawThickLine's loop: project the pixel on the segment and compare distances. */
  method LineHit(x1: real, y1: real, x2: real, y2: real, thickness: real, x: int, y: int) returns (hit: bool)
    ensures hit == LineTest(x1, y1, x2, y2, thickness)(x, y)
  {
    hide Times, Clamp, SqR;
    var dx, dy := x2 - x1, y2 - y1;
    var lengthSquared := SqR(dx) + SqR(dy);
    if lengthSquared == 0.0 { return false; }
    var radius := thickness / 2.0;
    var t := Clamp(Dot(x as real - x1, y as real - y1, dx, dy) / lengthSquared);
    var px, py := x1 + Times(t, dx), y1 + Times(t, dy);
    var distanceSquared := SqR(x as real - px) + SqR(y as real - py);
    assert t == Projection(x1, y1, x2, y2, x as real, y as real);
    assert distanceSquared == DistanceSquared(x1, y1, x2, y2, t, x as real, y as real);
    hit := distanceSquared <= SqR(radius);
  }

  // ------------------------------------------------------------------ what a thick line is

  /** Some point of the segment is within half the thickness of the pixel. */
  ghost predicate NearSegment(x1: real, y1: real, x2: real, y2: real, thickness: real, px: int, py: int) {
    exists t: real :: OnSegment(t) && DistanceSquared(x1, y1, x2, y2, t, px as real, py as real) <= SqR(thickness / 2.0)
  }

  predicate OnSegment(t: real) { 0.0 <= t <= 1.0 }

  /** Expanding the squared distance as a parabola in `t`. */
  lemma Parabola(x1: real, y1: real, x2: real, y2: real, t: real, px: real, py: real)
    ensures DistanceSquared(x1, y1, x2, y2, t, px, py) ==
      SqR(px - x1) + SqR(py - y1)
      + Curve(Dot(px - x1, py - y1, x2 - x1, y2 - y1), LengthSquared(x1, y1, x2, y2), t)
  {
    ParabolaOne(px - x1, x2 - x1, t);
    ParabolaOne(py - y1, y2 - y1, t);
    hide SqR;
    var a, b := Times(px - x1, x2 - x1), Times(py - y1, y2 - y1);
    CurvesAdd(a, b, SqR(x2 - x1), SqR(y2 - y1), t);
    hide Curve, Times;
    assert px - (x1 + Times(t, x2 - x1)) == px - x1 - Times(t, x2 - x1);
    assert py - (y1 + Times(t, y2 - y1)) == py - y1 - Times(t, y2 - y1);
  }

  /** The part of the squared distance that depends on `t`. */
  function Curve(dot: real, length: real, t: real): real { t * t * length - 2.0 * t * dot }

  lemma CurvesAdd(a: real, b: real, c: real, d: real, t: real)
    ensures Curve(a, c, t) + Curve(b, d, t) == Curve(a + b, c + d, t)
  {
  }

  lemma ParabolaOne(a: real, d: real, t: real)
    ensures SqR(a - Times(t, d)) == SqR(a) + Curve(Times(a, d), SqR(d), t)
  {
    assert (a - t * d) * (a - t * d) == a * a - 2.0 * t * (a * d) + t * t * (d * d);
  }

  /** A parabola with its vertex at `v`, restricted to [0, 1], is least at the clamped vertex. */
  lemma ClampMinimizes(dot: real, length: real, t: real)
    requires length > 0.0 && OnSegment(t)
    ensures Curve(dot, length, Clamp(dot / length)) <= Curve(dot, length, t)
  {
    var v := dot / length;
    var c := Clamp(v);
    assert dot == v * length;
    assert (t - c) * (t + c - 2.0 * v) >= 0.0 by {
      if v < 0.0 {
        assert t - c >= 0.0 && t + c - 2.0 * v >= 0.0;
      } else if v > 1.0 {
        assert t - c <= 0.0 && t + c - 2.0 * v <= 0.0;
        NonPositives(t - c, t + c - 2.0 * v);
      } else {
        assert t + c - 2.0 * v == t - c;
      }
    }
    ProductIs(t, c, v, length);
    Scale((t - c) * (t + c - 2.0 * v), length);
  }

  lemma NonPositives(a: real, b: real)
    requires a <= 0.0 && b <= 0.0
    ensures a * b >= 0.0
  {
  }

  lemma Scale(a: real, b: real)
    requires a >= 0.0 && b > 0.0
    ensures a * b >= 0.0
  {
  }

  lemma ProductIs(t: real, c: real, v: real, length: real)
    ensures ((t - c) * (t + c - 2.0 * v)) * length == Curve(v * length, length, t) - Curve(v * length, length, c)
  {
  }

  /** The program's test finds exactly the pixels near the segment, for every segment that is not a point. */
  lemma LineTestIsExact(x1: real, y1: real, x2: real, y2: real, thickness: real, px: int, py: int)
    requires LengthSquared(x1, y1, x2, y2) != 0.0
    ensures LineTest(x1, y1, x2, y2, thickness)(px, py) <==> NearSegment(x1, y1, x2, y2, thickness, px, py)
  {
    var p, q := px as real, py as real;
    forall t | OnSegment(t)
      ensures DistanceSquared(x1, y1, x2, y2, Projection(x1, y1, x2, y2, p, q), p, q)
           <= DistanceSquared(x1, y1, x2, y2, t, p, q)
    {
      ProjectionIsNearest(x1, y1, x2, y2, p, q, t);
    }
    assert OnSegment(Projection(x1, y1, x2, y2, p, q));
    hide DistanceSquared, LengthSquared, SqR, Projection;
  }

  lemma ProjectionIsNearest(x1: real, y1: real, x2: real, y2: real, p: real, q: real, t: real)
    requires LengthSquared(x1, y1, x2, y2) != 0.0 && OnSegment(t)
    ensures DistanceSquared(x1, y1, x2, y2, Projection(x1, y1, x2, y2, p, q), p, q)
         <= DistanceSquared(x1, y1, x2, y2, t, p, q)
  {
    hide DistanceSquared, LengthSquared, SqR, Dot, Curve, Clamp;
    LengthIsPositive(x1, y1, x2, y2);
    Parabola(x1, y1, x2, y2, t, p, q);
    Parabola(x1, y1, x2, y2, Projection(x1, y1, x2, y2, p, q), p, q);
    ClampMinimizes(Dot(p - x1, q - y1, x2 - x1, y2 - y1), LengthSquared(x1, y1, x2, y2), t);
  }

  lemma LengthIsPositive(x1: real, y1: real, x2: real, y2: real)
    requires LengthSquared(x1, y1, x2, y2) != 0.0
    ensures LengthSquared(x1, y1, x2, y2) > 0.0
  {
    assert SqR(x2 - x1) >= 0.0 && SqR(y2 - y1) >= 0.0;
  }

  lemma SquareGrows(a: real, r: real)
    requires a > r >= 0.0
    ensures a * a > r * r
  {
    assert (a - r) * a > 0.0;
    assert (a - r) * r >= 0.0;
  }

  lemma CoordinateNear(a: real, b: real, r: real)
    requires r >= 0.0 && SqR(a) + SqR(b) <= SqR(r)
    ensures -r <= a <= r
  {
    NotNegative(b);
    if a > r {
      SquareGrows(a, r);
    } else if -a > r {
      SquareGrows(-a, r);
      SquareOfNegation(a);
    }
  }

  lemma NotNegative(b: real)
    ensures SqR(b) >= 0.0
  {
  }

  lemma SquareOfNegation(a: real)
    ensures (-a) * (-a) == a * a
  {
  }

  lemma ProductNotNegative(a: real, b: real)
    requires a >= 0.0 && b >= 0.0
    ensures Times(a, b) >= 0.0
  {
  }

  lemma Fraction(d: real, t: real)
    requires OnSegment(t) && d >= 0.0
    ensures 0.0 <= Times(t, d) <= d
  {
    ProductNotNegative(t, d);
    ProductNotNegative(1.0 - t, d);
    assert (1.0 - t) * d == d - t * d;
  }

  lemma TimesNegated(t: real, d: real)
    ensures Times(t, -d) == -Times(t, d)
  {
  }

  lemma Between(a: real, b: real, t: real)
    requires OnSegment(t)
    ensures Min(a, b) <= a + Times(t, b - a) <= Max(a, b)
  {
    hide Times;
    if b >= a {
      Fraction(b - a, t);
    } else {
      Fraction(a - b, t);
      TimesNegated(t, a - b);
    }
  }

  /** The scan box misses no pixel near the segment, so the painted region is the whole stroke. A little negative
      thickness does no harm: the box shrinks by less than the next pixel. */
  lemma LineIsStroke(x1: real, y1: real, x2: real, y2: real, thickness: real, px: int, py: int)
    requires LengthSquared(x1, y1, x2, y2) != 0.0 && thickness > -2.0 / 3.0
    ensures Line(x1, y1, x2, y2, thickness)(px, py) <==> NearSegment(x1, y1, x2, y2, thickness, px, py)
  {
    LineTestIsExact(x1, y1, x2, y2, thickness, px, py);
    if NearSegment(x1, y1, x2, y2, thickness, px, py) {
      var p, q := px as real, py as real;
      var t :| OnSegment(t) && DistanceSquared(x1, y1, x2, y2, t, p, q) <= SqR(thickness / 2.0);
      var r := HalfWidth(thickness);
      CoordinateNear(p - (x1 + Times(t, x2 - x1)), q - (y1 + Times(t, y2 - y1)), r);
      CoordinateNear(q - (y1 + Times(t, y2 - y1)), p - (x1 + Times(t, x2 - x1)), r);
      Between(x1, x2, t);
      Between(y1, y2, t);
      hide Times, SqR, LengthSquared, Min, Max;
    }
  }

  /** The distance the test compares with, whatever the sign of the thickness. */
  lemma HalfWidth(thickness: real) returns (r: real)
    ensures r == (if thickness < 0.0 then -thickness else thickness) / 2.0 && SqR(r) == SqR(thickness / 2.0)
  {
    r := (if thickness < 0.0 then -thickness else thickness) / 2.0;
    SquareOfNegation(thickness / 2.0);
  }

  /** From -2/3 down the box cuts pixels off: a segment that starts at the test's distance from a pixel. */
  lemma ThinLineIsCut(thickness: real)
    requires thickness <= -2.0 / 3.0
    ensures var r := -thickness / 2.0;
      && LengthSquared(r, 0.0, r + 1.0, 0.0) != 0.0
      && NearSegment(r, 0.0, r + 1.0, 0.0, thickness, 0, 0) && !Line(r, 0.0, r + 1.0, 0.0, thickness)(0, 0)
  {
    hide LineTest;
    var r := -thickness / 2.0;
    assert LengthSquared(r, 0.0, r + 1.0, 0.0) == 1.0;
    assert DistanceSquared(r, 0.0, r + 1.0, 0.0, 0.0, 0 as real, 0 as real) <= SqR(thickness / 2.0) by {
      assert Times(0.0, 1.0) == 0.0 && Times(0.0, 0.0) == 0.0;
      SquareOfNegation(r);
      assert thickness / 2.0 == -r;
      hide Times;
      assert 0 as real - (r + 0.0) == -r;
    }
    assert OnSegment(0.0);
    hide DistanceSquared, SqR, LengthSquared;
    assert (Min(r, r + 1.0) - thickness).Floor >= 1;
  }

  /** Exactly for which thickness drawThickLine paints the whole stroke of every segment that is not a point. */
  lemma LineIsStrokeExactly(thickness: real)
    ensures (forall x1, y1, x2, y2, px, py :: LengthSquared(x1, y1, x2, y2) != 0.0 ==>
              (Line(x1, y1, x2, y2, thickness)(px, py) <==> NearSegment(x1, y1, x2, y2, thickness, px, py)))
       <==> thickness > -2.0 / 3.0
  {
    if thickness > -2.0 / 3.0 {
      forall x1, y1, x2, y2, px, py | LengthSquared(x1, y1, x2, y2) != 0.0
        ensures Line(x1, y1, x2, y2, thickness)(px, py) <==> NearSegment(x1, y1, x2, y2, thickness, px, py)
      {
        LineIsStroke(x1, y1, x2, y2, thickness, px, py);
      }
    } else {
      ThinLineIsCut(thickness);
    }
    hide Line, NearSegment, LengthSquared;
  }
}
