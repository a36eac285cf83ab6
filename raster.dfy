/**
 * The depth-buffered triangle rasterizer both renderers run once per
 * triangle: a bounding box clamped to the image, a barycentric inside test
 * at every integer pixel of the box, and a z-buffer in which the larger
 * depth wins.
 *
 * The image is a row-major array of `width * height` pixels, the pixel at
 * column `x` and row `y` at index `y * width + x`, exactly like the z-buffer.
 */
module Raster {
  import opened Numerics
  import opened Geometry

  /** A z-buffer entry: `Double.NEGATIVE_INFINITY` until a triangle is drawn there. */
  datatype Depth = NegInf | Z(z: real)

  /** `zBuffer[zIndex] < depth`. */
  predicate Below(d: Depth, z: real)
  {
    d.NegInf? || d.z < z
  }

  predicate DepthLe(d: Depth, e: Depth)
  {
    d.NegInf? || (e.Z? && d.z <= e.z)
  }

  function MaxDepth(d: Depth, e: Depth): (r: Depth)
    ensures DepthLe(d, r) && DepthLe(e, r)
    ensures r == d || r == e
  {
    if DepthLe(d, e) then e else d
  }

  /** A triangle ready for the raster loop: corners in screen space, and the colour its pixels get. */
  datatype Stamp<P> = Stamp(a: Vertex, b: Vertex, c: Vertex, ink: P)

  /** One pixel: its z-buffer entry and its colour. */
  datatype Pixel<P> = Pixel(depth: Depth, color: P)

  // ---------------------------------------------------------------------------
  // Barycentric coverage
  // ---------------------------------------------------------------------------

  /** `triangleArea`: twice the signed area of the screen triangle. */
  function Area(a: Vertex, b: Vertex, c: Vertex): real
  {
    (a.y - c.y) * (b.x - c.x) + (b.y - c.y) * (c.x - a.x)
  }

  /**
   * The area is signed by orientation: it is unchanged when the corners are
   * rotated, changes sign when two are swapped, and is zero when two
   * corners coincide.
   */
  lemma AreaOrientation(a: Vertex, b: Vertex, c: Vertex)
    ensures Area(b, c, a) == Area(a, b, c)
    ensures Area(b, a, c) == -Area(a, b, c)
    ensures a == b || b == c || c == a ==> Area(a, b, c) == 0.0
  {
  }

  datatype Weights = Weights(b1: real, b2: real, b3: real)

  /**
   * The weights `b1`, `b2`, `b3` of the point (x, y). With a zero area the
   * source divides by zero and every weight is NaN or infinite, so that its
   * inside test fails; that case is `None` here.
   */
  function Barycentric(a: Vertex, b: Vertex, c: Vertex, x: real, y: real): (r: Option<Weights>)
    ensures r.None? <==> Area(a, b, c) == 0.0
    ensures r.Some? ==> r.value.b1 + r.value.b2 + r.value.b3 == 1.0
    ensures r.Some? ==> r.value.b1 * a.x + r.value.b2 * b.x + r.value.b3 * c.x == x
    ensures r.Some? ==> r.value.b1 * a.y + r.value.b2 * b.y + r.value.b3 * c.y == y
  {
    var area := Area(a, b, c);
    if area == 0.0 then None
    else
      var n1 := (y - c.y) * (b.x - c.x) + (b.y - c.y) * (c.x - x);
      var n2 := (y - a.y) * (c.x - a.x) + (c.y - a.y) * (a.x - x);
      var n3 := (y - b.y) * (a.x - b.x) + (a.y - b.y) * (b.x - x);
      BarycentricIdentities(a, b, c, x, y);
      Quotients(n1, n2, n3, area, a.x, b.x, c.x);
      Quotients(n1, n2, n3, area, a.y, b.y, c.y);
      Some(Weights(n1 / area, n2 / area, n3 / area))
  }

  /** The weight numerators add up to the area and reproduce the point, times the area. */
  lemma BarycentricIdentities(a: Vertex, b: Vertex, c: Vertex, x: real, y: real)
    ensures ((y - c.y) * (b.x - c.x) + (b.y - c.y) * (c.x - x))
          + ((y - a.y) * (c.x - a.x) + (c.y - a.y) * (a.x - x))
          + ((y - b.y) * (a.x - b.x) + (a.y - b.y) * (b.x - x)) == Area(a, b, c)
    ensures ((y - c.y) * (b.x - c.x) + (b.y - c.y) * (c.x - x)) * a.x
          + ((y - a.y) * (c.x - a.x) + (c.y - a.y) * (a.x - x)) * b.x
          + ((y - b.y) * (a.x - b.x) + (a.y - b.y) * (b.x - x)) * c.x == x * Area(a, b, c)
    ensures ((y - c.y) * (b.x - c.x) + (b.y - c.y) * (c.x - x)) * a.y
          + ((y - a.y) * (c.x - a.x) + (c.y - a.y) * (a.x - x)) * b.y
          + ((y - b.y) * (a.x - b.x) + (a.y - b.y) * (b.x - x)) * c.y == y * Area(a, b, c)
  {
  }

  lemma Quotients(n1: real, n2: real, n3: real, d: real, p: real, q: real, s: real)
    requires d != 0.0
    ensures n1 / d + n2 / d + n3 / d == (n1 + n2 + n3) / d
    ensures (n1 / d) * p + (n2 / d) * q + (n3 / d) * s == (n1 * p + n2 * q + n3 * s) / d
  {
  }

  /**
   * The test `b1 >= 0 && b1 <= 1 && b2 >= 0 && b2 <= 1 && b3 >= 0 && b3 <= 1`.
   * For weights that add up to 1, as barycentric weights do, the upper
   * bounds follow from the lower ones.
   */
  predicate Inside(w: Weights)
    ensures w.b1 + w.b2 + w.b3 == 1.0 ==> (Inside(w) <==> 0.0 <= w.b1 && 0.0 <= w.b2 && 0.0 <= w.b3)
  {
    0.0 <= w.b1 <= 1.0 && 0.0 <= w.b2 <= 1.0 && 0.0 <= w.b3 <= 1.0
  }

  /** The depth `b1*v1.z + b2*v2.z + b3*v3.z` of the triangle at pixel (x, y), when the pixel passes the inside test. */
  function Sample<P>(st: Stamp<P>, x: int, y: int): (r: Option<real>)
    ensures Area(st.a, st.b, st.c) == 0.0 ==> r.None?
  {
    match Barycentric(st.a, st.b, st.c, x as real, y as real)
    case None => None
    case Some(w) => if Inside(w) then Some(w.b1 * st.a.z + w.b2 * st.b.z + w.b3 * st.c.z) else None
  }

  /** The depth a triangle offers a pixel, `NegInf` where it does not cover it. */
  function Offer<P>(st: Stamp<P>, x: int, y: int): Depth
  {
    match Sample(st, x, y)
    case None => NegInf
    case Some(z) => Z(z)
  }

  function Min3(p: real, q: real, s: real): real
  {
    MinR(p, MinR(q, s))
  }

  function Max3(p: real, q: real, s: real): real
  {
    MaxR(p, MaxR(q, s))
  }

  /** A weighted average with weights in [0, 1] adding up to 1 lies between the least and the greatest value. */
  lemma Between(w: Weights, p: real, q: real, s: real)
    requires Inside(w) && w.b1 + w.b2 + w.b3 == 1.0
    ensures Min3(p, q, s) <= w.b1 * p + w.b2 * q + w.b3 * s <= Max3(p, q, s)
  {
    var lo, hi := Min3(p, q, s), Max3(p, q, s);
    TimesNonnegative(w.b1, p - lo); TimesNonnegative(w.b2, q - lo); TimesNonnegative(w.b3, s - lo);
    TimesNonnegative(w.b1, hi - p); TimesNonnegative(w.b2, hi - q); TimesNonnegative(w.b3, hi - s);
    assert w.b1 * lo + w.b2 * lo + w.b3 * lo == lo;
    assert w.b1 * hi + w.b2 * hi + w.b3 * hi == hi;
  }

  /** A covered pixel lies within the triangle's extent on both axes. */
  lemma CoveredWithinExtent<P>(st: Stamp<P>, x: int, y: int)
    requires Sample(st, x, y).Some?
    ensures Min3(st.a.x, st.b.x, st.c.x) <= x as real <= Max3(st.a.x, st.b.x, st.c.x)
    ensures Min3(st.a.y, st.b.y, st.c.y) <= y as real <= Max3(st.a.y, st.b.y, st.c.y)
  {
    var w := Barycentric(st.a, st.b, st.c, x as real, y as real).value;
    WeightedWithin(w, st.a, st.b, st.c, x as real, y as real);
  }

  lemma WeightedWithin(w: Weights, a: Vertex, b: Vertex, c: Vertex, x: real, y: real)
    requires Inside(w) && w.b1 + w.b2 + w.b3 == 1.0
    requires w.b1 * a.x + w.b2 * b.x + w.b3 * c.x == x
    requires w.b1 * a.y + w.b2 * b.y + w.b3 * c.y == y
    ensures Min3(a.x, b.x, c.x) <= x <= Max3(a.x, b.x, c.x)
    ensures Min3(a.y, b.y, c.y) <= y <= Max3(a.y, b.y, c.y)
  {
    Between(w, a.x, b.x, c.x);
    Between(w, a.y, b.y, c.y);
  }

  // ---------------------------------------------------------------------------
  // The bounding box
  // ---------------------------------------------------------------------------

  /** `(int) Math.max(0, Math.ceil(lo))`: the first column (or row) the loops visit. */
  function BoxLow(lo: real): (r: int)
    ensures 0 <= r
  {
    D2I(MaxR(0.0, Ceil(lo) as real))
  }

  /** `(int) Math.min(size - 1, Math.floor(hi))`: the last column (or row) the loops visit. */
  function BoxHigh(hi: real, size: int): (r: int)
    requires 0 < size <= MaxInt
    ensures r <= size - 1
  {
    D2I(MinR((size - 1) as real, Floor(hi) as real))
  }

  /** Every pixel of the image between `lo` and `hi` is visited. */
  lemma BoxCovers(lo: real, hi: real, size: int, p: int)
    requires 0 < size <= MaxInt && 0 <= p < size
    requires lo <= p as real <= hi
    ensures BoxLow(lo) <= p <= BoxHigh(hi, size)
  {
    assert Ceil(lo) <= p;
    assert p <= Floor(hi);
  }

  datatype Box = Box(minX: int, maxX: int, minY: int, maxY: int)

  /** The box the loops scan for one triangle: its extent, clamped to the image. */
  function BoundingBox<P>(st: Stamp<P>, width: int, height: int): (r: Box)
    requires 0 < width <= MaxInt && 0 < height <= MaxInt
    ensures 0 <= r.minX && r.maxX <= width - 1
    ensures 0 <= r.minY && r.maxY <= height - 1
  {
    Box(BoxLow(Min3(st.a.x, st.b.x, st.c.x)), BoxHigh(Max3(st.a.x, st.b.x, st.c.x), width),
        BoxLow(Min3(st.a.y, st.b.y, st.c.y)), BoxHigh(Max3(st.a.y, st.b.y, st.c.y), height))
  }

  /** No pixel of the image that the triangle covers lies outside its box. */
  lemma CoveredInBox<P>(st: Stamp<P>, width: int, height: int, x: int, y: int)
    requires 0 < width <= MaxInt && 0 < height <= MaxInt
    requires 0 <= x < width && 0 <= y < height
    requires Sample(st, x, y).Some?
    ensures var box := BoundingBox(st, width, height);
      box.minX <= x <= box.maxX && box.minY <= y <= box.maxY
  {
    CoveredWithinExtent(st, x, y);
    BoxCovers(Min3(st.a.x, st.b.x, st.c.x), Max3(st.a.x, st.b.x, st.c.x), width, x);
    BoxCovers(Min3(st.a.y, st.b.y, st.c.y), Max3(st.a.y, st.b.y, st.c.y), height, y);
  }

  // ---------------------------------------------------------------------------
  // What one triangle does to one pixel, and what a list of them does
  // ---------------------------------------------------------------------------

  /**
   * The effect of the raster loop on pixel (x, y): a covered pixel whose
   * stored depth is strictly below the triangle's takes the triangle's depth
   * and colour together; every other pixel is left alone, so at equal depth
   * the triangle drawn first keeps the pixel.
   */
  function Paint<P>(st: Stamp<P>, x: int, y: int, p: Pixel<P>): (r: Pixel<P>)
    ensures DepthLe(p.depth, r.depth)
    ensures r != p <==> Sample(st, x, y).Some? && Below(p.depth, Sample(st, x, y).value)
    ensures r != p ==> r == Pixel(Offer(st, x, y), st.ink)
  {
    match Sample(st, x, y)
    case None => p
    case Some(z) => if Below(p.depth, z) then Pixel(Z(z), st.ink) else p
  }

  /** A pixel after the triangles of `stamps` have been drawn in order onto a cleared buffer. */
  function PixelAfter<P>(stamps: seq<Stamp<P>>, x: int, y: int, bg: P): (r: Pixel<P>)
    ensures r.depth == NegInf ==> r.color == bg
  {
    if stamps == [] then Pixel(NegInf, bg)
    else Paint(stamps[|stamps| - 1], x, y, PixelAfter(stamps[..|stamps| - 1], x, y, bg))
  }

  /** Drawing one more triangle paints over what the ones before it left. */
  lemma PixelAfterStep<P>(stamps: seq<Stamp<P>>, k: nat, x: int, y: int, bg: P)
    requires k < |stamps|
    ensures PixelAfter(stamps[..k + 1], x, y, bg) == Paint(stamps[k], x, y, PixelAfter(stamps[..k], x, y, bg))
  {
    assert stamps[..k + 1][..k] == stamps[..k];
  }

  /** The greatest depth any triangle of `stamps` offers pixel (x, y). */
  function Nearest<P>(stamps: seq<Stamp<P>>, x: int, y: int): (r: Depth)
    ensures forall j :: 0 <= j < |stamps| ==> DepthLe(Offer(stamps[j], x, y), r)
    ensures r == NegInf || exists j :: 0 <= j < |stamps| && Offer(stamps[j], x, y) == r
  {
    if stamps == [] then NegInf
    else
      var prefix := stamps[..|stamps| - 1];
      var r := MaxDepth(Nearest(prefix, x, y), Offer(stamps[|stamps| - 1], x, y));
      assert forall j :: 0 <= j < |prefix| ==> prefix[j] == stamps[j];
      r
  }

  /** The z-buffer ends up holding the nearest depth any triangle offers, whatever their order. */
  lemma {:induction false} NearestWins<P>(stamps: seq<Stamp<P>>, x: int, y: int, bg: P)
    ensures PixelAfter(stamps, x, y, bg).depth == Nearest(stamps, x, y)
  {
    if stamps != [] {
      NearestWins(stamps[..|stamps| - 1], x, y, bg);
    }
  }

  /** Drawing the same triangles in another order leaves the same depths. */
  lemma NearestOrderFree<P>(s1: seq<Stamp<P>>, s2: seq<Stamp<P>>, x: int, y: int, bg: P)
    requires multiset(s1) == multiset(s2)
    ensures PixelAfter(s1, x, y, bg).depth == PixelAfter(s2, x, y, bg).depth
  {
    NearestWins(s1, x, y, bg);
    NearestWins(s2, x, y, bg);
    NearestBelow(s1, s2, x, y);
    NearestBelow(s2, s1, x, y);
  }

  lemma NearestBelow<P>(s1: seq<Stamp<P>>, s2: seq<Stamp<P>>, x: int, y: int)
    requires multiset(s1) == multiset(s2)
    ensures DepthLe(Nearest(s1, x, y), Nearest(s2, x, y))
  {
    var n := Nearest(s1, x, y);
    if n != NegInf {
      var j :| 0 <= j < |s1| && Offer(s1[j], x, y) == n;
      assert s1[j] in multiset(s2);
      var k :| 0 <= k < |s2| && s2[k] == s1[j];
    }
  }

  /** The colour of a pixel is the background, or the colour of a triangle offering the pixel's final depth. */
  lemma {:induction false} ColorFromNearest<P>(stamps: seq<Stamp<P>>, x: int, y: int, bg: P)
    ensures var p := PixelAfter(stamps, x, y, bg);
      (p.depth == NegInf && p.color == bg)
      || exists j :: 0 <= j < |stamps| && Offer(stamps[j], x, y) == p.depth && stamps[j].ink == p.color
  {
    if stamps != [] {
      var prefix := stamps[..|stamps| - 1];
      ColorFromNearest(prefix, x, y, bg);
      assert forall j :: 0 <= j < |prefix| ==> prefix[j] == stamps[j];
    }
  }

  /** A triangle that is strictly nearest at a pixel gives the pixel its colour. */
  lemma UniqueNearestColor<P>(stamps: seq<Stamp<P>>, j: nat, x: int, y: int, bg: P)
    requires j < |stamps| && Offer(stamps[j], x, y).Z?
    requires forall k :: 0 <= k < |stamps| && k != j ==> !DepthLe(Offer(stamps[j], x, y), Offer(stamps[k], x, y))
    ensures PixelAfter(stamps, x, y, bg) == Pixel(Offer(stamps[j], x, y), stamps[j].ink)
  {
    NearestWins(stamps, x, y, bg);
    ColorFromNearest(stamps, x, y, bg);
    var n := Nearest(stamps, x, y);
    var k :| 0 <= k < |stamps| && Offer(stamps[k], x, y) == n;
    assert k == j;
  }

  /** A pixel no triangle covers keeps its initial depth and the background. */
  lemma Uncovered<P>(stamps: seq<Stamp<P>>, x: int, y: int, bg: P)
    requires forall j :: 0 <= j < |stamps| ==> Sample(stamps[j], x, y).None?
    ensures PixelAfter(stamps, x, y, bg) == Pixel(NegInf, bg)
  {
    NearestWins(stamps, x, y, bg);
    ColorFromNearest(stamps, x, y, bg);
  }

  // ---------------------------------------------------------------------------
  // The raster loop
  // ---------------------------------------------------------------------------

  /** `zIndex = y * width + x` names pixel (x, y) and no other. */
  lemma IndexOf(width: int, x: int, y: int)
    requires 0 < width && 0 <= x < width
    ensures (y * width + x) / width == y && (y * width + x) % width == x
  {
    DivUnique(y * width + x, width, y, x);
  }

  lemma IndexInRange(width: int, height: int, x: int, y: int)
    requires 0 <= x < width && 0 <= y < height
    ensures 0 <= y * width + x < width * height
  {
    MulNonnegativeInt(y, width);
    MulNonnegativeInt(height - 1 - y, width);
  }

  /** An index before `y * width` is on a row above `y`; one from there on is on row `y` or below. */
  lemma RowOf(width: int, i: int, y: int)
    requires 0 < width && 0 <= i
    ensures i < y * width ==> i / width < y
    ensures y * width <= i ==> y <= i / width
  {
    var q, r := i / width, i % width;
    assert i == q * width + r && 0 <= r < width;
    if i < y * width && q >= y {
      MulNonnegativeInt(q - y, width);
    }
    if y * width <= i && q < y {
      MulNonnegativeInt(y - q - 1, width);
    }
  }

  /** Outside its box a triangle changes no pixel. */
  lemma OutsideBox<P>(st: Stamp<P>, width: int, height: int, x: int, y: int, p: Pixel<P>)
    requires 0 < width <= MaxInt && 0 < height <= MaxInt
    requires 0 <= x < width && 0 <= y < height
    requires var box := BoundingBox(st, width, height);
      !(box.minX <= x <= box.maxX && box.minY <= y <= box.maxY)
    ensures Paint(st, x, y, p) == p
  {
    if Sample(st, x, y).Some? {
      CoveredInBox(st, width, height, x, y);
      assert false;
    }
  }

  /** The same, for the pixel at index `i`. */
  lemma OutsideBoxAt<P>(st: Stamp<P>, width: int, height: int, i: int, p: Pixel<P>)
    requires 0 < width <= MaxInt && 0 < height <= MaxInt && 0 <= i < width * height
    requires var box := BoundingBox(st, width, height);
      !(box.minX <= i % width <= box.maxX && box.minY <= i / width <= box.maxY)
    ensures Paint(st, i % width, i / width, p) == p
  {
    PixelOf(width, height, i);
    OutsideBox(st, width, height, i % width, i / width, p);
  }

  /** A pixel above row `y0` of a box that starts at `y0`, or below a box that ends before `y0`, is left alone. */
  lemma OutsideRows<P>(st: Stamp<P>, width: int, height: int, y0: int, i: int, p: Pixel<P>)
    requires 0 < width <= MaxInt && 0 < height <= MaxInt && 0 <= i < width * height
    requires var box := BoundingBox(st, width, height);
      (i < y0 * width && y0 <= box.minY) || (y0 * width <= i && box.maxY < y0)
    ensures Paint(st, i % width, i / width, p) == p
  {
    RowOf(width, i, y0);
    OutsideBoxAt(st, width, height, i, p);
  }

  /** Index `i` of a width x height image is the pixel (i % width, i / width) inside it. */
  lemma PixelOf(width: int, height: int, i: int)
    requires 0 < width && 0 <= i < width * height
    ensures 0 <= i % width < width && 0 <= i / width < height
  {
    assert i < height * width;
    RowOf(width, i, height);
    RowOf(width, i, 0);
  }

  /**
   * The inner loop of the raster loop: one row `y` of the triangle's box,
   * column by column. Pixels of row `y` become what `Paint` makes of them;
   * no other pixel changes.
   */
  method RasterRow<P>(zbuf: array<Depth>, frame: array<P>, width: int, height: int, st: Stamp<P>, box: Box, y: int)
    requires 0 < width <= MaxInt && 0 < height <= MaxInt && 0 <= y < height
    requires box == BoundingBox(st, width, height)
    requires zbuf.Length == width * height && frame.Length == width * height
    requires zbuf as object != frame as object
    modifies zbuf, frame
    ensures forall i :: 0 <= i < width * height ==>
      Pixel(zbuf[i], frame[i]) ==
        if y * width <= i < y * width + width
        then Paint(st, i % width, i / width, Pixel(old(zbuf[i]), old(frame[i])))
        else Pixel(old(zbuf[i]), old(frame[i]))
  {
    ghost var z0, f0 := zbuf[..], frame[..];
    ghost var n := width * height;
    IndexInRange(width, height, width - 1, y);
    var x := box.minX;
    while x <= box.maxX
      invariant box.minX <= x && (x <= box.maxX + 1 || x == box.minX)
      invariant forall i :: 0 <= i < n ==>
        Pixel(zbuf[i], frame[i]) ==
          if y * width + box.minX <= i < y * width + x
          then Paint(st, i % width, i / width, Pixel(z0[i], f0[i]))
          else Pixel(z0[i], f0[i])
      decreases box.maxX - x
    {
      var zIndex := y * width + x;
      IndexOf(width, x, y);
      IndexInRange(width, height, x, y);
      // the weights and the inside test of the loop body are `Barycentric` and `Inside`
      match Sample(st, x, y) {
        case Some(depth) =>
          if Below(zbuf[zIndex], depth) {
            frame[zIndex] := st.ink;
            zbuf[zIndex] := Z(depth);
          }
        case None =>
      }
      x := x + 1;
    }
    forall i | 0 <= i < n && y * width <= i < y * width + width && !(y * width + box.minX <= i < y * width + x)
      ensures Paint(st, i % width, i / width, Pixel(z0[i], f0[i])) == Pixel(z0[i], f0[i])
    {
      IndexOf(width, i - y * width, y);
      OutsideBoxAt(st, width, height, i, Pixel(z0[i], f0[i]));
    }
  }

  /**
   * The raster loop for one triangle: scans the rows of its bounding box and
   * paints the pixels that pass the inside test and the depth test.
   * Afterwards every pixel of the image is what `Paint` makes of it.
   */
  method RasterTriangle<P>(zbuf: array<Depth>, frame: array<P>, width: int, height: int, st: Stamp<P>)
    requires 0 < width <= MaxInt && 0 < height <= MaxInt
    requires zbuf.Length == width * height && frame.Length == width * height
    requires zbuf as object != frame as object
    modifies zbuf, frame
    ensures forall i :: 0 <= i < width * height ==>
      Pixel(zbuf[i], frame[i]) == Paint(st, i % width, i / width, Pixel(old(zbuf[i]), old(frame[i])))
  {
    var box := BoundingBox(st, width, height);
    ghost var z0, f0 := zbuf[..], frame[..];
    ghost var n := width * height;
    forall i | 0 <= i < n && i < box.minY * width
      ensures Paint(st, i % width, i / width, Pixel(z0[i], f0[i])) == Pixel(z0[i], f0[i])
    {
      OutsideRows(st, width, height, box.minY, i, Pixel(z0[i], f0[i]));
    }
    var y := box.minY;
    while y <= box.maxY
      invariant box.minY <= y && (y <= box.maxY + 1 || y == box.minY)
      invariant forall i :: 0 <= i < n ==>
        Pixel(zbuf[i], frame[i]) ==
          if i < y * width
          then Paint(st, i % width, i / width, Pixel(z0[i], f0[i]))
          else Pixel(z0[i], f0[i])
      decreases box.maxY - y
    {
      RasterRow(zbuf, frame, width, height, st, box, y);
      assert (y + 1) * width == y * width + width;
      y := y + 1;
    }
    forall i | 0 <= i < n && y * width <= i
      ensures Paint(st, i % width, i / width, Pixel(z0[i], f0[i])) == Pixel(z0[i], f0[i])
    {
      OutsideRows(st, width, height, y, i, Pixel(z0[i], f0[i]));
    }
  }
}
