/**
 * `paintComponent` of the Swing application: inflate the tetrahedron four
 * times into a sphere of 1024 triangles, rotate it, and rasterise it with a
 * depth buffer into an ARGB image that starts out fully transparent.
 */
module SwingRenderer {
  import opened Numerics
  import opened Geometry
  import opened Matrices
  import opened Meshes
  import opened Raster
  import opened Shading
  import opened Scene

  /**
   * One triangle as the raster loop sees it: its corners in image space and
   * `getShade(triangle.color, angleCos).getRGB()`, an opaque colour no
   * brighter than the triangle's own.
   */
  function SwingStamp(m: Libm, view: Matrix3, t: Triangle<Color8>, width: int, height: int): (r: Stamp<int>)
    requires Sound(m) && view.Valid() && t.color.Valid()
    ensures Opaque(r.ink, t.color)
  {
    var a := ToScreen(view, t.v1, width, height);
    var b := ToScreen(view, t.v2, width, height);
    var c := ToScreen(view, t.v3, width, height);
    var angleCos := SwingAngleCos(m, a, b, c);
    GetShade8Ok(m, t.color, angleCos);
    var shaded := GetShade8(m, t.color, angleCos).value;
    ArgbRoundTrip(shaded);
    Stamp(a, b, c, Argb(shaded))
  }

  /** A list of triangles of one colour as the raster loop sees them, in drawing order. */
  function StampsOf(m: Libm, view: Matrix3, tris: seq<Triangle<Color8>>, color: Color8,
                    width: int, height: int): (r: seq<Stamp<int>>)
    requires Sound(m) && view.Valid() && color.Valid() && AllColored(tris, color)
    ensures |r| == |tris|
    ensures forall i :: 0 <= i < |r| ==> Opaque(r[i].ink, color)
  {
    seq(|tris|, i requires 0 <= i < |tris| => SwingStamp(m, view, tris[i], width, height))
  }

  /** The sphere's triangles in drawing order. */
  function Stamps(m: Libm, color: Color8, hc: real, hs: real, pc: real, ps: real,
                  width: int, height: int): (r: seq<Stamp<int>>)
    requires Sound(m) && color.Valid()
    ensures |r| == 1024
    ensures forall i :: 0 <= i < |r| ==> Opaque(r[i].ink, color)
  {
    StampsOf(m, View(hc, hs, pc, ps), SphereMesh(m, color), color, width, height)
  }

  /** A packed int holding an opaque colour no brighter than `color`. */
  predicate Opaque(p: int, color: Color8)
  {
    MinInt <= p <= MaxInt && Unpack(p).alpha == 255 &&
    Unpack(p).red <= color.red && Unpack(p).green <= color.green && Unpack(p).blue <= color.blue
  }

  /**
   * For true rotation angles every corner the raster loop sees lies on the
   * circle of radius sqrt(30000) about the image centre, in 3D: the sphere
   * stays a sphere on screen.
   */
  lemma SphereOnScreen(m: Libm, color: Color8, hc: real, hs: real, pc: real, ps: real,
                       width: int, height: int, j: int)
    requires Sound(m) && color.Valid() && 0 <= j < 1024
    requires Sq(hc) + Sq(hs) == 1.0 && Sq(pc) + Sq(ps) == 1.0
    ensures var st := Stamps(m, color, hc, hs, pc, ps, width, height)[j];
      var o := Center(width, height);
      NormSq(Sub(st.a, o)) == Radius2 && NormSq(Sub(st.b, o)) == Radius2 && NormSq(Sub(st.c, o)) == Radius2
  {
    var t := SphereMesh(m, color)[j];
    ScreenDistance(hc, hs, pc, ps, t.v1, width, height);
    ScreenDistance(hc, hs, pc, ps, t.v2, width, height);
    ScreenDistance(hc, hs, pc, ps, t.v3, width, height);
  }

  /**
   * Every pixel of a frame is transparent, where no triangle covers it, or
   * an opaque colour no brighter than the chosen colour.
   */
  lemma DrawnColors(m: Libm, color: Color8, hc: real, hs: real, pc: real, ps: real,
                    width: int, height: int, x: int, y: int)
    requires Sound(m) && color.Valid()
    ensures var p := PixelAfter(Stamps(m, color, hc, hs, pc, ps, width, height), x, y, Transparent);
      (p.depth == NegInf && p.color == Transparent) || Opaque(p.color, color)
  {
    var stamps := Stamps(m, color, hc, hs, pc, ps, width, height);
    ColorFromNearest(stamps, x, y, Transparent);
    var p := PixelAfter(stamps, x, y, Transparent);
    if !(p.depth == NegInf && p.color == Transparent) {
      var j :| 0 <= j < |stamps| && Offer(stamps[j], x, y) == p.depth && stamps[j].ink == p.color;
    }
  }

  /** The tetrahedron and the `INFLATION_LEVEL` rounds of `inflate` applied to it. */
  method BuildSphere(m: Libm, color: Color8) returns (tris: seq<Triangle<Color8>>)
    requires Sound(m)
    ensures tris == SphereMesh(m, color)
  {
    tris := Tetrahedron(color);
    TetrahedronOnSphere(color);
    for level := 0 to InflationLevel
      invariant tris == InflatedN(m, Tetrahedron(color), TetrahedronFacing(), level)
    {
      InflatedFacedBy(m, tris, ExpandN(TetrahedronFacing(), level));
      tris := Inflate(m, tris);
    }
  }

  /**
   * The loop over the triangles: every pixel ends up as drawing the
   * triangles in order makes it, starting from a transparent, infinitely
   * far pixel.
   */
  method DrawTriangles(zBuffer: array<Depth>, img: array<int>, width: int, height: int,
                       m: Libm, transform: Matrix3, tris: seq<Triangle<Color8>>, color: Color8)
    requires 0 < width <= MaxInt && 0 < height <= MaxInt
    requires zBuffer.Length == width * height && img.Length == width * height
    requires zBuffer as object != img as object
    requires Sound(m) && transform.Valid() && color.Valid() && AllColored(tris, color)
    requires forall i :: 0 <= i < width * height ==> zBuffer[i] == NegInf && img[i] == Transparent
    modifies zBuffer, img
    ensures forall i :: 0 <= i < width * height ==>
      Pixel(zBuffer[i], img[i]) == PixelAfter(StampsOf(m, transform, tris, color, width, height), i % width, i / width, Transparent)
  {
    ghost var stamps := StampsOf(m, transform, tris, color, width, height);
    for k := 0 to |tris|
      invariant forall i :: 0 <= i < width * height ==>
        Pixel(zBuffer[i], img[i]) == PixelAfter(stamps[..k], i % width, i / width, Transparent)
    {
      var st := SwingStamp(m, transform, tris[k], width, height);
      assert st == stamps[k];
      RasterTriangle(zBuffer, img, width, height, st);
      forall i | 0 <= i < width * height
        ensures Pixel(zBuffer[i], img[i]) == PixelAfter(stamps[..k + 1], i % width, i / width, Transparent)
      {
        PixelAfterStep(stamps, k, i % width, i / width, Transparent);
      }
    }
    assert stamps[..|tris|] == stamps;
  }

  /** The message of the exception `new BufferedImage` throws for an empty image. */
  const BadSize := "Width and height cannot be <= 0"

  /**
   * `paintComponent`: the image it draws over the black panel, in row-major
   * order. Each pixel is what drawing the sphere's triangles in order does
   * to a transparent, infinitely far pixel.
   */
  method PaintComponent(m: Libm, color: Color8, hc: real, hs: real, pc: real, ps: real,
                        width: int, height: int) returns (r: Result<array<int>>)
    requires Sound(m) && color.Valid()
    requires width <= MaxInt && height <= MaxInt
    requires 0 < width && 0 < height ==> width * height <= MaxInt
    ensures r.Err? <==> width <= 0 || height <= 0
    ensures r.Ok? ==> fresh(r.value) && r.value.Length == width * height
    ensures r.Ok? ==> forall i :: 0 <= i < width * height ==>
      r.value[i] == PixelAfter(Stamps(m, color, hc, hs, pc, ps, width, height), i % width, i / width, Transparent).color
  {
    var tris := BuildSphere(m, color);

    var headingTransform := Create(HeadingEntries(hc, hs)).value;
    var pitchTransform := Create(PitchEntries(pc, ps)).value;
    var transform := Multiply(headingTransform, pitchTransform);

    if width <= 0 || height <= 0 {
      return Err(IllegalArgument(BadSize));
    }
    MulNonnegativeInt(width, height);
    var img := new int[width * height](_ => Transparent);
    var zBuffer := new Depth[width * height](_ => NegInf);

    DrawTriangles(zBuffer, img, width, height, m, transform, tris, color);
    return Ok(img);
  }
}
