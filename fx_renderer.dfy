/**
 * `draw()` of the JavaFX application: clear a width x height image to black,
 * build the selected shape, rotate it, and rasterise every triangle with a
 * depth buffer and one flat shade per triangle.
 */
module FxRenderer {
  import opened Numerics
  import opened Geometry
  import opened Matrices
  import opened Meshes
  import opened Raster
  import opened Shading
  import opened Scene

  /** The shapes the toolbar offers. */
  datatype ShapeType = OneTriangle | Square

  /** The triangle list `draw()` builds for the selected shape. */
  function Shape(shape: ShapeType, color: Color): (r: seq<Triangle<Color>>)
    ensures AllColored(r, color)
    ensures |r| == (if shape == OneTriangle then 1 else 2)
  {
    match shape
    case OneTriangle => TriangleShape(color)
    case Square => SquareShape(color)
  }

  /**
   * One triangle as the raster loop sees it: its corners in image space and
   * `getShade(triangle.color, angleCos)`. The shade is an opaque colour no
   * brighter than the triangle's own.
   */
  function FxStamp(m: Libm, view: Matrix3, t: Triangle<Color>, width: int, height: int): (r: Stamp<Color>)
    requires Sound(m) && view.Valid() && t.color.Valid()
    ensures Dimmed(r.ink, t.color)
  {
    var a := ToScreen(view, t.v1, width, height);
    var b := ToScreen(view, t.v2, width, height);
    var c := ToScreen(view, t.v3, width, height);
    var angleCos := FxAngleCos(m, a, b, c);
    GetShadeDarkens(m, t.color, angleCos);
    Stamp(a, b, c, GetShade(m, t.color, angleCos).value)
  }

  /** An opaque colour no brighter than `color`. */
  predicate Dimmed(c: Color, color: Color)
  {
    c.Valid() && c.opacity == 1.0 && c.red <= color.red && c.green <= color.green && c.blue <= color.blue
  }

  /** A list of triangles of one colour as the raster loop sees them, in drawing order. */
  function StampsOf(m: Libm, view: Matrix3, tris: seq<Triangle<Color>>, color: Color,
                    width: int, height: int): (r: seq<Stamp<Color>>)
    requires Sound(m) && view.Valid() && color.Valid() && AllColored(tris, color)
    ensures |r| == |tris|
    ensures forall i :: 0 <= i < |r| ==> Dimmed(r[i].ink, color)
  {
    seq(|tris|, i requires 0 <= i < |tris| => FxStamp(m, view, tris[i], width, height))
  }

  /** The triangles of one frame, in drawing order. */
  function Stamps(m: Libm, shape: ShapeType, color: Color, hc: real, hs: real, pc: real, ps: real,
                  width: int, height: int): (r: seq<Stamp<Color>>)
    requires Sound(m) && color.Valid()
    ensures |r| == |Shape(shape, color)|
    ensures forall i :: 0 <= i < |r| ==> Dimmed(r[i].ink, color)
  {
    StampsOf(m, View(hc, hs, pc, ps), Shape(shape, color), color, width, height)
  }

  /**
   * Every pixel of a frame is an opaque colour no brighter than the chosen
   * colour: the black background, or the shade of some triangle.
   */
  lemma DrawnColors(m: Libm, shape: ShapeType, color: Color, hc: real, hs: real, pc: real, ps: real,
                    width: int, height: int, x: int, y: int)
    requires Sound(m) && color.Valid()
    ensures Dimmed(PixelAfter(Stamps(m, shape, color, hc, hs, pc, ps, width, height), x, y, Black).color, color)
  {
    var stamps := Stamps(m, shape, color, hc, hs, pc, ps, width, height);
    ColorFromNearest(stamps, x, y, Black);
    var p := PixelAfter(stamps, x, y, Black);
    if p.color != Black {
      var j :| 0 <= j < |stamps| && Offer(stamps[j], x, y) == p.depth && stamps[j].ink == p.color;
    }
  }

  /** The nested loop that sets every pixel of a fresh image to black, one row at a time. */
  method FillBlack(image: array<Color>, width: int, height: int)
    requires 0 < width && 0 < height && image.Length == width * height
    modifies image
    ensures forall i :: 0 <= i < image.Length ==> image[i] == Black
  {
    var y, rowStart := 0, 0;
    while y < height
      invariant 0 <= y <= height && rowStart == y * width
      invariant forall i :: 0 <= i < rowStart ==> image[i] == Black
    {
      IndexInRange(width, height, width - 1, y);
      FillRow(image, rowStart, width);
      y, rowStart := y + 1, rowStart + width;
    }
  }

  /** The inner loop: the `width` pixels from `rowStart` on become black, the rest stay. */
  method FillRow(image: array<Color>, rowStart: int, width: int)
    requires 0 <= rowStart && 0 <= width && rowStart + width <= image.Length
    modifies image
    ensures forall i :: 0 <= i < image.Length ==>
      image[i] == if rowStart <= i < rowStart + width then Black else old(image[i])
  {
    for x := 0 to width
      invariant forall i :: 0 <= i < image.Length ==>
        image[i] == if rowStart <= i < rowStart + x then Black else old(image[i])
    {
      image[rowStart + x] := Black;
    }
  }

  /**
   * The loop over the triangles: every pixel ends up as drawing the
   * triangles in order makes it, starting from a black, infinitely far pixel.
   */
  method DrawTriangles(zBuffer: array<Depth>, image: array<Color>, width: int, height: int,
                       m: Libm, transform: Matrix3, tris: seq<Triangle<Color>>, color: Color)
    requires 0 < width <= MaxInt && 0 < height <= MaxInt
    requires zBuffer.Length == width * height && image.Length == width * height
    requires zBuffer as object != image as object
    requires Sound(m) && transform.Valid() && color.Valid() && AllColored(tris, color)
    requires forall i :: 0 <= i < width * height ==> zBuffer[i] == NegInf && image[i] == Black
    modifies zBuffer, image
    ensures forall i :: 0 <= i < width * height ==>
      Pixel(zBuffer[i], image[i]) == PixelAfter(StampsOf(m, transform, tris, color, width, height), i % width, i / width, Black)
  {
    ghost var stamps := StampsOf(m, transform, tris, color, width, height);
    for k := 0 to |tris|
      invariant forall i :: 0 <= i < width * height ==>
        Pixel(zBuffer[i], image[i]) == PixelAfter(stamps[..k], i % width, i / width, Black)
    {
      var st := FxStamp(m, transform, tris[k], width, height);
      assert st == stamps[k];
      RasterTriangle(zBuffer, image, width, height, st);
      forall i | 0 <= i < width * height
        ensures Pixel(zBuffer[i], image[i]) == PixelAfter(stamps[..k + 1], i % width, i / width, Black)
      {
        PixelAfterStep(stamps, k, i % width, i / width, Black);
      }
    }
    assert stamps[..|tris|] == stamps;
  }

  /** The message of the exception `new WritableImage` throws for an empty image. */
  const BadSize := "Image dimensions must be positive"

  /**
   * `draw()`: the image it hands to the canvas, in row-major order. Each
   * pixel is what drawing the shape's triangles in order does to a black,
   * infinitely far pixel.
   */
  method Draw(m: Libm, shape: ShapeType, color: Color, hc: real, hs: real, pc: real, ps: real,
              width: int, height: int) returns (r: Result<array<Color>>)
    requires Sound(m) && color.Valid()
    requires width <= MaxInt && height <= MaxInt
    requires 0 < width && 0 < height ==> width * height <= MaxInt
    ensures r.Err? <==> width <= 0 || height <= 0
    ensures r.Ok? ==> fresh(r.value) && r.value.Length == width * height
    ensures r.Ok? ==> forall i :: 0 <= i < width * height ==>
      r.value[i] == PixelAfter(Stamps(m, shape, color, hc, hs, pc, ps, width, height), i % width, i / width, Black).color
  {
    if width <= 0 || height <= 0 {
      return Err(IllegalArgument(BadSize));
    }
    MulNonnegativeInt(width, height);
    var image := new Color[width * height](_ => Color(0.0, 0.0, 0.0, 0.0));
    FillBlack(image, width, height);
    var zBuffer := new Depth[width * height](_ => NegInf);

    var tris := Shape(shape, color);
    var headingTransform := Create(HeadingEntries(hc, hs)).value;
    var pitchTransform := Create(PitchEntries(pc, ps)).value;
    var transform := Multiply(headingTransform, pitchTransform);

    DrawTriangles(zBuffer, image, width, height, m, transform, tris, color);
    return Ok(image);
  }
}
