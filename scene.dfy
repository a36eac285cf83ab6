/**
 * What both renderers do to every triangle before rasterising it: rotate it
 * by heading then pitch and move it so that the model origin lands on the
 * centre of the image.
 */
module Scene {
  import opened Numerics
  import opened Geometry
  import opened Matrices
  import opened Raster
  import opened Shading

  /**
   * `headingTransform.multiply(pitchTransform)` for the given cosines and
   * sines: applying it applies the pitch, then the heading.
   */
  function View(hc: real, hs: real, pc: real, ps: real): (r: Matrix3)
    ensures r.Valid()
    ensures forall v :: Transform(r, v) == Transform(Matrix3(HeadingEntries(hc, hs)), Transform(Matrix3(PitchEntries(pc, ps)), v))
  {
    var heading, pitch := Matrix3(HeadingEntries(hc, hs)), Matrix3(PitchEntries(pc, ps));
    forall v ensures Transform(Product(heading, pitch), v) == Transform(heading, Transform(pitch, v)) {
      ProductTransform(heading, pitch, v);
    }
    Product(heading, pitch)
  }

  /** The image centre `(width / 2.0, height / 2.0)` at depth 0. */
  function Center(width: int, height: int): Vertex
  {
    Vertex(width as real / 2.0, height as real / 2.0, 0.0)
  }

  /**
   * A model vertex transformed and shifted by half the image size in x and
   * y: the model origin lands on the image centre.
   */
  function ToScreen(view: Matrix3, v: Vertex, width: int, height: int): (r: Vertex)
    requires view.Valid()
    ensures Sub(r, Center(width, height)) == Transform(view, v)
  {
    var t := Transform(view, v);
    Vertex(t.x + width as real / 2.0, t.y + height as real / 2.0, t.z)
  }

  /**
   * For true rotation angles the screen position is a rigid motion of the
   * model position: its distance from the image centre is the vertex's
   * distance from the model origin.
   */
  lemma ScreenDistance(hc: real, hs: real, pc: real, ps: real, v: Vertex, width: int, height: int)
    requires Sq(hc) + Sq(hs) == 1.0 && Sq(pc) + Sq(ps) == 1.0
    ensures NormSq(Sub(ToScreen(View(hc, hs, pc, ps), v, width, height), Center(width, height))) == NormSq(v)
  {
    var view := View(hc, hs, pc, ps);
    ComposedRotationKeepsLength(hc, hs, pc, ps, v);
    assert Sub(ToScreen(view, v, width, height), Center(width, height)) == Transform(view, v);
  }

  /** The z component of the face normal is the negated doubled signed area the raster loop divides by. */
  lemma NormalZIsArea(a: Vertex, b: Vertex, c: Vertex)
    ensures Normal(a, b, c).z == -Area(a, b, c)
  {
  }

  /**
   * A triangle whose normal vanishes covers no pixel: its area is zero, so
   * no barycentric weights exist. This is why the Swing renderer's NaN
   * shade for such a triangle never reaches the image.
   */
  lemma FlatFaceCoversNothing<P>(st: Stamp<P>, x: int, y: int, p: Pixel<P>)
    requires Normal(st.a, st.b, st.c) == Origin
    ensures Sample(st, x, y).None?
    ensures Paint(st, x, y, p) == p
  {
    NormalZIsArea(st.a, st.b, st.c);
  }
}
