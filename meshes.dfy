/**
 * Triangle meshes: the `Triangle` helper class, the built-in shapes of both
 * renderers and `inflate`, which splits every triangle into four and pushes
 * the new vertices out onto the sphere of radius sqrt(30000).
 *
 * Vertices are values here. The source shares vertex objects between the
 * children of one triangle and rescales each shared object once per child
 * that holds it; `RescaleIdempotent` shows that doing it once per
 * occurrence gives the same coordinates.
 */
module Meshes {
  import opened Numerics
  import opened Geometry

  /** A triangle of three corners and a colour (the colour type is left open). */
  datatype Triangle<C> = Triangle(v1: Vertex, v2: Vertex, v3: Vertex, color: C)

  /** The squared radius of the sphere `inflate` projects onto: `Math.sqrt(30000)` squared. */
  const Radius2: real := 30000.0

  // ---------------------------------------------------------------------------
  // Subdivision
  // ---------------------------------------------------------------------------

  /**
   * The four triangles `inflate` makes of one: the corner triangles at v1, v2
   * and v3, then the centre triangle of the three edge midpoints.
   */
  function Children<C>(t: Triangle<C>): (r: seq<Triangle<C>>)
    ensures |r| == 4
    ensures forall k :: 0 <= k < 4 ==> r[k].color == t.color
  {
    var m1, m2, m3 := Mid(t.v1, t.v2), Mid(t.v2, t.v3), Mid(t.v1, t.v3);
    [Triangle(t.v1, m1, m3, t.color), Triangle(t.v2, m1, m2, t.color),
     Triangle(t.v3, m2, m3, t.color), Triangle(m1, m2, m3, t.color)]
  }

  /** The list the first loop of `inflate` builds: the children of every triangle, in order. */
  function Subdivided<C>(tris: seq<Triangle<C>>): (r: seq<Triangle<C>>)
    ensures |r| == 4 * |tris|
  {
    if tris == [] then [] else Subdivided(tris[..|tris| - 1]) + Children(tris[|tris| - 1])
  }

  /** Child `k` of input triangle `j` sits at position `4*j + k`. */
  lemma {:induction false} SubdividedAt<C>(tris: seq<Triangle<C>>, j: nat, k: nat)
    requires j < |tris| && k < 4
    ensures Subdivided(tris)[4 * j + k] == Children(tris[j])[k]
    decreases |tris|
  {
    var n := |tris| - 1;
    if j < n {
      SubdividedAt(tris[..n], j, k);
    }
  }

  /** Every position of the subdivided list holds a child of the input triangle a quarter of the way in. */
  lemma SubdividedParent<C>(tris: seq<Triangle<C>>, i: nat)
    requires i < |Subdivided(tris)|
    ensures Subdivided(tris)[i] == Children(tris[i / 4])[i % 4]
  {
    SubdividedAt(tris, i / 4, i % 4);
  }

  // ---------------------------------------------------------------------------
  // Rescaling onto the sphere
  // ---------------------------------------------------------------------------

  /**
   * The divisor `l = sqrt(x*x + y*y + z*z) / sqrt(30000)` of one vertex: its
   * distance from the origin in units of the target radius. It is zero
   * exactly at the origin, where the source divides by zero.
   */
  function Length(m: Libm, v: Vertex): (r: real)
    requires Sound(m)
    ensures 0.0 <= r
    ensures r == 0.0 <==> v == Origin
  {
    NormSqZero(v);
    SqrtPositive(m, Radius2);
    SqrtZero(m, NormSq(v));
    Quotient(m.sqrt(NormSq(v)), m.sqrt(Radius2));
    m.sqrt(NormSq(v)) / m.sqrt(Radius2)
  }

  lemma Quotient(a: real, b: real)
    requires 0.0 <= a && 0.0 < b
    ensures 0.0 <= a / b
    ensures a / b == 0.0 <==> a == 0.0
  {
  }

  /** One vertex divided by its `l`: it lands at squared distance 30000 from the origin. */
  function Rescale(m: Libm, v: Vertex): (r: Vertex)
    requires Sound(m) && v != Origin
    ensures NormSq(r) == Radius2
  {
    RescaleOnSphere(m, v);
    Div(v, Length(m, v))
  }

  lemma RescaleOnSphere(m: Libm, v: Vertex)
    requires Sound(m) && v != Origin
    ensures NormSq(Div(v, Length(m, v))) == Radius2
  {
    var n := NormSq(v);
    var s, c := m.sqrt(n), m.sqrt(Radius2);
    NormSqZero(v);
    SqrtPositive(m, n);
    SqrtPositive(m, Radius2);
    var l := Length(m, v);
    assert l == s / c;
    assert Sq(l) * Sq(c) == Sq(s) by {
      assert l * c == s;
    }
    assert Sq(s) == n && Sq(c) == Radius2;
    NormSqDiv(v, l);
    var w := NormSq(Div(v, l));
    assert w * Sq(l) == n;
    assert w * n == n * Radius2 by {
      calc {
        w * n;
        w * (Sq(l) * Sq(c));
        (w * Sq(l)) * Sq(c);
        n * Radius2;
      }
    }
  }

  /** A vertex already on the sphere is left where it is. */
  lemma RescaleFixesSphere(m: Libm, v: Vertex)
    requires Sound(m) && NormSq(v) == Radius2
    ensures v != Origin && Rescale(m, v) == v
  {
    NormSqZero(v);
    SqrtPositive(m, Radius2);
    assert Length(m, v) == 1.0;
  }

  /**
   * Rescaling twice is rescaling once, so it does not matter how many of the
   * children sharing a vertex object rescale it.
   */
  lemma RescaleIdempotent(m: Libm, v: Vertex)
    requires Sound(m) && v != Origin
    ensures Rescale(m, v) != Origin && Rescale(m, Rescale(m, v)) == Rescale(m, v)
  {
    RescaleFixesSphere(m, Rescale(m, v));
  }

  /** Rescaling moves a vertex along its ray: it stays on the same side of every plane through the origin. */
  lemma RescaleKeepsSide(m: Libm, v: Vertex, n: Vertex)
    requires Sound(m) && v != Origin && 0.0 < Dot(n, v)
    ensures 0.0 < Dot(n, Rescale(m, v))
  {
    var l := Length(m, v);
    DotDiv(n, v, l);
    var d := Dot(n, Div(v, l));
    if d <= 0.0 {
      TimesNonnegative(-d, l);
      assert false;
    }
  }

  /** No corner of any triangle is at the origin. */
  predicate NoOrigin<C>(tris: seq<Triangle<C>>)
  {
    forall i :: 0 <= i < |tris| ==> tris[i].v1 != Origin && tris[i].v2 != Origin && tris[i].v3 != Origin
  }

  /** Every corner of every triangle is at squared distance 30000 from the origin. */
  predicate OnSphere<C>(tris: seq<Triangle<C>>)
  {
    forall i :: 0 <= i < |tris| ==> NormSq(tris[i].v1) == Radius2 && NormSq(tris[i].v2) == Radius2 && NormSq(tris[i].v3) == Radius2
  }

  /** Every triangle carries colour `c`. */
  predicate AllColored<C(==)>(tris: seq<Triangle<C>>, c: C)
  {
    forall i :: 0 <= i < |tris| ==> tris[i].color == c
  }

  function RescaleTriangle<C>(m: Libm, t: Triangle<C>): (r: Triangle<C>)
    requires Sound(m) && t.v1 != Origin && t.v2 != Origin && t.v3 != Origin
    ensures r.color == t.color
    ensures NormSq(r.v1) == Radius2 && NormSq(r.v2) == Radius2 && NormSq(r.v3) == Radius2
  {
    Triangle(Rescale(m, t.v1), Rescale(m, t.v2), Rescale(m, t.v3), t.color)
  }

  /** What `inflate` returns: the subdivided list with every vertex rescaled. */
  function Inflated<C>(m: Libm, tris: seq<Triangle<C>>): (r: seq<Triangle<C>>)
    requires Sound(m) && NoOrigin(Subdivided(tris))
    ensures |r| == 4 * |tris|
    ensures OnSphere(r)
  {
    var s := Subdivided(tris);
    seq(|s|, i requires 0 <= i < |s| => RescaleTriangle(m, s[i]))
  }

  /** `inflate` makes four triangles of each, all on the sphere, each in its parent's colour. */
  lemma InflatedShape<C>(m: Libm, tris: seq<Triangle<C>>)
    requires Sound(m) && NoOrigin(Subdivided(tris))
    ensures |Inflated(m, tris)| == 4 * |tris|
    ensures OnSphere(Inflated(m, tris))
    ensures forall i :: 0 <= i < |Inflated(m, tris)| ==> Inflated(m, tris)[i].color == tris[i / 4].color
  {
    forall i | 0 <= i < |Inflated(m, tris)| ensures Inflated(m, tris)[i].color == tris[i / 4].color {
      SubdividedParent(tris, i);
    }
  }

  /** A list in one colour stays in that colour. */
  lemma InflatedColored<C>(m: Libm, tris: seq<Triangle<C>>, c: C)
    requires Sound(m) && NoOrigin(Subdivided(tris)) && AllColored(tris, c)
    ensures AllColored(Inflated(m, tris), c)
  {
    forall i | 0 <= i < |Inflated(m, tris)| ensures Inflated(m, tris)[i].color == c {
      SubdividedParent(tris, i);
    }
  }

  /**
   * `inflate`: appends the four children of each triangle to a new list, then
   * walks that list and divides every vertex by its `l`.
   */
  method Inflate<C>(m: Libm, tris: seq<Triangle<C>>) returns (result: seq<Triangle<C>>)
    requires Sound(m) && NoOrigin(Subdivided(tris))
    ensures result == Inflated(m, tris)
  {
    result := [];
    for i := 0 to |tris|
      invariant result == Subdivided(tris[..i])
    {
      var t := tris[i];
      var m1 := Mid(t.v1, t.v2);
      var m2 := Mid(t.v2, t.v3);
      var m3 := Mid(t.v1, t.v3);
      result := result + [Triangle(t.v1, m1, m3, t.color)];
      result := result + [Triangle(t.v2, m1, m2, t.color)];
      result := result + [Triangle(t.v3, m2, m3, t.color)];
      result := result + [Triangle(m1, m2, m3, t.color)];
      assert tris[..i + 1][..i] == tris[..i];
    }
    assert tris[..|tris|] == tris;
    ghost var s := result;
    for i := 0 to |result|
      invariant |result| == |s|
      invariant forall j :: 0 <= j < i ==> result[j] == RescaleTriangle(m, s[j])
      invariant forall j :: i <= j < |result| ==> result[j] == s[j]
    {
      var t := result[i];
      var vs := [t.v1, t.v2, t.v3];
      for k := 0 to 3
        invariant |vs| == 3
        invariant forall q :: 0 <= q < k ==> vs[q] == Rescale(m, [t.v1, t.v2, t.v3][q])
        invariant forall q :: k <= q < 3 ==> vs[q] == [t.v1, t.v2, t.v3][q]
      {
        var v := vs[k];
        var l := Length(m, v);
        vs := vs[k := Vertex(v.x / l, v.y / l, v.z / l)];
      }
      result := result[i := Triangle(vs[0], vs[1], vs[2], t.color)];
    }
    ghost var r := Inflated(m, tris);
    assert forall j :: 0 <= j < |result| ==> result[j] == r[j];
  }

  // ---------------------------------------------------------------------------
  // The hemisphere invariant: why no vertex ever reaches the origin
  // ---------------------------------------------------------------------------

  /** All three corners lie strictly on the side of the plane through the origin that `n` points to. */
  predicate Faces<C>(n: Vertex, t: Triangle<C>)
  {
    0.0 < Dot(n, t.v1) && 0.0 < Dot(n, t.v2) && 0.0 < Dot(n, t.v3)
  }

  /**
   * Each triangle `tris[i]` faces the direction `ns[i]`: every triangle lies in
   * an open half-space bounded by a plane through the origin.
   */
  predicate FacedBy<C>(tris: seq<Triangle<C>>, ns: seq<Vertex>)
  {
    |ns| == |tris| && forall i :: 0 <= i < |tris| ==> Faces(ns[i], tris[i])
  }

  /** Each direction repeated for the four children of its triangle. */
  function Expand(ns: seq<Vertex>): (r: seq<Vertex>)
    ensures |r| == 4 * |ns|
  {
    seq(4 * |ns|, i requires 0 <= i < 4 * |ns| => ns[i / 4])
  }

  lemma FacedByNoOrigin<C>(tris: seq<Triangle<C>>, ns: seq<Vertex>)
    requires FacedBy(tris, ns)
    ensures NoOrigin(tris)
  {
    forall i | 0 <= i < |tris| ensures tris[i].v1 != Origin && tris[i].v2 != Origin && tris[i].v3 != Origin {
      assert Faces(ns[i], tris[i]);
    }
  }

  /** The children of a triangle face the way their parent does. */
  lemma ChildrenFace<C>(n: Vertex, t: Triangle<C>)
    requires Faces(n, t)
    ensures forall k :: 0 <= k < 4 ==> Faces(n, Children(t)[k])
  {
    DotMid(n, t.v1, t.v2);
    DotMid(n, t.v2, t.v3);
    DotMid(n, t.v1, t.v3);
  }

  lemma SubdividedFacedBy<C>(tris: seq<Triangle<C>>, ns: seq<Vertex>)
    requires FacedBy(tris, ns)
    ensures FacedBy(Subdivided(tris), Expand(ns))
  {
    forall i | 0 <= i < |Subdivided(tris)| ensures Faces(Expand(ns)[i], Subdivided(tris)[i]) {
      SubdividedParent(tris, i);
      ChildrenFace(ns[i / 4], tris[i / 4]);
    }
  }

  /**
   * So `inflate` never divides by zero on a list whose triangles each lie in
   * a half-space, and its result again has that property.
   */
  lemma InflatedFacedBy<C>(m: Libm, tris: seq<Triangle<C>>, ns: seq<Vertex>)
    requires Sound(m) && FacedBy(tris, ns)
    ensures NoOrigin(Subdivided(tris))
    ensures FacedBy(Inflated(m, tris), Expand(ns))
  {
    SubdividedFacedBy(tris, ns);
    FacedByNoOrigin(Subdivided(tris), Expand(ns));
    var s, es := Subdivided(tris), Expand(ns);
    forall i | 0 <= i < |s| ensures Faces(es[i], Inflated(m, tris)[i]) {
      assert Faces(es[i], s[i]);
      RescaleKeepsSide(m, s[i].v1, es[i]);
      RescaleKeepsSide(m, s[i].v2, es[i]);
      RescaleKeepsSide(m, s[i].v3, es[i]);
    }
  }

  function Pow4(k: nat): nat
  {
    if k == 0 then 1 else 4 * Pow4(k - 1)
  }

  /** The facing directions after `k` rounds of subdivision. */
  function ExpandN(ns: seq<Vertex>, k: nat): (r: seq<Vertex>)
    ensures |r| == |ns| * Pow4(k)
  {
    if k == 0 then ns else Expand(ExpandN(ns, k - 1))
  }

  /**
   * `k` rounds of `inflate`, as the Swing renderer's loop applies them: the
   * count grows fourfold per round, every triangle keeps facing its
   * ancestor's direction and, after at least one round, every vertex is on
   * the sphere.
   */
  function InflatedN<C>(m: Libm, tris: seq<Triangle<C>>, ghost ns: seq<Vertex>, k: nat): (r: seq<Triangle<C>>)
    requires Sound(m) && FacedBy(tris, ns)
    ensures FacedBy(r, ExpandN(ns, k))
    ensures |r| == |tris| * Pow4(k)
    ensures 0 < k ==> OnSphere(r)
  {
    if k == 0 then tris
    else
      var prev := InflatedN(m, tris, ns, k - 1);
      InflatedFacedBy(m, prev, ExpandN(ns, k - 1));
      InflatedShape(m, prev);
      Inflated(m, prev)
  }

  /** Rounds of `inflate` keep a one-coloured list in its colour. */
  lemma {:induction false} InflatedNColored<C>(m: Libm, tris: seq<Triangle<C>>, ns: seq<Vertex>, k: nat, c: C)
    requires Sound(m) && FacedBy(tris, ns) && AllColored(tris, c)
    ensures AllColored(InflatedN(m, tris, ns, k), c)
  {
    if k > 0 {
      var prev := InflatedN(m, tris, ns, k - 1);
      InflatedNColored(m, tris, ns, k - 1, c);
      InflatedFacedBy(m, prev, ExpandN(ns, k - 1));
      InflatedColored(m, prev, c);
      assert InflatedN(m, tris, ns, k) == Inflated(m, prev);
    }
  }

  // ---------------------------------------------------------------------------
  // The built-in shapes
  // ---------------------------------------------------------------------------

  /** The JavaFX renderer's single triangle. */
  function TriangleShape<C(==)>(color: C): (r: seq<Triangle<C>>)
    ensures |r| == 1 && AllColored(r, color)
  {
    [Triangle(Vertex(0.0, -100.0, 0.0), Vertex(100.0, 100.0, 0.0), Vertex(-100.0, 100.0, 0.0), color)]
  }

  /** The JavaFX renderer's square, split along its top-left to bottom-right diagonal. */
  function SquareShape<C(==)>(color: C): (r: seq<Triangle<C>>)
    ensures |r| == 2 && AllColored(r, color)
  {
    var topLeft, topRight := Vertex(-100.0, 100.0, 0.0), Vertex(100.0, 100.0, 0.0);
    var bottomRight, bottomLeft := Vertex(100.0, -100.0, 0.0), Vertex(-100.0, -100.0, 0.0);
    [Triangle(topLeft, topRight, bottomRight, color), Triangle(topLeft, bottomRight, bottomLeft, color)]
  }

  /** The Swing renderer's starting tetrahedron. */
  function Tetrahedron<C(==)>(color: C): (r: seq<Triangle<C>>)
    ensures |r| == 4 && AllColored(r, color)
  {
    var a, b := Vertex(100.0, 100.0, 100.0), Vertex(-100.0, -100.0, 100.0);
    var c, d := Vertex(-100.0, 100.0, -100.0), Vertex(100.0, -100.0, -100.0);
    [Triangle(a, b, c, color), Triangle(a, b, d, color), Triangle(c, d, a, color), Triangle(c, d, b, color)]
  }

  /** The direction each tetrahedron face faces: the sum of its three corners. */
  function TetrahedronFacing(): (r: seq<Vertex>)
    ensures |r| == 4
  {
    [Vertex(-100.0, 100.0, 100.0), Vertex(100.0, -100.0, 100.0),
     Vertex(100.0, 100.0, -100.0), Vertex(-100.0, -100.0, -100.0)]
  }

  /** Every corner of the tetrahedron is already on the sphere, and each face faces its corner sum. */
  lemma TetrahedronOnSphere<C>(color: C)
    ensures OnSphere(Tetrahedron(color))
    ensures FacedBy(Tetrahedron(color), TetrahedronFacing())
  {
  }

  /** The number of `inflate` rounds the Swing renderer applies. */
  const InflationLevel: nat := 4

  /** The Swing renderer's mesh: the tetrahedron after four rounds of `inflate`. */
  function SphereMesh<C(==)>(m: Libm, color: C): (r: seq<Triangle<C>>)
    requires Sound(m)
    ensures |r| == 1024
    ensures OnSphere(r) && AllColored(r, color) && NoOrigin(r)
  {
    TetrahedronOnSphere(color);
    var r := InflatedN(m, Tetrahedron(color), TetrahedronFacing(), InflationLevel);
    InflatedNColored(m, Tetrahedron(color), TetrahedronFacing(), InflationLevel, color);
    FacedByNoOrigin(r, ExpandN(TetrahedronFacing(), InflationLevel));
    r
  }
}
