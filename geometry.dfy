/**
 * Points of 3D space: the `Vertex` helper class of src/Main.java, taken as a
 * value (see Meshes for the one place the source shares vertex objects).
 */
module Geometry {
  import opened Numerics

  datatype Vertex = Vertex(x: real, y: real, z: real)

  const Origin: Vertex := Vertex(0.0, 0.0, 0.0)

  function Sub(a: Vertex, b: Vertex): Vertex
  {
    Vertex(a.x - b.x, a.y - b.y, a.z - b.z)
  }

  function Dot(a: Vertex, b: Vertex): real
  {
    a.x * b.x + a.y * b.y + a.z * b.z
  }

  /** A square, kept as a function of its own so that facts about it can be stated once. */
  function Sq(a: real): real
  {
    a * a
  }

  /**
   * A product of two reals, named so that the sign lemmas below are stated
   * about a term of its own rather than about a raw product.
   */
  function Times(a: real, b: real): real
  {
    a * b
  }

  lemma TimesPositive(a: real, b: real)
    requires 0.0 < a && 0.0 < b
    ensures 0.0 < Times(a, b)
  {
  }

  lemma TimesNonnegative(a: real, b: real)
    requires 0.0 <= a && 0.0 <= b
    ensures 0.0 <= Times(a, b)
  {
  }

  lemma SqNonnegative(a: real)
    ensures 0.0 <= Sq(a)
  {
    if a < 0.0 {
      TimesNonnegative(-a, -a);
      assert Sq(-a) == Sq(a);
    } else {
      TimesNonnegative(a, a);
    }
  }

  lemma SqPositive(a: real)
    requires a != 0.0
    ensures 0.0 < Sq(a)
  {
    if a < 0.0 {
      TimesPositive(-a, -a);
      assert Sq(-a) == Sq(a);
    } else {
      TimesPositive(a, a);
    }
  }

  /** A square root is zero exactly at zero. */
  lemma SqrtZero(m: Libm, x: real)
    requires Sound(m) && 0.0 <= x
    ensures 0.0 <= m.sqrt(x)
    ensures m.sqrt(x) == 0.0 <==> x == 0.0
  {
    var s := m.sqrt(x);
    assert Times(s, s) == x;
    if s > 0.0 {
      TimesPositive(s, s);
    }
  }

  /** The squared length `x*x + y*y + z*z` of which both renderers take a square root. */
  function NormSq(v: Vertex): real
  {
    Sq(v.x) + Sq(v.y) + Sq(v.z)
  }

  /** A squared length is never negative, and it is zero exactly at the origin. */
  lemma NormSqZero(v: Vertex)
    ensures 0.0 <= NormSq(v)
    ensures NormSq(v) == 0.0 <==> v == Origin
  {
    SqNonnegative(v.x); SqNonnegative(v.y); SqNonnegative(v.z);
    if v.x != 0.0 {
      SqPositive(v.x);
    } else if v.y != 0.0 {
      SqPositive(v.y);
    } else if v.z != 0.0 {
      SqPositive(v.z);
    }
  }

  /** Cross product, component for component as both render loops write the face normal. */
  function Cross(a: Vertex, b: Vertex): Vertex
  {
    Vertex(a.y * b.z - a.z * b.y, a.z * b.x - a.x * b.z, a.x * b.y - a.y * b.x)
  }

  /** The midpoint of an edge, as `inflate` computes it: as far from `a` as `b` is from it. */
  function Mid(a: Vertex, b: Vertex): (r: Vertex)
    ensures Sub(r, a) == Sub(b, r)
  {
    Vertex((a.x + b.x) / 2.0, (a.y + b.y) / 2.0, (a.z + b.z) / 2.0)
  }

  /** Every coordinate divided by `l`, as `inflate` rescales a vertex. */
  function Div(v: Vertex, l: real): Vertex
    requires l != 0.0
  {
    Vertex(v.x / l, v.y / l, v.z / l)
  }

  /** The midpoint is equally far from both ends of its edge. */
  lemma MidEquidistant(a: Vertex, b: Vertex)
    ensures NormSq(Sub(a, Mid(a, b))) == NormSq(Sub(b, Mid(a, b)))
  {
  }

  /** Projections onto a direction average over a midpoint. */
  lemma DotMid(n: Vertex, a: Vertex, b: Vertex)
    ensures Dot(n, Mid(a, b)) == (Dot(n, a) + Dot(n, b)) / 2.0
  {
  }

  /** Projections onto a direction scale with a division. */
  lemma DotDiv(n: Vertex, v: Vertex, l: real)
    requires l != 0.0
    ensures Dot(n, Div(v, l)) * l == Dot(n, v)
  {
  }

  /** Squared lengths scale with the square of a division. */
  lemma NormSqDiv(v: Vertex, l: real)
    requires l != 0.0
    ensures NormSq(Div(v, l)) * Sq(l) == NormSq(v)
  {
    var w := Div(v, l);
    assert w.x * l == v.x && w.y * l == v.y && w.z * l == v.z;
    assert Sq(w.x) * Sq(l) == Sq(v.x);
    assert Sq(w.y) * Sq(l) == Sq(v.y);
    assert Sq(w.z) * Sq(l) == Sq(v.z);
  }
}
