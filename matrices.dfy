/**
 * The `Matrix3` helper class of src/Main.java: a 3x3 matrix stored as nine
 * reals in row-major order. The class never changes its array after
 * construction, so it is modelled as a value.
 */
module Matrices {
  import opened Numerics
  import opened Geometry

  datatype Matrix3 = Matrix3(m: seq<real>) {
    predicate Valid() { |m| == 9 }
  }

  /** The constructor: refuses any array that does not hold exactly nine entries. */
  function Create(m: seq<real>): (r: Result<Matrix3>)
    ensures r.Ok? <==> |m| == 9
    ensures r.Ok? ==> r.value.m == m && r.value.Valid()
    ensures r.Err? ==> r.error.IllegalArgument?
  {
    if |m| != 9 then Err(IllegalArgument("Matrix muss 9 Elemente haben"))
    else Ok(Matrix3(m))
  }

  /** The entries of the identity matrix. */
  const IdentityEntries: seq<real> := [1.0, 0.0, 0.0, 0.0, 1.0, 0.0, 0.0, 0.0, 1.0]

  /** `transform`: the matrix applied to a column vector. */
  function Transform(a: Matrix3, v: Vertex): Vertex
    requires a.Valid()
  {
    Vertex(Row(a.m, 0, v), Row(a.m, 1, v), Row(a.m, 2, v))
  }

  /** Row `i` of a row-major matrix times a column vector. */
  function Row(m: seq<real>, i: nat, v: Vertex): real
    requires |m| == 9 && i < 3
  {
    m[i * 3] * v.x + m[i * 3 + 1] * v.y + m[i * 3 + 2] * v.z
  }

  /**
   * The first `k` terms of row `i` of `a` times column `j` of `b`, added up
   * from zero in the order the innermost loop of `multiply` adds them.
   */
  function RowCol(a: Matrix3, b: Matrix3, i: nat, j: nat, k: nat): real
    requires a.Valid() && b.Valid() && i < 3 && j < 3 && k <= 3
  {
    if k == 0 then 0.0 else RowCol(a, b, i, j, k - 1) + a.m[i * 3 + k - 1] * b.m[(k - 1) * 3 + j]
  }

  /** The matrix product that `multiply` computes. */
  function Product(a: Matrix3, b: Matrix3): (r: Matrix3)
    requires a.Valid() && b.Valid()
    ensures r.Valid()
  {
    Matrix3(seq(9, p requires 0 <= p < 9 => RowCol(a, b, p / 3, p % 3, 3)))
  }

  lemma RowColFull(a: Matrix3, b: Matrix3, i: nat, j: nat)
    requires a.Valid() && b.Valid() && i < 3 && j < 3
    ensures RowCol(a, b, i, j, 3) == a.m[i * 3] * b.m[j] + a.m[i * 3 + 1] * b.m[3 + j] + a.m[i * 3 + 2] * b.m[6 + j]
  {
    assert RowCol(a, b, i, j, 1) == a.m[i * 3] * b.m[j];
    assert RowCol(a, b, i, j, 2) == RowCol(a, b, i, j, 1) + a.m[i * 3 + 1] * b.m[3 + j];
  }

  /** One row of the associativity of matrix times matrix times vector, on plain reals. */
  lemma RowAssoc(a0: real, a1: real, a2: real, b: seq<real>, x: real, y: real, z: real)
    requires |b| == 9
    ensures (a0 * b[0] + a1 * b[3] + a2 * b[6]) * x + (a0 * b[1] + a1 * b[4] + a2 * b[7]) * y
            + (a0 * b[2] + a1 * b[5] + a2 * b[8]) * z
         == a0 * (b[0] * x + b[1] * y + b[2] * z) + a1 * (b[3] * x + b[4] * y + b[5] * z)
            + a2 * (b[6] * x + b[7] * y + b[8] * z)
  {
  }

  /** Multiplying first and applying afterwards is applying `b`, then `a`. */
  lemma ProductTransform(a: Matrix3, b: Matrix3, v: Vertex)
    requires a.Valid() && b.Valid()
    ensures Transform(Product(a, b), v) == Transform(a, Transform(b, v))
  {
    ProductRow(a, b, v, 0);
    ProductRow(a, b, v, 1);
    ProductRow(a, b, v, 2);
  }

  /** Row `i` of `ProductTransform`. */
  lemma ProductRow(a: Matrix3, b: Matrix3, v: Vertex, i: nat)
    requires a.Valid() && b.Valid() && i < 3
    ensures Row(Product(a, b).m, i, v) == Row(a.m, i, Transform(b, v))
  {
    var p := Product(a, b);
    RowColFull(a, b, i, 0); RowColFull(a, b, i, 1); RowColFull(a, b, i, 2);
    assert p.m[i * 3] == RowCol(a, b, i, 0, 3);
    assert p.m[i * 3 + 1] == RowCol(a, b, i, 1, 3);
    assert p.m[i * 3 + 2] == RowCol(a, b, i, 2, 3);
    RowAssoc(a.m[i * 3], a.m[i * 3 + 1], a.m[i * 3 + 2], b.m, v.x, v.y, v.z);
  }

  /**
   * `transform` is linear: it maps the difference of two vectors to the
   * difference of their images, and the identity matrix leaves every vector
   * alone.
   */
  lemma TransformLinear(a: Matrix3, u: Vertex, v: Vertex)
    requires a.Valid()
    ensures Transform(a, Sub(u, v)) == Sub(Transform(a, u), Transform(a, v))
    ensures a.m == IdentityEntries ==> Transform(a, v) == v
  {
    var d := Sub(u, v);
    RowDifference(a.m[0], a.m[1], a.m[2], u, v);
    RowDifference(a.m[3], a.m[4], a.m[5], u, v);
    RowDifference(a.m[6], a.m[7], a.m[8], u, v);
    assert Row(a.m, 0, d) == Row(a.m, 0, u) - Row(a.m, 0, v);
    assert Row(a.m, 1, d) == Row(a.m, 1, u) - Row(a.m, 1, v);
    assert Row(a.m, 2, d) == Row(a.m, 2, u) - Row(a.m, 2, v);
  }

  /** One row of `TransformLinear`, on plain reals. */
  lemma RowDifference(c0: real, c1: real, c2: real, u: Vertex, v: Vertex)
    ensures c0 * (u.x - v.x) + c1 * (u.y - v.y) + c2 * (u.z - v.z)
         == (c0 * u.x + c1 * u.y + c2 * u.z) - (c0 * v.x + c1 * v.y + c2 * v.z)
  {
  }

  /**
   * `multiply`: fills a fresh nine-element array in a triple loop,
   * `result[i*3+j] += this[i*3+k] * other[k*3+j]`.
   */
  method Multiply(a: Matrix3, b: Matrix3) returns (r: Matrix3)
    requires a.Valid() && b.Valid()
    ensures r.Valid() && r == Product(a, b)
    ensures forall v :: Transform(r, v) == Transform(a, Transform(b, v))
  {
    var result := new real[9];
    for i := 0 to 3
      invariant forall p :: 0 <= p < i * 3 ==> result[p] == RowCol(a, b, p / 3, p % 3, 3)
    {
      for j := 0 to 3
        invariant forall p :: 0 <= p < i * 3 ==> result[p] == RowCol(a, b, p / 3, p % 3, 3)
        invariant forall q :: 0 <= q < j ==> result[i * 3 + q] == RowCol(a, b, i, q, 3)
      {
        result[i * 3 + j] := 0.0;
        for k := 0 to 3
          invariant forall p :: 0 <= p < i * 3 ==> result[p] == RowCol(a, b, p / 3, p % 3, 3)
          invariant forall q :: 0 <= q < j ==> result[i * 3 + q] == RowCol(a, b, i, q, 3)
          invariant result[i * 3 + j] == RowCol(a, b, i, j, k)
        {
          result[i * 3 + j] := result[i * 3 + j] + a.m[i * 3 + k] * b.m[k * 3 + j];
        }
      }
    }
    r := Matrix3(result[..]);
    assert r == Product(a, b);
    forall v ensures Transform(r, v) == Transform(a, Transform(b, v)) {
      ProductTransform(a, b, v);
    }
  }

  /** The nine entries src/Main.java gives the heading (Y axis) rotation, from its cosine and sine. */
  function HeadingEntries(cos: real, sin: real): (r: seq<real>)
    ensures |r| == 9
    ensures cos == 1.0 && sin == 0.0 ==> r == IdentityEntries
  {
    [cos, 0.0, sin,
     0.0, 1.0, 0.0,
     -sin, 0.0, cos]
  }

  /** The nine entries of the pitch (X axis) rotation. */
  function PitchEntries(cos: real, sin: real): (r: seq<real>)
    ensures |r| == 9
    ensures cos == 1.0 && sin == 0.0 ==> r == IdentityEntries
  {
    [1.0, 0.0, 0.0,
     0.0, cos, sin,
     0.0, -sin, cos]
  }

  /** A heading matrix built from a true cosine/sine pair keeps every length. */
  lemma HeadingIsRotation(cos: real, sin: real, v: Vertex)
    requires Sq(cos) + Sq(sin) == 1.0
    ensures NormSq(Transform(Matrix3(HeadingEntries(cos, sin)), v)) == NormSq(v)
  {
    var w := Transform(Matrix3(HeadingEntries(cos, sin)), v);
    assert w.x == cos * v.x + sin * v.z && w.y == v.y && w.z == -sin * v.x + cos * v.z;
    PlaneRotation(cos, sin, v.x, v.z);
  }

  /** So does a pitch matrix. */
  lemma PitchIsRotation(cos: real, sin: real, v: Vertex)
    requires Sq(cos) + Sq(sin) == 1.0
    ensures NormSq(Transform(Matrix3(PitchEntries(cos, sin)), v)) == NormSq(v)
  {
    var w := Transform(Matrix3(PitchEntries(cos, sin)), v);
    assert w.x == v.x && w.y == cos * v.y + sin * v.z && w.z == -sin * v.y + cos * v.z;
    PlaneRotation(cos, sin, v.y, v.z);
  }

  /** A rotation in one coordinate plane, on plain reals. */
  lemma PlaneRotation(c: real, s: real, p: real, q: real)
    ensures Sq(c * p + s * q) + Sq(-s * p + c * q) == (Sq(c) + Sq(s)) * (Sq(p) + Sq(q))
  {
  }

  /**
   * The heading x pitch composition the renderers build is length-preserving:
   * every vertex stays at its distance from the origin.
   */
  lemma ComposedRotationKeepsLength(hc: real, hs: real, pc: real, ps: real, v: Vertex)
    requires Sq(hc) + Sq(hs) == 1.0 && Sq(pc) + Sq(ps) == 1.0
    ensures NormSq(Transform(Product(Matrix3(HeadingEntries(hc, hs)), Matrix3(PitchEntries(pc, ps))), v)) == NormSq(v)
  {
    var h, p := Matrix3(HeadingEntries(hc, hs)), Matrix3(PitchEntries(pc, ps));
    ProductTransform(h, p, v);
    PitchIsRotation(pc, ps, v);
    HeadingIsRotation(hc, hs, Transform(p, v));
  }
}
