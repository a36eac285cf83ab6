/**
 * What the renderer borrows from Java's runtime: the IllegalArgumentException
 * failures it can raise, Math.sqrt and Math.pow (kept abstract), and the
 * double-to-int narrowing of a `(int)` cast. Java doubles are modelled as `real`.
 */
module Numerics {

  /** The one exception the core can raise. */
  datatype Error = IllegalArgument(message: string)

  datatype Result<+T> = Ok(value: T) | Err(error: Error) {
    predicate IsFailure() { Err? }

    function PropagateFailure<U>(): Result<U>
      requires Err?
    {
      Err(error)
    }

    function Extract(): T
      requires Ok?
    {
      value
    }
  }

  datatype Option<+T> = None | Some(value: T)

  /**
   * Math.sqrt and Math.pow, left uninterpreted: the model only relies on the
   * facts listed in Sound.
   */
  datatype Libm = Libm(sqrt: real -> real, pow: (real, real) -> real)

  /** The exponent of the gamma curve in both getShade versions. */
  const Gamma: real := 2.4
  const InvGamma: real := 1.0 / 2.4

  /** The properties of real square root and real power that the proofs use. */
  ghost predicate Sound(m: Libm)
  {
    && (forall x :: 0.0 <= x ==> 0.0 <= m.sqrt(x) && m.sqrt(x) * m.sqrt(x) == x)
    && (forall x, p :: 0.0 <= x && 0.0 < p ==> 0.0 <= m.pow(x, p))
    && (forall p :: 0.0 < p ==> m.pow(0.0, p) == 0.0)
    && (forall x, y, p :: 0.0 <= x <= y && 0.0 < p ==> m.pow(x, p) <= m.pow(y, p))
    && (forall x :: 0.0 <= x ==> m.pow(m.pow(x, Gamma), InvGamma) == x)
  }

  lemma SqrtPositive(m: Libm, x: real)
    requires Sound(m) && 0.0 < x
    ensures 0.0 < m.sqrt(x)
  {
    assert m.sqrt(x) * m.sqrt(x) == x;
  }

  const MinInt: int := -0x8000_0000
  const MaxInt: int := 0x7fff_ffff

  function MinR(a: real, b: real): real { if a <= b then a else b }
  function MaxR(a: real, b: real): real { if a >= b then a else b }
  function Abs(a: real): real { if a < 0.0 then -a else a }

  /** Math.floor, as the integer it yields. */
  function Floor(x: real): (r: int)
    ensures r as real <= x < r as real + 1.0
  {
    x.Floor
  }

  /** Math.ceil, as the integer it yields. */
  function Ceil(x: real): (r: int)
    ensures r as real - 1.0 < x <= r as real
  {
    -((-x).Floor)
  }

  /**
   * The `(int)` cast of a (non-NaN) double: rounds toward zero and saturates
   * at the bounds of a 32-bit int.
   */
  function D2I(x: real): (r: int)
    ensures MinInt <= r <= MaxInt
    ensures MinInt as real <= x <= MaxInt as real ==> Abs(x - r as real) < 1.0 && Abs(r as real) <= Abs(x)
    ensures x == x.Floor as real && MinInt as real <= x <= MaxInt as real ==> r == x.Floor
    ensures MaxInt as real <= x ==> r == MaxInt
    ensures x <= MinInt as real ==> r == MinInt
  {
    if x >= MaxInt as real then MaxInt
    else if x <= MinInt as real then MinInt
    else if x >= 0.0 then x.Floor
    else -((-x).Floor)
  }

  lemma MulNonnegativeInt(a: int, b: int)
    requires 0 <= a && 0 <= b
    ensures 0 <= a * b
  {
  }

  /** Quotient and remainder by a positive divisor are determined by `i == q * w + r`, `0 <= r < w`. */
  lemma DivUnique(i: int, w: int, q: int, r: int)
    requires 0 < w && 0 <= r < w && i == q * w + r
    ensures i / w == q && i % w == r
  {
    var q', r' := i / w, i % w;
    assert i == q' * w + r' && 0 <= r' < w;
    if q' > q {
      MulNonnegativeInt(q' - q - 1, w);
      assert false;
    } else if q' < q {
      MulNonnegativeInt(q - q' - 1, w);
      assert false;
    }
  }
}
