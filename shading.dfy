/**
 * Flat shading: the cosine between a face normal and the viewing axis, and
 * the two `getShade` versions that darken a colour by it through a gamma
 * curve, once with JavaFX colours (channels in [0, 1], clamped) and once
 * with AWT colours (channels 0..255, truncated to int).
 */
module Shading {
  import opened Numerics
  import opened Geometry

  // ---------------------------------------------------------------------------
  // The face normal
  // ---------------------------------------------------------------------------

  /** The unnormalised face normal `ab x ac` both render loops compute. */
  function Normal(a: Vertex, b: Vertex, c: Vertex): Vertex
  {
    Cross(Sub(b, a), Sub(c, a))
  }

  /** The normal is perpendicular to both edges it is built from. */
  lemma NormalPerpendicular(a: Vertex, b: Vertex, c: Vertex)
    ensures Dot(Normal(a, b, c), Sub(b, a)) == 0.0
    ensures Dot(Normal(a, b, c), Sub(c, a)) == 0.0
  {
  }

  /** `normLength`: the length of the normal. It is zero exactly when the normal is. */
  function NormalLength(m: Libm, n: Vertex): (r: real)
    requires Sound(m)
    ensures 0.0 <= r
    ensures r == 0.0 <==> n == Origin
  {
    NormSqZero(n);
    SqrtZero(m, NormSq(n));
    m.sqrt(NormSq(n))
  }

  /** No coordinate is longer than the whole vector. */
  lemma CoordinateBelowLength(m: Libm, n: Vertex)
    requires Sound(m)
    ensures Abs(n.z) <= NormalLength(m, n)
  {
    var l, z := NormalLength(m, n), Abs(n.z);
    assert Sq(l) == NormSq(n);
    assert Sq(z) == Sq(n.z);
    SqNonnegative(n.x);
    SqNonnegative(n.y);
    if l < z {
      TimesPositive(z - l, z + l);
      assert false;
    }
  }

  lemma QuotientAtMostOne(p: real, q: real)
    requires Abs(p) <= q && 0.0 < q
    ensures 0.0 <= Abs(p / q) <= 1.0
  {
    var d := p / q;
    assert Times(d, q) == p;
    if d > 1.0 {
      TimesPositive(d - 1.0, q);
      assert false;
    } else if d < -1.0 {
      TimesPositive(-1.0 - d, q);
      assert false;
    }
  }

  /**
   * The JavaFX renderer's `angleCos`: the normal is divided by its length
   * unless that is zero, then the absolute value of its z component is taken.
   * It lies in [0, 1] and is 0 for a degenerate triangle.
   */
  function FxAngleCos(m: Libm, a: Vertex, b: Vertex, c: Vertex): (r: real)
    requires Sound(m)
    ensures 0.0 <= r <= 1.0
    ensures Normal(a, b, c) == Origin ==> r == 0.0
  {
    var norm := Normal(a, b, c);
    var normLength := NormalLength(m, norm);
    if normLength != 0.0 then
      CoordinateBelowLength(m, norm);
      QuotientAtMostOne(norm.z, normLength);
      Abs(norm.z / normLength)
    else
      Abs(norm.z)
  }

  /**
   * The Swing renderer's `angleCos`: the normal is divided by its length
   * without a guard, so a degenerate triangle yields NaN, which is `None`
   * here. Otherwise it lies in [0, 1].
   */
  function SwingAngleCos(m: Libm, a: Vertex, b: Vertex, c: Vertex): (r: Option<real>)
    requires Sound(m)
    ensures r.None? <==> Normal(a, b, c) == Origin
    ensures r.Some? ==> 0.0 <= r.value <= 1.0
  {
    var norm := Normal(a, b, c);
    var normalLength := NormalLength(m, norm);
    if normalLength == 0.0 then None
    else
      CoordinateBelowLength(m, norm);
      QuotientAtMostOne(norm.z, normalLength);
      Some(Abs(norm.z / normalLength))
  }

  // ---------------------------------------------------------------------------
  // JavaFX colours
  // ---------------------------------------------------------------------------

  /** A javafx.scene.paint.Color: red, green, blue and opacity, each in [0, 1]. */
  datatype Color = Color(red: real, green: real, blue: real, opacity: real)
  {
    predicate Valid()
    {
      0.0 <= red <= 1.0 && 0.0 <= green <= 1.0 && 0.0 <= blue <= 1.0 && 0.0 <= opacity <= 1.0
    }
  }

  const Black: Color := Color(0.0, 0.0, 0.0, 1.0)

  /** `clamp`: the nearest value in [0, 1]. */
  function Clamp(value: real): (r: real)
    ensures 0.0 <= r <= 1.0
    ensures 0.0 <= value <= 1.0 ==> r == value
    ensures value < 0.0 ==> r == 0.0
    ensures 1.0 < value ==> r == 1.0
  {
    MaxR(0.0, MinR(1.0, value))
  }

  /**
   * One channel of `getShade`: `pow(pow(channel, 2.4) * shade, 1 / 2.4)`,
   * clamped. `None` stands for NaN: `Math.pow` returns it for a negative
   * base, which a negative shade makes of every non-zero channel, and
   * `clamp` passes NaN through because `Math.min` and `Math.max` do.
   */
  function FxChannel(m: Libm, channel: real, shade: real): (r: Option<real>)
    requires Sound(m) && 0.0 <= channel
    ensures r.None? <==> shade < 0.0 && 0.0 < channel
    ensures r.Some? ==> 0.0 <= r.value <= 1.0
  {
    var linear := m.pow(channel, Gamma) * shade;
    NegativeLinear(m, channel, shade);
    if linear < 0.0 then None
    else Some(Clamp(m.pow(linear, InvGamma)))
  }

  /** `pow(channel, 2.4) * shade` is negative exactly for a negative shade and a non-zero channel. */
  lemma NegativeLinear(m: Libm, channel: real, shade: real)
    requires Sound(m) && 0.0 <= channel
    ensures m.pow(channel, Gamma) * shade < 0.0 <==> shade < 0.0 && 0.0 < channel
  {
    var p := m.pow(channel, Gamma);
    if 0.0 < channel {
      PowPositive(m, channel);
      if shade < 0.0 {
        TimesPositive(p, -shade);
        assert Times(p, -shade) == -(p * shade);
      } else {
        TimesNonnegative(p, shade);
      }
    } else {
      assert p == 0.0;
    }
  }

  /** A positive channel stays positive under the gamma curve, since the curve can be undone. */
  lemma PowPositive(m: Libm, x: real)
    requires Sound(m) && 0.0 < x
    ensures 0.0 < m.pow(x, Gamma)
  {
    assert m.pow(m.pow(x, Gamma), InvGamma) == x;
  }

  /**
   * `getShade` of the JavaFX renderer: the colour darkened by `shade`, fully
   * opaque. `None` is a colour with a NaN channel: JavaFX's `Color`
   * constructor accepts it, since NaN passes its range check. Only a
   * negative shade on a colour that is not black produces one.
   */
  function GetShade(m: Libm, color: Color, shade: real): (r: Option<Color>)
    requires Sound(m) && color.Valid()
    ensures r.None? <==> shade < 0.0 && (0.0 < color.red || 0.0 < color.green || 0.0 < color.blue)
    ensures r.Some? ==> r.value.Valid() && r.value.opacity == 1.0
  {
    var red := FxChannel(m, color.red, shade);
    var green := FxChannel(m, color.green, shade);
    var blue := FxChannel(m, color.blue, shade);
    if red.None? || green.None? || blue.None? then None
    else Some(Color(red.value, green.value, blue.value, 1.0))
  }

  /** A face seen head-on keeps its colour (made opaque): the gamma curve round-trips. */
  lemma GetShadeFull(m: Libm, color: Color)
    requires Sound(m) && color.Valid()
    ensures GetShade(m, color, 1.0) == Some(Color(color.red, color.green, color.blue, 1.0))
  {
    PowRoundTrip(m, color.red);
    PowRoundTrip(m, color.green);
    PowRoundTrip(m, color.blue);
  }

  lemma PowRoundTrip(m: Libm, x: real)
    requires Sound(m) && 0.0 <= x
    ensures m.pow(m.pow(x, Gamma) * 1.0, InvGamma) == x
  {
    assert m.pow(x, Gamma) * 1.0 == m.pow(x, Gamma);
  }

  /** A face seen edge-on is black. */
  lemma GetShadeZero(m: Libm, color: Color)
    requires Sound(m) && color.Valid()
    ensures GetShade(m, color, 0.0) == Some(Black)
  {
    assert m.pow(0.0, InvGamma) == 0.0;
  }

  /** A larger shade never gives a darker channel. */
  lemma FxChannelMonotone(m: Libm, channel: real, s1: real, s2: real)
    requires Sound(m) && 0.0 <= channel && 0.0 <= s1 <= s2
    ensures FxChannel(m, channel, s1).value <= FxChannel(m, channel, s2).value
  {
    var p := m.pow(channel, Gamma);
    assert 0.0 <= p;
    TimesNonnegative(p, s1);
    TimesNonnegative(p, s2 - s1);
    assert Times(p, s2 - s1) == p * s2 - p * s1;
  }

  /** So no shade in [0, 1] brightens a colour. */
  lemma GetShadeDarkens(m: Libm, color: Color, shade: real)
    requires Sound(m) && color.Valid() && 0.0 <= shade <= 1.0
    ensures GetShade(m, color, shade).value.red <= color.red
    ensures GetShade(m, color, shade).value.green <= color.green
    ensures GetShade(m, color, shade).value.blue <= color.blue
  {
    GetShadeFull(m, color);
    FxChannelMonotone(m, color.red, shade, 1.0);
    FxChannelMonotone(m, color.green, shade, 1.0);
    FxChannelMonotone(m, color.blue, shade, 1.0);
  }

  // ---------------------------------------------------------------------------
  // AWT colours
  // ---------------------------------------------------------------------------

  /** A java.awt.Color: red, green, blue and alpha, each in 0..255. */
  datatype Color8 = Color8(red: int, green: int, blue: int, alpha: int)
  {
    predicate Valid()
    {
      0 <= red <= 255 && 0 <= green <= 255 && 0 <= blue <= 255 && 0 <= alpha <= 255
    }
  }

  /**
   * One channel of the Swing `getShade`: `(int) pow(pow(channel, 2.4) * shade, 1 / 2.4)`.
   * A NaN shade, or a negative base to the outer `pow`, gives NaN, which the
   * cast turns into 0.
   */
  function Channel8(m: Libm, channel: int, shade: Option<real>): (r: int)
    requires Sound(m) && 0 <= channel
    ensures shade.None? ==> r == 0
  {
    match shade
    case None => 0
    case Some(s) =>
      var linear := m.pow(channel as real, Gamma) * s;
      if linear < 0.0 then 0 else D2I(m.pow(linear, InvGamma))
  }

  /**
   * `getShade` of the Swing renderer. The three-int Color constructor throws
   * IllegalArgumentException when a channel leaves 0..255; it never does for
   * a shade in [0, 1] or NaN.
   */
  function GetShade8(m: Libm, color: Color8, shade: Option<real>): (r: Result<Color8>)
    requires Sound(m) && color.Valid()
    ensures r.Ok? ==> r.value.Valid() && r.value.alpha == 255
    ensures r.Err? ==> r.error.IllegalArgument?
  {
    var red := Channel8(m, color.red, shade);
    var green := Channel8(m, color.green, shade);
    var blue := Channel8(m, color.blue, shade);
    if !(0 <= red <= 255 && 0 <= green <= 255 && 0 <= blue <= 255)
    then Err(IllegalArgument("Color parameter outside of expected range"))
    else Ok(Color8(red, green, blue, 255))
  }

  /** A channel shaded by a factor in [0, 1] stays within 0 and the original channel. */
  lemma Channel8Bounded(m: Libm, channel: int, s: real)
    requires Sound(m) && 0 <= channel <= 255 && 0.0 <= s <= 1.0
    ensures 0 <= Channel8(m, channel, Some(s)) <= channel
  {
    var p := m.pow(channel as real, Gamma);
    assert 0.0 <= p;
    TimesNonnegative(p, s);
    TimesNonnegative(p, 1.0 - s);
    assert Times(p, 1.0 - s) == p - p * s;
    assert m.pow(p, InvGamma) == channel as real;
    assert m.pow(p * s, InvGamma) <= m.pow(p, InvGamma);
  }

  /** So the Swing `getShade` never throws in the renderer, and never brightens. */
  lemma GetShade8Ok(m: Libm, color: Color8, shade: Option<real>)
    requires Sound(m) && color.Valid()
    requires shade.Some? ==> 0.0 <= shade.value <= 1.0
    ensures GetShade8(m, color, shade).Ok?
    ensures var c := GetShade8(m, color, shade).value;
      c.red <= color.red && c.green <= color.green && c.blue <= color.blue
  {
    if shade.Some? {
      Channel8Bounded(m, color.red, shade.value);
      Channel8Bounded(m, color.green, shade.value);
      Channel8Bounded(m, color.blue, shade.value);
    }
  }

  /** A face seen edge-on, and a degenerate face (NaN shade), are drawn opaque black. */
  lemma GetShade8Black(m: Libm, color: Color8, shade: Option<real>)
    requires Sound(m) && color.Valid()
    requires shade.None? || shade == Some(0.0)
    ensures GetShade8(m, color, shade) == Ok(Color8(0, 0, 0, 255))
  {
    if shade.Some? {
      assert m.pow(0.0, InvGamma) == 0.0;
    }
  }

  /** A face seen head-on keeps its colour exactly. */
  lemma GetShade8Full(m: Libm, color: Color8)
    requires Sound(m) && color.Valid()
    ensures GetShade8(m, color, Some(1.0)) == Ok(Color8(color.red, color.green, color.blue, 255))
  {
    PowRoundTrip(m, color.red as real);
    PowRoundTrip(m, color.green as real);
    PowRoundTrip(m, color.blue as real);
  }

  /**
   * `getRGB`: the colour packed into one Java int, alpha in the top byte, then
   * red, green and blue; the bit pattern is read as a signed 32-bit value.
   */
  function Argb(c: Color8): (r: int)
    requires c.Valid()
    ensures MinInt <= r <= MaxInt
  {
    var u := c.alpha * 0x100_0000 + c.red * 0x1_0000 + c.green * 0x100 + c.blue;
    if u > MaxInt then u - 0x1_0000_0000 else u
  }

  /** Reading the four bytes back out of a packed int. */
  function Unpack(p: int): (r: Color8)
    requires MinInt <= p <= MaxInt
    ensures r.Valid()
  {
    var u := if p < 0 then p + 0x1_0000_0000 else p;
    Color8((u / 0x1_0000) % 0x100, (u / 0x100) % 0x100, u % 0x100, u / 0x100_0000)
  }

  /** Packing loses nothing. */
  lemma ArgbRoundTrip(c: Color8)
    requires c.Valid()
    ensures Unpack(Argb(c)) == c
  {
    var u := c.alpha * 0x100_0000 + c.red * 0x1_0000 + c.green * 0x100 + c.blue;
    DivUnique(u, 0x100_0000, c.alpha, c.red * 0x1_0000 + c.green * 0x100 + c.blue);
    DivUnique(u, 0x1_0000, c.alpha * 0x100 + c.red, c.green * 0x100 + c.blue);
    DivUnique(c.alpha * 0x100 + c.red, 0x100, c.alpha, c.red);
    DivUnique(u, 0x100, c.alpha * 0x1_0000 + c.red * 0x100 + c.green, c.blue);
    DivUnique(c.alpha * 0x1_0000 + c.red * 0x100 + c.green, 0x100, c.alpha * 0x100 + c.red, c.green);
  }

  /** The pixel value of an empty `BufferedImage.TYPE_INT_ARGB`: transparent black. */
  const Transparent: int := 0
}
