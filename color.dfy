/**
 * Colour values shared by every visualization: the [0,1] triples that
 * Python's `colorsys` conversions return, the 0-255 integer channels the
 * renderer consumes, and the opacity-to-alpha policy of the cell assemblers.
 */
module Color {

  /** A fraction in [0,1]. */
  type Unit = x: real | 0.0 <= x <= 1.0

  /** What `colorsys.hsv_to_rgb` and `colorsys.hls_to_rgb` return. */
  datatype Rgb01 = Rgb01(r: Unit, g: Unit, b: Unit)

  /**
   * `colorsys.hsv_to_rgb(h, s, v)` and `colorsys.hls_to_rgb(h, l, s)`: library
   * conversions whose internals are not modelled; every model function that
   * converts a hue takes the conversion as a parameter.
   */
  type HsvToRgb = (real, real, real) -> Rgb01
  type HlsToRgb = (real, real, real) -> Rgb01

  datatype Rgb = Rgb(r: int, g: int, b: int)
  {
    predicate InRange() { 0 <= r <= 255 && 0 <= g <= 255 && 0 <= b <= 255 }
  }

  /** A `[r, g, b, a]` colour list. */
  datatype Rgba = Rgba(r: int, g: int, b: int, a: int)
  {
    predicate InRange() { 0 <= r <= 255 && 0 <= g <= 255 && 0 <= b <= 255 && 0 <= a <= 255 }
  }

  /** `rgb + [a]`. */
  function WithAlpha(c: Rgb, a: int): (r: Rgba)
    ensures c.InRange() && 0 <= a <= 255 ==> r.InRange()
  {
    Rgba(c.r, c.g, c.b, a)
  }

  function Min(a: real, b: real): real { if a <= b then a else b }

  function Max(a: real, b: real): real { if a >= b then a else b }

  /** Python's `int(x)` on a float: truncation toward zero. */
  function Trunc(x: real): (r: int)
    ensures x >= 0.0 ==> 0 <= r && r as real <= x < r as real + 1.0
    ensures x < 0.0 ==> r <= 0 && r as real - 1.0 < x <= r as real
  {
    if x >= 0.0 then x.Floor else -((-x).Floor)
  }

  /** `int(c * 255)` for a channel fraction `c`. */
  function Channel(c: Unit): (r: int)
    ensures 0 <= r <= 255
    ensures c == 1.0 ==> r == 255
    ensures c == 0.0 ==> r == 0
  {
    Trunc(c * 255.0)
  }

  /** `[int(r * 255), int(g * 255), int(b * 255)]`. */
  function ToRgb(c: Rgb01): (r: Rgb)
    ensures r.InRange()
  {
    Rgb(Channel(c.r), Channel(c.g), Channel(c.b))
  }

  /** `x % 1.0` in Python: the fractional part, for either sign of `x`. */
  function Frac(x: real): (r: real)
    ensures 0.0 <= r < 1.0
    ensures (x - r).Floor as real == x - r
  {
    x - x.Floor as real
  }

  /**
   * `int(min(1.0, opacity * count) * 255)`: alpha grows with the count and is
   * truncated, not rounded.
   */
  function Alpha(opacity: real, count: int): (a: int)
    ensures 0.0 <= opacity * count as real ==> 0 <= a <= 255
    ensures opacity * count as real >= 1.0 ==> a == 255
    ensures 0.0 <= opacity * count as real < 1.0 ==>
      a as real <= opacity * count as real * 255.0 < a as real + 1.0
  {
    Trunc(Min(1.0, opacity * count as real) * 255.0)
  }

  lemma ScaledCountNonNegative(opacity: real, count: int)
    requires 0.0 <= opacity && 0 <= count
    ensures 0.0 <= opacity * count as real
  {
  }

  /** Cells with more records are never more transparent. */
  lemma AlphaMonotone(opacity: real, c1: int, c2: int)
    requires 0.0 <= opacity && 0 <= c1 <= c2
    ensures Alpha(opacity, c1) <= Alpha(opacity, c2)
  {
    ScaleMonotone(opacity, c1, c2);
    ScaledCountNonNegative(opacity, c1);
    ClampMonotone(opacity * c1 as real, opacity * c2 as real);
  }

  lemma ScaleMonotone(opacity: real, c1: int, c2: int)
    requires 0.0 <= opacity && c1 <= c2
    ensures opacity * c1 as real <= opacity * c2 as real
  {
    assert opacity * (c2 - c1) as real >= 0.0;
  }

  /** `int(min(1.0, x) * 255)` is monotone in `x >= 0`. */
  lemma ClampMonotone(x1: real, x2: real)
    requires 0.0 <= x1 <= x2
    ensures Trunc(Min(1.0, x1) * 255.0) <= Trunc(Min(1.0, x2) * 255.0)
  {
    FloorMonotone(Min(1.0, x1) * 255.0, Min(1.0, x2) * 255.0);
  }

  lemma FloorMonotone(x: real, y: real)
    requires x <= y
    ensures x.Floor <= y.Floor
  {
  }
}
