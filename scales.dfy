/** The linear scale of d3 version 3 (`d3.scale.linear()`), which the diagram
    uses for both of its axes: a map from a two-point domain onto a two-point
    range, optionally clamped, with an inverse. A zero-width domain or range
    sends every input to the start of the other side, as d3 does by dividing
    by infinity. */
module Scales {

  datatype LinearScale = LinearScale(d0: real, d1: real, r0: real, r1: real, clamp: bool)

  function Clamp(lo: real, hi: real, v: real): (r: real)
    requires lo <= hi
    ensures lo <= r <= hi
    ensures lo <= v <= hi ==> r == v
  {
    if v < lo then lo else if v > hi then hi else v
  }

  /** Where `x` sits between `a` and `b`, as a fraction (0 at `a`, 1 at `b`). */
  function Uninterpolate(a: real, b: real, x: real, clamp: bool): (t: real)
    ensures clamp ==> 0.0 <= t <= 1.0
    ensures a == b ==> t == 0.0
  {
    var t := if b == a then 0.0 else (x - a) / (b - a);
    if clamp then Clamp(0.0, 1.0, t) else t
  }

  /** d3's number interpolator. */
  function Interpolate(a: real, b: real, t: real): (r: real)
    ensures r == a + t * (b - a)
  {
    a * (1.0 - t) + b * t
  }

  /** `scale(v)` */
  function Apply(s: LinearScale, v: real): (y: real)
    ensures s.d0 == s.d1 ==> y == s.r0
  {
    Interpolate(s.r0, s.r1, Uninterpolate(s.d0, s.d1, v, s.clamp))
  }

  /** The scale as a plain function, as it is handed to the projection. */
  function AsFunction(s: LinearScale): real -> real
  {
    v => Apply(s, v)
  }

  /** `scale.invert(y)` */
  function Invert(s: LinearScale, y: real): (v: real)
    ensures s.r0 == s.r1 ==> v == s.d0
  {
    Interpolate(s.d0, s.d1, Uninterpolate(s.r0, s.r1, y, s.clamp))
  }

  /** Interpolating by the fraction `x` occupies gives `x` back. */
  lemma UninterpolateInterpolate(a: real, b: real, t: real)
    requires a != b
    ensures Uninterpolate(a, b, Interpolate(a, b, t), false) == t
  {
    var x := Interpolate(a, b, t);
    assert x - a == t * (b - a);
    assert (x - a) / (b - a) == t * (b - a) / (b - a);
  }

  lemma InterpolateUninterpolate(a: real, b: real, x: real)
    requires a != b
    ensures Interpolate(a, b, Uninterpolate(a, b, x, false)) == x
  {
    var t := (x - a) / (b - a);
    assert t * (b - a) == x - a;
  }

  /** A fraction in [0, 1] lands between the two ends. */
  lemma InterpolateBetween(a: real, b: real, t: real)
    requires a <= b && 0.0 <= t <= 1.0
    ensures a <= Interpolate(a, b, t) <= b
  {
    ProductNonnegative(t, b - a);
    ProductNonnegative(1.0 - t, b - a);
  }

  lemma ProductPositive(x: real, y: real)
    ensures 0.0 < x && 0.0 < y ==> 0.0 < x * y
  {
  }

  lemma ProductNonnegative(x: real, y: real)
    ensures 0.0 <= x && 0.0 <= y ==> 0.0 <= x * y
  {
  }

  /** Where `x` falls relative to `a < b` decides where its fraction falls
      relative to [0, 1]. */
  lemma FractionPosition(a: real, b: real, x: real)
    requires a < b
    ensures x < a ==> (x - a) / (b - a) < 0.0
    ensures a <= x <= b ==> 0.0 <= (x - a) / (b - a) <= 1.0
    ensures x > b ==> (x - a) / (b - a) > 1.0
  {
    QuotientBounds(x - a, b - a);
  }

  /** Dividing by a positive `c` keeps `n`'s position relative to 0 and `c`
      as the quotient's position relative to 0 and 1. */
  lemma QuotientBounds(n: real, c: real)
    requires 0.0 < c
    ensures 0.0 <= n <==> 0.0 <= n / c
    ensures n <= c <==> n / c <= 1.0
  {
    var q := n / c;
    assert q * c == n;
    if q < 0.0 {
      ProductPositive(-q, c);
      assert n < 0.0;
    } else {
      ProductNonnegative(q, c);
    }
    if q > 1.0 {
      ProductPositive(q - 1.0, c);
      assert n > c;
    } else {
      ProductNonnegative(1.0 - q, c);
    }
  }

  /** The ends of the domain go to the ends of the range. */
  lemma ApplyAtEnds(s: LinearScale)
    requires s.d0 != s.d1
    ensures Apply(s, s.d0) == s.r0 && Apply(s, s.d1) == s.r1
  {
    UninterpolateInterpolate(s.d0, s.d1, 0.0);
    UninterpolateInterpolate(s.d0, s.d1, 1.0);
  }

  /** A clamped scale never leaves its range. */
  lemma ClampedApplyInRange(s: LinearScale, v: real)
    requires s.clamp && s.r0 <= s.r1
    ensures s.r0 <= Apply(s, v) <= s.r1
  {
    InterpolateBetween(s.r0, s.r1, Uninterpolate(s.d0, s.d1, v, true));
  }

  /** A clamped scale over an increasing domain and range is monotone. */
  lemma ClampedApplyMonotone(s: LinearScale, v: real, w: real)
    requires s.clamp && s.d0 <= s.d1 && s.r0 <= s.r1 && v <= w
    ensures Apply(s, v) <= Apply(s, w)
  {
    var tv := Uninterpolate(s.d0, s.d1, v, true);
    var tw := Uninterpolate(s.d0, s.d1, w, true);
    if s.d0 < s.d1 {
      var d := s.d1 - s.d0;
      var uv, uw := (v - s.d0) / d, (w - s.d0) / d;
      assert uv * d == v - s.d0 && uw * d == w - s.d0;
      ProductPositive(uv - uw, d);
    }
    assert tv <= tw;
    ProductNonnegative(tw - tv, s.r1 - s.r0);
  }

  /** A clamped inverse never leaves the domain. */
  lemma ClampedInvertInDomain(s: LinearScale, y: real)
    requires s.clamp && s.d0 <= s.d1
    ensures s.d0 <= Invert(s, y) <= s.d1
  {
    InterpolateBetween(s.d0, s.d1, Uninterpolate(s.r0, s.r1, y, true));
  }

  /** Mapping a pixel back to the domain and forward again gives the pixel,
      pulled into the range when the scale clamps. */
  lemma ApplyInvert(s: LinearScale, y: real)
    requires s.d0 != s.d1 && s.r0 < s.r1
    ensures Apply(s, Invert(s, y)) == if s.clamp then Clamp(s.r0, s.r1, y) else y
  {
    var t := Uninterpolate(s.r0, s.r1, y, s.clamp);
    UninterpolateInterpolate(s.d0, s.d1, t);
    if s.clamp {
      assert Uninterpolate(s.d0, s.d1, Invert(s, y), true) == t;
      FractionPosition(s.r0, s.r1, y);
      InterpolateUninterpolate(s.r0, s.r1, y);
    } else {
      InterpolateUninterpolate(s.r0, s.r1, y);
    }
  }

  /** Without clamping, the inverse undoes the scale. */
  lemma InvertApply(s: LinearScale, v: real)
    requires !s.clamp && s.d0 != s.d1 && s.r0 != s.r1
    ensures Invert(s, Apply(s, v)) == v
  {
    var t := Uninterpolate(s.d0, s.d1, v, false);
    UninterpolateInterpolate(s.r0, s.r1, t);
    InterpolateUninterpolate(s.d0, s.d1, v);
  }

  /** Without clamping, differences are multiplied by one constant slope. */
  lemma UnclampedIsAffine(s: LinearScale, v: real, w: real)
    requires !s.clamp && s.d0 != s.d1
    ensures Apply(s, v) - Apply(s, w) == (v - w) * ((s.r1 - s.r0) / (s.d1 - s.d0))
  {
    var k := (s.r1 - s.r0) / (s.d1 - s.d0);
    var tv := (v - s.d0) / (s.d1 - s.d0);
    var tw := (w - s.d0) / (s.d1 - s.d0);
    assert tv - tw == (v - w) / (s.d1 - s.d0);
    assert (tv - tw) * (s.r1 - s.r0) == (v - w) * k;
  }
}
