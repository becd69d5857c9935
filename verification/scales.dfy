/**
 The two-point continuous scale both charts take from d3 (`scaleTime`,
 `scaleLinear`), over exact reals, without clamping. A domain of zero width
 maps every value to the middle of the range, as d3 does.
 */
module Scales {

  /** Linear interpolation from `r0` (at `t = 0`) to `r1` (at `t = 1`). */
  function Interpolate(r0: real, r1: real, t: real): real
  {
    r0 + t * (r1 - r0)
  }

  /** The position of `v` in the domain `[d0, d1]` as a fraction; one half for a zero-width domain. */
  function Normalize(d0: real, d1: real, v: real): real
  {
    if d0 == d1 then 0.5 else (v - d0) / (d1 - d0)
  }

  /** The image of `v` under the scale taking domain `[d0, d1]` onto range `[r0, r1]`. */
  function Scale(d0: real, d1: real, r0: real, r1: real, v: real): real
  {
    Interpolate(r0, r1, Normalize(d0, d1, v))
  }

  lemma DivNonNegative(a: real, b: real)
    requires a >= 0.0 && b > 0.0
    ensures a / b >= 0.0
  {
  }

  lemma DivAtMostOne(a: real, b: real)
    requires a <= b && b > 0.0
    ensures a / b <= 1.0
  {
  }

  lemma MulNonNegative(a: real, b: real)
    requires a >= 0.0 && b >= 0.0
    ensures a * b >= 0.0
  {
  }

  lemma MulAtMost(t: real, w: real)
    requires t <= 1.0 && w >= 0.0
    ensures t * w <= w
  {
  }

  /** A value inside a domain has a position between zero and one. */
  lemma NormalizeWithin(d0: real, d1: real, v: real)
    requires d0 <= v <= d1
    ensures 0.0 <= Normalize(d0, d1, v) <= 1.0
  {
    if d0 != d1 {
      DivNonNegative(v - d0, d1 - d0);
      DivAtMostOne(v - d0, d1 - d0);
    }
  }

  /** Interpolating by a fraction stays between the two end points. */
  lemma InterpolateWithin(r0: real, r1: real, t: real)
    requires 0.0 <= t <= 1.0
    ensures r0 <= r1 ==> r0 <= Interpolate(r0, r1, t) <= r1
    ensures r1 <= r0 ==> r1 <= Interpolate(r0, r1, t) <= r0
  {
    var w := r1 - r0;
    var m := t * w;
    assert Interpolate(r0, r1, t) == r0 + m;
    if w >= 0.0 {
      MulNonNegative(t, w);
      MulAtMost(t, w);
    } else {
      MulNonNegative(t, -w);
      MulAtMost(t, -w);
      assert t * -w == -m;
    }
  }

  /** The domain's end points land on the range's end points. */
  lemma ScaleEndpoints(d0: real, d1: real, r0: real, r1: real)
    requires d0 != d1
    ensures Scale(d0, d1, r0, r1, d0) == r0
    ensures Scale(d0, d1, r0, r1, d1) == r1
  {
  }

  /** A zero-width domain sends every value to the middle of the range. */
  lemma ScaleDegenerate(d: real, r0: real, r1: real, v: real)
    ensures Scale(d, d, r0, r1, v) == (r0 + r1) / 2.0
  {
  }

  /** A value inside the domain lands inside the range, whichever way the range runs. */
  lemma ScaleWithin(d0: real, d1: real, r0: real, r1: real, v: real)
    requires d0 <= v <= d1
    ensures r0 <= r1 ==> r0 <= Scale(d0, d1, r0, r1, v) <= r1
    ensures r1 <= r0 ==> r1 <= Scale(d0, d1, r0, r1, v) <= r0
  {
    NormalizeWithin(d0, d1, v);
    InterpolateWithin(r0, r1, Normalize(d0, d1, v));
  }

  /** Over an increasing range the scale preserves order. */
  lemma ScaleMonotonic(d0: real, d1: real, r0: real, r1: real, u: real, v: real)
    requires d0 <= d1 && r0 <= r1 && u <= v
    ensures Scale(d0, d1, r0, r1, u) <= Scale(d0, d1, r0, r1, v)
  {
    if d0 != d1 {
      var tu := Normalize(d0, d1, u);
      var tv := Normalize(d0, d1, v);
      assert tv - tu == (v - u) / (d1 - d0);
      assert (tv - tu) * (r1 - r0) >= 0.0;
      assert Interpolate(r0, r1, tv) - Interpolate(r0, r1, tu) == (tv - tu) * (r1 - r0);
    }
  }
}
