/**
 * The GLSL built-ins the effect shaders use, over exact reals. A float of
 * the shader is a `real` here; rounding is not modelled.
 */
module Glsl {

  datatype Vec2 = Vec2(x: real, y: real)

  datatype Vec3 = Vec3(x: real, y: real, z: real)

  datatype Rgba = Rgba(r: real, g: real, b: real, a: real)

  function Min(a: real, b: real): real { if a <= b then a else b }
  function Max(a: real, b: real): real { if a >= b then a else b }

  /** `floor(x)` as an integer. */
  function Floor(x: real): (r: int)
    ensures r as real <= x < r as real + 1.0
  {
    x.Floor
  }

  /** `fract(x)`: the part of `x` above its floor. */
  function Fract(x: real): (r: real)
    ensures 0.0 <= r < 1.0
    ensures (x - r).Floor as real == x - r
  {
    x - x.Floor as real
  }

  /** `mod(x, y)`: `x - y * floor(x / y)`. */
  function Mod(x: real, y: real): (r: real)
    requires y != 0.0
    ensures y > 0.0 ==> 0.0 <= r < y
    ensures ((x - r) / y).Floor as real == (x - r) / y
  {
    var f := (x / y).Floor as real;
    ModBounds(x, y, f);
    x - y * f
  }

  lemma ModBounds(x: real, y: real, f: real)
    requires y != 0.0 && f == (x / y).Floor as real
    ensures y > 0.0 ==> 0.0 <= x - y * f < y
    ensures (x - (x - y * f)) / y == f
  {
    assert x - (x - y * f) == y * f;
    assert (y * f) / y == f;
    if y > 0.0 {
      var q := x / y;
      assert f <= q < f + 1.0;
      MulMonotone(y, f, q);
      var g := f + 1.0;
      MulStrict(y, q, g);
      assert y * q == x;
      assert y * g == y * f + y;
      assert y * f <= x;
      calc {
        x;
        == y * q;
        < y * g;
        == y * f + y;
      }
    }
  }

  lemma SignOfFactor(q: real, w: real, z: real)
    requires w > 0.0 && z == 0.0
    ensures q * w <= z ==> q <= z
    ensures q * w >= z ==> q >= z
  {
  }

  lemma MulMonotone(y: real, a: real, b: real)
    requires y > 0.0 && a <= b
    ensures y * a <= y * b
  {
    assert y * b - y * a == y * (b - a);
  }

  lemma MulStrict(y: real, a: real, b: real)
    requires y > 0.0 && a < b
    ensures y * a < y * b
  {
    assert y * b - y * a == y * (b - a);
  }

  /** A product of a unit factor and a non-negative number lies between 0 and that number. */
  lemma UnitProduct(a: real, b: real)
    requires 0.0 <= a <= 1.0 && 0.0 <= b
    ensures 0.0 <= a * b <= b
  {
    if b > 0.0 {
      MulMonotone(b, 0.0, a);
      MulMonotone(b, a, 1.0);
      assert b * a == a * b;
      assert a * b <= b;
    } else {
      assert a * b == a * 0.0 == 0.0;
    }
  }

  /** `int(x)`: conversion toward zero. */
  function Trunc(x: real): (r: int)
    ensures x >= 0.0 ==> 0 <= r && r as real <= x < r as real + 1.0
    ensures x < 0.0 ==> r <= 0 && r as real - 1.0 < x <= r as real
  {
    if x >= 0.0 then x.Floor else -((-x).Floor)
  }

  lemma TruncMonotone(x: real, y: real)
    requires 0.0 <= x <= y
    ensures Trunc(x) <= Trunc(y)
  {
    assert Trunc(x) as real < Trunc(y) as real + 1.0;
  }

  /** `step(edge, x)`: 0.0 below the edge, 1.0 from the edge on. */
  function Step(edge: real, x: real): (r: real)
    ensures r == 0.0 || r == 1.0
    ensures r == 1.0 <==> edge <= x
  {
    if x < edge then 0.0 else 1.0
  }

  /** `floor(t * rate) / rate`: a clock quantised to `rate` ticks a second,
    * never ahead of it and less than one tick behind. */
  function Quantize(t: real, rate: real): (q: real)
    requires rate > 0.0
    ensures q <= t < q + 1.0 / rate
  {
    var f := Floor(t * rate) as real;
    assert f <= t * rate < f + 1.0;
    assert (f / rate) * rate == f && (t * rate) / rate == t;
    QuotientOrder(f, t * rate, rate);
    QuotientOrder(t * rate, f + 1.0, rate);
    assert (f + 1.0) / rate == f / rate + 1.0 / rate;
    f / rate
  }

  lemma QuotientOrder(a: real, b: real, d: real)
    requires d > 0.0 && a <= b
    ensures a / d <= b / d
    ensures a < b ==> a / d < b / d
  {
    var x, y := a / d, b / d;
    assert x * d == a && y * d == b;
    if x > y {
      MulStrict(d, y, x);
    }
    if a < b && x >= y {
      MulMonotone(d, y, x);
    }
  }

  /** `clamp(x, lo, hi)`: `min(max(x, lo), hi)`. */
  function Clamp(x: real, lo: real, hi: real): (r: real)
    ensures lo <= hi ==> lo <= r <= hi
    ensures lo <= x <= hi ==> r == x
    ensures lo <= hi && x < lo ==> r == lo
    ensures lo <= hi && hi < x ==> r == hi
  {
    Min(Max(x, lo), hi)
  }

  /** `mix(a, b, t)`: linear blend from `a` (t = 0) to `b` (t = 1). */
  function Mix(a: real, b: real, t: real): (r: real)
    ensures t == 0.0 ==> r == a
    ensures t == 1.0 ==> r == b
    ensures 0.0 <= t <= 1.0 ==> Min(a, b) <= r <= Max(a, b)
  {
    assert a * (1.0 - t) + b * t == a + t * (b - a);
    if 0.0 <= t <= 1.0 then MixBetween(a, b, t); a * (1.0 - t) + b * t
    else a * (1.0 - t) + b * t
  }

  /** `a + t * (b - a)` with `t` in `[0, 1]` lies between `a` and `b`. */
  lemma MixBetween(a: real, b: real, t: real)
    requires 0.0 <= t <= 1.0
    ensures Min(a, b) <= a + t * (b - a) <= Max(a, b)
  {
    var q := t * (b - a);
    if a <= b {
      ScaledStep(t, b - a, q);
    } else {
      ScaledStep(t, a - b, -q);
    }
  }

  /** `p == t * d` with `t` in `[0, 1]` and `d >= 0` lies in `[0, d]`. */
  lemma ScaledStep(t: real, d: real, p: real)
    requires 0.0 <= t <= 1.0 && 0.0 <= d && p == t * d
    ensures 0.0 <= p <= d
  {
    UnitProduct(t, d);
  }

  /** A texel: every channel of a canvas texture lies in `[0, 1]`. */
  predicate UnitColour(c: Rgba)
  {
    0.0 <= c.r <= 1.0 && 0.0 <= c.g <= 1.0 && 0.0 <= c.b <= 1.0 && 0.0 <= c.a <= 1.0
  }

  /** `dot(rgb, vec3(.299, .587, .114))`: the weights sum to one, so a grey
    * keeps its level and a texel's luminance is a unit value. */
  function Luma(c: Rgba): (l: real)
    ensures UnitColour(c) ==> 0.0 <= l <= 1.0
    ensures c.r == c.g == c.b ==> l == c.r
  {
    0.299 * c.r + 0.587 * c.g + 0.114 * c.b
  }

  /** `smoothstep(e0, e1, x)`: Hermite interpolation between the edges. */
  function SmoothStep(e0: real, e1: real, x: real): (r: real)
    requires e0 != e1
    ensures 0.0 <= r <= 1.0
    ensures e0 < e1 && x <= e0 ==> r == 0.0
    ensures e0 < e1 && e1 <= x ==> r == 1.0
    ensures e1 < e0 && e0 <= x ==> r == 0.0
    ensures e1 < e0 && x <= e1 ==> r == 1.0
  {
    var q := (x - e0) / (e1 - e0);
    var t := Clamp(q, 0.0, 1.0);
    HermiteBounds(t);
    assert e0 < e1 ==> (x <= e0 ==> q <= 0.0) && (e1 <= x ==> q >= 1.0) by {
      if e0 < e1 { QuotientEdges(x, e0, e1); }
    }
    assert e1 < e0 ==> (e0 <= x ==> q <= 0.0) && (x <= e1 ==> q >= 1.0) by {
      if e1 < e0 {
        assert q == (-x - -e0) / (-e1 - -e0);
        QuotientEdges(-x, -e0, -e1);
      }
    }
    t * t * (3.0 - 2.0 * t)
  }

  lemma QuotientEdges(x: real, e0: real, e1: real)
    requires e0 < e1
    ensures x <= e0 ==> (x - e0) / (e1 - e0) <= 0.0
    ensures e1 <= x ==> (x - e0) / (e1 - e0) >= 1.0
  {
    var w := e1 - e0;
    var q := (x - e0) / w;
    assert q * w == x - e0;
    if x <= e0 {
      SignOfFactor(q, w, 0.0);
    }
    if e1 <= x {
      assert (q - 1.0) * w == x - e1;
      SignOfFactor(q - 1.0, w, 0.0);
    }
  }

  lemma HermiteBounds(t: real)
    requires 0.0 <= t <= 1.0
    ensures 0.0 <= t * t * (3.0 - 2.0 * t) <= 1.0
  {
    var a := t * t;
    assert a >= 0.0;
    assert a * (3.0 - 2.0 * t) >= 0.0;
    var d := (1.0 - t) * (1.0 - t);
    assert d == 1.0 - 2.0 * t + a;
    assert d >= 0.0;
    assert d * (1.0 + 2.0 * t) >= 0.0;
    assert d * (1.0 + 2.0 * t) == d + 2.0 * t * d;
    assert t * d == t - 2.0 * a + a * t;
    assert 1.0 - a * (3.0 - 2.0 * t) == d * (1.0 + 2.0 * t);
  }
}
