/**
 * The 3D-coin overlay: a square render of the coin is placed in the
 * lower-right part of a dithered wave background. `init` sizes the coin
 * in texture coordinates from the container's aspect; the fragment shader
 * maps each fragment into the coin's own square, masks it to that square
 * and to the coin's opaque texels, and dithers with a 4x4 table.
 */
module Coin3D {
  import opened Glsl
  import opened Bayer

  /** The coin is rendered to a square target. */
  const CoinAspect := 1.0

  /** `imageScale`: the coin's larger side, in texture units. */
  const ImageScale := 2.0

  /** The point of the container where the coin's centre sits. */
  const CoinCentre := Vec2(0.7, 0.3)

  /** `width / height` of the container. */
  function ContainerAspect(width: real, height: real): (a: real)
    requires width > 0.0 && height > 0.0
    ensures a > 0.0
  {
    width / height
  }

  /** `coinUVSize`: fit to the width when the coin is wider than the
    * container, to the height otherwise. One side is exactly the scale,
    * neither is larger, and the sides keep the coin's aspect relative to
    * the container's. */
  function CoinUVSize(coinAspect: real, containerAspect: real, scale: real): (s: Vec2)
    requires coinAspect > 0.0 && containerAspect > 0.0 && scale > 0.0
    ensures coinAspect > containerAspect ==> s.x == scale
    ensures coinAspect <= containerAspect ==> s.y == scale
    ensures 0.0 < s.x <= scale && 0.0 < s.y <= scale
    ensures s.y > 0.0 && s.x / s.y == coinAspect / containerAspect
  {
    if coinAspect > containerAspect then
      var y := scale / coinAspect * containerAspect;
      assert y == scale * (containerAspect / coinAspect) by { QuotientFirst(scale, coinAspect, containerAspect); }
      FitSide(scale, containerAspect, coinAspect);
      Vec2(scale, y)
    else
      var x := scale * coinAspect / containerAspect;
      assert x == scale * (coinAspect / containerAspect) by { ProductFirst(scale, coinAspect, containerAspect); }
      FitSide(scale, coinAspect, containerAspect);
      Vec2(x, scale)
  }

  /** `s / a * b`, as the source groups it, is `s * (b / a)`. */
  lemma QuotientFirst(s: real, a: real, b: real)
    requires a > 0.0
    ensures s / a * b == s * (b / a)
  {
    var q, r := s / a, b / a;
    assert q * a == s && r * a == b;
    assert (q * b) * a == (s * r) * a by {
      assert (q * b) * a == (q * a) * b;
      assert (s * r) * a == s * (r * a);
    }
    DivOfProduct((q * b) * a, a, q * b);
    DivOfProduct((s * r) * a, a, s * r);
  }

  /** `s * a / b`, as the source groups it, is `s * (a / b)`. */
  lemma ProductFirst(s: real, a: real, b: real)
    requires b > 0.0
    ensures s * a / b == s * (a / b)
  {
    var r := a / b;
    assert r * b == a;
    assert s * a == b * (s * r);
    DivOfProduct(s * a, b, s * r);
  }

  /** `scale * (a / b)` for `a <= b` is a positive length no larger than
    * `scale`, and `scale` over it is `b / a`. */
  lemma FitSide(scale: real, a: real, b: real)
    requires scale > 0.0 && 0.0 < a <= b
    ensures 0.0 < scale * (a / b) <= scale
    ensures scale / (scale * (a / b)) == b / a
    ensures (scale * (a / b)) / scale == a / b
  {
    var r := a / b;
    QuotientOrder(a, b, b);
    assert 0.0 < r <= 1.0;
    UnitProduct(r, scale);
    assert r * scale == scale * r;
    MulStrict(scale, 0.0, r);
    var p := scale * r;
    assert r * (b / a) == 1.0;
    assert p * (b / a) == scale * (r * (b / a));
    assert p * (b / a) == scale;
    DivOfProduct(scale, p, b / a);
    assert p == scale * (a / b);
    assert scale / (scale * (a / b)) == b / a;
    DivOfProduct(p, scale, r);
  }

  /** `x == y * q` with `y > 0` means `x / y == q`. */
  lemma DivOfProduct(x: real, y: real, q: real)
    requires y > 0.0 && x == y * q
    ensures x / y == q
  {
    var d := x / y;
    assert d * y == x;
    if d > q { MulStrict(y, q, d); }
    if d < q { MulStrict(y, d, q); }
  }

  /** `(uv - centre) / uImageSize + 0.5`: the fragment's position in the
    * coin's own unit square. */
  function CoinUV(uv: Vec2, size: Vec2): Vec2
    requires size.x > 0.0 && size.y > 0.0
  {
    Vec2((uv.x - CoinCentre.x) / size.x + 0.5, (uv.y - CoinCentre.y) / size.y + 0.5)
  }

  /** Where the coin's texel `c` is drawn in the container. */
  function Place(c: Vec2, size: Vec2): Vec2
  {
    Vec2(CoinCentre.x + (c.x - 0.5) * size.x, CoinCentre.y + (c.y - 0.5) * size.y)
  }

  /** `CoinUV` and `Place` are inverse: every coin texel is drawn at exactly
    * one fragment, and that fragment reads it back. */
  lemma CoinUVInverse(uv: Vec2, c: Vec2, size: Vec2)
    requires size.x > 0.0 && size.y > 0.0
    ensures CoinUV(Place(c, size), size) == c
    ensures Place(CoinUV(uv, size), size) == uv
  {
    DivOfProduct((c.x - 0.5) * size.x, size.x, c.x - 0.5);
    DivOfProduct((c.y - 0.5) * size.y, size.y, c.y - 0.5);
    assert ((uv.x - CoinCentre.x) / size.x) * size.x == uv.x - CoinCentre.x;
    assert ((uv.y - CoinCentre.y) / size.y) * size.y == uv.y - CoinCentre.y;
  }

  /** `coinBounds.x * coinBounds.y` with `coinBounds = step(0, coinUV) * step(coinUV, 1)`:
    * 1 exactly on the coin's unit square. */
  function CoinBounds(coinUV: Vec2): (b: real)
    ensures b == 0.0 || b == 1.0
    ensures b == 1.0 <==> 0.0 <= coinUV.x <= 1.0 && 0.0 <= coinUV.y <= 1.0
  {
    var bX := Step(0.0, coinUV.x) * Step(coinUV.x, 1.0);
    var bY := Step(0.0, coinUV.y) * Step(coinUV.y, 1.0);
    bX * bY
  }

  /** `smoothstep(0, .2, min(min(coinUV, 1 - coinUV)))`: the edge fade,
    * full from a fifth inside every edge. */
  function EdgeFade(coinUV: Vec2): (f: real)
    ensures 0.0 <= f <= 1.0
    ensures 0.2 <= coinUV.x <= 0.8 && 0.2 <= coinUV.y <= 0.8 ==> f == 1.0
  {
    var edge := Min(Min(coinUV.x, 1.0 - coinUV.x), Min(coinUV.y, 1.0 - coinUV.y));
    SmoothStep(0.0, 0.2, edge)
  }

  /** `inCoin`: the unit-square test softened by the edge fade, and cut to
    * 0 where the coin texel's alpha is below 0.01. */
  function InCoin(coinUV: Vec2, alpha: real): (m: real)
    ensures 0.0 <= m <= 1.0
    ensures !(0.0 <= coinUV.x <= 1.0 && 0.0 <= coinUV.y <= 1.0) ==> m == 0.0
    ensures alpha < 0.01 ==> m == 0.0
    ensures 0.2 <= coinUV.x <= 0.8 && 0.2 <= coinUV.y <= 0.8 && alpha >= 0.01 ==> m == 1.0
  {
    var b, f := CoinBounds(coinUV), EdgeFade(coinUV);
    assert 0.0 <= b * f <= 1.0 by {
      if b == 1.0 { assert b * f == f; } else { assert b * f == 0.0; }
    }
    if alpha < 0.01 then 0.0 else b * f
  }

  /** `mix(bgColor, coinColorFinal, inCoin) + flicker`, one channel: where
    * the mask is 0 the fragment is the background plus the shared flicker,
    * where it is 1 the coin plus the flicker. */
  function Composite(background: real, coin: real, mask: real, flicker: real): (c: real)
    ensures mask == 0.0 ==> c == background + flicker
    ensures mask == 1.0 ==> c == coin + flicker
    ensures 0.0 <= mask <= 1.0 ==> Min(background, coin) + flicker <= c <= Max(background, coin) + flicker
  {
    Mix(background, coin, mask) + flicker
  }

  /** The coin shader's `bayer4x4(uv)`: the grid cell of `uv * uResolution / uSize`. */
  function CoinDither(uv: Vec2, resolution: Vec2, size: real): (t: real)
    requires size != 0.0
    ensures 0.0 <= t < 1.0
  {
    var gx, gy := Floor(uv.x * resolution.x / size), Floor(uv.y * resolution.y / size);
    CoinBayerRange(gx, gy);
    CoinBayer(gx, gy)
  }

  /** A fragment away from the coin shows the background: the coin's
    * square ends `uImageSize / 2` from its centre. */
  lemma OutsideCoinIsBackground(uv: Vec2, size: Vec2, alpha: real, background: real, coin: real, flicker: real)
    requires size.x > 0.0 && size.y > 0.0
    requires uv.x > CoinCentre.x + size.x / 2.0 || uv.x < CoinCentre.x - size.x / 2.0
    ensures Composite(background, coin, InCoin(CoinUV(uv, size), alpha), flicker) == background + flicker
  {
    var c := CoinUV(uv, size);
    var d := uv.x - CoinCentre.x;
    if d > size.x / 2.0 {
      QuotientOrder(size.x / 2.0, d, size.x);
      assert (size.x / 2.0) / size.x == 0.5;
    } else {
      QuotientOrder(d, -size.x / 2.0, size.x);
      assert (-size.x / 2.0) / size.x == -0.5;
    }
  }
}
