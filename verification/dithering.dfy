/**
 * The fragment logic the dithering shaders share around the threshold
 * lookup: the `u_type` dispatch, the binary result `res`, the two-colour
 * compositing, the coin shader's alpha mask, the coin model's lighting
 * threshold, and the object and pattern boxes of the fit modes.
 */
module Dithering {
  import opened Glsl
  import opened ThresholdMatrix
  import opened Bayer

  datatype DitherType = Random | Bayer2x2 | Bayer4x4 | Bayer8x8

  /** The `DitheringTypes` codes the page passes as `u_type`. */
  function TypeCode(t: DitherType): int
  {
    match t
    case Random => 1
    case Bayer2x2 => 2
    case Bayer4x4 => 3
    case Bayer8x8 => 4
  }

  /** `switch (int(floor(u_type)))`: 1, 2 and 3 select random, 2x2 and 4x4;
    * every other value falls to the 8x8 default. */
  function DispatchType(uType: real): DitherType
  {
    match Floor(uType)
    case 1 => Random
    case 2 => Bayer2x2
    case 3 => Bayer4x4
    case _ => Bayer8x8
  }

  /** Every type code selects its own type, whatever fraction rides on it,
    * and only codes outside 1..3 reach the 8x8 default. */
  lemma DispatchRoundTrip(t: DitherType, f: real)
    requires 0.0 <= f < 1.0
    ensures DispatchType(TypeCode(t) as real + f) == t
    ensures DispatchType(TypeCode(t) as real + f) == Bayer8x8 <==> !(1 <= TypeCode(t) <= 3)
  {
    assert Floor(TypeCode(t) as real + f) == TypeCode(t);
  }

  /** The 8x8 default covers every value outside [1, 4). */
  lemma DispatchDefault(uType: real)
    ensures DispatchType(uType) == Bayer8x8 <==> !(1.0 <= uType < 4.0)
  {
  }

  /** `dithering` before the `-= .5` shift. The random type compares a hash
    * of the pixel, given as `hash`, with the shape value. */
  function DitherValue(t: DitherType, uv: Vec2, hash: real, shape: real): (d: real)
    ensures t == Random ==> (d == 1.0 <==> hash <= shape) && (d == 0.0 <==> shape < hash)
    ensures t != Random ==> 0.0 <= d < 1.0
  {
    match t
    case Random => Step(hash, shape)
    case Bayer2x2 => GetBayerValueRange(uv, 2); GetBayerValue(uv, 2)
    case Bayer4x4 => GetBayerValueRange(uv, 4); GetBayerValue(uv, 4)
    case Bayer8x8 => GetBayerValueRange(uv, 8); GetBayerValue(uv, 8)
  }

  /** `dithering -= .5; res = step(.5, shape + dithering)`: the pixel is on
    * exactly when shape and threshold together reach 1. */
  function Res(shape: real, dithering: real): (r: real)
    ensures r == 0.0 || r == 1.0
    ensures r == 1.0 <==> shape + dithering >= 1.0
  {
    Step(0.5, shape + (dithering - 0.5))
  }

  /** With random dithering a pixel is on when the shape reaches 1, or when
    * the shape is non-negative and reaches the pixel's hash. */
  lemma RandomRes(uv: Vec2, hash: real, shape: real)
    ensures Res(shape, DitherValue(Random, uv, hash, shape)) == 1.0
        <==> shape >= 1.0 || (0.0 <= shape && hash <= shape)
  {
  }

  lemma QuotientSum(a: int, b: int, big: int)
    requires big > 0
    ensures a as real / big as real + b as real / big as real >= 1.0 <==> a + b >= big
  {
    var d := big as real;
    var q := (a + b) as real / d;
    assert a as real / d + b as real / d == q;
    assert q * d == (a + b) as real;
    if q >= 1.0 {
      MulMonotone(d, 1.0, q);
    }
    if a + b >= big {
      assert q * d >= d;
      if q < 1.0 {
        MulStrict(d, q, 1.0);
      }
    }
  }

  /** The cells of an `n`x`n` tile a uniform shape value `lit / n²` turns on. */
  function LitCells(m: Matrix, n: nat, lit: int): set<int>
    requires Square(m, n) && n > 0
  {
    set i | i in Span(0, n * n) && Res(lit as real / (n * n) as real, Threshold(m, n, i)) == 1.0
  }

  /** Ordered dithering with a permutation table turns a uniform level of
    * `lit / n²` into exactly `lit` lit cells of each tile. */
  lemma {:induction false} TileDensity(m: Matrix, w: Matrix, n: nat, lit: int)
    requires Square(m, n) && Square(w, n) && CellsInverse(m, w, n) && n > 0
    requires 0 <= lit <= n * n
    ensures |LitCells(m, n, lit)| == lit
  {
    var k := n * n - lit;
    forall i | i in Span(0, n * n)
      ensures Res(lit as real / (n * n) as real, Threshold(m, n, i)) == 1.0 <==> Flat(m, n, i) >= k
    {
      QuotientSum(lit, Flat(m, n, i), n * n);
    }
    assert LitCells(m, n, lit) == AtLeast(m, n, k);
    AtLeastCount(m, w, n, k);
  }

  /** Each of the shaders' tables lights exactly `lit` of its `size²` cells
    * at level `lit / size²`. */
  lemma TableDensity(size: int, lit: int)
    requires size == 2 || size == 4 || size == 8
    requires 0 <= lit <= size * size
    ensures |LitCells(Table(size), size, lit)| == lit
  {
    TablesInverse(size);
    TileDensity(Table(size), Where(size), size, lit);
  }

  /** A colour with its rgb scaled by its alpha, as the shaders prepare
    * `fgColor` and `bgColor`. */
  function Premultiply(c: Rgba): Rgba
  {
    Rgba(c.r * c.a, c.g * c.a, c.b * c.a, c.a)
  }

  /** Porter-Duff source-over of premultiplied colours. */
  function Over(src: Rgba, dst: Rgba): Rgba
  {
    Rgba(src.r + dst.r * (1.0 - src.a), src.g + dst.g * (1.0 - src.a),
         src.b + dst.b * (1.0 - src.a), src.a + dst.a * (1.0 - src.a))
  }

  /** One channel of the shaders' tail, `x * res + bg * (1 - opacity)` with
    * `opacity = fgA * res`: the back channel where the pixel is off, the
    * front channel over it where on. */
  function Blend(x: real, fgA: real, bg: real, res: real): (r: real)
    ensures res == 0.0 ==> r == bg
    ensures res == 1.0 ==> r == x + bg * (1.0 - fgA)
  {
    var opacity := fgA * res;
    x * res + bg * (1.0 - opacity)
  }

  /** The shaders' tail: `color = fg * res; opacity = fgA * res;
    * color += bg * (1 - opacity); opacity += bgA * (1 - opacity)`. Where the
    * pixel is off it shows the back colour; where on, the front over it. */
  function Composite(front: Rgba, back: Rgba, res: real): (c: Rgba)
    ensures res == 0.0 ==> c == Premultiply(back)
    ensures res == 1.0 ==> c == Over(Premultiply(front), Premultiply(back))
  {
    var fg, bg := Premultiply(front), Premultiply(back);
    Rgba(Blend(fg.r, fg.a, bg.r, res), Blend(fg.g, fg.a, bg.g, res),
         Blend(fg.b, fg.a, bg.b, res), Blend(fg.a, fg.a, bg.a, res))
  }

  /** With alphas and `res` in [0, 1] the output opacity stays in [0, 1]. */
  lemma CompositeOpacity(front: Rgba, back: Rgba, res: real)
    requires 0.0 <= front.a <= 1.0 && 0.0 <= back.a <= 1.0 && 0.0 <= res <= 1.0
    ensures 0.0 <= Composite(front, back, res).a <= 1.0
  {
    var o := front.a * res;
    ScaledStep(res, front.a, o);
    var q := back.a * (1.0 - o);
    ScaledStep(back.a, 1.0 - o, q);
    assert Composite(front, back, res).a == o + q;
  }

  /** One fragment of the dithering background: dispatch on `u_type`, the
    * threshold, `res`, then the two-colour composite. */
  function Fragment(uType: real, uv: Vec2, hash: real, shape: real, front: Rgba, back: Rgba): Rgba
  {
    var d := DitherValue(DispatchType(uType), uv, hash, shape);
    Composite(front, back, Res(shape, d))
  }

  /** Every fragment shows one of two colours: the back colour, or the front
    * colour over it, the latter exactly where shape and threshold reach 1. */
  lemma FragmentIsTwoColour(uType: real, uv: Vec2, hash: real, shape: real, front: Rgba, back: Rgba)
    ensures var d := DitherValue(DispatchType(uType), uv, hash, shape);
            var c := Fragment(uType, uv, hash, shape, front, back);
            (shape + d >= 1.0 ==> c == Over(Premultiply(front), Premultiply(back))) &&
            (shape + d < 1.0 ==> c == Premultiply(back))
  {
  }

  /** The coin shader keeps the texel colour and masks its alpha: `opacity = texColor.a * res`. */
  function CoinFragment(tex: Rgba, res: real): (c: Rgba)
    ensures c.r == tex.r && c.g == tex.g && c.b == tex.b
    ensures res == 0.0 ==> c.a == 0.0
    ensures res == 1.0 ==> c.a == tex.a
  {
    Rgba(tex.r, tex.g, tex.b, tex.a * res)
  }

  /** The coin's opacity never exceeds the texel's and vanishes off the dither. */
  lemma CoinOpacityBounded(tex: Rgba, res: real)
    requires 0.0 <= tex.a && 0.0 <= res <= 1.0
    ensures 0.0 <= CoinFragment(tex, res).a <= tex.a
  {
    UnitProduct(res, tex.a);
    assert CoinFragment(tex, res).a == tex.a * res == res * tex.a;
  }

  /** The coin model's `res = step(0.5, lightValue + getBayerValue(uv, 8) - 1.2)`. */
  function ModelRes(light: real, uv: Vec2): (r: real)
    ensures r == 0.0 || r == 1.0
  {
    Step(0.5, light + (ModelGetBayerValue(uv) - 1.2))
  }

  /** The model is dark wherever the light is below 0.7, lit wherever it
    * reaches 1.7, and between the two the 8x8 threshold decides. */
  lemma ModelResBands(light: real, uv: Vec2)
    ensures light < 0.7 ==> ModelRes(light, uv) == 0.0
    ensures light >= 1.7 ==> ModelRes(light, uv) == 1.0
    ensures ModelRes(light, uv) == 1.0 <==> light + GetBayerValue(uv, 8) >= 1.7
  {
    ModelMatchesBackground(uv);
    GetBayerValueRange(uv, 8);
  }

  datatype Shape = Simplex | Warp | Dots | Wave | Ripple | Swirl | Sphere

  /** The `DitheringShapes` codes passed as `u_shape`. */
  function ShapeCode(s: Shape): int
  {
    match s
    case Simplex => 1
    case Warp => 2
    case Dots => 3
    case Wave => 4
    case Ripple => 5
    case Swirl => 6
    case Sphere => 7
  }

  /** `u_shape > 3.5`: the shape is laid out in a square object box. */
  function UsesObjectBox(uShape: real): bool
  {
    uShape > 3.5
  }

  /** The object box serves the four object shapes; the three pattern shapes
    * use the pattern box. */
  lemma ObjectShapes(s: Shape)
    ensures UsesObjectBox(ShapeCode(s) as real) <==> s in {Wave, Ripple, Swirl, Sphere}
  {
  }

  datatype Fit = NoFit | Contain | Cover

  /** `u_fit == 1.` is contain, `u_fit == 2.` is cover, anything else none. */
  function FitOf(uFit: real): Fit
  {
    if uFit == 1.0 then Contain else if uFit == 2.0 then Cover else NoFit
  }

  /** The fit codes 0, 1 and 2 of the sizing enum. */
  function FitCode(f: Fit): real
  {
    match f
    case NoFit => 0.0
    case Contain => 1.0
    case Cover => 2.0
  }

  lemma FitRoundTrip(f: Fit)
    ensures FitOf(FitCode(f)) == f
  {
  }

  /** `givenBoxSize = max(vec2(u_worldWidth, u_worldHeight), vec2(1.)) * u_pixelRatio`. */
  function GivenBoxSize(worldW: real, worldH: real, pixelRatio: real): (g: Vec2)
    ensures pixelRatio > 0.0 ==> g.x >= pixelRatio && g.y >= pixelRatio
  {
    var w, h := Max(worldW, 1.0), Max(worldH, 1.0);
    assert pixelRatio > 0.0 ==> w * pixelRatio >= pixelRatio && h * pixelRatio >= pixelRatio by {
      if pixelRatio > 0.0 {
        MulMonotone(pixelRatio, 1.0, w);
        MulMonotone(pixelRatio, 1.0, h);
      }
    }
    Vec2(w * pixelRatio, h * pixelRatio)
  }

  /** `boxSize`: a world dimension of 0 falls back to the resolution. */
  function BoxSize(worldW: real, worldH: real, pixelRatio: real, resolution: Vec2): (b: Vec2)
    ensures worldW == 0.0 ==> b.x == resolution.x
    ensures worldW != 0.0 ==> b.x == GivenBoxSize(worldW, worldH, pixelRatio).x
    ensures worldH == 0.0 ==> b.y == resolution.y
    ensures worldH != 0.0 ==> b.y == GivenBoxSize(worldW, worldH, pixelRatio).y
  {
    var g := GivenBoxSize(worldW, worldH, pixelRatio);
    Vec2(if worldW == 0.0 then resolution.x else g.x, if worldH == 0.0 then resolution.y else g.y)
  }

  /** The square object box: with no fit the largest square inside the box,
    * with contain the largest square inside the canvas, with cover the
    * smallest square covering it. */
  function ObjectBoxSize(fit: Fit, box: Vec2, resolution: Vec2): (r: Vec2)
    ensures r.x == r.y
    ensures fit == NoFit ==> r.x <= box.x && r.x <= box.y && (r.x == box.x || r.x == box.y)
    ensures fit == Contain ==> r.x <= resolution.x && r.x <= resolution.y && (r.x == resolution.x || r.x == resolution.y)
    ensures fit == Cover ==> r.x >= resolution.x && r.x >= resolution.y && (r.x == resolution.x || r.x == resolution.y)
  {
    var side :=
      if fit == Contain then Min(resolution.x, resolution.y)
      else if fit == Cover then Max(resolution.x, resolution.y)
      else Min(box.x, box.y);
    Vec2(side, side)
  }

  /** `patternBoxRatio = givenBoxSize.x / givenBoxSize.y`. */
  function PatternRatio(worldW: real, worldH: real, pixelRatio: real): (q: real)
    requires pixelRatio > 0.0
    ensures q > 0.0
  {
    var g := GivenBoxSize(worldW, worldH, pixelRatio);
    g.x / g.y
  }

  lemma ScaleBack(ratio: real, m: real, limit: real)
    requires ratio > 0.0
    ensures (ratio * m) / ratio == m
    ensures m <= limit / ratio ==> ratio * m <= limit
    ensures m >= limit / ratio ==> ratio * m >= limit
    ensures m == limit / ratio ==> ratio * m == limit
  {
    assert (limit / ratio) * ratio == limit;
    if m <= limit / ratio {
      MulMonotone(ratio, m, limit / ratio);
    }
    if m >= limit / ratio {
      MulMonotone(ratio, limit / ratio, m);
    }
  }

  /** The pattern box: `x = ratio * min(w / ratio, h)` (or `max` for cover)
    * and `y = x / ratio`. It keeps the given aspect ratio; with no fit it
    * is the largest such box inside the box, with contain the largest inside
    * the canvas, with cover the smallest covering the canvas. */
  function PatternBoxSize(fit: Fit, ratio: real, box: Vec2, resolution: Vec2): (r: Vec2)
    requires ratio > 0.0
    ensures r.x == ratio * r.y
    ensures fit == NoFit ==> r.x <= box.x && r.y <= box.y && (r.x == box.x || r.y == box.y)
    ensures fit == Contain ==> r.x <= resolution.x && r.y <= resolution.y && (r.x == resolution.x || r.y == resolution.y)
    ensures fit == Cover ==> r.x >= resolution.x && r.y >= resolution.y && (r.x == resolution.x || r.y == resolution.y)
  {
    var m :=
      if fit == Contain then Min(resolution.x / ratio, resolution.y)
      else if fit == Cover then Max(resolution.x / ratio, resolution.y)
      else Min(box.x / ratio, box.y);
    var limit := if fit == NoFit then box.x else resolution.x;
    ScaleBack(ratio, m, limit);
    var x := ratio * m;
    Vec2(x, x / ratio)
  }
}
