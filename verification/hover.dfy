/**
 * The pointer state of the pixel-scramble and ASCII-scramble effects —
 * `mouseenter` / `mouseleave` set a hover target, every animation frame
 * eases the current hover a tenth of the way toward it — and the
 * pixel-scramble fragment shader that the hover drives.
 */
module Hover {
  import opened Glsl
  import opened Bayer

  /** `targetHover`, `currentHover` and the normalised mouse position. */
  datatype Pointer = Pointer(target: real, current: real, mouse: Vec2)

  /** The constructor: no hover, the mouse in the middle. */
  const InitialPointer := Pointer(0.0, 0.0, Vec2(0.5, 0.5))

  /** Both hover values in `[0, 1]`. */
  predicate UnitHover(p: Pointer)
  {
    0.0 <= p.target <= 1.0 && 0.0 <= p.current <= 1.0
  }

  /** `mouseenter`: the hover target becomes 1; nothing else changes. */
  function Enter(p: Pointer): (q: Pointer)
    ensures q.target == 1.0 && q.current == p.current && q.mouse == p.mouse
    ensures UnitHover(p) ==> UnitHover(q)
  {
    p.(target := 1.0)
  }

  /** `mouseleave`: the hover target becomes 0; nothing else changes. */
  function Leave(p: Pointer): (q: Pointer)
    ensures q.target == 0.0 && q.current == p.current && q.mouse == p.mouse
    ensures UnitHover(p) ==> UnitHover(q)
  {
    p.(target := 0.0)
  }

  /** The canvas's bounding client rectangle. */
  datatype Rect = Rect(left: real, top: real, width: real, height: real)

  /** `mousemove`: the client position relative to the canvas, `y` flipped
    * so that the bottom edge is 0; a point over the canvas lands in the
    * unit square. */
  function Move(p: Pointer, rect: Rect, clientX: real, clientY: real): (q: Pointer)
    requires rect.width > 0.0 && rect.height > 0.0
    ensures q.target == p.target && q.current == p.current
    ensures rect.left <= clientX <= rect.left + rect.width ==> 0.0 <= q.mouse.x <= 1.0
    ensures rect.top <= clientY <= rect.top + rect.height ==> 0.0 <= q.mouse.y <= 1.0
    ensures clientX == rect.left ==> q.mouse.x == 0.0
    ensures clientY == rect.top ==> q.mouse.y == 1.0
  {
    var dx, dy := clientX - rect.left, clientY - rect.top;
    UnitQuotient(dx, rect.width);
    UnitQuotient(dy, rect.height);
    p.(mouse := Vec2(dx / rect.width, 1.0 - dy / rect.height))
  }

  lemma UnitQuotient(a: real, d: real)
    requires d > 0.0
    ensures 0.0 <= a <= d ==> 0.0 <= a / d <= 1.0
  {
    if 0.0 <= a <= d {
      QuotientOrder(0.0, a, d);
      QuotientOrder(a, d, d);
    }
  }

  /** One animation frame: `currentHover += (targetHover - currentHover) * 0.1`.
    * The gap to the target shrinks to nine tenths, never changing side, so
    * the hover stays between where it was and the target. */
  function Frame(p: Pointer): (q: Pointer)
    ensures q.target == p.target && q.mouse == p.mouse
    ensures q.target - q.current == 0.9 * (p.target - p.current)
    ensures Min(p.current, p.target) <= q.current <= Max(p.current, p.target)
    ensures UnitHover(p) ==> UnitHover(q)
  {
    var c := p.current + (p.target - p.current) * 0.1;
    assert c == Mix(p.current, p.target, 0.1);
    p.(current := c)
  }

  /** `k` animation frames with no pointer event in between. */
  function Frames(p: Pointer, k: nat): Pointer
  {
    if k == 0 then p else Frame(Frames(p, k - 1))
  }

  /** `0.9` to the power `k`. */
  function Pow9(k: nat): (r: real)
    ensures 0.0 < r <= 1.0
  {
    if k == 0 then 1.0 else 0.9 * Pow9(k - 1)
  }

  /** After `k` frames the gap to the target is exactly `0.9^k` of what it
    * was: the hover approaches the target geometrically. */
  lemma {:induction false} FramesGap(p: Pointer, k: nat)
    ensures Frames(p, k).target == p.target && Frames(p, k).mouse == p.mouse
    ensures Frames(p, k).target - Frames(p, k).current == Pow9(k) * (p.target - p.current)
  {
    if k > 0 {
      FramesGap(p, k - 1);
      var g := p.target - p.current;
      assert 0.9 * (Pow9(k - 1) * g) == (0.9 * Pow9(k - 1)) * g;
    }
  }

  /** Frames keep a unit hover in `[0, 1]` and never carry it past the
    * target: it stays between its starting value and the target. */
  lemma {:induction false} FramesStayBetween(p: Pointer, k: nat)
    ensures UnitHover(p) ==> UnitHover(Frames(p, k))
    ensures Min(p.current, p.target) <= Frames(p, k).current <= Max(p.current, p.target)
  {
    if k > 0 {
      FramesStayBetween(p, k - 1);
      FramesGap(p, k - 1);
    }
  }

  /** Once the target is reached it stays: frames leave a settled hover alone. */
  lemma SettledStays(p: Pointer, k: nat)
    requires p.current == p.target
    ensures Frames(p, k) == p
  {
    FramesGap(p, k);
    assert Pow9(k) * 0.0 == 0.0;
  }

  /** The aura around the cursor, shared by the pixel- and ASCII-scramble
    * shaders: `smoothstep(r + f, r - f, dist) * hover` with
    * `r = .15 * aspect` and `f = .05 * aspect`. */
  function InsideAura(dist: real, aspect: real, hover: real): (a: real)
    requires aspect > 0.0
    ensures 0.0 <= hover <= 1.0 ==> 0.0 <= a <= hover
    ensures dist >= 0.2 * aspect ==> a == 0.0
    ensures dist <= 0.1 * aspect ==> a == hover
  {
    var radius, fade := 0.15 * aspect, 0.05 * aspect;
    var k := SmoothStep(radius + fade, radius - fade, dist);
    assert 0.0 <= hover <= 1.0 ==> 0.0 <= k * hover <= hover by {
      if 0.0 <= hover <= 1.0 { UnitProduct(k, hover); }
    }
    k * hover
  }

  /** `floor(uv / cell) * cell`: the corner of the grid cell holding `uv`. */
  function Snap(uv: real, cell: real): (s: real)
    requires cell > 0.0
    ensures s <= uv < s + cell
  {
    var f := Floor(uv / cell) as real;
    ModBounds(uv, cell, f);
    f * cell
  }

  /** `uPixelSize * 4.0`: the pixel size inside the aura. */
  function LargePixelSize(pixelSize: real): real
  {
    pixelSize * 4.0
  }

  /** The large pixels are made of whole normal pixels: snapping to the
    * normal grid first does not change the large cell, and a large corner
    * is a normal corner. */
  lemma NestedGrids(uv: real, pixelSize: real, resolution: real)
    requires pixelSize > 0.0 && resolution > 0.0
    ensures var normal, large := pixelSize / resolution, LargePixelSize(pixelSize) / resolution;
            Snap(Snap(uv, normal), large) == Snap(uv, large) &&
            Snap(Snap(uv, large), normal) == Snap(uv, large)
  {
    var normal := pixelSize / resolution;
    assert LargePixelSize(pixelSize) / resolution == 4.0 * normal;
    SnapCoarse(uv, normal);
    SnapCorner(uv, normal);
  }

  lemma SnapCoarse(uv: real, c: real)
    requires c > 0.0
    ensures Snap(Snap(uv, c), 4.0 * c) == Snap(uv, 4.0 * c)
  {
    var y := uv / c;
    var n := Floor(y) as real;
    assert Snap(uv, c) == n * c;
    Quarter(n * c, c);
    assert (n * c) / c == n;
    Quarter(uv, c);
    FloorQuarter(y);
    assert Floor((n * c) / (4.0 * c)) == Floor(uv / (4.0 * c));
  }

  lemma SnapCorner(uv: real, c: real)
    requires c > 0.0
    ensures Snap(Snap(uv, 4.0 * c), c) == Snap(uv, 4.0 * c)
  {
    var m := Floor(uv / (4.0 * c));
    var k := (4 * m) as real;
    assert Snap(uv, 4.0 * c) == k * c;
    assert (k * c) / c == k;
    FloorOfInt(4 * m);
    assert Snap(k * c, c) == k * c;
  }

  lemma Quarter(a: real, c: real)
    requires c > 0.0
    ensures a / (4.0 * c) == (a / c) / 4.0
  {
  }

  lemma FloorQuarter(y: real)
    ensures Floor(Floor(y) as real / 4.0) == Floor(y / 4.0)
  {
    var n := Floor(y);
    var m := Floor(n as real / 4.0);
    assert 4 * m <= n < 4 * m + 4;
    FloorUnique(y / 4.0, m);
  }

  lemma FloorUnique(x: real, k: int)
    requires k as real <= x < k as real + 1.0
    ensures Floor(x) == k
  {
  }

  lemma FloorOfInt(k: int)
    ensures Floor(k as real) == k
  {
    FloorUnique(k as real, k);
  }

  /** `floor(vUv * uResolution / largePixelSize)`: the dither cell is the
    * large pixel the fragment's colour was sampled from. */
  lemma DitherCellIsLargePixel(uv: real, pixelSize: real, resolution: real)
    requires pixelSize > 0.0 && resolution > 0.0
    ensures var large := LargePixelSize(pixelSize);
            Floor(uv * resolution / large) as real * (large / resolution) == Snap(uv, large / resolution)
  {
    var large := LargePixelSize(pixelSize);
    assert uv / (large / resolution) == uv * resolution / large;
  }

  /** `clamp(threshold + random(.) * .3 - .15, 0., 1.)`: a unit threshold,
    * jittered by at most 0.15. */
  function AnimThreshold(threshold: real, noise: real): (t: real)
    ensures 0.0 <= t <= 1.0
    ensures 0.0 <= threshold <= 1.0 ==> threshold - 0.15 <= t <= threshold + 0.15
  {
    Clamp(threshold + Fract(noise) * 0.3 - 0.15, 0.0, 1.0)
  }

  /** The pixel-scramble threshold: `bayer4x4` of the large-pixel cell moved
    * by a per-tick jitter, then jittered per cell. */
  function PixelThreshold(cell: Vec2, jitter: Vec2, noise: real): (t: real)
    ensures 0.0 <= t <= 1.0
    ensures var b := ShaderBayer4x4(Vec2(cell.x + jitter.x, cell.y + jitter.y));
            b - 0.15 <= t <= b + 0.15
  {
    var b := ShaderBayer4x4(Vec2(cell.x + jitter.x, cell.y + jitter.y));
    ShaderLookupsAreGetBayerValue(Vec2(cell.x + jitter.x, cell.y + jitter.y));
    AnimThreshold(b, noise)
  }

  /** `step(animThreshold, luma)`: exactly 0 or 1. */
  function Dithered(threshold: real, luma: real): (d: real)
    ensures d == 0.0 || d == 1.0
    ensures d == 1.0 <==> threshold <= luma
  {
    Step(threshold, luma)
  }

  function MixRgba(a: Rgba, b: Rgba, t: real): (c: Rgba)
    ensures t == 0.0 ==> c == a
    ensures t == 1.0 ==> c == b
  {
    Rgba(Mix(a.r, b.r, t), Mix(a.g, b.g, t), Mix(a.b, b.b, t), Mix(a.a, b.a, t))
  }

  /** The pixel-scramble fragment. Outside the aura it is the fine-grid
    * picture unchanged; at full aura it is the large-pixel colour's alpha
    * over a pure black or white grey, the dither decision. */
  function PixelFragment(normalColor: Rgba, largeColor: Rgba, aura: real, threshold: real): (out: Rgba)
    ensures aura == 0.0 ==> out == normalColor
    ensures aura == 1.0 ==>
              out.a == largeColor.a && out.r == out.g == out.b ==
              Dithered(threshold, Luma(largeColor))
  {
    var color := MixRgba(normalColor, largeColor, aura);
    var luma := Luma(color);
    var dithered := Dithered(threshold, luma);
    var grey := Mix(luma, dithered, aura);
    Rgba(Mix(color.r, grey, aura), Mix(color.g, grey, aura), Mix(color.b, grey, aura), color.a)
  }
}
