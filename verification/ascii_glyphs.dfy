/**
 * The ASCII-art shaders: each character cell takes the luminance of the
 * texel at its centre, turns it into an index into a glyph ramp drawn as a
 * horizontal atlas strip, optionally scrambles that index near the cursor
 * or a ripple, and blends the glyph's pixels over the picture.
 *
 * The hash `random()` is `fract(sin(...) * 43758.5453123)`; its sine part
 * is a parameter here and only the outer `fract` is modelled, so every
 * random draw lies in `[0, 1)`.
 */
module AsciiGlyphs {
  import opened Glsl

  /** The ramp of the scramble-on-hover and click-ripple effects, dark to light. */
  const ScrambleRamp: string := " .,:;!-~=+*?#%$&@XWMB"

  /** The ramp of the white hover-trail effect. */
  const TrailRamp: string := " .,:;!#%$&@X10ETHMILAN"

  /** `int(level * float(count - 1))`: the glyph for a luminance level. */
  function LevelIndex(level: real, count: int): (i: int)
    requires count >= 1
    ensures 0.0 <= level <= 1.0 ==> 0 <= i <= count - 1
    ensures level == 1.0 ==> i == count - 1
    ensures level == 0.0 ==> i == 0
  {
    assert 0.0 <= level <= 1.0 ==> 0.0 <= level * (count - 1) as real <= (count - 1) as real by {
      if 0.0 <= level <= 1.0 {
        UnitProduct(level, (count - 1) as real);
      }
    }
    Trunc(level * (count - 1) as real)
  }

  /** A brighter level never picks an earlier glyph of the ramp. */
  lemma LevelIndexMonotone(l1: real, l2: real, count: int)
    requires count >= 1 && 0.0 <= l1 <= l2
    ensures LevelIndex(l1, count) <= LevelIndex(l2, count)
  {
    var w := (count - 1) as real;
    ScaleOrder(w, l1, l2);
    TruncMonotone(l1 * w, l2 * w);
  }

  lemma ScaleOrder(w: real, a: real, b: real)
    requires w >= 0.0 && 0.0 <= a <= b
    ensures 0.0 <= a * w <= b * w
  {
    if w > 0.0 {
      MulMonotone(w, 0.0, a);
      MulMonotone(w, a, b);
    }
  }

  /** `int(clamp(float(index) + offset, 0., float(count - 1)))`: always a
    * glyph of the ramp, and never further from `index` than the offset
    * (one more below, for the truncation). */
  function ScrambledIndex(index: int, offset: real, count: int): (i: int)
    requires count >= 1
    ensures 0 <= i <= count - 1
    ensures 0 <= index <= count - 1 ==>
              index as real - Abs(offset) - 1.0 < i as real <= index as real + Abs(offset)
    ensures 0.0 <= index as real + offset <= (count - 1) as real ==> i == Floor(index as real + offset)
  {
    Trunc(Clamp(index as real + offset, 0.0, (count - 1) as real))
  }

  function Abs(x: real): real { if x < 0.0 then -x else x }

  /** How one ASCII effect picks its glyphs. */
  datatype Style = Style(ramp: string, inverted: bool, spread: real, gain: real)

  /** Scramble-on-hover: bright cells take late glyphs; offsets span 0.6 of
    * the ramp; the scramble chance is 0.8 of the aura. */
  const HoverScramble := Style(ScrambleRamp, false, 0.6, 0.8)

  /** Click-ripple ASCII: inverted levels, full-ramp offsets, chance 0.9 of the ripple. */
  const RippleScramble := Style(ScrambleRamp, true, 1.0, 0.9)

  /** White hover-trail ASCII: inverted levels, full-ramp offsets, chance 0.9 of the trail. */
  const TrailScramble := Style(TrailRamp, true, 1.0, 0.9)

  /** How far a scramble can move an index: half the ramp times the spread. */
  function Reach(s: Style): (r: real)
    ensures s.spread >= 0.0 ==> r >= 0.0
  {
    assert s.spread >= 0.0 ==> |s.ramp| as real * s.spread >= 0.0 by {
      if s.spread >= 0.0 { ScaleOrder(s.spread, 0.0, |s.ramp| as real); }
    }
    |s.ramp| as real * s.spread / 2.0
  }

  /** `(random(.) - .5) * float(count) * spread`: never beyond the reach. */
  function Offset(s: Style, pick: real): (o: real)
    ensures s.spread >= 0.0 ==> Abs(o) <= Reach(s)
  {
    var u := Fract(pick) - 0.5;
    var w := |s.ramp| as real * s.spread;
    assert s.spread >= 0.0 ==> Abs(u * w) <= w / 2.0 by {
      if s.spread >= 0.0 {
        ScaleOrder(s.spread, 0.0, |s.ramp| as real);
        OffsetReach(u, w);
      }
    }
    assert u * |s.ramp| as real * s.spread == u * w;
    u * |s.ramp| as real * s.spread
  }

  /** Whether a cell's draw `random(.)` falls below `gain * intensity`. */
  predicate Scrambles(s: Style, intensity: real, chance: real)
  {
    Fract(chance) < intensity * s.gain
  }

  /** The unscrambled glyph index of a cell. */
  function BaseIndex(s: Style, luma: real): (i: int)
    requires |s.ramp| >= 1
    ensures 0.0 <= luma <= 1.0 ==> 0 <= i < |s.ramp|
  {
    LevelIndex(if s.inverted then 1.0 - luma else luma, |s.ramp|)
  }

  /** A cell's glyph index: the level index of its luminance (inverted for
    * the ripple and trail effects); when the cell scrambles, moved by the
    * offset and clamped, so it stays within the reach of the unscrambled
    * one (one place more below, for the truncation). `count` is the `uCharCount` uniform, the ramp's length. */
  function CharIndex(s: Style, luma: real, intensity: real, chance: real, pick: real): (i: int)
    requires |s.ramp| >= 1
    ensures 0.0 <= luma <= 1.0 ==> 0 <= i < |s.ramp|
    ensures intensity * s.gain <= 0.0 ==> i == BaseIndex(s, luma)
    ensures 0.0 <= luma <= 1.0 && s.spread >= 0.0 ==>
              BaseIndex(s, luma) as real - Reach(s) - 1.0 < i as real <= BaseIndex(s, luma) as real + Reach(s)
  {
    var base := BaseIndex(s, luma);
    if Scrambles(s, intensity, chance) then ScrambledIndex(base, Offset(s, pick), |s.ramp|) else base
  }

  /** The glyph a cell shows: an index the ramp always holds. */
  function Glyph(s: Style, texel: Rgba, intensity: real, chance: real, pick: real): (c: char)
    requires |s.ramp| >= 1 && UnitColour(texel)
    ensures c in s.ramp
  {
    s.ramp[CharIndex(s, Luma(texel), intensity, chance, pick)]
  }

  /** Without scrambling a white cell shows the ramp's last glyph on hover
    * and its first (a space) in the inverted effects; a black cell the
    * other way round. */
  lemma ExtremeCells(a: real, chance: real, pick: real)
    ensures Glyph(HoverScramble, Rgba(1.0, 1.0, 1.0, 1.0), 0.0, chance, pick) == 'B'
    ensures Glyph(HoverScramble, Rgba(0.0, 0.0, 0.0, 1.0), 0.0, chance, pick) == ' '
    ensures Glyph(RippleScramble, Rgba(1.0, 1.0, 1.0, 1.0), 0.0, chance, pick) == ' '
    ensures Glyph(RippleScramble, Rgba(0.0, 0.0, 0.0, 1.0), 0.0, chance, pick) == 'B'
    ensures Glyph(TrailScramble, Rgba(0.0, 0.0, 0.0, 1.0), 0.0, chance, pick) == 'N'
  {
    assert |ScrambleRamp| == 21 && ScrambleRamp[20] == 'B' && ScrambleRamp[0] == ' ';
    assert |TrailRamp| == 22 && TrailRamp[21] == 'N';
  }

  /** An offset `u * w` with `u` in `[-.5, .5)` reaches at most `w / 2`. */
  lemma OffsetReach(u: real, w: real)
    requires -0.5 <= u < 0.5 && w >= 0.0
    ensures Abs(u * w) <= w / 2.0
  {
    if u >= 0.0 {
      UnitProduct(u, w);
      if w > 0.0 { MulMonotone(w, u, 0.5); }
      assert u * w <= 0.5 * w;
    } else {
      assert -(u * w) == (-u) * w;
      if w > 0.0 { MulMonotone(w, -u, 0.5); }
      assert (-u) * w <= 0.5 * w;
    }
  }

  /** `(float(index) + cellUV.x) / float(count)`: inside the atlas strip, in
    * the column of glyph `index`. */
  function CharU(index: int, cellX: real, count: int): (u: real)
    requires count >= 1
    ensures 0 <= index < count && 0.0 <= cellX < 1.0 ==>
              index as real / count as real <= u < (index + 1) as real / count as real &&
              0.0 <= u < 1.0
  {
    var n := count as real;
    var a := index as real + cellX;
    assert 0 <= index < count && 0.0 <= cellX < 1.0 ==>
             index as real / n <= a / n < (index + 1) as real / n && 0.0 <= a / n < 1.0 by {
      if 0 <= index < count && 0.0 <= cellX < 1.0 {
        QuotientOrder(index as real, a, n);
        QuotientOrder(a, (index + 1) as real, n);
        QuotientOrder(0.0, index as real, n);
        QuotientOrder((index + 1) as real, n, n);
      }
    }
    a / n
  }

  /** Reading the strip back: the column under `charU` is glyph `index`. */
  lemma AtlasColumn(index: int, cellX: real, count: int)
    requires count >= 1 && 0 <= index < count && 0.0 <= cellX < 1.0
    ensures Floor(CharU(index, cellX, count) * count as real) == index
  {
    var n := count as real;
    var a := index as real + cellX;
    assert CharU(index, cellX, count) * n == a;
  }

  /** Where the atlas canvas draws glyph `i`: centred at
    * `i * cellPx + cellPx / 2` on a strip `cellPx * count` wide, as a
    * texture coordinate. */
  function GlyphCentre(i: int, cellPx: int, count: int): (u: real)
    requires cellPx >= 1 && count >= 1
    ensures u * count as real == i as real + 0.5
  {
    var c, n := cellPx as real, count as real;
    var k := i as real + 0.5;
    Cancel(k, c, n);
    var x, width := i as real * c + c / 2.0, c * n;
    assert x == k * c;
    x / width
  }

  lemma Cancel(k: real, c: real, n: real)
    requires c > 0.0 && n > 0.0
    ensures (k * c) / (c * n) * n == k
  {
    var q := (k * c) / (c * n);
    assert q * (c * n) == k * c;
    assert (q * n) * c == k * c;
    if q * n > k { MulStrict(c, k, q * n); }
    if q * n < k { MulStrict(c, q * n, k); }
  }

  /** The shader reads every glyph from the column the canvas drew it in. */
  lemma ShaderReadsDrawnGlyph(index: int, cellX: real, cellPx: int, count: int)
    requires cellPx >= 1 && count >= 1 && 0 <= index < count && 0.0 <= cellX < 1.0
    ensures Floor(CharU(index, cellX, count) * count as real)
         == Floor(GlyphCentre(index, cellPx, count) * count as real)
         == index
  {
    AtlasColumn(index, cellX, count);
  }

  /** `step(.5, 1. - luma)`: 1 on dark cells, 0 on light ones. */
  function Darkness(luma: real): (d: real)
    ensures d == 0.0 || d == 1.0
    ensures d == 1.0 <==> luma <= 0.5
  {
    Step(0.5, 1.0 - luma)
  }

  /** `smoothstep(.75, .25, luma)` of the white trail: full below a
    * quarter, none above three quarters. */
  function SoftDarkness(luma: real): (d: real)
    ensures 0.0 <= d <= 1.0
    ensures luma <= 0.25 ==> d == 1.0
    ensures luma >= 0.75 ==> d == 0.0
  {
    SmoothStep(0.75, 0.25, luma)
  }

  function MixRgb(c: Rgba, to: real, t: real): Rgba
  {
    Rgba(Mix(c.r, to, t), Mix(c.g, to, t), Mix(c.b, to, t), c.a)
  }

  /** The scramble-on-hover fragment: inside the aura the cell turns into a
    * black glyph on white where the picture is dark and plain white where
    * it is light; the alpha is always the picture's. */
  function HoverFragment(original: Rgba, glyphInk: real, aura: real): (out: Rgba)
    ensures out.a == original.a
    ensures aura == 0.0 ==> out == original
    ensures aura == 1.0 && Luma(original) > 0.5 ==> out.r == out.g == out.b == 1.0
    ensures aura == 1.0 && Luma(original) <= 0.5 ==> out.r == out.g == out.b == 1.0 - glyphInk
  {
    var letter := glyphInk * Darkness(Luma(original));
    var ink := 1.0 - letter;
    Rgba(Mix(original.r, ink, aura), Mix(original.g, ink, aura), Mix(original.b, ink, aura), original.a)
  }

  /** The click-ripple fragment: white glyph pixels over the picture, only
    * on dark cells and only where a ripple runs; channels only brighten. */
  function RippleFragment(original: Rgba, cellLuma: real, glyphInk: real, ripple: real): (out: Rgba)
    requires UnitColour(original) && 0.0 <= glyphInk <= 1.0 && 0.0 <= ripple <= 1.0
    ensures UnitColour(out) && out.a == original.a
    ensures out.r >= original.r && out.g >= original.g && out.b >= original.b
    ensures ripple == 0.0 || cellLuma > 0.5 ==> out == original
  {
    var letter := glyphInk * Darkness(cellLuma);
    var t := letter * ripple;
    assert 0.0 <= letter <= 1.0;
    UnitProduct(letter, ripple);
    assert 0.0 <= t <= 1.0 by {
      UnitProduct(ripple, letter);
      assert ripple * letter == t;
    }
    MixRgb(original, 1.0, t)
  }

  /** The white hover-trail fragment: noisy glyph pixels whitened in the
    * trail; the alpha never drops below the picture's, and cells of
    * luminance three quarters or more are left as they are. */
  function TrailFragment(original: Rgba, cellLuma: real, glyphInk: real, noise: real, trail: real): (out: Rgba)
    requires UnitColour(original) && 0.0 <= trail <= 1.0
    ensures UnitColour(out)
    ensures out.a >= original.a
    ensures trail == 0.0 || cellLuma >= 0.75 ==> out == original
  {
    var noisy := Clamp(glyphInk + Fract(noise) * 0.3 - 0.15, 0.0, 1.0);
    var d := SoftDarkness(cellLuma);
    var letter := noisy * d;
    ScaledStep(noisy, d, letter);
    var t := trail * letter;
    ScaledStep(trail, letter, t);
    assert cellLuma >= 0.75 ==> letter == 0.0 && t == 0.0;
    var c := MixRgb(original, 1.0, t);
    Rgba(c.r, c.g, c.b, Mix(original.a, Max(original.a, letter), trail))
  }
}
