/**
 * The click-ripple effects. The ripple and ripple-ASCII effects keep three
 * clicks in a round robin mirrored into the `uClickPos0..2` /
 * `uClickTime0..2` uniforms; their shaders let a click act for 1.6 or 1.8
 * seconds and combine the three by maximum or by clamped sum. The burst
 * effect keeps ten clicks in the `uClickPos` / `uClickTimes` uniform
 * arrays, starting from a sentinel its shader skips, and takes the running
 * maximum of the per-click pulses.
 */
module RippleEffects {
  import opened Glsl
  import opened SlotRing
  import opened Bayer

  const RippleSlots: nat := 3

  /** Every ripple starts at the canvas centre with time -10. */
  const RippleSentinel := Slot(Vec2(0.5, 0.5), -10.0)

  /** `this.ripples`, the per-slot uniforms, and `nextRippleIndex` as the
    * ring's head. */
  datatype Ripples = Ripples(ring: Ring, uniforms: seq<Slot>)

  predicate RipplesOk(r: Ripples)
  {
    Valid(r.ring, RippleSlots) && r.uniforms == r.ring.slots
  }

  /** The constructor and `init`: three sentinel ripples and their
    * uniforms, `nextRippleIndex` 0. */
  function InitialRipples(): (r: Ripples)
    ensures RipplesOk(r) && r.ring.head == 0
    ensures forall i :: 0 <= i < RippleSlots ==> r.uniforms[i] == RippleSentinel
  {
    var ring := Fill(RippleSlots, RippleSentinel);
    Ripples(ring, ring.slots)
  }

  /** The click handler storing `c` in slot `nextRippleIndex` and in that
    * slot's uniforms, then `nextRippleIndex = (nextRippleIndex + 1) % 3`. */
  function ClickSlot(r: Ripples, c: Slot): (r': Ripples)
    requires RipplesOk(r)
    ensures RipplesOk(r')
    ensures r'.uniforms[r.ring.head] == c
    ensures forall j :: 0 <= j < RippleSlots && j != r.ring.head ==> r'.uniforms[j] == r.uniforms[j]
    ensures r'.ring.head == (r.ring.head + 1) % RippleSlots
  {
    var ring := Push(r.ring, RippleSlots, c);
    Ripples(ring, ring.slots)
  }

  /** A click at the normalised position `(x, y)`, timed by the clock in
    * seconds. */
  function Click(r: Ripples, x: real, y: real, nowMs: real): (r': Ripples)
    requires RipplesOk(r)
    ensures RipplesOk(r')
    ensures r'.uniforms[r.ring.head] == Slot(Vec2(x, y), nowMs * 0.001)
  {
    ClickSlot(r, Slot(Vec2(x, y), nowMs * 0.001))
  }

  /** A run of clicks, oldest first. */
  function Clicks(r: Ripples, cs: seq<Slot>): (r': Ripples)
    requires RipplesOk(r)
    ensures RipplesOk(r')
    decreases |cs|
  {
    if cs == [] then r else ClickSlot(Clicks(r, cs[..|cs| - 1]), cs[|cs| - 1])
  }

  lemma {:induction false} ClicksArePushes(r: Ripples, cs: seq<Slot>)
    requires RipplesOk(r)
    ensures Clicks(r, cs).ring == PushAll(r.ring, RippleSlots, cs)
    decreases |cs|
  {
    if cs != [] {
      ClicksArePushes(r, cs[..|cs| - 1]);
    }
  }

  /** Three clicks in a row land in three different slots, one step round
    * from each other, and all three are held. */
  lemma ThreeClicksThreeSlots(r: Ripples, cs: seq<Slot>)
    requires RipplesOk(r) && |cs| == 3
    ensures var h := r.ring.head;
            var u := Clicks(r, cs).uniforms;
            h != (h + 1) % 3 && h != (h + 2) % 3 && (h + 1) % 3 != (h + 2) % 3 &&
            u[h] == cs[0] && u[(h + 1) % 3] == cs[1] && u[(h + 2) % 3] == cs[2]
  {
    var h := r.ring.head;
    ClicksArePushes(r, cs);
    LastWritesSurvive(r.ring, 3, cs, 0);
    LastWritesSurvive(r.ring, 3, cs, 1);
    LastWritesSurvive(r.ring, 3, cs, 2);
    ModOfSmall(h, 3);
    ThreePositions(h);
  }

  /** The three positions a run of three clicks writes are different. */
  lemma ThreePositions(h: int)
    requires 0 <= h < 3
    ensures h != (h + 1) % 3 && h != (h + 2) % 3 && (h + 1) % 3 != (h + 2) % 3
  {
    if h == 0 {
      assert (h + 1) % 3 == 1 && (h + 2) % 3 == 2;
    } else if h == 1 {
      assert (h + 1) % 3 == 2 && (h + 2) % 3 == 0;
    } else {
      assert (h + 1) % 3 == 0 && (h + 2) % 3 == 1;
    }
  }

  /** The fourth click overwrites the oldest ripple and keeps the other two. */
  lemma FourthClickReplacesOldest(r: Ripples, a: Slot, b: Slot, c: Slot, d: Slot)
    requires RipplesOk(r)
    ensures var h := r.ring.head;
            var u := Clicks(r, [a, b, c, d]).uniforms;
            u[h] == d && u[(h + 1) % 3] == b && u[(h + 2) % 3] == c
  {
    var h := r.ring.head;
    ClicksArePushes(r, [a, b, c, d]);
    LastWritesSurvive(r.ring, 3, [a, b, c, d], 1);
    LastWritesSurvive(r.ring, 3, [a, b, c, d], 2);
    LastWritesSurvive(r.ring, 3, [a, b, c, d], 3);
    assert h + 3 == 3 * 1 + h;
    ModUnique(h + 3, 3, 1, h);
  }

  const ClickRippleDuration := 1.6

  /** `calcRippleWithDisplacement` for a click at aspect-corrected distance
    * `dist`, with the unit direction `dir` from the click: the zero vector
    * outside the alive window; inside, a ring of half-width 0.3 whose radius
    * grows to 1.8 times a fade that reaches 0 at 1.6 s. */
  function CalcRippleWithDisplacement(dist: real, dir: Vec2, clickTime: real, time: real): (r: Vec3)
    ensures !Alive(time - clickTime, ClickRippleDuration) ==> r == Vec3(0.0, 0.0, 0.0)
    ensures 0.0 <= r.x <= 1.0
    ensures time - clickTime == ClickRippleDuration ==> r.x == 0.0
  {
    var dt := time - clickTime;
    if !Alive(dt, ClickRippleDuration) then Vec3(0.0, 0.0, 0.0)
    else
      var radius := dt / ClickRippleDuration * 1.5 * 1.2;
      var ringDist := if dist - radius >= 0.0 then dist - radius else radius - dist;
      var ring := SmoothStep(0.3, 0.0, ringDist);
      var fadeOut := 1.0 - SmoothStep(0.0, ClickRippleDuration, dt);
      UnitProduct(fadeOut, ring);
      assert dt == ClickRippleDuration ==> ring * fadeOut == ring * 0.0 == 0.0;
      Vec3(ring * fadeOut, dir.x, dir.y)
  }

  /** `max(max(ripple0.x, ripple1.x), ripple2.x)`: the strongest of the
    * three ripples. */
  function TotalRipple(r0: Vec3, r1: Vec3, r2: Vec3): (t: real)
    ensures t >= r0.x && t >= r1.x && t >= r2.x
    ensures t == r0.x || t == r1.x || t == r2.x
  {
    Max(Max(r0.x, r1.x), r2.x)
  }

  /** `displacement += ripple.yz * ripple.x` over the three ripples. */
  function RippleDisplacement(r0: Vec3, r1: Vec3, r2: Vec3): Vec2
  {
    Vec2(r0.y * r0.x + r1.y * r1.x + r2.y * r2.x, r0.z * r0.x + r1.z * r1.x + r2.z * r2.x)
  }

  /** The three ripples of a fragment, read from the uniforms. */
  function RippleFrame(u: seq<Slot>, time: real, dist: Vec2 -> real, dir: Vec2 -> Vec2): (f: (real, Vec2))
    requires |u| == RippleSlots
    ensures 0.0 <= f.0 <= 1.0
  {
    var r0 := CalcRippleWithDisplacement(dist(u[0].pos), dir(u[0].pos), u[0].time, time);
    var r1 := CalcRippleWithDisplacement(dist(u[1].pos), dir(u[1].pos), u[1].time, time);
    var r2 := CalcRippleWithDisplacement(dist(u[2].pos), dir(u[2].pos), u[2].time, time);
    (TotalRipple(r0, r1, r2), RippleDisplacement(r0, r1, r2))
  }

  /** With no click inside its window the fragment is neither tinted nor
    * displaced; in particular before any click, at any time from -8.4 on. */
  lemma StillWithoutLiveRipple(u: seq<Slot>, time: real, dist: Vec2 -> real, dir: Vec2 -> Vec2)
    requires |u| == RippleSlots
    requires forall j :: 0 <= j < RippleSlots ==> !Alive(time - u[j].time, ClickRippleDuration)
    ensures RippleFrame(u, time, dist, dir) == (0.0, Vec2(0.0, 0.0))
  {
    assert !Alive(time - u[0].time, ClickRippleDuration);
    assert !Alive(time - u[1].time, ClickRippleDuration);
    assert !Alive(time - u[2].time, ClickRippleDuration);
  }

  lemma InitialRipplesAreStill(time: real, dist: Vec2 -> real, dir: Vec2 -> Vec2)
    requires time > -10.0 + ClickRippleDuration
    ensures RippleFrame(InitialRipples().uniforms, time, dist, dir) == (0.0, Vec2(0.0, 0.0))
  {
    StillWithoutLiveRipple(InitialRipples().uniforms, time, dist, dir);
  }

  const AsciiRippleDuration := 1.8

  /** The edges of the ripple-ASCII shader's inside term as written,
    * `smoothstep(currentRadius, currentRadius * 0.3, dist)`. */
  function InsideEdgesAsWritten(dt: real): (e: (real, real))
    ensures dt > 0.0 ==> e.0 != e.1
  {
    var radius := dt / AsciiRippleDuration * 1.5 * 1.2;
    (radius, radius * 0.3)
  }

  /** At the first instant of a click's window the radius is 0 and the two
    * edges meet, where `smoothstep` divides by their difference. */
  lemma AsWrittenInsideEdgesMeet()
    ensures Alive(0.0, AsciiRippleDuration)
    ensures InsideEdgesAsWritten(0.0).0 == InsideEdgesAsWritten(0.0).1 == 0.0
  {
  }

  /** `calcRipple` of the ripple-ASCII shader: 0 outside the alive window;
    * inside, the larger of a ring of half-width 0.25 and half a filled disc
    * inside the ring, times a fade that reaches 0 at 1.8 s. A disc of radius
    * 0 contributes nothing. */
  function CalcRipple(dist: real, clickTime: real, time: real): (r: real)
    ensures 0.0 <= r <= 1.0
    ensures !Alive(time - clickTime, AsciiRippleDuration) ==> r == 0.0
    ensures time - clickTime == AsciiRippleDuration ==> r == 0.0
  {
    var dt := time - clickTime;
    if !Alive(dt, AsciiRippleDuration) then 0.0
    else
      var radius := dt / AsciiRippleDuration * 1.5 * 1.2;
      var ringDist := if dist - radius >= 0.0 then dist - radius else radius - dist;
      var ring := SmoothStep(0.25, 0.0, ringDist);
      var inside := Inside(dt, dist);
      var fadeOut := 1.0 - SmoothStep(0.0, AsciiRippleDuration, dt);
      var m := Max(ring, inside);
      UnitProduct(fadeOut, m);
      assert dt == AsciiRippleDuration ==> m * fadeOut == m * 0.0 == 0.0;
      m * fadeOut
  }

  /** The inside term `smoothstep(currentRadius, currentRadius * 0.3, dist)
    * * 0.5` for a click `dt >= 0` seconds old, with the empty disc of the
    * first instant contributing 0. */
  function Inside(dt: real, dist: real): (r: real)
    requires dt >= 0.0
    ensures 0.0 <= r <= 0.5
    ensures dt == 0.0 ==> r == 0.0
  {
    if dt == 0.0 then 0.0
    else
      var edges := InsideEdgesAsWritten(dt);
      SmoothStep(edges.0, edges.1, dist) * 0.5
  }

  /** `clamp(ripple0 + ripple1 + ripple2, 0., 1.)`. */
  function TotalAsciiRipple(u: seq<Slot>, time: real, dist: Vec2 -> real): (t: real)
    requires |u| == RippleSlots
    ensures 0.0 <= t <= 1.0
    ensures forall j :: 0 <= j < RippleSlots ==> t >= CalcRipple(dist(u[j].pos), u[j].time, time)
  {
    var a, b, c := CalcRipple(dist(u[0].pos), u[0].time, time),
                   CalcRipple(dist(u[1].pos), u[1].time, time),
                   CalcRipple(dist(u[2].pos), u[2].time, time);
    Clamp(a + b + c, 0.0, 1.0)
  }

  /** With no click inside its window the ASCII ripple is 0. */
  lemma AsciiRippleNeedsLiveClick(u: seq<Slot>, time: real, dist: Vec2 -> real)
    requires |u| == RippleSlots
    requires forall j :: 0 <= j < RippleSlots ==> !Alive(time - u[j].time, AsciiRippleDuration)
    ensures TotalAsciiRipple(u, time, dist) == 0.0
  {
    assert !Alive(time - u[0].time, AsciiRippleDuration);
    assert !Alive(time - u[1].time, AsciiRippleDuration);
    assert !Alive(time - u[2].time, AsciiRippleDuration);
  }

  const MaxClicks: nat := 10

  /** Unused click slots sit at `(-1, -1)` with time 0. */
  const ClickSentinel := Slot(Vec2(-1.0, -1.0), 0.0)

  /** The burst effect's state: the click uniforms with `clickIndex` as
    * the head, `uTime`, `disposed` and `currentImageSrc`. */
  datatype Burst = Burst(clicks: Ring, uTime: real, disposed: bool, currentImageSrc: string)

  predicate BurstOk(b: Burst)
  {
    Valid(b.clicks, MaxClicks)
  }

  /** `init`: ten sentinel slots, `clickIndex` 0, `uTime` 0. */
  function InitialBurst(src: string): (b: Burst)
    ensures BurstOk(b) && b.clicks.head == 0 && !b.disposed
    ensures forall i :: 0 <= i < MaxClicks ==> b.clicks.slots[i] == ClickSentinel
  {
    Burst(Fill(MaxClicks, ClickSentinel), 0.0, false, src)
  }

  /** A click at canvas pixel `(fx, fy)`: slot `clickIndex` takes the
    * position and the current `uTime`, then `clickIndex` moves on mod 10. */
  function BurstClick(b: Burst, fx: real, fy: real): (b': Burst)
    requires BurstOk(b)
    ensures BurstOk(b')
    ensures b'.clicks.slots[b.clicks.head] == Slot(Vec2(fx, fy), b.uTime)
    ensures forall j :: 0 <= j < MaxClicks && j != b.clicks.head ==> b'.clicks.slots[j] == b.clicks.slots[j]
    ensures b'.clicks.head == (b.clicks.head + 1) % MaxClicks
    ensures b'.uTime == b.uTime && b'.disposed == b.disposed && b'.currentImageSrc == b.currentImageSrc
  {
    b.(clicks := Push(b.clicks, MaxClicks, Slot(Vec2(fx, fy), b.uTime)))
  }

  /** `animate`: once disposed it returns at once, scheduling nothing and
    * changing nothing; otherwise it schedules the next frame and sets
    * `uTime` to the clock's elapsed seconds times the speed. */
  function Animate(b: Burst, elapsed: real, speed: real): (r: (Burst, bool))
    ensures b.disposed ==> r == (b, false)
    ensures !b.disposed ==> r.1 && r.0.uTime == elapsed * speed && r.0.clicks == b.clicks
  {
    if b.disposed then (b, false) else (b.(uTime := elapsed * speed), true)
  }

  /** `dispose` sets `disposed`. */
  function Dispose(b: Burst): (b': Burst)
    ensures b'.disposed && b'.clicks == b.clicks
  {
    b.(disposed := true)
  }

  /** `updateImage`: a source equal to the current one changes nothing;
    * another becomes the current source. */
  function UpdateImage(b: Burst, src: string): (b': Burst)
    ensures b'.currentImageSrc == src
    ensures src == b.currentImageSrc ==> b' == b
    ensures b'.clicks == b.clicks && b'.disposed == b.disposed && b'.uTime == b.uTime
  {
    if b.currentImageSrc == src then b else b.(currentImageSrc := src)
  }

  /** Updating to the same source twice is updating once. */
  lemma UpdateImageIdempotent(b: Burst, src: string)
    ensures UpdateImage(UpdateImage(b, src), src) == UpdateImage(b, src)
  {
  }

  /** After `dispose`, clicks and image updates may still change the state,
    * but no later `animate` schedules a frame or moves `uTime`. */
  lemma DisposedNeverAnimates(b: Burst, fx: real, fy: real, src: string, elapsed: real, speed: real)
    requires BurstOk(b)
    ensures Animate(Dispose(b), elapsed, speed) == (Dispose(b), false)
    ensures Animate(BurstClick(Dispose(b), fx, fy), elapsed, speed).1 == false
    ensures Animate(UpdateImage(Dispose(b), src), elapsed, speed).1 == false
  {
  }

  /** `t = max(uTime - uClickTimes[i], 0.)`. */
  function Elapsed(uTime: real, clickTime: real): (t: real)
    ensures t >= 0.0
    ensures uTime >= clickTime ==> t == uTime - clickTime
    ensures uTime < clickTime ==> t == 0.0
  {
    Max(uTime - clickTime, 0.0)
  }

  /** The burst loop from slot `i` on, with the running maximum `acc`:
    * slots with `pos.x < 0` are skipped; each other slot raises the
    * maximum to its pulse, given as `pulse(pos, t)` for the click's
    * exponential ring and damping. */
  function BurstFrom(slots: seq<Slot>, uTime: real, pulse: (Vec2, real) -> real, i: nat, acc: real): (m: real)
    requires |slots| == MaxClicks
    ensures m >= acc
    ensures forall j :: i <= j < MaxClicks && slots[j].pos.x >= 0.0 ==>
              m >= pulse(slots[j].pos, Elapsed(uTime, slots[j].time))
    ensures m == acc || exists j :: (i <= j < MaxClicks && slots[j].pos.x >= 0.0 &&
                                     m == pulse(slots[j].pos, Elapsed(uTime, slots[j].time)))
    decreases MaxClicks - i
  {
    if i >= MaxClicks then acc
    else if slots[i].pos.x < 0.0 then BurstFrom(slots, uTime, pulse, i + 1, acc)
    else BurstFrom(slots, uTime, pulse, i + 1, Max(acc, pulse(slots[i].pos, Elapsed(uTime, slots[i].time))))
  }

  /** `burstIntensity`, starting from 0: never negative, at least every live
    * click's pulse, and either 0 or one of those pulses. */
  function BurstIntensity(slots: seq<Slot>, uTime: real, pulse: (Vec2, real) -> real): (m: real)
    requires |slots| == MaxClicks
    ensures m >= 0.0
    ensures forall j :: 0 <= j < MaxClicks && slots[j].pos.x >= 0.0 ==>
              m >= pulse(slots[j].pos, Elapsed(uTime, slots[j].time))
    ensures m == 0.0 || exists j :: (0 <= j < MaxClicks && slots[j].pos.x >= 0.0 &&
                                     m == pulse(slots[j].pos, Elapsed(uTime, slots[j].time)))
  {
    BurstFrom(slots, uTime, pulse, 0, 0.0)
  }

  /** Sentinel slots contribute nothing: what a slot with `pos.x < 0` holds
    * never changes the burst. */
  lemma {:induction false} SentinelsIgnored(s1: seq<Slot>, s2: seq<Slot>, uTime: real, pulse: (Vec2, real) -> real, i: nat, acc: real)
    requires |s1| == MaxClicks && |s2| == MaxClicks
    requires forall j :: i <= j < MaxClicks ==> s1[j] == s2[j] || (s1[j].pos.x < 0.0 && s2[j].pos.x < 0.0)
    ensures BurstFrom(s1, uTime, pulse, i, acc) == BurstFrom(s2, uTime, pulse, i, acc)
    decreases MaxClicks - i
  {
    if i < MaxClicks {
      if s1[i].pos.x < 0.0 {
        SentinelsIgnored(s1, s2, uTime, pulse, i + 1, acc);
      } else {
        SentinelsIgnored(s1, s2, uTime, pulse, i + 1,
                         Max(acc, pulse(s1[i].pos, Elapsed(uTime, s1[i].time))));
      }
    }
  }

  /** Before any click the burst is 0 everywhere. */
  lemma InitialBurstIsZero(src: string, pulse: (Vec2, real) -> real)
    ensures BurstIntensity(InitialBurst(src).clicks.slots, InitialBurst(src).uTime, pulse) == 0.0
  {
    var s := InitialBurst(src).clicks.slots;
    assert forall j :: 0 <= j < MaxClicks ==> s[j].pos.x < 0.0;
  }

  /** The burst shader dithers only where `burstIntensity > 0.01`, with
    * `bw = step(0.5, feed + Bayer8(fragCoord / uPixelSize) - 0.5)`. */
  function BurstDot(burst: real, a: Vec2): (bw: real)
    ensures bw == 0.0 || bw == 1.0
  {
    Step(0.5, burst + (ArithBayer8(a) - 0.5))
  }

  /** A burst dot is on exactly where the burst and the 8x8 threshold at the
    * floored cell reach 1 together. */
  lemma BurstDotThreshold(burst: real, a: Vec2)
    ensures BurstDot(burst, a) == 1.0 <==>
              burst + Bayer8[Floor(a.y) % 8][Floor(a.x) % 8] as real / 64.0 >= 1.0
  {
    ArithBayer8IsTable(a);
  }
}
