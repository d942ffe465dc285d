/**
 * The two hover-trail effects. The page keeps the last twenty mouse
 * positions with their times in a ring, mirrored slot for slot into the
 * `uTrailPos` / `uTrailTime` uniforms, with a point count that saturates
 * at twenty. A mousemove adds a point only after a real movement (and, in
 * the ASCII variant, after a 30 ms cooldown). The fragment shader lets a
 * point act for 1.5 seconds, sums the points the count admits and clamps
 * the sum to [0, 1].
 */
module TrailEffects {
  import opened Glsl
  import opened SlotRing

  const MaxTrailPoints: nat := 20

  /** Every slot starts at the canvas centre with time -10. */
  const TrailSentinel := Slot(Vec2(0.5, 0.5), -10.0)

  /** The trail state: the point ring, the two uniform arrays (one slot
    * here), `trailCount` and `uTrailCount`, the mouse and, for the ASCII
    * variant, `lastTrailTime` in milliseconds. */
  datatype Trail = Trail(points: Ring, uniforms: seq<Slot>, count: int, countUniform: int,
                         mouse: Vec2, lastMouse: Vec2, lastTrailTime: real)

  /** The uniforms mirror the ring slot for slot, and `uTrailCount` mirrors
    * `trailCount`, which stays in [0, 20]. */
  predicate TrailOk(t: Trail)
  {
    Valid(t.points, MaxTrailPoints) && t.uniforms == t.points.slots &&
    0 <= t.count <= MaxTrailPoints && t.countUniform == t.count
  }

  /** The constructor and `init`: twenty sentinel slots, head and count 0,
    * the mouse at the centre. */
  function InitialTrail(): (t: Trail)
    ensures TrailOk(t) && t.points.head == 0 && t.count == 0
    ensures forall i :: 0 <= i < MaxTrailPoints ==> t.uniforms[i] == TrailSentinel
  {
    var ring := Fill(MaxTrailPoints, TrailSentinel);
    Trail(ring, ring.slots, 0, 0, Vec2(0.5, 0.5), Vec2(0.5, 0.5), 0.0)
  }

  /** Store one point at the head of the ring and of the uniforms, advance
    * the head, and count the point until twenty are held. */
  function AddSlot(t: Trail, p: Slot): (t': Trail)
    requires TrailOk(t)
    ensures TrailOk(t')
    ensures t'.uniforms[t.points.head] == p
    ensures forall j :: 0 <= j < MaxTrailPoints && j != t.points.head ==> t'.uniforms[j] == t.uniforms[j]
    ensures t'.points.head == (t.points.head + 1) % MaxTrailPoints
    ensures t.count < MaxTrailPoints ==> t'.count == t.count + 1
    ensures t.count == MaxTrailPoints ==> t'.count == MaxTrailPoints
    ensures t'.mouse == t.mouse && t'.lastMouse == t.lastMouse && t'.lastTrailTime == t.lastTrailTime
  {
    var ring := Push(t.points, MaxTrailPoints, p);
    var count := if t.count < MaxTrailPoints then t.count + 1 else t.count;
    t.(points := ring, uniforms := ring.slots, count := count, countUniform := count)
  }

  /** `addTrailPoint(x, y)`: the point's time is the clock in seconds. */
  function AddTrailPoint(t: Trail, x: real, y: real, nowMs: real): (t': Trail)
    requires TrailOk(t)
    ensures TrailOk(t')
    ensures t'.uniforms[t.points.head] == Slot(Vec2(x, y), nowMs * 0.001)
  {
    AddSlot(t, Slot(Vec2(x, y), nowMs * 0.001))
  }

  /** A run of points added one after another, oldest first. */
  function AddSlots(t: Trail, ps: seq<Slot>): (t': Trail)
    requires TrailOk(t)
    ensures TrailOk(t')
    decreases |ps|
  {
    if ps == [] then t else AddSlot(AddSlots(t, ps[..|ps| - 1]), ps[|ps| - 1])
  }

  /** From the initial state, `k` added points are counted as `min(k, 20)`,
    * and the ring holds them as the slot buffer does. */
  lemma {:induction false} AddSlotsFromStart(ps: seq<Slot>)
    ensures AddSlots(InitialTrail(), ps).count == (if |ps| <= MaxTrailPoints then |ps| else MaxTrailPoints)
    ensures AddSlots(InitialTrail(), ps).points == PushAll(InitialTrail().points, MaxTrailPoints, ps)
    decreases |ps|
  {
    if ps != [] {
      AddSlotsFromStart(ps[..|ps| - 1]);
    }
  }

  /** The shader's loop reads the first `uTrailCount` uniforms. While at
    * most twenty points have been added, those are exactly the points, in
    * the order they were added. */
  lemma ShaderReadsAddedPoints(ps: seq<Slot>, i: int)
    requires |ps| <= MaxTrailPoints && 0 <= i < MaxTrailPoints
    ensures AddSlots(InitialTrail(), ps).countUniform == |ps|
    ensures i < |ps| ==> AddSlots(InitialTrail(), ps).uniforms[i] == ps[i]
    ensures |ps| <= i ==> AddSlots(InitialTrail(), ps).uniforms[i] == TrailSentinel
  {
    AddSlotsFromStart(ps);
    FreshBufferInOrder(MaxTrailPoints, TrailSentinel, ps, i);
  }

  /** The squared normalised movement. */
  function SqDist(a: Vec2, b: Vec2): real
  {
    (a.x - b.x) * (a.x - b.x) + (a.y - b.y) * (a.y - b.y)
  }

  /** `moveDist > 0.01`, compared on squares: `moveDist` is the square root
    * of `SqDist`. */
  predicate Moved(a: Vec2, b: Vec2)
  {
    SqDist(a, b) > 0.0001
  }

  /** For the non-negative distance `d` whose square is `SqDist`, the gate
    * on squares is the source's `d > 0.01`. */
  lemma MovedIsDistance(a: Vec2, b: Vec2, d: real)
    requires d >= 0.0 && d * d == SqDist(a, b)
    ensures Moved(a, b) <==> d > 0.01
  {
    if d > 0.01 {
      MulStrict(d, 0.01, d);
      MulStrict(0.01, 0.01, d);
    } else if d > 0.0 {
      MulMonotone(d, d, 0.01);
      MulMonotone(0.01, d, 0.01);
    }
  }

  /** The ripple-trail mousemove: remember the previous position, take the
    * new one, and add a point when the mouse moved more than 0.01. */
  function MouseMove(t: Trail, pos: Vec2, nowMs: real): (t': Trail)
    requires TrailOk(t)
    ensures TrailOk(t')
    ensures t'.lastMouse == t.mouse && t'.mouse == pos
    ensures Moved(pos, t.mouse) ==>
              t'.uniforms[t.points.head] == Slot(pos, nowMs * 0.001) &&
              t'.points.head == (t.points.head + 1) % MaxTrailPoints
    ensures !Moved(pos, t.mouse) ==> t'.points == t.points && t'.count == t.count
  {
    var moved := t.(lastMouse := t.mouse, mouse := pos);
    if Moved(pos, t.mouse) then AddTrailPoint(moved, pos.x, pos.y, nowMs) else moved
  }

  const CooldownMs := 30.0

  /** The ASCII-trail mousemove: a point is added only after a movement of
    * more than 0.01 and more than 30 ms after the last added point;
    * `lastTrailTime` moves only when a point is added. */
  function CooldownMouseMove(t: Trail, pos: Vec2, nowMs: real): (t': Trail)
    requires TrailOk(t)
    ensures TrailOk(t')
    ensures t'.lastMouse == t.mouse && t'.mouse == pos
    ensures Moved(pos, t.mouse) && nowMs - t.lastTrailTime > CooldownMs ==>
              t'.uniforms[t.points.head] == Slot(pos, nowMs * 0.001) && t'.lastTrailTime == nowMs
    ensures !(Moved(pos, t.mouse) && nowMs - t.lastTrailTime > CooldownMs) ==>
              t'.points == t.points && t'.count == t.count && t'.lastTrailTime == t.lastTrailTime
  {
    var moved := t.(lastMouse := t.mouse, mouse := pos);
    if Moved(pos, t.mouse) && nowMs - t.lastTrailTime > CooldownMs then
      AddTrailPoint(moved, pos.x, pos.y, nowMs).(lastTrailTime := nowMs)
    else
      moved
  }

  /** When two successive mousemoves of the ASCII trail both add a point,
    * the second comes more than 30 ms after the first. */
  lemma CooldownSpacing(t: Trail, p1: Vec2, m1: real, p2: Vec2, m2: real)
    requires TrailOk(t)
    requires CooldownMouseMove(t, p1, m1).lastTrailTime != t.lastTrailTime
    ensures CooldownMouseMove(CooldownMouseMove(t, p1, m1), p2, m2).lastTrailTime != m1 ==> m2 - m1 > CooldownMs
    ensures CooldownMouseMove(t, p1, m1).lastTrailTime == m1
  {
  }

  const TrailDuration := 1.5

  /** `calcTrail` for a point at aspect-corrected distance `dist` from the
    * fragment: 0 outside the alive window, else a radial falloff whose
    * radius grows from 0.1 to 0.8 times a fade that reaches 0 at 1.5 s. */
  function CalcTrail(dist: real, trailTime: real, time: real): (r: real)
    ensures 0.0 <= r <= 1.0
    ensures !Alive(time - trailTime, TrailDuration) ==> r == 0.0
    ensures time - trailTime == TrailDuration ==> r == 0.0
  {
    var dt := time - trailTime;
    if !Alive(dt, TrailDuration) then 0.0
    else
      var strength := 1.0 - dt / TrailDuration;
      var radius := 0.1 + (0.8 - 0.1) * (1.0 - strength);
      var intensity := SmoothStep(radius, 0.0, dist);
      var fadeOut := 1.0 - SmoothStep(0.0, TrailDuration, dt);
      UnitProduct(fadeOut, intensity);
      assert dt == TrailDuration ==> intensity * fadeOut == intensity * 0.0 == 0.0;
      intensity * fadeOut
  }

  /** The shader's loop `for i < 20 { if (i >= uTrailCount) break; ... }`. */
  function TrailSum(slots: seq<Slot>, count: int, time: real, dist: Vec2 -> real, i: nat): (s: real)
    requires |slots| == MaxTrailPoints
    ensures s >= 0.0
    decreases MaxTrailPoints - i
  {
    if i >= MaxTrailPoints || i >= count then 0.0
    else CalcTrail(dist(slots[i].pos), slots[i].time, time) + TrailSum(slots, count, time, dist, i + 1)
  }

  /** `totalTrail = clamp(sum, 0., 1.)`. */
  function TotalTrail(slots: seq<Slot>, count: int, time: real, dist: Vec2 -> real): (r: real)
    requires |slots| == MaxTrailPoints
    ensures 0.0 <= r <= 1.0
  {
    Clamp(TrailSum(slots, count, time, dist, 0), 0.0, 1.0)
  }

  /** Points outside their window contribute nothing: when none of the
    * counted points is alive the sum is 0. */
  lemma {:induction false} DeadPointsAddNothing(slots: seq<Slot>, count: int, time: real, dist: Vec2 -> real, i: nat)
    requires |slots| == MaxTrailPoints
    requires forall j :: i <= j < MaxTrailPoints && j < count ==> !Alive(time - slots[j].time, TrailDuration)
    ensures TrailSum(slots, count, time, dist, i) == 0.0
    decreases MaxTrailPoints - i
  {
    if i < MaxTrailPoints && i < count {
      DeadPointsAddNothing(slots, count, time, dist, i + 1);
    }
  }

  /** Slots beyond the count are never read. */
  lemma {:induction false} CountBoundsTheRead(s1: seq<Slot>, s2: seq<Slot>, count: int, time: real, dist: Vec2 -> real, i: nat)
    requires |s1| == MaxTrailPoints && |s2| == MaxTrailPoints
    requires forall j :: i <= j < MaxTrailPoints && j < count ==> s1[j] == s2[j]
    ensures TrailSum(s1, count, time, dist, i) == TrailSum(s2, count, time, dist, i)
    decreases MaxTrailPoints - i
  {
    if i < MaxTrailPoints && i < count {
      CountBoundsTheRead(s1, s2, count, time, dist, i + 1);
    }
  }

  /** Each alive counted point raises the total by at least its own
    * intensity, up to the clamp. */
  lemma {:induction false} TotalCoversEachPoint(slots: seq<Slot>, count: int, time: real, dist: Vec2 -> real, i: nat, k: int)
    requires |slots| == MaxTrailPoints && i <= k < MaxTrailPoints && k < count
    ensures TrailSum(slots, count, time, dist, i) >= CalcTrail(dist(slots[k].pos), slots[k].time, time)
    decreases MaxTrailPoints - i
  {
    if i < k {
      TotalCoversEachPoint(slots, count, time, dist, i + 1, k);
    }
  }

  /** The trail drawn from the initial state is empty: nothing is counted. */
  lemma InitialTrailIsDark(time: real, dist: Vec2 -> real)
    ensures TotalTrail(InitialTrail().uniforms, InitialTrail().countUniform, time, dist) == 0.0
  {
  }

  /** `calcTrailWithDisplacement` of the ASCII trail: the same intensity as
    * `calcTrail`, with the unit direction from the point, given as `dir`;
    * the zero vector outside the alive window. */
  function CalcTrailWithDisplacement(dist: real, dir: Vec2, trailTime: real, time: real): (r: Vec3)
    ensures !Alive(time - trailTime, TrailDuration) ==> r == Vec3(0.0, 0.0, 0.0)
    ensures r.x == CalcTrail(dist, trailTime, time)
  {
    if !Alive(time - trailTime, TrailDuration) then Vec3(0.0, 0.0, 0.0)
    else
      var intensity := CalcTrail(dist, trailTime, time);
      Vec3(intensity, dir.x, dir.y)
  }

  /** The ASCII trail's accumulation: `total.x += trail.x;
    * total.yz += trail.yz * trail.x`. */
  function DisplacementSum(slots: seq<Slot>, count: int, time: real, dist: Vec2 -> real, dir: Vec2 -> Vec2, i: nat): (s: Vec3)
    requires |slots| == MaxTrailPoints
    decreases MaxTrailPoints - i
  {
    if i >= MaxTrailPoints || i >= count then Vec3(0.0, 0.0, 0.0)
    else
      var p := slots[i];
      var tr := CalcTrailWithDisplacement(dist(p.pos), dir(p.pos), p.time, time);
      var rest := DisplacementSum(slots, count, time, dist, dir, i + 1);
      Vec3(tr.x + rest.x, tr.y * tr.x + rest.y, tr.z * tr.x + rest.z)
  }

  /** Both trail shaders sum the same intensities; with no alive point the
    * ASCII trail's displacement is zero as well. */
  lemma {:induction false} DisplacementAgreesWithTrail(slots: seq<Slot>, count: int, time: real, dist: Vec2 -> real, dir: Vec2 -> Vec2, i: nat)
    requires |slots| == MaxTrailPoints
    ensures DisplacementSum(slots, count, time, dist, dir, i).x == TrailSum(slots, count, time, dist, i)
    ensures (forall j :: i <= j < MaxTrailPoints && j < count ==> !Alive(time - slots[j].time, TrailDuration)) ==>
              DisplacementSum(slots, count, time, dist, dir, i) == Vec3(0.0, 0.0, 0.0)
    decreases MaxTrailPoints - i
  {
    if i < MaxTrailPoints && i < count {
      DisplacementAgreesWithTrail(slots, count, time, dist, dir, i + 1);
    }
  }
}
