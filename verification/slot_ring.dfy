/**
 * The fixed-size round-robin slot buffers of the interactive effects: a
 * sequence of `n` slots and a head index. Every update writes the slot at
 * the head and moves the head on by one, modulo `n`, so the last `n`
 * updates are always the ones held.
 */
module SlotRing {
  import opened Glsl

  /** A trail point or a click: where it happened and when. */
  datatype Slot = Slot(pos: Vec2, time: real)

  datatype Ring = Ring(slots: seq<Slot>, head: int)

  predicate Valid(r: Ring, n: nat)
  {
    n > 0 && |r.slots| == n && 0 <= r.head < n
  }

  /** `n` copies of the sentinel slot with the head at slot 0, as each
    * effect's constructor or `init` lays its buffer out. */
  function Fill(n: nat, sentinel: Slot): (r: Ring)
    requires n > 0
    ensures Valid(r, n) && r.head == 0
    ensures forall i :: 0 <= i < n ==> r.slots[i] == sentinel
  {
    Ring(seq(n, _ => sentinel), 0)
  }

  /** One update: write `s` at the head, then `head = (head + 1) % n`. It
    * writes exactly one slot and moves the head one step round. */
  function Push(r: Ring, n: nat, s: Slot): (r': Ring)
    requires Valid(r, n)
    ensures Valid(r', n)
    ensures r'.slots[r.head] == s
    ensures forall j :: 0 <= j < n && j != r.head ==> r'.slots[j] == r.slots[j]
    ensures r'.head == (if r.head == n - 1 then 0 else r.head + 1)
  {
    ModOfSmall(r.head + 1, n);
    Ring(r.slots[r.head := s], (r.head + 1) % n)
  }

  /** The shaders' alive gate `step(0., dt) * step(dt, duration) >= .5`:
    * a slot counts from its own time until `duration` seconds later. */
  function Alive(dt: real, duration: real): (b: bool)
    ensures b <==> 0.0 <= dt <= duration
  {
    Step(0.0, dt) * Step(dt, duration) >= 0.5
  }

  /** The updates `ss`, oldest first. */
  function PushAll(r: Ring, n: nat, ss: seq<Slot>): (r': Ring)
    requires Valid(r, n)
    ensures Valid(r', n)
    decreases |ss|
  {
    if ss == [] then r else Push(PushAll(r, n, ss[..|ss| - 1]), n, ss[|ss| - 1])
  }

  lemma ModOfSmall(a: int, n: int)
    requires n > 0 && 0 <= a <= n
    ensures a % n == (if a == n then 0 else a)
  {
    if a == n {
      assert a == n * 1 + 0;
      ModUnique(a, n, 1, 0);
    } else {
      assert a == n * 0 + a;
      ModUnique(a, n, 0, a);
    }
  }

  /** The remainder is determined by any decomposition `a = n * q + r`
    * with `0 <= r < n`. */
  lemma ModUnique(a: int, n: int, q: int, r: int)
    requires n > 0 && 0 <= r < n && a == n * q + r
    ensures a % n == r && a / n == q
  {
    var q', r' := a / n, a % n;
    assert n * q' + r' == a;
    assert n * (q - q') == r' - r;
    assert n * (q' - q) == r - r';
    if q - q' >= 1 {
      MulAtLeast(n, q - q');
    } else if q' - q >= 1 {
      MulAtLeast(n, q' - q);
    }
  }

  lemma MulAtLeast(n: int, k: int)
    requires n > 0 && k >= 1
    ensures n * k >= n
  {
    assert n * k == n + n * (k - 1);
  }

  /** `(a + 1) % n` steps round from `a % n`. */
  lemma ModStep(a: int, n: int)
    requires n > 0 && a >= 0
    ensures (a + 1) % n == (if a % n == n - 1 then 0 else a % n + 1)
  {
    var q, r := a / n, a % n;
    if r == n - 1 {
      assert a + 1 == n * (q + 1) + 0;
      ModUnique(a + 1, n, q + 1, 0);
    } else {
      assert a + 1 == n * q + (r + 1);
      ModUnique(a + 1, n, q, r + 1);
    }
  }

  /** Two positions less than `n` apart land in different slots. */
  lemma ModDistinct(a: int, b: int, n: int)
    requires n > 0 && 0 <= a < b && b - a < n
    ensures a % n != b % n
  {
    var qa, qb := a / n, b / n;
    if a % n == b % n {
      assert n * (qb - qa) == b - a;
      assert n * (1 - (qb - qa)) == n - (b - a);
      if qb - qa >= 1 {
        MulAtLeast(n, qb - qa);
      } else {
        MulAtLeast(n, 1 - (qb - qa));
      }
    }
  }

  /** After `k` updates the head has moved `k` steps round. */
  lemma {:induction false} PushAllHead(r: Ring, n: nat, ss: seq<Slot>)
    requires Valid(r, n)
    ensures PushAll(r, n, ss).head == (r.head + |ss|) % n
    decreases |ss|
  {
    if ss == [] {
      ModOfSmall(r.head, n);
    } else {
      var init := ss[..|ss| - 1];
      PushAllHead(r, n, init);
      ModStep(r.head + |init|, n);
    }
  }

  /** The last `n` updates survive: the update `j` of `ss`, when fewer than
    * `n` updates follow it, sits `j` slots round from the starting head. */
  lemma {:induction false} LastWritesSurvive(r: Ring, n: nat, ss: seq<Slot>, j: int)
    requires Valid(r, n) && 0 <= j < |ss| && |ss| - j <= n
    ensures PushAll(r, n, ss).slots[(r.head + j) % n] == ss[j]
    decreases |ss|
  {
    var init := ss[..|ss| - 1];
    PushAllHead(r, n, init);
    if j < |ss| - 1 {
      LastWritesSurvive(r, n, init, j);
      ModDistinct(r.head + j, r.head + |init|, n);
    }
  }

  /** Slots the updates have not reached yet keep their content. */
  lemma {:induction false} UntouchedSlots(r: Ring, n: nat, ss: seq<Slot>, j: int)
    requires Valid(r, n) && |ss| <= j < n
    ensures PushAll(r, n, ss).slots[(r.head + j) % n] == r.slots[(r.head + j) % n]
    decreases |ss|
  {
    if ss != [] {
      var init := ss[..|ss| - 1];
      PushAllHead(r, n, init);
      UntouchedSlots(r, n, init, j);
      ModDistinct(r.head + |init|, r.head + j, n);
    }
  }

  /** From a fresh buffer, `k <= n` updates fill slots `0 .. k - 1` in order
    * and leave the rest holding the sentinel. */
  lemma FreshBufferInOrder(n: nat, sentinel: Slot, ss: seq<Slot>, i: int)
    requires n > 0 && |ss| <= n && 0 <= i < n
    ensures i < |ss| ==> PushAll(Fill(n, sentinel), n, ss).slots[i] == ss[i]
    ensures |ss| <= i ==> PushAll(Fill(n, sentinel), n, ss).slots[i] == sentinel
  {
    var f := Fill(n, sentinel);
    ModOfSmall(i, n);
    assert (f.head + i) % n == i;
    if i < |ss| {
      LastWritesSurvive(f, n, ss, i);
    } else {
      UntouchedSlots(f, n, ss, i);
      assert f.slots[i] == sentinel;
    }
  }
}
