/**
 * `Math.random` as an oracle. The k-th value the program draws is `rnd(k)`;
 * every operation that draws takes the index of the next draw and returns
 * the index after the draws it made.
 */
module RandomOracle {

  type Oracle = nat -> real

  /** Every draw lies in [0, 1), as `Math.random` promises. */
  ghost predicate Fair(rnd: Oracle)
  {
    forall k: nat :: 0.0 <= rnd(k) < 1.0
  }

  /** `getRandomInt(min, max)`: `Math.floor(Math.random() * (max - min + 1)) + min`. */
  function RandomInt(min: int, max: int, rnd: Oracle, k: nat): (r: (int, nat))
    ensures r.1 == k + 1
  {
    ((rnd(k) * (max - min + 1) as real).Floor + min, k + 1)
  }

  lemma MulNonNegative(a: real, b: real)
    requires a >= 0.0 && b >= 0.0
    ensures a * b >= 0.0
  {
  }

  lemma ScaledFloorBelow(u: real, n: int)
    requires 0.0 <= u < 1.0 && n >= 1
    ensures 0 <= (u * n as real).Floor < n
  {
    assert 0.0 <= u * n as real;
    assert u * n as real < n as real by {
      assert (1.0 - u) * n as real > 0.0;
    }
  }

  lemma ScaledFloorAbove(u: real, n: int)
    requires 0.0 <= u < 1.0 && n <= 0
    ensures n <= (u * n as real).Floor <= 0
  {
    MulNonNegative(u, (-n) as real);
    MulNonNegative(1.0 - u, (-n) as real);
  }

  /** A fair draw of `getRandomInt(min, max)` lies in [min, max]; when the
    * bounds are reversed it lies in (max, min]. */
  lemma RandomIntRange(min: int, max: int, rnd: Oracle, k: nat)
    requires 0.0 <= rnd(k) < 1.0
    ensures min <= max ==> min <= RandomInt(min, max, rnd, k).0 <= max
    ensures max < min ==> max < RandomInt(min, max, rnd, k).0 <= min
  {
    if min <= max {
      ScaledFloorBelow(rnd(k), max - min + 1);
    } else {
      ScaledFloorAbove(rnd(k), max - min + 1);
    }
  }
}
