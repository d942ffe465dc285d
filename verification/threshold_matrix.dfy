/**
 * Threshold matrices as the shaders store them, flat and row after row,
 * and what follows from a matrix being a permutation: its thresholds lie
 * in [0, 1), and each threshold level lights a fixed share of a tile.
 */
module ThresholdMatrix {
  import opened Glsl

  /** A threshold matrix, row by row. */
  type Matrix = seq<seq<int>>

  predicate Square(m: Matrix, n: nat)
  {
    |m| == n && forall y :: 0 <= y < n ==> |m[y]| == n
  }

  lemma FlatIndex(n: nat, i: int)
    requires 0 <= i < n * n
    ensures 0 <= i / n < n && 0 <= i % n < n
    ensures i == n * (i / n) + i % n
  {
    var q := i / n;
    assert n * q <= i;
    assert n * (n - q) > 0;
  }

  /** Entry `i` of the matrix stored row after row, as the shaders' flat
    * arrays hold it. */
  function Flat(m: Matrix, n: nat, i: int): int
    requires Square(m, n) && 0 <= i < n * n
  {
    FlatIndex(n, i);
    m[i / n][i % n]
  }


  /** The matrix maps its `n*n` positions one-to-one into `0 .. n*n - 1`, so
    * every value occurs exactly once. */
  ghost predicate IsPermutation(m: Matrix, n: nat)
    requires Square(m, n)
  {
    (forall i :: 0 <= i < n * n ==> 0 <= Flat(m, n, i) < n * n) &&
    (forall i, j :: 0 <= i < n * n && 0 <= j < n * n && Flat(m, n, i) == Flat(m, n, j) ==> i == j)
  }

  /** `w` undoes `m` and `m` undoes `w`, cell by cell. */
  predicate CellsInverse(m: Matrix, w: Matrix, n: nat)
    requires Square(m, n) && Square(w, n)
  {
    (forall y, x :: 0 <= y < n && 0 <= x < n ==>
       0 <= m[y][x] < n * n && Flat(w, n, m[y][x]) == n * y + x) &&
    (forall y, x :: 0 <= y < n && 0 <= x < n ==>
       0 <= w[y][x] < n * n && Flat(m, n, w[y][x]) == n * y + x)
  }

  /** The cell-wise inverse, restated on flat positions. */
  lemma FlatInverse(m: Matrix, w: Matrix, n: nat, i: int)
    requires Square(m, n) && Square(w, n) && CellsInverse(m, w, n) && 0 <= i < n * n
    ensures 0 <= Flat(m, n, i) < n * n && Flat(w, n, Flat(m, n, i)) == i
    ensures 0 <= Flat(w, n, i) < n * n && Flat(m, n, Flat(w, n, i)) == i
  {
    FlatIndex(n, i);
    var y, x := i / n, i % n;
    assert Flat(m, n, i) == m[y][x];
    assert Flat(w, n, i) == w[y][x];
  }

  /** A matrix with a two-sided inverse is a permutation. */
  lemma {:induction false} InverseWitness(m: Matrix, w: Matrix, n: nat)
    requires Square(m, n) && Square(w, n) && CellsInverse(m, w, n)
    ensures IsPermutation(m, n)
  {
    forall i | 0 <= i < n * n
      ensures 0 <= Flat(m, n, i) < n * n
    {
      FlatInverse(m, w, n, i);
    }
    forall i, j | 0 <= i < n * n && 0 <= j < n * n && Flat(m, n, i) == Flat(m, n, j)
      ensures i == j
    {
      FlatInverse(m, w, n, i);
      FlatInverse(m, w, n, j);
    }
  }

  /** Row `y`, column `x` of a table of one of the shaders' sizes sits at
    * flat position `y * n + x`. */
  lemma FlatAt(m: Matrix, n: nat, y: int, x: int)
    requires n == 2 || n == 4 || n == 8
    requires Square(m, n) && 0 <= y < n && 0 <= x < n
    ensures 0 <= y * n + x < n * n && Flat(m, n, y * n + x) == m[y][x]
  {
    var i := y * n + x;
    assert i / n == y && i % n == x by {
      if n == 2 {
      } else if n == 4 {
      } else {
      }
    }
  }

  /** The threshold `m[i] / n²` a shader reads at flat position `i`. */
  function Threshold(m: Matrix, n: nat, i: int): real
    requires Square(m, n) && 0 <= i < n * n
  {
    Flat(m, n, i) as real / (n * n) as real
  }

  /** A threshold read from a permutation table is a whole multiple of
    * `1 / n²` in [0, 1). */
  lemma ThresholdRange(m: Matrix, w: Matrix, n: nat, i: int)
    requires Square(m, n) && Square(w, n) && CellsInverse(m, w, n) && 0 <= i < n * n
    ensures 0.0 <= Threshold(m, n, i) < 1.0
    ensures Threshold(m, n, i) * (n * n) as real == Flat(m, n, i) as real
  {
    var f, big := Flat(m, n, i), n * n;
    assert 0 <= f < big by { FlatInverse(m, w, n, i); }
    QuotientBelowOne(f, big);
    assert Threshold(m, n, i) == f as real / big as real;
  }

  lemma QuotientBelowOne(t: int, big: int)
    requires 0 <= t < big
    ensures 0.0 <= t as real / big as real < 1.0
    ensures (t as real / big as real) * big as real == t as real
  {
    var q := t as real / big as real;
    assert q * big as real == t as real;
    assert q < 1.0 by {
      if q >= 1.0 {
        MulMonotone(big as real, 1.0, q);
      }
    }
  }


  /** The `for (i = 0; i < n*n; i++) if (i == index) return matrix[i]; return 0.0;`
    * scan of the trail and ripple shaders, from position `i` on. */
  function ScanFrom(m: Matrix, n: nat, index: int, i: nat): (r: real)
    requires Square(m, n) && i <= n * n
    ensures !(i <= index < n * n) ==> r == 0.0
    decreases n * n - i
  {
    if i == n * n then 0.0
    else if i == index then Threshold(m, n, i)
    else ScanFrom(m, n, index, i + 1)
  }

  /** The scan finds an in-range index and returns its threshold. */
  lemma {:induction false} ScanFinds(m: Matrix, n: nat, index: int, i: nat)
    requires Square(m, n) && i <= index < n * n
    ensures ScanFrom(m, n, index, i) == Threshold(m, n, index)
    decreases n * n - i
  {
    if i != index {
      ScanFinds(m, n, index, i + 1);
    }
  }

  /** The integers `a .. b - 1`. */
  function Span(a: int, b: int): (r: set<int>)
    ensures forall v :: v in r <==> a <= v < b
    ensures a <= b ==> |r| == b - a
    decreases b - a
  {
    if b <= a then {} else Span(a, b - 1) + {b - 1}
  }

  /** The positions the inverse table gives for the values `k .. b - 1`. */
  function WhereOf(w: Matrix, n: nat, k: int, b: int): set<int>
    requires Square(w, n) && 0 <= k && b <= n * n
    decreases b - k
  {
    if b <= k then {} else WhereOf(w, n, k, b - 1) + {Flat(w, n, b - 1)}
  }

  /** The inverse table sends the values `k .. b - 1` to `b - k` distinct
    * positions, and those are exactly the positions holding them. */
  lemma {:induction false} WhereOfCard(m: Matrix, w: Matrix, n: nat, k: int, b: int)
    requires Square(m, n) && Square(w, n) && CellsInverse(m, w, n) && 0 <= k <= b <= n * n
    ensures |WhereOf(w, n, k, b)| == b - k
    ensures forall u :: u in WhereOf(w, n, k, b) ==> 0 <= u < n * n && k <= Flat(m, n, u) < b
    ensures forall v :: k <= v < b ==> Flat(w, n, v) in WhereOf(w, n, k, b)
    decreases b - k
  {
    if k < b {
      WhereOfCard(m, w, n, k, b - 1);
      FlatInverse(m, w, n, b - 1);
    }
  }

  /** The positions of a table holding a value of at least `k`. */
  function AtLeast(m: Matrix, n: nat, k: int): set<int>
    requires Square(m, n)
  {
    set i | i in Span(0, n * n) && Flat(m, n, i) >= k
  }

  /** In a permutation table exactly `n² - k` positions hold a value of at
    * least `k`. */
  lemma AtLeastCount(m: Matrix, w: Matrix, n: nat, k: int)
    requires Square(m, n) && Square(w, n) && CellsInverse(m, w, n) && 0 <= k <= n * n
    ensures |AtLeast(m, n, k)| == n * n - k
  {
    var img := WhereOf(w, n, k, n * n);
    var at := AtLeast(m, n, k);
    WhereOfCard(m, w, n, k, n * n);
    forall i | i in at
      ensures i in img
    {
      FlatInverse(m, w, n, i);
    }
    assert at == img;
  }
}
