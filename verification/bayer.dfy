/**
 * The ordered-dithering threshold matrices shared by the dithering shaders,
 * the two ways those shaders read them (`getBayerValue` on a tile position
 * and the `bayer8x8` / `bayer4x4` loops on `mod` of the pixel position),
 * the skewed lookup of the coin shader, and the arithmetic `Bayer2/4/8`
 * macros of the burst shader.
 */
module Bayer {
  import opened Glsl
  import opened ThresholdMatrix

  const Bayer2: Matrix := [[0, 2], [3, 1]]

  const Bayer4: Matrix := [
    [0, 8, 2, 10],
    [12, 4, 14, 6],
    [3, 11, 1, 9],
    [15, 7, 13, 5]]

  const Bayer8: Matrix := [
    [0, 32, 8, 40, 2, 34, 10, 42],
    [48, 16, 56, 24, 50, 18, 58, 26],
    [12, 44, 4, 36, 14, 46, 6, 38],
    [60, 28, 52, 20, 62, 30, 54, 22],
    [3, 35, 11, 43, 1, 33, 9, 41],
    [51, 19, 59, 27, 49, 17, 57, 25],
    [15, 47, 7, 39, 13, 45, 5, 37],
    [63, 31, 55, 23, 61, 29, 53, 21]]

  /** The 8x8 table of the coin model's shader, transcribed separately. */
  const ModelBayer8: Matrix := [
    [0, 32, 8, 40, 2, 34, 10, 42],
    [48, 16, 56, 24, 50, 18, 58, 26],
    [12, 44, 4, 36, 14, 46, 6, 38],
    [60, 28, 52, 20, 62, 30, 54, 22],
    [3, 35, 11, 43, 1, 33, 9, 41],
    [51, 19, 59, 27, 49, 17, 57, 25],
    [15, 47, 7, 39, 13, 45, 5, 37],
    [63, 31, 55, 23, 61, 29, 53, 21]]

  /** The `matrix[64]` of the trail and click-ripple shaders' `bayer8x8`,
    * entry `matrix[8 * y + x]` at row `y`, column `x`. */
  const ShaderBayer8: Matrix := [
    [0, 32, 8, 40, 2, 34, 10, 42],
    [48, 16, 56, 24, 50, 18, 58, 26],
    [12, 44, 4, 36, 14, 46, 6, 38],
    [60, 28, 52, 20, 62, 30, 54, 22],
    [3, 35, 11, 43, 1, 33, 9, 41],
    [51, 19, 59, 27, 49, 17, 57, 25],
    [15, 47, 7, 39, 13, 45, 5, 37],
    [63, 31, 55, 23, 61, 29, 53, 21]]

  /** The 16-entry table of the pixel-scramble `bayer4x4` and of the coin
    * shader's `bayer4x4`, entry `4 * y + x` at row `y`, column `x`. */
  const ShaderBayer4: Matrix := [
    [0, 8, 2, 10],
    [12, 4, 14, 6],
    [3, 11, 1, 9],
    [15, 7, 13, 5]]

  /** For each threshold value, the flat position holding it. These tables
    * carry no behaviour: they witness that the matrices are permutations. */
  const Where2: Matrix := [[0, 3], [1, 2]]

  const Where4: Matrix := [
    [0, 10, 2, 8],
    [5, 15, 7, 13],
    [1, 11, 3, 9],
    [4, 14, 6, 12]]

  const Where8: Matrix := [
    [0, 36, 4, 32, 18, 54, 22, 50],
    [2, 38, 6, 34, 16, 52, 20, 48],
    [9, 45, 13, 41, 27, 63, 31, 59],
    [11, 47, 15, 43, 25, 61, 29, 57],
    [1, 37, 5, 33, 19, 55, 23, 51],
    [3, 39, 7, 35, 17, 53, 21, 49],
    [8, 44, 12, 40, 26, 62, 30, 58],
    [10, 46, 14, 42, 24, 60, 28, 56]]

  /** The table the dithering shaders pick for a matrix size. */
  function Table(size: int): (m: Matrix)
    requires size == 2 || size == 4 || size == 8
    ensures Square(m, size)
  {
    if size == 2 then Bayer2 else if size == 4 then Bayer4 else Bayer8
  }

  lemma Bayer2Inverse()
    ensures CellsInverse(Bayer2, Where2, 2)
  {
    assert Flat(Where2, 2, 0) == 0 && Flat(Where2, 2, 1) == 3;
    assert Flat(Where2, 2, 2) == 1 && Flat(Where2, 2, 3) == 2;
    assert Flat(Bayer2, 2, 0) == 0 && Flat(Bayer2, 2, 1) == 2;
    assert Flat(Bayer2, 2, 2) == 3 && Flat(Bayer2, 2, 3) == 1;
  }

  lemma Bayer4Row(y: int)
    requires 0 <= y < 4
    ensures forall x :: 0 <= x < 4 ==> 0 <= Bayer4[y][x] < 16 && Flat(Where4, 4, Bayer4[y][x]) == 4 * y + x
    ensures forall x :: 0 <= x < 4 ==> 0 <= Where4[y][x] < 16 && Flat(Bayer4, 4, Where4[y][x]) == 4 * y + x
  {
    match y
    case 0 =>
    case 1 =>
    case 2 =>
    case 3 =>
  }

  lemma Bayer4Inverse()
    ensures CellsInverse(Bayer4, Where4, 4)
  {
    forall y | 0 <= y < 4
      ensures forall x :: 0 <= x < 4 ==> 0 <= Bayer4[y][x] < 16 && Flat(Where4, 4, Bayer4[y][x]) == 4 * y + x
      ensures forall x :: 0 <= x < 4 ==> 0 <= Where4[y][x] < 16 && Flat(Bayer4, 4, Where4[y][x]) == 4 * y + x
    {
      Bayer4Row(y);
    }
  }

  lemma Bayer8Row(y: int)
    requires 0 <= y < 8
    ensures forall x :: 0 <= x < 8 ==> 0 <= Bayer8[y][x] < 64 && Flat(Where8, 8, Bayer8[y][x]) == 8 * y + x
  {
    match y
    case 0 =>
    case 1 =>
    case 2 =>
    case 3 =>
    case 4 =>
    case 5 =>
    case 6 =>
    case 7 =>
  }

  lemma Where8Row(y: int)
    requires 0 <= y < 8
    ensures forall x :: 0 <= x < 8 ==> 0 <= Where8[y][x] < 64 && Flat(Bayer8, 8, Where8[y][x]) == 8 * y + x
  {
    match y
    case 0 =>
    case 1 =>
    case 2 =>
    case 3 =>
    case 4 =>
    case 5 =>
    case 6 =>
    case 7 =>
  }

  lemma Bayer8Inverse()
    ensures CellsInverse(Bayer8, Where8, 8)
  {
    forall y | 0 <= y < 8
      ensures forall x :: 0 <= x < 8 ==> 0 <= Bayer8[y][x] < 64 && Flat(Where8, 8, Bayer8[y][x]) == 8 * y + x
      ensures forall x :: 0 <= x < 8 ==> 0 <= Where8[y][x] < 64 && Flat(Bayer8, 8, Where8[y][x]) == 8 * y + x
    {
      Bayer8Row(y);
      Where8Row(y);
    }
  }

  /** Each of the three threshold matrices holds every value `0 .. n*n - 1`
    * exactly once, so its thresholds are distinct multiples of `1 / n*n`. */
  lemma TablesArePermutations(size: int)
    requires size == 2 || size == 4 || size == 8
    ensures IsPermutation(Table(size), size)
  {
    TablesInverse(size);
    InverseWitness(Table(size), Where(size), size);
  }

  lemma TablesInverse(size: int)
    requires size == 2 || size == 4 || size == 8
    ensures CellsInverse(Table(size), Where(size), size)
  {
    if size == 2 {
      Bayer2Inverse();
    } else if size == 4 {
      Bayer4Inverse();
    } else {
      Bayer8Inverse();
    }
  }

  function Where(size: int): (w: Matrix)
    requires size == 2 || size == 4 || size == 8
    ensures Square(w, size)
  {
    if size == 2 then Where2 else if size == 4 then Where4 else Where8
  }

  /** The model shader's table is the background table. */
  lemma ModelTableIsBackgroundTable()
    ensures ModelBayer8 == Bayer8
  {
  }

  /** The tables written out in the effect shaders are the background's
    * 4x4 and 8x8 tables. */
  lemma ShaderTablesAreBackgroundTables()
    ensures ShaderBayer4 == Bayer4 && ShaderBayer8 == Bayer8
  {
  }

  /** The tile coordinate `int(fract(u / size) * size)`. */
  function TilePos(u: real, size: int): (p: int)
    requires size > 0
    ensures 0 <= p < size
  {
    var f := Fract(u / size as real);
    MulStrict(size as real, f, 1.0);
    assert f * size as real < size as real;
    Trunc(f * size as real)
  }

  /** Cell `(x, y)` of an `n` by `n` tile has a flat index below `n * n`. */
  lemma CellBound(x: int, y: int, n: int)
    requires 0 <= x < n && 0 <= y < n
    ensures 0 <= y * n + x < n * n
  {
    MulLess(y, n - 1, n);
  }

  lemma MulLess(y: int, m: int, n: int)
    requires 0 <= y <= m && n >= 0
    ensures 0 <= y * n <= m * n
  {
    assert m * n - y * n == (m - y) * n;
  }

  /** `pos.y * size + pos.x` for the tile position of `uv`. */
  function BayerIndex(uv: Vec2, size: int): (i: int)
    requires size > 0
    ensures 0 <= i < size * size
  {
    var px, py := TilePos(uv.x, size), TilePos(uv.y, size);
    CellBound(px, py, size);
    py * size + px
  }

  /** `getBayerValue(uv, size)` of the dithering shaders: sizes 2, 4 and 8
    * read their table at the tile position; any other size gives 0. */
  function GetBayerValue(uv: Vec2, size: int): (r: real)
    ensures !(size == 2 || size == 4 || size == 8) ==> r == 0.0
  {
    if size == 2 || size == 4 || size == 8 then
      Threshold(Table(size), size, BayerIndex(uv, size))
    else
      0.0
  }

  /** The coin model's `getBayerValue(uv, 8)`, which reads its own 8x8 table. */
  function ModelGetBayerValue(uv: Vec2): real
  {
    Threshold(ModelBayer8, 8, BayerIndex(uv, 8))
  }

  /** Every threshold lies in [0, 1). */
  lemma GetBayerValueRange(uv: Vec2, size: int)
    requires size == 2 || size == 4 || size == 8
    ensures 0.0 <= GetBayerValue(uv, size) < 1.0
  {
    var m, w, i := Table(size), Where(size), BayerIndex(uv, size);
    assert GetBayerValue(uv, size) == Threshold(m, size, i);
    TablesInverse(size);
    ThresholdRange(m, w, size, i);
  }

  lemma FractShift(z: real, a: int)
    ensures Fract(z + a as real) == Fract(z)
  {
    assert (z + a as real).Floor == z.Floor + a;
  }

  lemma DivShift(u: real, s: real, a: int)
    requires s > 0.0
    ensures (u + s * a as real) / s == u / s + a as real
  {
    assert (u / s + a as real) * s == u + s * a as real;
  }

  /** Moving a whole tile along one axis keeps the tile coordinate. */
  lemma TilePosShift(u: real, size: int, a: int)
    requires size > 0
    ensures TilePos(u + (size * a) as real, size) == TilePos(u, size)
  {
    var s := size as real;
    assert (size * a) as real == s * a as real;
    DivShift(u, s, a);
    FractShift(u / s, a);
  }

  /** Inside the first tile the tile coordinate is the pixel coordinate. */
  lemma TilePosInTile(u: real, size: int)
    requires size > 0 && 0.0 <= u < size as real
    ensures TilePos(u, size) == Floor(u)
  {
    var s := size as real;
    var q := u / s;
    assert q * s == u;
    assert 0.0 <= q < 1.0 by {
      if q >= 1.0 {
        MulMonotone(s, 1.0, q);
      }
    }
    assert Fract(q) == q;
  }

  /** Inside the first tile, the threshold at pixel `(x, y)` is row `y`,
    * column `x` of the table, over `n²`. */
  lemma GetBayerValueInTile(uv: Vec2, size: int)
    requires size == 2 || size == 4 || size == 8
    requires 0.0 <= uv.x < size as real && 0.0 <= uv.y < size as real
    ensures GetBayerValue(uv, size) == Table(size)[Floor(uv.y)][Floor(uv.x)] as real / (size * size) as real
  {
    LookupInTile(Table(size), uv, size);
  }

  lemma LookupInTile(m: Matrix, uv: Vec2, size: int)
    requires size == 2 || size == 4 || size == 8
    requires Square(m, size) && 0.0 <= uv.x < size as real && 0.0 <= uv.y < size as real
    ensures Threshold(m, size, BayerIndex(uv, size)) == m[Floor(uv.y)][Floor(uv.x)] as real / (size * size) as real
  {
    TilePosInTile(uv.x, size);
    TilePosInTile(uv.y, size);
    FlatAt(m, size, Floor(uv.y), Floor(uv.x));
  }

  /** The threshold pattern repeats every `size` pixels in both directions. */
  lemma GetBayerValueTiles(uv: Vec2, size: int, a: int, b: int)
    requires size == 2 || size == 4 || size == 8
    ensures GetBayerValue(Vec2(uv.x + (size * a) as real, uv.y + (size * b) as real), size)
         == GetBayerValue(uv, size)
  {
    TilePosShift(uv.x, size, a);
    TilePosShift(uv.y, size, b);
    var moved := Vec2(uv.x + (size * a) as real, uv.y + (size * b) as real);
    assert BayerIndex(moved, size) == BayerIndex(uv, size);
  }

  /** The coin model reads the same thresholds as the background at size 8. */
  lemma ModelMatchesBackground(uv: Vec2)
    ensures ModelGetBayerValue(uv) == GetBayerValue(uv, 8)
  {
    ModelTableIsBackgroundTable();
  }

  /** `index = int(mod(pos.x, n)) + int(mod(pos.y, n)) * n` of the
    * `bayer8x8` / `bayer4x4` shader functions. */
  function GridIndex(pos: Vec2, n: nat): (i: int)
    requires n > 0
    ensures 0 <= i < n * n
  {
    var x := Trunc(Mod(pos.x, n as real));
    var y := Trunc(Mod(pos.y, n as real));
    assert 0 <= x < n && 0 <= y < n;
    CellBound(x, y, n);
    x + y * n
  }

  /** The scanning `bayerNxN(pos)` lookup. */
  function GridBayer(m: Matrix, n: nat, pos: Vec2): real
    requires n > 0 && Square(m, n)
  {
    ScanFrom(m, n, GridIndex(pos, n), 0)
  }

  lemma ModIsScaledFract(x: real, n: int)
    requires n > 0
    ensures Mod(x, n as real) == Fract(x / n as real) * n as real
  {
    var s := n as real;
    var f := (x / s).Floor as real;
    assert (x / s - f) * s == (x / s) * s - f * s;
    assert (x / s) * s == x;
  }

  /** `bayer8x8(pos)` of the trail and click-ripple shaders. */
  function ShaderBayer8x8(pos: Vec2): real
  {
    GridBayer(ShaderBayer8, 8, pos)
  }

  /** `bayer4x4(pos)` of the pixel-scramble shader. */
  function ShaderBayer4x4(pos: Vec2): real
  {
    GridBayer(ShaderBayer4, 4, pos)
  }

  /** `mod` on the pixel position and `fract` on the tile position give
    * the same index. */
  lemma GridIndexIsBayerIndex(pos: Vec2, n: int)
    requires n > 0
    ensures GridIndex(pos, n) == BayerIndex(pos, n)
  {
    var x, y := Trunc(Mod(pos.x, n as real)), Trunc(Mod(pos.y, n as real));
    assert x == TilePos(pos.x, n) by { ModIsScaledFract(pos.x, n); }
    assert y == TilePos(pos.y, n) by { ModIsScaledFract(pos.y, n); }
    assert GridIndex(pos, n) == x + y * n;
  }

  /** The scanning lookup of the trail, ripple and pixel-scramble shaders
    * gives, at every fragment, the threshold `getBayerValue` gives for the
    * same table size: the loop's `return 0.0` is never reached. */
  lemma GridBayerIsGetBayerValue(pos: Vec2, n: int)
    requires n == 4 || n == 8
    ensures GridBayer(Table(n), n, pos) == GetBayerValue(pos, n)
  {
    GridIndexIsBayerIndex(pos, n);
    ScanFinds(Table(n), n, GridIndex(pos, n), 0);
  }

  /** The effect shaders' scanning lookups read, at every fragment, the
    * threshold the dithering background reads for the same size, a value
    * in [0, 1): the index is always in range and the table the same. */
  lemma ShaderLookupsAreGetBayerValue(pos: Vec2)
    ensures ShaderBayer8x8(pos) == GetBayerValue(pos, 8) && 0.0 <= ShaderBayer8x8(pos) < 1.0
    ensures ShaderBayer4x4(pos) == GetBayerValue(pos, 4) && 0.0 <= ShaderBayer4x4(pos) < 1.0
  {
    ShaderTablesAreBackgroundTables();
    GridBayerIsGetBayerValue(pos, 8);
    GridBayerIsGetBayerValue(pos, 4);
    GetBayerValueRange(pos, 8);
    GetBayerValueRange(pos, 4);
  }

  /** The coin shader's index `int(mod(grid.y * 4 + grid.x, 16))` on the
    * floored grid cell. */
  function CoinIndex(gx: int, gy: int): (i: int)
    ensures 0 <= i < 16
    ensures i == (gy * 4 + gx) % 16
  {
    var k := gy * 4 + gx;
    var v := k as real;
    assert (v / 16.0).Floor == k / 16;
    Trunc(Mod(v, 16.0))
  }

  /** `threshold[index] / 16.0` of the coin shader. */
  function CoinBayer(gx: int, gy: int): real
  {
    Threshold(ShaderBayer4, 4, CoinIndex(gx, gy))
  }

  /** The coin lookup reads a threshold in [0, 1). */
  lemma CoinBayerRange(gx: int, gy: int)
    ensures 0.0 <= CoinBayer(gx, gy) < 1.0
  {
    ShaderTablesAreBackgroundTables();
    Bayer4Inverse();
    ThresholdRange(Bayer4, Where4, 4, CoinIndex(gx, gy));
  }

  lemma CoinReadsBayer4(gx: int, gy: int)
    ensures CoinBayer(gx, gy) == Threshold(Bayer4, 4, CoinIndex(gx, gy))
  {
    ShaderTablesAreBackgroundTables();
  }

  /** On the first 4x4 cells the coin lookup agrees with the table; four
    * cells to the right it reads the next row rather than repeating. */
  lemma CoinBayerLayout(gx: int, gy: int)
    ensures 0 <= gx < 4 && 0 <= gy < 4 ==> CoinBayer(gx, gy) == Bayer4[gy][gx] as real / 16.0
    ensures CoinBayer(gx + 4, gy) == CoinBayer(gx, gy + 1)
  {
    CoinIndexLayout(gx, gy);
    CoinReadsBayer4(gx + 4, gy);
    CoinReadsBayer4(gx, gy + 1);
    if 0 <= gx < 4 && 0 <= gy < 4 {
      CoinReadsBayer4(gx, gy);
      FirstTile(gx, gy);
    }
  }

  lemma FirstTile(gx: int, gy: int)
    requires 0 <= gx < 4 && 0 <= gy < 4
    ensures Threshold(Bayer4, 4, gy * 4 + gx) == Bayer4[gy][gx] as real / 16.0
  {
    FlatAt(Bayer4, 4, gy, gx);
  }

  lemma CoinIndexLayout(gx: int, gy: int)
    ensures 0 <= gx < 4 && 0 <= gy < 4 ==> CoinIndex(gx, gy) == gy * 4 + gx
    ensures CoinIndex(gx + 4, gy) == CoinIndex(gx, gy + 1)
  {
    assert gy * 4 + (gx + 4) == (gy + 1) * 4 + gx;
  }

  /** `Bayer2(a)` of the burst shader: `fract(floor(a).x / 2 + floor(a).y² · 0.75)`. */
  function ArithBayer2(a: Vec2): (r: real)
    ensures r == 0.0 || r == 0.25 || r == 0.5 || r == 0.75
    ensures r == Bayer2[Floor(a.y) % 2][Floor(a.x) % 2] as real / 4.0
  {
    var fx, fy := Floor(a.x), Floor(a.y);
    ArithBayer2Value(fx, fy);
    Fract(fx as real / 2.0 + (fy * fy) as real * 0.75)
  }

  lemma FractQuarter(k: int)
    ensures Fract(k as real / 4.0) == (k % 4) as real / 4.0
  {
    var q := k / 4;
    assert k as real / 4.0 == q as real + (k % 4) as real / 4.0;
    assert (k as real / 4.0).Floor == q;
  }

  lemma ArithBayer2Value(fx: int, fy: int)
    ensures Fract(fx as real / 2.0 + (fy * fy) as real * 0.75) == Bayer2[fy % 2][fx % 2] as real / 4.0
  {
    var k := 2 * fx + 3 * (fy * fy);
    assert fx as real / 2.0 + (fy * fy) as real * 0.75 == k as real / 4.0;
    FractQuarter(k);
    var p, bx := fx / 2, fx % 2;
    var q, cy := fy / 2, fy % 2;
    assert fy * fy == 4 * (q * q + q * cy) + cy * cy by {
      assert fy == 2 * q + cy;
    }
    assert cy * cy == cy;
    var t := p + 3 * (q * q + q * cy);
    assert k == 4 * t + (2 * bx + 3 * cy);
    assert k % 4 == (2 * bx + 3 * cy) % 4;
  }

  function Half(a: Vec2): Vec2 { Vec2(0.5 * a.x, 0.5 * a.y) }

  /** `#define Bayer4(a) (Bayer2(.5*(a))*0.25 + Bayer2(a))`. */
  function ArithBayer4(a: Vec2): real
  {
    ArithBayer2(Half(a)) * 0.25 + ArithBayer2(a)
  }

  /** `#define Bayer8(a) (Bayer4(.5*(a))*0.25 + Bayer2(a))`. */
  function ArithBayer8(a: Vec2): real
  {
    ArithBayer4(Half(a)) * 0.25 + ArithBayer2(a)
  }

  lemma FloorHalf(x: real)
    ensures Floor(0.5 * x) == Floor(x) / 2
  {
    var f := Floor(x);
    var q, r := f / 2, f % 2;
    assert f == 2 * q + r;
    assert q as real <= 0.5 * x < q as real + 1.0;
  }

  lemma Bayer8Digits(y: int)
    requires 0 <= y < 8
    ensures forall x :: 0 <= x < 8 ==>
      Bayer8[y][x] == 16 * Bayer2[y % 2][x % 2] + 4 * Bayer2[(y / 2) % 2][(x / 2) % 2] + Bayer2[y / 4][x / 4]
  {
    match y
    case 0 =>
    case 1 =>
    case 2 =>
    case 3 =>
    case 4 =>
    case 5 =>
    case 6 =>
    case 7 =>
  }

  lemma Bayer4Digits(y: int)
    requires 0 <= y < 4
    ensures forall x :: 0 <= x < 4 ==>
      Bayer4[y][x] == 4 * Bayer2[y % 2][x % 2] + Bayer2[y / 2][x / 2]
  {
    match y
    case 0 =>
    case 1 =>
    case 2 =>
    case 3 =>
  }

  /** The 4x4 table, tiled over the integers, in base-4 digits of 2x2 entries. */
  lemma Bayer4TiledDigits(fx: int, fy: int)
    ensures Bayer4[fy % 4][fx % 4] == 4 * Bayer2[fy % 2][fx % 2] + Bayer2[(fy / 2) % 2][(fx / 2) % 2]
  {
    var x, y := fx % 4, fy % 4;
    Bayer4Digits(y);
    assert x % 2 == fx % 2 && y % 2 == fy % 2;
    assert x / 2 == (fx / 2) % 2 && y / 2 == (fy / 2) % 2;
  }

  /** The 8x8 table, tiled over the integers, in base-4 digits of 2x2 entries. */
  lemma Bayer8TiledDigits(fx: int, fy: int)
    ensures Bayer8[fy % 8][fx % 8]
         == 16 * Bayer2[fy % 2][fx % 2] + 4 * Bayer2[(fy / 2) % 2][(fx / 2) % 2] + Bayer2[(fy / 2 / 2) % 2][(fx / 2 / 2) % 2]
  {
    Bayer8Digits(fy % 8);
    OctalDigits(fx);
    OctalDigits(fy);
  }

  /** The low three binary digits of `f`, read off `f % 8`. */
  lemma OctalDigits(f: int)
    ensures (f % 8) % 2 == f % 2
    ensures ((f % 8) / 2) % 2 == (f / 2) % 2
    ensures (f % 8) / 4 == (f / 2 / 2) % 2
  {
    var q := f / 8;
    assert f == 8 * q + f % 8;
    assert f / 2 == 4 * q + (f % 8) / 2;
    assert f / 2 / 2 == 2 * q + (f % 8) / 4;
  }

  /** The arithmetic `Bayer4` reproduces the 4x4 table, tiled. */
  lemma ArithBayer4IsTable(a: Vec2)
    ensures ArithBayer4(a) == Bayer4[Floor(a.y) % 4][Floor(a.x) % 4] as real / 16.0
  {
    var fx, fy := Floor(a.x), Floor(a.y);
    FloorHalf(a.x);
    FloorHalf(a.y);
    Bayer4TiledDigits(fx, fy);
    var c0 := Bayer2[fy % 2][fx % 2];
    var c1 := Bayer2[(fy / 2) % 2][(fx / 2) % 2];
    assert ArithBayer2(a) == c0 as real / 4.0;
    assert ArithBayer2(Half(a)) == c1 as real / 4.0;
  }

  /** The arithmetic `Bayer8` of the burst shader reproduces the 8x8 table
    * of the other shaders, tiled over the whole plane, so its thresholds
    * lie in [0, 1). */
  lemma ArithBayer8IsTable(a: Vec2)
    ensures ArithBayer8(a) == Bayer8[Floor(a.y) % 8][Floor(a.x) % 8] as real / 64.0
    ensures 0.0 <= ArithBayer8(a) < 1.0
  {
    var fx, fy := Floor(a.x), Floor(a.y);
    FloorHalf(a.x);
    FloorHalf(a.y);
    FloorHalf(0.5 * a.x);
    FloorHalf(0.5 * a.y);
    Bayer8TiledDigits(fx, fy);
    var c0 := Bayer2[fy % 2][fx % 2];
    var c1 := Bayer2[(fy / 2) % 2][(fx / 2) % 2];
    var c2 := Bayer2[(fy / 2 / 2) % 2][(fx / 2 / 2) % 2];
    assert ArithBayer2(a) == c0 as real / 4.0;
    assert ArithBayer2(Half(a)) == c1 as real / 4.0;
    assert ArithBayer2(Half(Half(a))) == c2 as real / 4.0;
    assert ArithBayer4(Half(a)) == c2 as real / 16.0 + c1 as real / 4.0;
    Bayer8Row(fy % 8);
  }

}
