/**
 * The JavaScript values the text-scramble animation manipulates: strings
 * as sequences of UTF-16 code units, the entries of its `control` array,
 * and the array read/write semantics it relies on (reads past the end give
 * `undefined`, writes past the end leave holes).
 */
module JsValues {

  /** One UTF-16 code unit; JavaScript strings are sequences of these. */
  type Unit = u: int | 0 <= u < 0x1_0000

  type JsString = seq<Unit>

  /** An ASCII Dafny string literal as a JavaScript string. */
  function Ascii(s: string): (r: JsString)
    requires forall i :: 0 <= i < |s| ==> s[i] as int < 128
    ensures |r| == |s|
    ensures forall i :: 0 <= i < |s| ==> r[i] == s[i] as int
  {
    if |s| == 0 then [] else [s[0] as int] + Ascii(s[1..])
  }

  /** `String.fromCharCode(n)`: ToUint16 of the argument. */
  function FromCharCode(n: int): (u: Unit)
    ensures 0 <= n < 0x1_0000 ==> u == n
    ensures (u - n) % 0x1_0000 == 0
  {
    n % 0x1_0000
  }

  /** `Math.ceil` on a real. */
  function Ceil(r: real): (c: int)
    ensures c as real >= r && (c as real) - 1.0 < r
  {
    -((-r).Floor)
  }

  /** An entry of the scramble `control` array: a string, a countdown number,
    * `null`, or `undefined` (which is also what a hole of a sparse array reads as). */
  datatype Cell = Str(s: JsString) | Num(n: int) | Null | Undef

  /** Decimal digits of a natural number. */
  function Digits(n: nat): (r: JsString)
    ensures |r| >= 1
    ensures forall i :: 0 <= i < |r| ==> 48 <= r[i] <= 57
    decreases n
  {
    if n < 10 then [48 + n] else Digits(n / 10) + [48 + n % 10]
  }

  /** The template-literal conversion `${v}` of a control entry. */
  function Show(v: Cell): (r: JsString)
    ensures v.Str? ==> r == v.s
    ensures v.Null? ==> r == Ascii("null")
    ensures v.Undef? ==> r == Ascii("undefined")
    ensures v.Num? ==> |r| >= 1 && (r[0] == 45 <==> v.n < 0)
  {
    match v
    case Str(s) => s
    case Num(n) => if n < 0 then [45] + Digits(-n) else Digits(n)
    case Null => Ascii("null")
    case Undef => Ascii("undefined")
  }

  /** `a[i]` on a JavaScript array: out of range reads as `undefined`. */
  function Get(a: seq<Cell>, i: int): Cell
  {
    if 0 <= i < |a| then a[i] else Undef
  }

  /** `n` holes, as left by `new Array(n)` or by a write past the end. */
  function Holes(n: nat): (r: seq<Cell>)
    ensures |r| == n
    ensures forall i :: 0 <= i < n ==> Get(r, i) == Undef
  {
    seq(n, _ => Undef)
  }

  /** `a[i] = v` on a JavaScript array: a write past the end extends the
    * array to length `i + 1` and every new position other than `i` is a hole. */
  function Put(a: seq<Cell>, i: nat, v: Cell): (r: seq<Cell>)
    ensures |r| == if i < |a| then |a| else i + 1
    ensures Get(r, i) == v
    ensures forall j :: j != i ==> Get(r, j) == Get(a, j)
  {
    if i < |a| then a[i := v] else a + Holes(i - |a|) + [v]
  }

  /** `text[i]` on a JavaScript string: a one-unit string, or `undefined`. */
  function CharAt(text: JsString, i: int): (c: Cell)
    ensures 0 <= i < |text| ==> c == Str([text[i]])
    ensures !(0 <= i < |text|) ==> c == Undef
  {
    if 0 <= i < |text| then Str([text[i]]) else Undef
  }

  /** `text.split('')`: one single-unit string per code unit. */
  function Split(text: JsString): (r: seq<Cell>)
    ensures |r| == |text|
    ensures forall i :: 0 <= i < |text| ==> r[i] == CharAt(text, i)
  {
    seq(|text|, i requires 0 <= i < |text| => Str([text[i]]))
  }
}
