/**
 * The text-scramble animation: a `control` array with one entry per output
 * position, a reveal cursor (`scrambleIndex`) that walks over the target
 * text, an overdrive cursor that runs ahead of it painting underscores, and
 * a draw pass that turns the control array into the displayed string.
 *
 * Every operation is a pure function of the options, the animation state,
 * the random oracle and the index of the next draw; it returns the new
 * state and the index after the draws it made.
 */
module ScrambleText {
  import opened JsValues
  import opened RandomOracle

  function Min(a: int, b: int): int { if a <= b then a else b }
  function Max(a: int, b: int): int { if a >= b then a else b }

  /** The iteration count of `for (let i = 0; i < n; i++)`. */
  function Times(n: int): nat { if n < 0 then 0 else n }

  /** `overdrive` is either a boolean or a char code. */
  datatype Overdrive = Flag(on: bool) | Code(code: int)

  datatype Options = Options(
    playOnMount: bool,
    text: JsString,
    speed: real,
    seed: int,
    step: int,
    tick: int,
    scramble: int,
    chance: real,
    overflow: bool,
    range: seq<int>,
    overdrive: Overdrive,
    ignore: seq<JsString>)

  /** The defaults every option falls back to when the caller omits it. */
  function DefaultOptions(text: JsString): Options
  {
    Options(
      playOnMount := true, text := text, speed := 1.0, seed := 1, step := 1, tick := 1,
      scramble := 1, chance := 1.0, overflow := true, range := [65, 125],
      overdrive := Flag(true), ignore := [[32]])
  }

  /** The animation state. `running` says whether an animation frame is
    * requested; `drawn` is the string last written into the element. */
  datatype Scrambler = Scrambler(
    control: seq<Cell>,
    scrambleIndex: nat,
    overdriveIndex: nat,
    stepCount: nat,
    elapsed: real,
    running: bool,
    hasElement: bool,
    drawn: JsString)

  /** The state the constructor sets up before `init` runs. */
  function Fresh(hasElement: bool): Scrambler
  {
    Scrambler([], 0, 0, 0, 0.0, false, hasElement, [])
  }

  predicate Ignored(o: Options, v: Cell)
  {
    Show(v) in o.ignore
  }

  /** `setIfNotIgnored(value, replace)`: a value whose string form is on the
    * `ignore` list is kept, anything else gives way to `replace`. */
  function SetIfNotIgnored(o: Options, value: Cell, replace: Cell): (r: Cell)
    ensures Show(value) in o.ignore ==> r == value
    ensures Show(value) !in o.ignore ==> r == replace
  {
    if Ignored(o, value) then value else replace
  }

  /** `getRandomInt(0, 10) >= (1 - chance) * 10`. */
  predicate ShouldScramble(o: Options, draw: int)
  {
    draw as real >= (1.0 - o.chance) * 10.0
  }

  /** `getRandomChar(range)`: a code point drawn between the two bounds of a
    * two-element range, or a drawn element of any other range. */
  function RandomChar(range: seq<int>, rnd: Oracle, k: nat): (r: (Unit, nat))
    ensures r.1 == k + 1
  {
    if |range| == 2 then
      var (code, k1) := RandomInt(range[0], range[1], rnd, k);
      (FromCharCode(code), k1)
    else
      var (j, k1) := RandomInt(0, |range| - 1, rnd, k);
      (FromCharCode(if 0 <= j < |range| then range[j] else 0), k1)
  }

  /** A fair draw picks a character between the bounds of a two-element
    * range, or one of the characters listed in any other non-empty range. */
  lemma RandomCharRange(range: seq<int>, rnd: Oracle, k: nat)
    requires 0.0 <= rnd(k) < 1.0
    ensures |range| == 2 && 0 <= range[0] <= range[1] < 0x1_0000 ==>
              range[0] <= RandomChar(range, rnd, k).0 <= range[1]
    ensures |range| != 2 && |range| > 0 ==>
              exists j :: 0 <= j < |range| && RandomChar(range, rnd, k).0 == FromCharCode(range[j])
  {
    if |range| == 2 {
      RandomIntRange(range[0], range[1], rnd, k);
    } else if |range| > 0 {
      RandomIntRange(0, |range| - 1, rnd, k);
      var j := RandomInt(0, |range| - 1, rnd, k).0;
      assert 0 <= j < |range| && RandomChar(range, rnd, k).0 == FromCharCode(range[j]);
    }
  }

  // ---------------------------------------------------------------- stepForward

  /** What `stepForward` may leave at a position it passed: the ignored
    * character itself, or a countdown number. */
  predicate Stepped(o: Options, j: int, c: Cell)
  {
    if Ignored(o, CharAt(o.text, j)) then c == CharAt(o.text, j) else c.Num?
  }

  /** `n` iterations of the `stepForward` loop body. */
  function StepLoop(o: Options, s: Scrambler, n: nat, rnd: Oracle, k: nat): (r: (Scrambler, nat))
    ensures r.0 == s.(control := r.0.control, scrambleIndex := r.0.scrambleIndex)
    ensures r.0.scrambleIndex ==
              if s.scrambleIndex < |o.text| then Min(|o.text|, s.scrambleIndex + n) else s.scrambleIndex
    ensures forall j :: !(s.scrambleIndex <= j < r.0.scrambleIndex) ==> Get(r.0.control, j) == Get(s.control, j)
    ensures forall j :: s.scrambleIndex <= j < r.0.scrambleIndex ==> Stepped(o, j, Get(r.0.control, j))
    ensures |r.0.control| == if r.0.scrambleIndex == s.scrambleIndex then |s.control|
                             else Max(|s.control|, r.0.scrambleIndex)
    ensures r.1 >= k
    decreases n
  {
    if n == 0 then (s, k)
    else if s.scrambleIndex < |o.text| then
      var cur := s.scrambleIndex;
      var (d, k1) := RandomInt(0, 10, rnd, k);
      var (amount, k2) :=
        if ShouldScramble(o, d) then
          var (extra, k2) := RandomInt(0, Ceil(o.scramble as real / 2.0), rnd, k1);
          (Num(o.scramble + extra), k2)
        else (Num(0), k1);
      var v := SetIfNotIgnored(o, CharAt(o.text, cur), amount);
      StepLoop(o, s.(control := Put(s.control, cur, v), scrambleIndex := cur + 1), n - 1, rnd, k2)
    else StepLoop(o, s, n - 1, rnd, k)
  }

  /** `stepForward()`: move the reveal cursor `step` positions along the text,
    * seeding each passed position with a countdown (or the ignored character). */
  function StepForward(o: Options, s: Scrambler, rnd: Oracle, k: nat): (r: (Scrambler, nat))
    ensures r.0 == s.(control := r.0.control, scrambleIndex := r.0.scrambleIndex)
    ensures r.0.scrambleIndex ==
              if s.scrambleIndex < |o.text| then Min(|o.text|, s.scrambleIndex + Times(o.step)) else s.scrambleIndex
    ensures forall j :: !(s.scrambleIndex <= j < r.0.scrambleIndex) ==> Get(r.0.control, j) == Get(s.control, j)
    ensures forall j :: s.scrambleIndex <= j < r.0.scrambleIndex ==> Stepped(o, j, Get(r.0.control, j))
    ensures |r.0.control| <= Max(|s.control|, |o.text|)
    ensures r.1 >= k
  {
    StepLoop(o, s, Times(o.step), rnd, k)
  }

  // ---------------------------------------------------------------- resizeControl

  /** `array.splice(start, count)` for `0 <= start <= |a|`. */
  function Splice(a: seq<Cell>, start: nat, count: int): (r: seq<Cell>)
    requires start <= |a|
    ensures |r| == Max(start, |a| - Times(count))
    ensures r[..start] == a[..start]
    ensures forall j :: start <= j < |r| ==> r[j] == a[j + Times(count)]
  {
    a[..start] + a[Min(|a|, start + Times(count))..]
  }

  /** The placeholder pushed for position `p`: the text character if it is
    * ignored, `null` otherwise. */
  function Placeholder(o: Options, p: int): (r: Cell)
    ensures r != Null <==> Ignored(o, CharAt(o.text, p))
    ensures r != Null ==> r == CharAt(o.text, p)
  {
    SetIfNotIgnored(o, CharAt(o.text, p), Null)
  }

  /** `n` iterations of the push loop of `resizeControl`; each push at
    * position `|c|` reads the text at `|c| + lookahead`. */
  function Pad(o: Options, c: seq<Cell>, n: nat, lookahead: nat): (r: seq<Cell>)
    ensures |r| == if |c| < |o.text| then Min(|o.text|, |c| + n) else |c|
    ensures r[..|c|] == c
    ensures forall j :: |c| <= j < |r| ==> r[j] == Placeholder(o, j + lookahead)
    decreases n
  {
    if n == 0 then c
    else if |c| < |o.text| then
      var c' := c + [Placeholder(o, |c| + lookahead)];
      var r := Pad(o, c', n - 1, lookahead);
      assert r[..|c|] == c by {
        assert r[..|c'|] == c';
        assert r[..|c|] == r[..|c'|][..|c|];
      }
      assert r[|c|] == c'[|c|];
      r
    else Pad(o, c, n - 1, lookahead)
  }

  /** `resizeControl()` with the push reading the text `lookahead` positions
    * ahead of the position it fills. */
  function ResizeWith(o: Options, control: seq<Cell>, lookahead: nat): (r: seq<Cell>)
    ensures |o.text| < |control| ==>
              |r| == Max(|o.text|, |control| - 1 - Times(o.step)) && r[..|o.text|] == control[..|o.text|]
    ensures |control| <= |o.text| ==>
              |r| == Min(|o.text|, |control| + Times(o.step)) && r[..|control|] == control
    ensures forall j :: |control| <= j < |r| ==> r[j] == Placeholder(o, j + lookahead)
  {
    var c1 := if |o.text| < |control| then Splice(control[..|control| - 1], |o.text|, o.step) else control;
    Pad(o, c1, Times(o.step), lookahead)
  }

  /** How far ahead of the position it fills the push of `resizeControl`
    * reads the text: one as the program is written, none as intended. */
  const ProgramLookahead: nat := 1
  const IntendedLookahead: nat := 0

  /** `resizeControl()` as written: the placeholder pushed at position
    * `control.length` is taken from `text[control.length + 1]`. */
  function ResizeControlAsWritten(o: Options, control: seq<Cell>): (r: seq<Cell>)
    ensures |r| <= |control| + Times(o.step)
    ensures |control| <= |o.text| ==> |r| <= |o.text|
    ensures |o.text| < |control| ==> |o.text| <= |r| < |control|
    ensures forall j :: 0 <= j < |control| && 0 <= j < |o.text| ==> j < |r| && r[j] == control[j]
    ensures forall j :: |control| <= j < |r| ==>
              r[j] == Null || (r[j] == CharAt(o.text, j + 1) && Ignored(o, r[j]))
  {
    ResizeWith(o, control, ProgramLookahead)
  }

  /** `resizeControl()` with the placeholder taken from the position it fills. */
  function ResizeControl(o: Options, control: seq<Cell>): (r: seq<Cell>)
    ensures |r| <= |control| + Times(o.step)
    ensures |control| <= |o.text| ==> |r| <= |o.text|
    ensures |o.text| < |control| ==> |o.text| <= |r| < |control|
    ensures forall j :: 0 <= j < |control| && 0 <= j < |o.text| ==> j < |r| && r[j] == control[j]
    ensures forall j :: |control| <= j < |r| ==>
              r[j] == Null || (r[j] == CharAt(o.text, j) && Ignored(o, r[j]))
  {
    ResizeWith(o, control, IntendedLookahead)
  }

  // ---------------------------------------------------------------- seedForward

  /** `n` iterations of the `seedForward` loop body. */
  function SeedLoop(o: Options, s: Scrambler, n: nat, rnd: Oracle, k: nat): (r: (Scrambler, nat))
    ensures r.0 == s.(control := r.0.control)
    ensures |r.0.control| == |s.control|
    ensures forall j :: 0 <= j < |s.control| && !s.control[j].Str? && !s.control[j].Null? ==>
              r.0.control[j] == s.control[j]
    ensures forall j :: 0 <= j < |s.control| && r.0.control[j] != s.control[j] ==> r.0.control[j].Num?
    ensures Fair(rnd) ==> forall j :: 0 <= j < |s.control| && j < s.scrambleIndex ==>
              r.0.control[j] == s.control[j]
    ensures r.1 >= k
    decreases n
  {
    if n == 0 then (s, k)
    else
      var (index, k1) := RandomInt(s.scrambleIndex, |s.control|, rnd, k);
      var c := Get(s.control, index);
      if c.Str? || c.Null? then
        var (d, k2) := RandomInt(0, 10, rnd, k1);
        var amount := if ShouldScramble(o, d) then Num(if o.scramble != 0 then o.scramble else o.seed) else Num(0);
        var s1 := s.(control := s.control[index := SetIfNotIgnored(o, c, amount)]);
        assert Fair(rnd) ==> index >= s.scrambleIndex by {
          if Fair(rnd) {
            RandomIntRange(s.scrambleIndex, |s.control|, rnd, k);
          }
        }
        SeedLoop(o, s1, n - 1, rnd, k2)
      else SeedLoop(o, s, n - 1, rnd, k1)
  }

  /** `seedForward()`: unless the reveal is complete, `seed` times pick a
    * random position at or after the cursor and, if it holds a string or
    * `null`, give it a fresh countdown. */
  function SeedForward(o: Options, s: Scrambler, rnd: Oracle, k: nat): (r: (Scrambler, nat))
    ensures s.scrambleIndex == |o.text| ==> r.0 == s && r.1 == k
  {
    if s.scrambleIndex == |o.text| then (s, k) else SeedLoop(o, s, Times(o.seed), rnd, k)
  }

  // ---------------------------------------------------------------- onOverdrive

  /** `!overdrive` is false: `true`, or a non-zero char code. */
  predicate OverdriveOn(d: Overdrive)
  {
    match d
    case Flag(on) => on
    case Code(code) => code != 0
  }

  /** The code unit painted ahead of the reveal: `_` for a boolean flag. */
  function OverdriveUnit(d: Overdrive): Unit
  {
    match d
    case Flag(_) => 95
    case Code(code) => FromCharCode(code)
  }

  /** What `onOverdrive` leaves at a position it passed. */
  predicate Overdriven(o: Options, j: int, c: Cell)
  {
    if Ignored(o, CharAt(o.text, j)) then c == CharAt(o.text, j) else c == Str([OverdriveUnit(o.overdrive)])
  }

  /** `n` iterations of the `onOverdrive` loop body. */
  function OverdriveLoop(o: Options, s: Scrambler, n: nat): (r: Scrambler)
    ensures r == s.(control := r.control, overdriveIndex := r.overdriveIndex)
    ensures Max(|r.control|, |o.text|) == Max(|s.control|, |o.text|)
    ensures r.overdriveIndex ==
              var m := Max(|s.control|, |o.text|);
              if s.overdriveIndex < m then Min(m, s.overdriveIndex + n) else s.overdriveIndex
    ensures forall j :: !(s.overdriveIndex <= j < r.overdriveIndex) ==> Get(r.control, j) == Get(s.control, j)
    ensures forall j :: s.overdriveIndex <= j < r.overdriveIndex ==> Overdriven(o, j, Get(r.control, j))
    decreases n
  {
    if n == 0 then s
    else if s.overdriveIndex < Max(|s.control|, |o.text|) then
      var i := s.overdriveIndex;
      var v := SetIfNotIgnored(o, CharAt(o.text, i), Str([OverdriveUnit(o.overdrive)]));
      OverdriveLoop(o, s.(control := Put(s.control, i, v), overdriveIndex := i + 1), n - 1)
    else OverdriveLoop(o, s, n - 1)
  }

  /** `onOverdrive()`. */
  function OnOverdrive(o: Options, s: Scrambler): (r: Scrambler)
    ensures !OverdriveOn(o.overdrive) ==> r == s
  {
    if !OverdriveOn(o.overdrive) then s else OverdriveLoop(o, s, Times(o.step))
  }

  // ---------------------------------------------------------------- draw

  /** The value a draw pass leaves in a control entry (the `switch` of `draw`). */
  function Redraw(o: Options, si: int, i: int, v: Cell): (r: Cell)
    ensures r != v ==>
              v.Num? && ((v.n > 0 && i <= si && r == Num(v.n - 1)) ||
                         (v.n == 0 && i < |o.text| && r == CharAt(o.text, i)))
    ensures v.Num? && v.n > 0 && i <= si ==> r == Num(v.n - 1)
    ensures v == Num(0) && i < |o.text| ==> r == CharAt(o.text, i)
  {
    if v.Num? && v.n > 0 then (if i <= si then Num(v.n - 1) else v)
    else if v.Str? && (i >= |o.text| || i >= si) then v
    else if v == CharAt(o.text, i) && i < si then v
    else if v == Num(0) && i < |o.text| then CharAt(o.text, i)
    else v
  }

  /** The text a draw pass appends for a control entry that is not a
    * positive number (those append a random character). */
  function Emit(o: Options, si: int, i: int, v: Cell): (r: JsString)
    ensures r == [] || (v.Str? && r == v.s) || r == Show(CharAt(o.text, i))
    ensures v.Null? ==> r == []
    ensures v.Str? && i >= si ==> r == v.s
    ensures 0 <= i < si && i < |o.text| && v == CharAt(o.text, i) ==> r == [o.text[i]]
    ensures 0 <= i < |o.text| && v == Num(0) ==> r == [o.text[i]]
  {
    if v.Str? && (i >= |o.text| || i >= si) then v.s
    else if v == CharAt(o.text, i) && i < si then Show(CharAt(o.text, i))
    else if v == Num(0) && i < |o.text| then Show(CharAt(o.text, i))
    else []
  }

  /** The number of positive countdowns in `c`. */
  function Countdowns(c: seq<Cell>): nat
  {
    if c == [] then 0 else (if c[0].Num? && c[0].n > 0 then 1 else 0) + Countdowns(c[1..])
  }

  /** The string the draw loop builds from position `i` on, drawing one
    * random character for each positive countdown, left to right. */
  function DrawFrom(o: Options, si: int, control: seq<Cell>, i: nat, rnd: Oracle, k: nat): (r: (JsString, nat))
    requires i <= |control|
    ensures r.1 == k + Countdowns(control[i..])
    ensures |r.0| >= Countdowns(control[i..])
    decreases |control| - i
  {
    assert i < |control| ==> control[i..][1..] == control[i + 1..];
    if i == |control| then ([], k)
    else if control[i].Num? && control[i].n > 0 then
      var (ch, k1) := RandomChar(o.range, rnd, k);
      var (rest, k2) := DrawFrom(o, si, control, i + 1, rnd, k1);
      ([ch] + rest, k2)
    else
      var (rest, k1) := DrawFrom(o, si, control, i + 1, rnd, k);
      (Emit(o, si, i, control[i]) + rest, k1)
  }

  /** `draw()`: render every control entry, count the countdowns at or
    * before the cursor down, reveal the ones that reached zero, and, when
    * the rendered string is the text, drop the overflow and stop the loop. */
  function Draw(o: Options, s: Scrambler, rnd: Oracle, k: nat): (r: (Scrambler, nat))
    ensures !s.hasElement ==> r.0 == s && r.1 == k
    ensures s.hasElement ==>
              r.0 == s.(control := r.0.control, drawn := r.0.drawn, running := r.0.running,
                        stepCount := s.stepCount + 1)
    ensures s.hasElement ==> r.0.running == (s.running && r.0.drawn != o.text)
    ensures s.hasElement ==>
              |r.0.control| == if r.0.drawn == o.text then Min(|s.control|, |o.text|) else |s.control|
    ensures s.hasElement ==> forall i :: (0 <= i < |r.0.control| && s.control[i].Num? && s.control[i].n > 0 &&
              i <= s.scrambleIndex) ==> r.0.control[i] == Num(s.control[i].n - 1)
    ensures s.hasElement ==> forall i :: 0 <= i < |r.0.control| && s.control[i] == Num(0) && i < |o.text| ==>
              r.0.control[i] == CharAt(o.text, i)
    ensures s.hasElement ==> forall i :: (0 <= i < |r.0.control| &&
              !(s.control[i].Num? && s.control[i].n > 0 && i <= s.scrambleIndex) &&
              !(s.control[i] == Num(0) && i < |o.text|)) ==> r.0.control[i] == s.control[i]
  {
    if !s.hasElement then (s, k)
    else
      var (out, k1) := DrawFrom(o, s.scrambleIndex, s.control, 0, rnd, k);
      var c := seq(|s.control|, i requires 0 <= i < |s.control| => Redraw(o, s.scrambleIndex, i, s.control[i]));
      var done := out == o.text;
      var c' := if done then c[..Min(|c|, |o.text|)] else c;
      (s.(control := c', drawn := out, running := s.running && !done, stepCount := s.stepCount + 1), k1)
  }

  // ---------------------------------------------------------------- the loop

  /** `onTick()`: step, resize, seed. The push of the resize reads the
    * text `lookahead` positions ahead of the position it fills; the
    * program runs with `ProgramLookahead`. */
  function Tick(o: Options, s: Scrambler, lookahead: nat, rnd: Oracle, k: nat): (r: (Scrambler, nat))
    ensures r.0 == s.(control := r.0.control, scrambleIndex := r.0.scrambleIndex)
    ensures r.0.scrambleIndex ==
              if s.scrambleIndex < |o.text| then Min(|o.text|, s.scrambleIndex + Times(o.step)) else s.scrambleIndex
    ensures |r.0.control| <= Max(|s.control|, |o.text|)
    ensures r.1 >= k
  {
    var (s1, k1) := StepForward(o, s, rnd, k);
    var s2 := s1.(control := ResizeWith(o, s1.control, lookahead));
    SeedForward(o, s2, rnd, k1)
  }

  /** `this.fpsInterval`, fixed by the constructor. */
  function FpsInterval(o: Options): real
    requires o.speed != 0.0
  {
    1000.0 / (60.0 * o.speed)
  }

  /** `stepCount % tick === 0` with JavaScript's `%` (NaN for a zero tick). */
  predicate TickDue(o: Options, stepCount: nat)
  {
    o.tick != 0 && stepCount % o.tick == 0
  }

  /** `animate(time)`: one animation frame, ticking with the given resize
    * `lookahead` (`ProgramLookahead` in the program). */
  function Frame(o: Options, s: Scrambler, time: real, lookahead: nat, rnd: Oracle, k: nat): (r: (Scrambler, nat))
    ensures o.speed == 0.0 ==> r.0 == s.(running := false) && r.1 == k
    ensures o.speed != 0.0 && time - s.elapsed <= FpsInterval(o) ==>
              r.0 == OnOverdrive(o, s.(running := true)) && r.1 == k
    ensures o.speed != 0.0 && time - s.elapsed > FpsInterval(o) ==> r.0.elapsed == time
    ensures o.speed != 0.0 && r.0.drawn != o.text ==> r.0.running
  {
    if o.speed == 0.0 then (s.(running := false), k)
    else
      var s1 := OnOverdrive(o, s.(running := true));
      if time - s1.elapsed > FpsInterval(o) then
        var s2 := s1.(elapsed := time);
        var (s3, k1) := if TickDue(o, s2.stepCount) then Tick(o, s2, lookahead, rnd, k) else (s2, k);
        Draw(o, s3, rnd, k1)
      else (s1, k)
  }

  /** `reset()`. */
  function Reset(o: Options, s: Scrambler): (r: Scrambler)
    ensures r.scrambleIndex == 0 && r.overdriveIndex == 0 && r.stepCount == 0
    ensures o.overflow ==> r.control == s.control
    ensures !o.overflow ==> |r.control| == |o.text| && forall i :: 0 <= i < |o.text| ==> Get(r.control, i) == Undef
  {
    var s1 := s.(stepCount := 0, scrambleIndex := 0, overdriveIndex := 0);
    if !o.overflow then s1.(control := Holes(|o.text|)) else s1
  }

  /** `play()`: restart from the beginning and request a frame. */
  function Play(o: Options, s: Scrambler): (r: Scrambler)
    ensures r.running && r.scrambleIndex == 0 && r.overdriveIndex == 0 && r.stepCount == 0
  {
    Reset(o, s).(running := true)
  }

  /** `updateText(newText)`: swap the target text and rewind, without
    * requesting a frame. */
  function UpdateText(o: Options, s: Scrambler, newText: JsString): (r: (Options, Scrambler))
    ensures r.0 == o.(text := newText)
    ensures r.1.running == s.running && r.1.scrambleIndex == 0 && r.1.overdriveIndex == 0
  {
    var o' := o.(text := newText);
    (o', Reset(o', s))
  }

  /** `destroy()`. */
  function Destroy(s: Scrambler): (r: Scrambler)
    ensures !r.running && r.control == s.control
  {
    s.(running := false)
  }

  /** The options after `init` honours a reduced-motion preference: the
    * whole text is stepped at once, nothing is scrambled, no overdrive. */
  function MotionOptions(o: Options, reducedMotion: bool): (r: Options)
    ensures reducedMotion ==> r.step == |o.text| && r.chance == 0.0 && !OverdriveOn(r.overdrive)
    ensures !reducedMotion ==> r == o
  {
    if reducedMotion then o.(step := |o.text|, chance := 0.0, overdrive := Flag(false)) else o
  }

  /** `init()`: either show the text at once (`playOnMount` false) or start
    * playing. Returns the effective options and the state. */
  function Init(o: Options, hasElement: bool, reducedMotion: bool, rnd: Oracle, k: nat): (r: (Options, Scrambler, nat))
    ensures r.0 == MotionOptions(o, reducedMotion)
    ensures o.playOnMount ==> r.1.running && r.1.scrambleIndex == 0
    ensures !o.playOnMount ==> !r.1.running && r.1.scrambleIndex == |o.text|
  {
    var o1 := MotionOptions(o, reducedMotion);
    if !o1.playOnMount then
      var s := Fresh(hasElement).(control := Split(o1.text), stepCount := |o1.text|,
                                  scrambleIndex := |o1.text|, overdriveIndex := |o1.text|);
      var (s', k') := Draw(o1, s, rnd, k);
      (o1, s', k')
    else (o1, Play(o1, Fresh(hasElement)), k)
  }
}
