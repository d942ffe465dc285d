/**
 * Properties of the text-scramble animation that relate several calls:
 * a revealed character is never scrambled again, a countdown reveals its
 * character after as many draws as it counts, a fully revealed control
 * array draws exactly the text, and the off-by-one in `resizeControl`.
 */
module ScrambleProofs {
  import opened JsValues
  import opened RandomOracle
  import opened ScrambleText

  /** The cursor invariant: the reveal cursor stays within the text, and
    * while overdrive is on its cursor is never behind the reveal cursor. */
  predicate CursorsOk(o: Options, s: Scrambler)
  {
    s.scrambleIndex <= |o.text| && (OverdriveOn(o.overdrive) ==> s.scrambleIndex <= s.overdriveIndex)
  }

  /** Position `i` is behind the reveal cursor and shows its text character. */
  predicate Revealed(o: Options, s: Scrambler, i: int)
  {
    0 <= i < s.scrambleIndex && Get(s.control, i) == CharAt(o.text, i)
  }

  /** With the default `ignore` list of one space, a space is always kept,
    * and every other single character, every countdown number and `null`
    * are always replaced. */
  lemma DefaultIgnoresOnlySpace(text: JsString, c: Unit, n: int, replace: Cell)
    ensures SetIfNotIgnored(DefaultOptions(text), Str([32]), replace) == Str([32])
    ensures c != 32 ==> SetIfNotIgnored(DefaultOptions(text), Str([c]), replace) == replace
    ensures SetIfNotIgnored(DefaultOptions(text), Num(n), replace) == replace
    ensures SetIfNotIgnored(DefaultOptions(text), Null, replace) == replace
  {
    var o := DefaultOptions(text);
    var digits := Show(Num(n));
    if n >= 0 {
      assert digits == Digits(n);
      assert 48 <= digits[0];
    }
    assert digits != [32];
    assert Show(Null) != [32] by { assert |Show(Null)| == 4; }
  }

  lemma DrawKeepsRevealed(o: Options, s: Scrambler, rnd: Oracle, k: nat, i: int)
    requires s.scrambleIndex <= |o.text| && Revealed(o, s, i)
    ensures Revealed(o, Draw(o, s, rnd, k).0, i)
    ensures Draw(o, s, rnd, k).0.scrambleIndex == s.scrambleIndex
    ensures Draw(o, s, rnd, k).0.overdriveIndex == s.overdriveIndex
  {
    var r := Draw(o, s, rnd, k).0;
    if s.hasElement {
      assert i < |s.control| && i < |o.text|;
      assert i < |r.control|;
      assert r.control[i] == s.control[i];
    }
  }

  /** A tick keeps a revealed position revealed, whatever text position
    * the resize reads its placeholders from. */
  lemma TickKeepsRevealed(o: Options, s: Scrambler, lookahead: nat, rnd: Oracle, k: nat, i: int)
    requires Fair(rnd) && s.scrambleIndex <= |o.text| && Revealed(o, s, i)
    ensures Revealed(o, Tick(o, s, lookahead, rnd, k).0, i)
    ensures Tick(o, s, lookahead, rnd, k).0.scrambleIndex == Min(|o.text|, s.scrambleIndex + Times(o.step))
    ensures Tick(o, s, lookahead, rnd, k).0.overdriveIndex == s.overdriveIndex
  {
    var (s1, k1) := StepForward(o, s, rnd, k);
    assert Get(s1.control, i) == CharAt(o.text, i);
    var c2 := ResizeWith(o, s1.control, lookahead);
    assert i < |s1.control| && i < |o.text|;
    assert Get(c2, i) == CharAt(o.text, i);
    var s2 := s1.(control := c2);
    var (s3, k3) := SeedForward(o, s2, rnd, k1);
    assert Get(s3.control, i) == CharAt(o.text, i);
  }

  lemma OverdriveKeepsRevealed(o: Options, s: Scrambler, i: int)
    requires CursorsOk(o, s) && Revealed(o, s, i)
    ensures Revealed(o, OnOverdrive(o, s), i)
    ensures OnOverdrive(o, s).scrambleIndex == s.scrambleIndex
    ensures OverdriveOn(o.overdrive) ==>
              OnOverdrive(o, s).overdriveIndex >= Min(|o.text|, s.scrambleIndex + Times(o.step))
  {
  }

  /** One animation frame, as the program runs it or with the corrected
    * resize, never scrambles a revealed character again, and keeps the
    * cursor invariant. */
  lemma {:induction false} FrameKeepsRevealed(o: Options, s: Scrambler, time: real, lookahead: nat, rnd: Oracle, k: nat, i: int)
    requires Fair(rnd) && CursorsOk(o, s) && Revealed(o, s, i)
    ensures CursorsOk(o, Frame(o, s, time, lookahead, rnd, k).0)
    ensures Revealed(o, Frame(o, s, time, lookahead, rnd, k).0, i)
  {
    if o.speed != 0.0 {
      var s1 := OnOverdrive(o, s.(running := true));
      OverdriveKeepsRevealed(o, s.(running := true), i);
      if time - s1.elapsed > FpsInterval(o) {
        var s2 := s1.(elapsed := time);
        if TickDue(o, s2.stepCount) {
          TickKeepsRevealed(o, s2, lookahead, rnd, k, i);
          var (s3, k1) := Tick(o, s2, lookahead, rnd, k);
          DrawKeepsRevealed(o, s3, rnd, k1, i);
        } else {
          DrawKeepsRevealed(o, s2, rnd, k, i);
        }
      }
    }
  }

  /** `n` consecutive draws without a tick in between. */
  function Redraws(o: Options, s: Scrambler, n: nat, rnd: Oracle, k: nat): (r: (Scrambler, nat))
    ensures r.0.scrambleIndex == s.scrambleIndex && r.0.hasElement == s.hasElement
    decreases n
  {
    if n == 0 then (s, k)
    else
      var (s1, k1) := Draw(o, s, rnd, k);
      Redraws(o, s1, n - 1, rnd, k1)
  }

  /** A countdown `m` at or before the cursor reveals its text character
    * after `m + 1` draws. */
  lemma {:induction false} CountdownReveals(o: Options, s: Scrambler, m: nat, rnd: Oracle, k: nat, i: int)
    requires s.hasElement && 0 <= i <= s.scrambleIndex && i < |o.text|
    requires Get(s.control, i) == Num(m)
    ensures Get(Redraws(o, s, m + 1, rnd, k).0.control, i) == CharAt(o.text, i)
    decreases m
  {
    var (s1, k1) := Draw(o, s, rnd, k);
    assert i < |s1.control|;
    if m == 0 {
      assert s1.control[i] == CharAt(o.text, i);
    } else {
      assert s1.control[i] == Num(m - 1);
      CountdownReveals(o, s1, m - 1, rnd, k1, i);
    }
  }

  lemma {:induction false} DrawFromRevealed(o: Options, si: int, c: seq<Cell>, i: nat, rnd: Oracle, k: nat)
    requires i <= |c| <= si && si <= |o.text|
    requires forall j :: i <= j < |c| ==> c[j] == CharAt(o.text, j)
    ensures DrawFrom(o, si, c, i, rnd, k).0 == o.text[i..|c|]
    decreases |c| - i
  {
    if i < |c| {
      DrawFromRevealed(o, si, c, i + 1, rnd, k);
      assert Emit(o, si, i, c[i]) == [o.text[i]];
      assert o.text[i..|c|] == [o.text[i]] + o.text[i + 1..|c|];
    }
  }

  /** A fully revealed control array draws exactly the text, is left as it
    * is, and stops the animation. */
  lemma DrawShowsRevealedText(o: Options, s: Scrambler, rnd: Oracle, k: nat)
    requires s.hasElement && s.scrambleIndex == |o.text| && s.control == Split(o.text)
    ensures Draw(o, s, rnd, k).0.drawn == o.text
    ensures Draw(o, s, rnd, k).0.control == s.control
    ensures !Draw(o, s, rnd, k).0.running
  {
    DrawFromRevealed(o, s.scrambleIndex, s.control, 0, rnd, k);
    assert o.text[0..|s.control|] == o.text;
    var r := Draw(o, s, rnd, k).0;
    assert |r.control| == |s.control|;
    assert forall i :: 0 <= i < |r.control| ==> r.control[i] == s.control[i];
  }

  /** With `playOnMount` false the element shows the text at once and no
    * frame is requested. */
  lemma InitWithoutPlayShowsText(o: Options, reducedMotion: bool, rnd: Oracle, k: nat)
    requires !o.playOnMount
    ensures Init(o, true, reducedMotion, rnd, k).1.drawn == o.text
    ensures Init(o, true, reducedMotion, rnd, k).1.control == Split(o.text)
    ensures !Init(o, true, reducedMotion, rnd, k).1.running
  {
    var o1 := MotionOptions(o, reducedMotion);
    var s := Fresh(true).(control := Split(o1.text), stepCount := |o1.text|,
                          scrambleIndex := |o1.text|, overdriveIndex := |o1.text|);
    DrawShowsRevealedText(o1, s, rnd, k);
  }

  /** Every state `init` produces satisfies the cursor invariant. */
  lemma InitCursorsOk(o: Options, hasElement: bool, reducedMotion: bool, rnd: Oracle, k: nat)
    ensures CursorsOk(Init(o, hasElement, reducedMotion, rnd, k).0, Init(o, hasElement, reducedMotion, rnd, k).1)
  {
  }

  /** The text of the off-by-one witness, "ab c", with the default options. */
  function AbC(): Options
  {
    DefaultOptions([97, 98, 32, 99])
  }

  /** The first frame of "ab c", as far as the step: the overdrive paints
    * position 0, then the step turns it into a countdown of 1 or 2. */
  lemma FirstStep(rnd: Oracle)
    requires Fair(rnd)
    ensures var o := AbC();
            var s1 := OnOverdrive(o, Play(o, Fresh(true)).(running := true));
            var t := StepForward(o, s1.(elapsed := 20.0), rnd, 0);
            FpsInterval(o) < 20.0 - s1.elapsed && TickDue(o, s1.stepCount) &&
            t.1 == 2 && t.0.scrambleIndex == 1 && |t.0.control| == 1 &&
            t.0.control[0].Num? && 1 <= t.0.control[0].n <= 2 && t.0.hasElement
  {
    var o := AbC();
    var s0 := Play(o, Fresh(true)).(running := true);
    assert SetIfNotIgnored(o, CharAt(o.text, 0), Str([95])) == Str([95]) by {
      DefaultIgnoresOnlySpace(o.text, 97, 0, Str([95]));
    }
    var s1 := OnOverdrive(o, s0);
    assert |s1.control| == 1;
    var s2 := s1.(elapsed := 20.0);
    RandomIntRange(0, 10, rnd, 0);
    RandomIntRange(0, 1, rnd, 1);
    assert Ceil(1 as real / 2.0) == 1;
    var d := RandomInt(0, 10, rnd, 0).0;
    var extra := RandomInt(0, 1, rnd, 1).0;
    assert ShouldScramble(o, d);
    var amount := Num(1 + extra);
    assert SetIfNotIgnored(o, CharAt(o.text, 0), amount) == amount by {
      DefaultIgnoresOnlySpace(o.text, 97, 0, amount);
    }
    var t := StepLoop(o, s2, 1, rnd, 0);
    assert t == StepLoop(o, s2.(control := Put(s2.control, 0, amount), scrambleIndex := 1), 0, rnd, 2);
  }

  /** As written, the first frame of "ab c" pushes the space of position 2
    * into position 1 and shows it there, where the text has "b". */
  lemma AsWrittenFrameMisplacesIgnored(rnd: Oracle)
    requires Fair(rnd)
    ensures var r := Frame(AbC(), Play(AbC(), Fresh(true)), 20.0, ProgramLookahead, rnd, 0).0;
            AbC().text[1] == 98 &&
            |r.control| == 2 && r.control[1] == Str([32]) && |r.drawn| == 2 && r.drawn[1] == 32
  {
    var o := AbC();
    FirstStep(rnd);
    var s1 := OnOverdrive(o, Play(o, Fresh(true)).(running := true));
    var (t, k1) := StepForward(o, s1.(elapsed := 20.0), rnd, 0);
    var space := Str([32]);
    assert Placeholder(o, 2) == space by { DefaultIgnoresOnlySpace(o.text, 0, 0, Null); }
    var c := ResizeWith(o, t.control, ProgramLookahead);
    assert c == [t.control[0], space];
    RandomIntRange(1, 2, rnd, k1);
    var (u, k2) := SeedForward(o, t.(control := c), rnd, k1);
    assert u.control == c by {
      var index := RandomInt(1, 2, rnd, k1).0;
      forall replace: Cell ensures SetIfNotIgnored(o, space, replace) == space {
        DefaultIgnoresOnlySpace(o.text, 0, 0, replace);
      }
      assert index == 2 ==> Get(c, index) == Undef;
    }
    assert Tick(o, s1.(elapsed := 20.0), ProgramLookahead, rnd, 0) == (u, k2);
    var (ch, k3) := RandomChar(o.range, rnd, k2);
    assert DrawFrom(o, 1, c, 1, rnd, k3).0 == [32];
    assert DrawFrom(o, 1, c, 0, rnd, k2).0 == [ch, 32];
  }

  /** Control entries that are positive countdowns or `null` draw only
    * characters picked from a two-element scramble range. */
  lemma {:induction false} CountdownsDrawGlyphs(o: Options, si: int, c: seq<Cell>, i: nat, rnd: Oracle, k: nat)
    requires Fair(rnd) && i <= |c|
    requires |o.range| == 2 && 0 <= o.range[0] <= o.range[1] < 0x1_0000
    requires forall j :: i <= j < |c| ==> c[j].Null? || (c[j].Num? && c[j].n > 0)
    ensures forall j :: 0 <= j < |DrawFrom(o, si, c, i, rnd, k).0| ==>
              o.range[0] <= DrawFrom(o, si, c, i, rnd, k).0[j] <= o.range[1]
    decreases |c| - i
  {
    if i < |c| {
      if c[i].Num? {
        var (ch, k1) := RandomChar(o.range, rnd, k);
        RandomCharRange(o.range, rnd, k);
        CountdownsDrawGlyphs(o, si, c, i + 1, rnd, k1);
      } else {
        CountdownsDrawGlyphs(o, si, c, i + 1, rnd, k);
      }
    }
  }

  /** With the placeholder read from the position it fills, the first tick
    * of "ab c" leaves a countdown at position 0 and, at position 1, `null`
    * or the countdown the seeding gave it. */
  lemma IntendedFirstTick(rnd: Oracle)
    requires Fair(rnd)
    ensures var o := AbC();
            var s1 := OnOverdrive(o, Play(o, Fresh(true)).(running := true));
            var u := Tick(o, s1.(elapsed := 20.0), IntendedLookahead, rnd, 0).0;
            u.hasElement && u.scrambleIndex == 1 && |u.control| == 2 &&
            u.control[0].Num? && u.control[0].n >= 1 && (u.control[1] == Null || u.control[1] == Num(1))
  {
    var o := AbC();
    FirstStep(rnd);
    var s1 := OnOverdrive(o, Play(o, Fresh(true)).(running := true));
    var (t, k1) := StepForward(o, s1.(elapsed := 20.0), rnd, 0);
    assert Placeholder(o, 1) == Null by { DefaultIgnoresOnlySpace(o.text, 98, 0, Null); }
    var c := ResizeWith(o, t.control, IntendedLookahead);
    assert c == [t.control[0], Null];
    RandomIntRange(1, 2, rnd, k1);
    RandomIntRange(0, 10, rnd, k1 + 1);
    var (u, k2) := SeedForward(o, t.(control := c), rnd, k1);
    assert u.control == c || u.control == [t.control[0], Num(1)] by {
      var index := RandomInt(1, 2, rnd, k1).0;
      var d := RandomInt(0, 10, rnd, k1 + 1).0;
      assert ShouldScramble(o, d);
      DefaultIgnoresOnlySpace(o.text, 0, 0, Num(1));
      assert index == 2 ==> Get(c, index) == Undef;
    }
  }

  /** With the placeholder read from the position it fills, the same frame
    * shows only characters drawn from the scramble range: position 1
    * holds `null` or a fresh countdown, never the space. */
  lemma IntendedFrameDrawsOnlyGlyphs(rnd: Oracle)
    requires Fair(rnd)
    ensures var r := Frame(AbC(), Play(AbC(), Fresh(true)), 20.0, IntendedLookahead, rnd, 0).0;
            forall j :: 0 <= j < |r.drawn| ==> 65 <= r.drawn[j] <= 125
  {
    var o := AbC();
    FirstStep(rnd);
    IntendedFirstTick(rnd);
    var s1 := OnOverdrive(o, Play(o, Fresh(true)).(running := true));
    var (u, k2) := Tick(o, s1.(elapsed := 20.0), IntendedLookahead, rnd, 0);
    CountdownsDrawGlyphs(o, 1, u.control, 0, rnd, k2);
    assert Frame(o, Play(o, Fresh(true)), 20.0, IntendedLookahead, rnd, 0).0.drawn ==
           DrawFrom(o, 1, u.control, 0, rnd, k2).0;
  }
}
