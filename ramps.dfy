/** The effects that drive the two variable-brightness LEDs, blue and orange:
    `glow`, `swing` and `heart_beat`. */
module Ramps {
  import opened Leds
  import opened Patterns

  /** `n` brightness values from `start`, `stride` apart. */
  function Ramp(start: int, stride: int, n: nat): seq<int>
  {
    seq(n, k => start + stride * k)
  }

  /** `intensity * 5` for `intensity in range(0, 52)`. */
  const Up: seq<int> := Ramp(0, 5, 52)

  /** `255 - intensity * 5` for `intensity in range(0, 52)`. */
  const Down: seq<int> := Ramp(255, -5, 52)

  predicate Increasing(xs: seq<int>)
  {
    forall i, j :: 0 <= i < j < |xs| ==> xs[i] < xs[j]
  }

  predicate Decreasing(xs: seq<int>)
  {
    forall i, j :: 0 <= i < j < |xs| ==> xs[i] > xs[j]
  }

  predicate InByteRange(xs: seq<int>)
  {
    forall i :: 0 <= i < |xs| ==> 0 <= xs[i] <= 255
  }

  /** The two full ramps: 52 values each, from 0 to 255 and back, in steps of 5. */
  lemma UpDown()
    ensures |Up| == |Down| == 52
    ensures Up[0] == 0 && Up[51] == 255 && Increasing(Up) && InByteRange(Up)
    ensures Down[0] == 255 && Down[51] == 0 && Decreasing(Down) && InByteRange(Down)
    ensures forall k :: 0 <= k < 52 ==> Up[k] + Down[k] == 255
  {
  }

  /** One brightness step on the selected LEDs: blue first, then orange. */
  function Levels(blue: bool, orange: bool, v: int): seq<Command>
  {
    (if blue then [Intensity(Blue, v)] else []) + (if orange then [Intensity(Orange, v)] else [])
  }

  /** The board after the selected LEDs are set to brightness `v`. */
  function Paint(s: seq<Led>, blue: bool, orange: bool, v: int): seq<Led>
    requires |s| == 4
  {
    var s1 := if blue then s[Blue := LevelLed(v)] else s;
    if orange then s1[Orange := LevelLed(v)] else s1
  }

  /** Each value of `vals` on the selected LEDs, followed by a delay. */
  function RampCmds(blue: bool, orange: bool, vals: seq<int>, d: int): seq<Command>
    decreases |vals|
  {
    if vals == [] then []
    else RampCmds(blue, orange, vals[..|vals| - 1], d) + Levels(blue, orange, vals[|vals| - 1]) + [Delay(d)]
  }

  // ---------------------------------------------------------------------
  // Replay of a ramp

  /** Whether LED `i` is one of the selected variable-brightness LEDs. */
  predicate Selected(blue: bool, orange: bool, i: int)
  {
    (i == Blue && blue) || (i == Orange && orange)
  }

  lemma LevelsReplay(s: seq<Led>, blue: bool, orange: bool, v: int)
    requires |s| == 4
    ensures Exec(s, Levels(blue, orange, v)) == Paint(s, blue, orange, v)
    ensures Frames(s, Levels(blue, orange, v)) == []
    ensures Delays(Levels(blue, orange, v)) == []
  {
    var l := Levels(blue, orange, v);
    assert NoDelay(l);
    NoDelayNoFrames(s, l);
    LevelsExec(s, blue, orange, v);
  }

  lemma LevelsExec(s: seq<Led>, blue: bool, orange: bool, v: int)
    requires |s| == 4
    ensures Exec(s, Levels(blue, orange, v)) == Paint(s, blue, orange, v)
  {
    var l := Levels(blue, orange, v);
    var ib, io := Intensity(Blue, v), Intensity(Orange, v);
    if blue && orange {
      assert l == [ib, io];
      Exec2(s, ib, io);
    } else if blue {
      assert l == [ib];
      assert l[..0] == [];
    } else if orange {
      assert l == [io];
      assert l[..0] == [];
    } else {
      assert l == [];
    }
  }

  /** One value of a ramp writes it to each selected LED. */
  lemma LevelWritten(blue: bool, orange: bool, v: int, d: int, i: int)
    ensures Written(Levels(blue, orange, v) + [Delay(d)], i) == if Selected(blue, orange, i) then [v] else []
  {
    var l := Levels(blue, orange, v);
    var ib, io := Intensity(Blue, v), Intensity(Orange, v);
    SnocWritten(l, Delay(d), i);
    SnocWritten([], ib, i);
    SnocWritten([], io, i);
    assert [] + [ib] == [ib] && [] + [io] == [io];
    if blue && orange {
      assert l == [ib] + [io];
      SnocWritten([ib], io, i);
    } else if blue {
      assert l == [] + [ib];
    } else if orange {
      assert l == [] + [io];
    } else {
      assert l == [];
    }
  }

  /** Painting again overrides the earlier brightness. */
  lemma PaintTwice(s: seq<Led>, blue: bool, orange: bool, v: int, w: int)
    requires |s| == 4
    ensures Paint(Paint(s, blue, orange, v), blue, orange, w) == Paint(s, blue, orange, w)
  {
  }

  /** One value of a ramp: set the selected LEDs, then wait. */
  lemma LevelStep(s: seq<Led>, blue: bool, orange: bool, v: int, d: int)
    requires |s| == 4
    ensures Exec(s, Levels(blue, orange, v) + [Delay(d)]) == Paint(s, blue, orange, v)
    ensures Frames(s, Levels(blue, orange, v) + [Delay(d)]) == [Frame(d, Paint(s, blue, orange, v))]
    ensures Delays(Levels(blue, orange, v) + [Delay(d)]) == [d]
  {
    LevelsReplay(s, blue, orange, v);
    Snoc(s, Levels(blue, orange, v), Delay(d));
  }

  lemma RampSplit(blue: bool, orange: bool, vals: seq<int>, d: int)
    requires vals != []
    ensures RampCmds(blue, orange, vals, d) ==
      RampCmds(blue, orange, vals[..|vals| - 1], d) + (Levels(blue, orange, vals[|vals| - 1]) + [Delay(d)])
  {
  }

  /** A ramp one value longer: the commands of the shorter ramp, then its next value. */
  lemma RampNext(blue: bool, orange: bool, first: int, stride: int, k: nat, d: int)
    ensures RampCmds(blue, orange, Ramp(first, stride, k + 1), d) ==
      RampCmds(blue, orange, Ramp(first, stride, k), d) + (Levels(blue, orange, first + stride * k) + [Delay(d)])
  {
    var r := Ramp(first, stride, k + 1);
    assert r[..k] == Ramp(first, stride, k);
    RampSplit(blue, orange, r, d);
  }

  /** After a non-empty ramp the selected LEDs keep its last value and the
      others what they showed before. */
  lemma {:induction false} RampEnd(s: seq<Led>, blue: bool, orange: bool, vals: seq<int>, d: int)
    requires |s| == 4
    ensures Exec(s, RampCmds(blue, orange, vals, d)) ==
      if vals == [] then s else Paint(s, blue, orange, vals[|vals| - 1])
    decreases |vals|
  {
    if vals != [] {
      var init, v := vals[..|vals| - 1], vals[|vals| - 1];
      var prev := RampCmds(blue, orange, init, d);
      RampEnd(s, blue, orange, init, d);
      RampSplit(blue, orange, vals, d);
      ExecAppend(s, prev, Levels(blue, orange, v) + [Delay(d)]);
      LevelStep(Exec(s, prev), blue, orange, v, d);
      if init != [] {
        PaintTwice(s, blue, orange, init[|init| - 1], v);
      }
    }
  }

  /** The frames of a non-empty ramp: those of the ramp without its last
      value, then that value on the selected LEDs. */
  lemma RampLastFrame(s: seq<Led>, blue: bool, orange: bool, vals: seq<int>, d: int)
    requires |s| == 4 && vals != []
    ensures Frames(s, RampCmds(blue, orange, vals, d)) ==
      Frames(s, RampCmds(blue, orange, vals[..|vals| - 1], d)) + [Frame(d, Paint(s, blue, orange, vals[|vals| - 1]))]
  {
    var init, v := vals[..|vals| - 1], vals[|vals| - 1];
    var prev := RampCmds(blue, orange, init, d);
    RampEnd(s, blue, orange, init, d);
    RampSplit(blue, orange, vals, d);
    FramesAppend(s, prev, Levels(blue, orange, v) + [Delay(d)]);
    LevelStep(Exec(s, prev), blue, orange, v, d);
    if init != [] {
      PaintTwice(s, blue, orange, init[|init| - 1], v);
    }
  }

  /** While the `n`-th delay of a ramp elapses the selected LEDs show
      `vals[n]` and the others what they showed before. */
  lemma {:induction false} RampFrames(s: seq<Led>, blue: bool, orange: bool, vals: seq<int>, d: int)
    requires |s| == 4
    ensures |Frames(s, RampCmds(blue, orange, vals, d))| == |vals|
    ensures forall n :: 0 <= n < |vals| ==>
      Frames(s, RampCmds(blue, orange, vals, d))[n] == Frame(d, Paint(s, blue, orange, vals[n]))
    decreases |vals|
  {
    if vals != [] {
      var init := vals[..|vals| - 1];
      var f0 := Frames(s, RampCmds(blue, orange, init, d));
      RampFrames(s, blue, orange, init, d);
      RampLastFrame(s, blue, orange, vals, d);
      var f := Frames(s, RampCmds(blue, orange, vals, d));
      forall n | 0 <= n < |init|
        ensures f[n] == Frame(d, Paint(s, blue, orange, vals[n]))
      {
        assert f[n] == f0[n];
        assert vals[n] == init[n];
      }
    }
  }

  /** A ramp writes exactly `vals` to each selected LED and nothing to the
      others. */
  lemma {:induction false} RampWritten(blue: bool, orange: bool, vals: seq<int>, d: int, i: int)
    ensures Written(RampCmds(blue, orange, vals, d), i) == if Selected(blue, orange, i) then vals else []
    decreases |vals|
  {
    if vals != [] {
      var init, v := vals[..|vals| - 1], vals[|vals| - 1];
      var prev := RampCmds(blue, orange, init, d);
      RampWritten(blue, orange, init, d, i);
      RampSplit(blue, orange, vals, d);
      WrittenAppend(prev, Levels(blue, orange, v) + [Delay(d)], i);
      LevelWritten(blue, orange, v, d, i);
      LastSplit(vals);
    }
  }

  /** A ramp waits `d` once per value. */
  lemma {:induction false} RampDelays(blue: bool, orange: bool, vals: seq<int>, d: int)
    ensures Delays(RampCmds(blue, orange, vals, d)) == Repeat([d], |vals|)
    decreases |vals|
  {
    if vals != [] {
      var init, v := vals[..|vals| - 1], vals[|vals| - 1];
      var prev := RampCmds(blue, orange, init, d);
      RampDelays(blue, orange, init, d);
      RampSplit(blue, orange, vals, d);
      DelaysAppend(prev, Levels(blue, orange, v) + [Delay(d)]);
      LevelStep(Dark, blue, orange, v, d);
    }
  }

  /** `all_off()` writes no brightness. */
  lemma AllOffWritesNothing(i: int)
    ensures Written(AllOffCmds(), i) == []
  {
    NoIntensityWritesNothing(AllOffCmds(), i);
  }

  // ---------------------------------------------------------------------
  // glow

  /** One `glow` cycle: brightness 0, 5, .., 255 on the selected LEDs, then `all_off()`. */
  function GlowCycle(d: int, blue: bool, orange: bool): seq<Command>
  {
    RampCmds(blue, orange, Up, d) + AllOffCmds()
  }

  /** `glow(delay, duration, blue, orange)` for `k` cycles. */
  function GlowRun(speed: int, k: nat, blue: bool, orange: bool): seq<Command>
  {
    Repeat(GlowCycle(TruncDiv(speed, GlowSteps), blue, orange), k) + AllOffCmds()
  }

  /** A `glow` cycle writes 52 strictly increasing brightness values from 0
      to 255 to each selected LED, never writes to an unselected one, and
      waits the same delay after each value. */
  lemma GlowWrites(d: int, blue: bool, orange: bool, i: int)
    ensures Written(GlowCycle(d, blue, orange), i) == if Selected(blue, orange, i) then Up else []
    ensures |Up| == 52 && Up[0] == 0 && Up[51] == 255 && Increasing(Up) && InByteRange(Up)
    ensures Delays(GlowCycle(d, blue, orange)) == Repeat([d], 52)
  {
    UpDown();
    var r := RampCmds(blue, orange, Up, d);
    RampWritten(blue, orange, Up, d, i);
    RampDelays(blue, orange, Up, d);
    AllOffIsDark(Dark);
    DelaysAppend(r, AllOffCmds());
    WrittenAppend(r, AllOffCmds(), i);
    AllOffWritesNothing(i);
  }

  /** While the `n`-th delay of a `glow` cycle elapses the selected LEDs glow
      at `5 n` (dark at first, lit after) and the other LEDs keep their
      state; the cycle ends dark. */
  lemma GlowFrames(s: seq<Led>, d: int, blue: bool, orange: bool, n: nat)
    requires |s| == 4 && n < 52
    ensures |Frames(s, GlowCycle(d, blue, orange))| == 52
    ensures Frames(s, GlowCycle(d, blue, orange))[n] == Frame(d, Paint(s, blue, orange, 5 * n))
    ensures blue ==> (Blue in Lit(Paint(s, blue, orange, 5 * n)) <==> n > 0)
    ensures Exec(s, GlowCycle(d, blue, orange)) == Dark
  {
    var r := RampCmds(blue, orange, Up, d);
    RampFrames(s, blue, orange, Up, d);
    FramesAppend(s, r, AllOffCmds());
    AllOffIsDark(Exec(s, r));
    ExecAppend(s, r, AllOffCmds());
  }

  /** A whole `glow` run ends dark; from a dark board every cycle shows the
      same frames, each lasting `int(delay / 51)`. */
  lemma GlowRunReplay(s: seq<Led>, speed: int, k: nat, blue: bool, orange: bool)
    requires |s| == 4
    ensures Exec(s, GlowRun(speed, k, blue, orange)) == Dark
    ensures Frames(Dark, GlowRun(speed, k, blue, orange)) ==
      Repeat(Frames(Dark, GlowCycle(TruncDiv(speed, GlowSteps), blue, orange)), k)
    ensures forall x :: x in Delays(GlowRun(speed, k, blue, orange)) ==> x == TruncDiv(speed, GlowSteps)
  {
    var d := TruncDiv(speed, GlowSteps);
    var c := GlowCycle(d, blue, orange);
    EndsWithAllOff(s, Repeat(c, k));
    GlowFrames(Dark, d, blue, orange, 0);
    RunFromDark(c, k);
    GlowWrites(d, blue, orange, Blue);
    assert forall x :: x in Repeat([d], 52) ==> x == d by {
      RepeatDelaysAll(d, 52);
    }
    RepeatDelays(c, k, d);
  }

  lemma {:induction false} RepeatDelaysAll(d: int, n: nat)
    ensures |Repeat([d], n)| == n
    ensures forall x :: x in Repeat([d], n) ==> x == d
  {
    if n > 0 {
      RepeatDelaysAll(d, n - 1);
    }
  }

  // ---------------------------------------------------------------------
  // swing

  /** One half of a `swing` cycle: at step `k` orange gets `orange[k]`, then
      blue gets `blue[k]`, then a delay. */
  function SwingHalf(orange: seq<int>, blue: seq<int>, d: int): seq<Command>
    requires |orange| == |blue|
    decreases |orange|
  {
    if orange == [] then []
    else
      var n := |orange| - 1;
      SwingHalf(orange[..n], blue[..n], d) + SwingStep(orange[n], blue[n], d)
  }

  /** One `swing` cycle: orange rises while blue falls, then the other way;
      with `r2l` the falling half comes first. */
  function SwingCycle(d: int, r2l: bool): seq<Command>
  {
    if r2l then SwingHalf(Down, Up, d) + SwingHalf(Up, Down, d)
    else SwingHalf(Up, Down, d) + SwingHalf(Down, Up, d)
  }

  /** `swing(delay, duration, r2l)` for `k` cycles. */
  function SwingRun(speed: int, k: nat, r2l: bool): seq<Command>
  {
    Repeat(SwingCycle(TruncDiv(speed, SwingSteps), r2l), k) + AllOffCmds()
  }

  /** The board with orange at `o` and blue at `b`. */
  function Pair(s: seq<Led>, o: int, b: int): seq<Led>
    requires |s| == 4
  {
    s[Orange := LevelLed(o)][Blue := LevelLed(b)]
  }

  /** One step of a half: orange, then blue, then a delay. */
  function SwingStep(o: int, b: int, d: int): seq<Command>
  {
    [Intensity(Orange, o), Intensity(Blue, b), Delay(d)]
  }

  lemma SwingStepReplay(s: seq<Led>, o: int, b: int, d: int)
    requires |s| == 4
    ensures Exec(s, SwingStep(o, b, d)) == Pair(s, o, b)
    ensures Frames(s, SwingStep(o, b, d)) == [Frame(d, Pair(s, o, b))]
  {
    var io, ib := Intensity(Orange, o), Intensity(Blue, b);
    Snoc(s, [], io);
    AppendNil([io]);
    Snoc(s, [io], ib);
    Two(io, ib);
    Snoc(s, [io, ib], Delay(d));
    Three(io, ib, Delay(d));
  }

  lemma SwingStepWritten(o: int, b: int, d: int, i: int)
    ensures Written(SwingStep(o, b, d), i) == if i == Orange then [o] else if i == Blue then [b] else []
  {
    var io, ib := Intensity(Orange, o), Intensity(Blue, b);
    SnocWritten([], io, i);
    AppendNil([io]);
    SnocWritten([io], ib, i);
    Two(io, ib);
    SnocWritten([io, ib], Delay(d), i);
    Three(io, ib, Delay(d));
  }

  lemma SwingSplit(orange: seq<int>, blue: seq<int>, d: int)
    requires |orange| == |blue| && orange != []
    ensures var n := |orange| - 1;
      SwingHalf(orange, blue, d) == SwingHalf(orange[..n], blue[..n], d) + SwingStep(orange[n], blue[n], d)
  {
  }

  /** A half one step longer: the shorter half, then its next step. */
  lemma SwingNext(orangeFirst: int, orangeStride: int, blueFirst: int, blueStride: int, k: nat, d: int)
    ensures SwingHalf(Ramp(orangeFirst, orangeStride, k + 1), Ramp(blueFirst, blueStride, k + 1), d) ==
      SwingHalf(Ramp(orangeFirst, orangeStride, k), Ramp(blueFirst, blueStride, k), d)
        + SwingStep(orangeFirst + orangeStride * k, blueFirst + blueStride * k, d)
  {
    var ro, rb := Ramp(orangeFirst, orangeStride, k + 1), Ramp(blueFirst, blueStride, k + 1);
    assert ro[..k] == Ramp(orangeFirst, orangeStride, k);
    assert rb[..k] == Ramp(blueFirst, blueStride, k);
    SwingSplit(ro, rb, d);
  }

  /** After a non-empty half orange and blue keep its last pair. */
  lemma {:induction false} SwingHalfEnd(s: seq<Led>, orange: seq<int>, blue: seq<int>, d: int)
    requires |s| == 4 && |orange| == |blue| && orange != []
    ensures Exec(s, SwingHalf(orange, blue, d)) == Pair(s, orange[|orange| - 1], blue[|blue| - 1])
    decreases |orange|
  {
    var n := |orange| - 1;
    var prev := SwingHalf(orange[..n], blue[..n], d);
    SwingSplit(orange, blue, d);
    ExecAppend(s, prev, SwingStep(orange[n], blue[n], d));
    if n > 0 {
      SwingHalfEnd(s, orange[..n], blue[..n], d);
    }
    SwingStepReplay(Exec(s, prev), orange[n], blue[n], d);
  }

  /** While delay `k` of a half elapses orange shows `orange[k]`, blue
      `blue[k]`, and red and green what they showed before. */
  lemma {:induction false} SwingHalfFrames(s: seq<Led>, orange: seq<int>, blue: seq<int>, d: int)
    requires |s| == 4 && |orange| == |blue|
    ensures |Frames(s, SwingHalf(orange, blue, d))| == |orange|
    ensures forall k :: 0 <= k < |orange| ==>
      Frames(s, SwingHalf(orange, blue, d))[k] == Frame(d, Pair(s, orange[k], blue[k]))
    decreases |orange|
  {
    if orange != [] {
      var n := |orange| - 1;
      var prev := SwingHalf(orange[..n], blue[..n], d);
      SwingSplit(orange, blue, d);
      SwingHalfFrames(s, orange[..n], blue[..n], d);
      FramesAppend(s, prev, SwingStep(orange[n], blue[n], d));
      if n > 0 {
        SwingHalfEnd(s, orange[..n], blue[..n], d);
      }
      var p := Exec(s, prev);
      SwingStepReplay(p, orange[n], blue[n], d);
      assert Pair(p, orange[n], blue[n]) == Pair(s, orange[n], blue[n]);
      var f := Frames(s, SwingHalf(orange, blue, d));
      assert f == Frames(s, prev) + [Frame(d, Pair(s, orange[n], blue[n]))];
      forall k | 0 <= k < n
        ensures f[k] == Frame(d, Pair(s, orange[k], blue[k]))
      {
        assert orange[k] == orange[..n][k] && blue[k] == blue[..n][k];
      }
    }
  }

  /** A half writes exactly `orange` to orange, `blue` to blue, and nothing
      to red or green. */
  lemma {:induction false} SwingHalfWritten(orange: seq<int>, blue: seq<int>, d: int, i: int)
    requires |orange| == |blue|
    ensures Written(SwingHalf(orange, blue, d), i) ==
      if i == Orange then orange else if i == Blue then blue else []
    decreases |orange|
  {
    if orange != [] {
      var n := |orange| - 1;
      var prev := SwingHalf(orange[..n], blue[..n], d);
      var step := SwingStep(orange[n], blue[n], d);
      SwingSplit(orange, blue, d);
      SwingHalfWritten(orange[..n], blue[..n], d, i);
      WrittenAppend(prev, step, i);
      SwingStepWritten(orange[n], blue[n], d, i);
      LastSplit(orange);
      LastSplit(blue);
    }
  }

  /** A pair of brightness values adding up to 255 shows as such. */
  lemma PairBalanced(s: seq<Led>, o: int, b: int)
    requires |s| == 4 && 0 <= o <= 255 && 0 <= b <= 255 && o + b == 255
    ensures var p := Pair(s, o, b);
      |p| == 4 && p[Orange].level + p[Blue].level == 255 && p[Red] == s[Red] && p[Green] == s[Green]
  {
  }

  /** The `k`-th values of the two full ramps add up to 255. */
  lemma UpDownAt(k: int)
    requires 0 <= k < 52
    ensures 0 <= Up[k] <= 255 && 0 <= Down[k] <= 255 && Up[k] + Down[k] == 255
  {
  }

  /** While delay `j` of a half elapses, orange and blue show `o[j]` and
      `b[j]`: adding up to 255 when the values do; red and green keep their state. */
  lemma HalfBalanced(s: seq<Led>, o: seq<int>, b: seq<int>, d: int, j: int)
    requires |s| == 4 && |o| == |b| && 0 <= j < |o|
    requires 0 <= o[j] <= 255 && 0 <= b[j] <= 255 && o[j] + b[j] == 255
    ensures |Frames(s, SwingHalf(o, b, d))| == |o|
    ensures var f := Frames(s, SwingHalf(o, b, d))[j];
      f.ms == d && |f.leds| == 4 && f.leds[Orange].level + f.leds[Blue].level == 255 &&
      f.leds[Red] == s[Red] && f.leds[Green] == s[Green]
  {
    SwingHalfFrames(s, o, b, d);
    PairBalanced(s, o[j], b[j]);
  }

  /** During every one of the 104 delays of a `swing` cycle the brightness of
      orange and blue adds up to 255, and red and green keep their state. */
  lemma SwingBalanced(s: seq<Led>, d: int, r2l: bool, k: nat)
    requires |s| == 4 && k < 104
    ensures |Frames(s, SwingCycle(d, r2l))| == 104
    ensures var f := Frames(s, SwingCycle(d, r2l))[k];
      f.ms == d && |f.leds| == 4 && f.leds[Orange].level + f.leds[Blue].level == 255 &&
      f.leds[Red] == s[Red] && f.leds[Green] == s[Green]
  {
    var a1 := if r2l then Down else Up;
    var b1 := if r2l then Up else Down;
    var h1, h2 := SwingHalf(a1, b1, d), SwingHalf(b1, a1, d);
    assert SwingCycle(d, r2l) == h1 + h2;
    FramesAppend(s, h1, h2);
    SwingHalfEnd(s, a1, b1, d);
    var m := Exec(s, h1);
    var j := if k < 52 then k else k - 52;
    UpDownAt(j);
    HalfBalanced(s, a1, b1, d, j);
    HalfBalanced(m, b1, a1, d, j);
  }

  /** With `r2l` a `swing` cycle is the other cycle with its halves swapped:
      orange receives what blue receives without `r2l`, and blue what orange
      receives; without `r2l` orange rises then falls. */
  lemma SwingMirror(d: int)
    ensures SwingCycle(d, true) ==
      SwingCycle(d, false)[|SwingHalf(Up, Down, d)|..] + SwingCycle(d, false)[..|SwingHalf(Up, Down, d)|]
    ensures Written(SwingCycle(d, false), Orange) == Up + Down
    ensures Written(SwingCycle(d, false), Blue) == Down + Up
    ensures Written(SwingCycle(d, true), Orange) == Written(SwingCycle(d, false), Blue)
    ensures Written(SwingCycle(d, true), Blue) == Written(SwingCycle(d, false), Orange)
  {
    var u, w := SwingHalf(Up, Down, d), SwingHalf(Down, Up, d);
    assert (u + w)[|u|..] == w && (u + w)[..|u|] == u;
    SwingHalfWritten(Up, Down, d, Orange);
    SwingHalfWritten(Up, Down, d, Blue);
    SwingHalfWritten(Down, Up, d, Orange);
    SwingHalfWritten(Down, Up, d, Blue);
    WrittenAppend(u, w, Orange);
    WrittenAppend(u, w, Blue);
    WrittenAppend(w, u, Orange);
    WrittenAppend(w, u, Blue);
  }

  /** A `swing` cycle never writes to red or green. */
  lemma SwingLeavesOthers(d: int, r2l: bool, i: int)
    requires i == Red || i == Green
    ensures Written(SwingCycle(d, r2l), i) == []
  {
    var u, w := SwingHalf(Up, Down, d), SwingHalf(Down, Up, d);
    SwingHalfWritten(Up, Down, d, i);
    SwingHalfWritten(Down, Up, d, i);
    WrittenAppend(u, w, i);
    WrittenAppend(w, u, i);
  }

  /** A whole `swing` run ends dark. */
  lemma SwingRunEnd(s: seq<Led>, speed: int, k: nat, r2l: bool)
    requires |s| == 4
    ensures Exec(s, SwingRun(speed, k, r2l)) == Dark
  {
    EndsWithAllOff(s, Repeat(SwingCycle(TruncDiv(speed, SwingSteps), r2l), k));
  }

  /** Two boards that agree on red and green: a `swing` half shows the same
      frames from both and, when not empty, leaves both the same, with red
      and green as they were. */
  lemma HalfAgrees(s: seq<Led>, t: seq<Led>, o: seq<int>, b: seq<int>, d: int)
    requires |s| == 4 && |t| == 4 && s[Red] == t[Red] && s[Green] == t[Green]
    requires |o| == |b|
    ensures Frames(s, SwingHalf(o, b, d)) == Frames(t, SwingHalf(o, b, d))
    ensures o != [] ==> Exec(s, SwingHalf(o, b, d)) == Exec(t, SwingHalf(o, b, d))
    ensures o != [] ==> Exec(s, SwingHalf(o, b, d))[Red] == s[Red] && Exec(s, SwingHalf(o, b, d))[Green] == s[Green]
  {
    SwingHalfFrames(s, o, b, d);
    SwingHalfFrames(t, o, b, d);
    var fs, ft := Frames(s, SwingHalf(o, b, d)), Frames(t, SwingHalf(o, b, d));
    forall k | 0 <= k < |o|
      ensures fs[k] == ft[k]
    {
      PairAgrees(s, t, o[k], b[k]);
    }
    if o != [] {
      SwingHalfEnd(s, o, b, d);
      SwingHalfEnd(t, o, b, d);
      PairAgrees(s, t, o[|o| - 1], b[|b| - 1]);
    }
  }

  /** Setting orange and blue overwrites all a board holds beyond red and green. */
  lemma PairAgrees(s: seq<Led>, t: seq<Led>, o: int, b: int)
    requires |s| == 4 && |t| == 4 && s[Red] == t[Red] && s[Green] == t[Green]
    ensures Pair(s, o, b) == Pair(t, o, b)
  {
    var p, q := Pair(s, o, b), Pair(t, o, b);
    assert forall i :: 0 <= i < 4 ==> p[i] == q[i];
  }

  /** A `swing` cycle shows the same frames, and leaves the same board, from
      any two boards that agree on red and green, which it keeps. */
  lemma CycleAgrees(s: seq<Led>, t: seq<Led>, d: int, r2l: bool)
    requires |s| == 4 && |t| == 4 && s[Red] == t[Red] && s[Green] == t[Green]
    ensures Frames(s, SwingCycle(d, r2l)) == Frames(t, SwingCycle(d, r2l))
    ensures Exec(s, SwingCycle(d, r2l)) == Exec(t, SwingCycle(d, r2l))
    ensures Exec(s, SwingCycle(d, r2l))[Red] == s[Red] && Exec(s, SwingCycle(d, r2l))[Green] == s[Green]
  {
    var a1 := if r2l then Down else Up;
    var b1 := if r2l then Up else Down;
    var h1, h2 := SwingHalf(a1, b1, d), SwingHalf(b1, a1, d);
    assert SwingCycle(d, r2l) == h1 + h2;
    HalfAgrees(s, t, a1, b1, d);
    var m := Exec(s, h1);
    HalfAgrees(m, m, b1, a1, d);
    FramesAppend(s, h1, h2);
    FramesAppend(t, h1, h2);
    ExecAppend(s, h1, h2);
    ExecAppend(t, h1, h2);
  }

  /** From a dark board a whole `swing` run shows the frames of one cycle once
      per cycle, though a cycle leaves orange or blue at full brightness, and
      every delay of the run is `int(delay / 102)`. */
  lemma SwingRunFrames(speed: int, k: nat, r2l: bool)
    ensures Frames(Dark, SwingRun(speed, k, r2l)) == Repeat(Frames(Dark, SwingCycle(TruncDiv(speed, SwingSteps), r2l)), k)
    ensures forall x :: x in Delays(SwingRun(speed, k, r2l)) ==> x == TruncDiv(speed, SwingSteps)
  {
    var d := TruncDiv(speed, SwingSteps);
    var c := SwingCycle(d, r2l);
    var e := Exec(Dark, c);
    CycleAgrees(Dark, Dark, d, r2l);
    CycleAgrees(e, Dark, d, r2l);
    RepeatSettled(c, e, k);
    FramesAppend(Dark, Repeat(c, k), AllOffCmds());
    DelaysAppend(Repeat(c, k), AllOffCmds());
    AllOffNoFrames(Exec(Dark, Repeat(c, k)));
    DelaysAreFrameLengths(Dark, c);
    SwingBalanced(Dark, d, r2l, 0);
    forall i | 0 <= i < 104
      ensures Frames(Dark, c)[i].ms == d
    {
      SwingBalanced(Dark, d, r2l, i);
    }
    assert forall x :: x in Delays(c) ==> x == d;
    RepeatDelays(c, k, d);
  }

  // ---------------------------------------------------------------------
  // heart_beat

  /** The delays of one beat: the flat stretch before and after it, and the
      step delay of each of its four ramps. */
  datatype HeartTiming = HeartTiming(flat: int, rise: int, dip: int, climb: int, fall: int)

  /** 0 up to 150, 150 down to 30, 30 up to 255, 255 down to 0, in steps of 5. */
  const Rise: seq<int> := Ramp(0, 5, 31)
  const Dip: seq<int> := Ramp(150, -5, 25)
  const Climb: seq<int> := Ramp(30, 5, 46)
  const Fall: seq<int> := Ramp(255, -5, 52)

  /** Every brightness value of one beat, in order. */
  function HeartLevels(): seq<int>
  {
    Rise + Dip + Climb + Fall
  }

  /** The four ramps of a beat on the selected LEDs. */
  function Beat(t: HeartTiming, blue: bool, orange: bool): seq<Command>
  {
    RampCmds(blue, orange, Rise, t.rise)
      + RampCmds(blue, orange, Dip, t.dip)
      + RampCmds(blue, orange, Climb, t.climb)
      + RampCmds(blue, orange, Fall, t.fall)
  }

  /** One beat: a flat stretch, the four ramps, a flat stretch. */
  function HeartCycle(t: HeartTiming, blue: bool, orange: bool): seq<Command>
  {
    [Delay(t.flat)] + Beat(t, blue, orange) + [Delay(t.flat)]
  }

  /** `heart_beat(delay, duration, blue, orange)` for `k` beats. */
  function HeartBeatRun(t: HeartTiming, k: nat, blue: bool, orange: bool): seq<Command>
  {
    Repeat(HeartCycle(t, blue, orange), k) + AllOffCmds()
  }

  /** The shape of a beat: 0 to 150 in 31 steps, down to 30 in 25, up to 255
      in 46, down to 0 in 52; every value a valid brightness. */
  lemma HeartShape()
    ensures |Rise| == 31 && Rise[0] == 0 && Rise[30] == 150 && Increasing(Rise)
    ensures |Dip| == 25 && Dip[0] == 150 && Dip[24] == 30 && Decreasing(Dip)
    ensures |Climb| == 46 && Climb[0] == 30 && Climb[45] == 255 && Increasing(Climb)
    ensures |Fall| == 52 && Fall[0] == 255 && Fall[51] == 0 && Decreasing(Fall)
    ensures |HeartLevels()| == 154 && InByteRange(HeartLevels())
  {
    var h := HeartLevels();
    forall i | 0 <= i < |h|
      ensures 0 <= h[i] <= 255
    {
      if i < 31 {
        assert h[i] == Rise[i];
      } else if i < 56 {
        assert h[i] == Dip[i - 31];
      } else if i < 102 {
        assert h[i] == Climb[i - 56];
      } else {
        assert h[i] == Fall[i - 102];
      }
    }
  }

  /** Regrouping what four consecutive lists write. */
  lemma WrittenAppend4(a: seq<Command>, b: seq<Command>, c: seq<Command>, e: seq<Command>, i: int)
    ensures Written(a + b + c + e, i) == Written(a, i) + Written(b, i) + Written(c, i) + Written(e, i)
  {
    WrittenAppend(a, b, i);
    WrittenAppend(a + b, c, i);
    WrittenAppend(a + b + c, e, i);
  }

  /** The four ramps write the beat's values to each selected LED. */
  lemma BeatWritten(t: HeartTiming, blue: bool, orange: bool, i: int)
    ensures Written(Beat(t, blue, orange), i) == if Selected(blue, orange, i) then HeartLevels() else []
  {
    RampWritten(blue, orange, Rise, t.rise, i);
    RampWritten(blue, orange, Dip, t.dip, i);
    RampWritten(blue, orange, Climb, t.climb, i);
    RampWritten(blue, orange, Fall, t.fall, i);
    WrittenAppend4(RampCmds(blue, orange, Rise, t.rise), RampCmds(blue, orange, Dip, t.dip),
      RampCmds(blue, orange, Climb, t.climb), RampCmds(blue, orange, Fall, t.fall), i);
  }

  /** A beat writes the beat's brightness values to each selected LED and
      nothing to the other LEDs. */
  lemma HeartWritten(t: HeartTiming, blue: bool, orange: bool, i: int)
    ensures Written(HeartCycle(t, blue, orange), i) == if Selected(blue, orange, i) then HeartLevels() else []
  {
    var m := Beat(t, blue, orange);
    var p := [Delay(t.flat)];
    calc {
      Written(HeartCycle(t, blue, orange), i);
      Written(p + m + p, i);
      { WrittenAppend(p + m, p, i); WrittenAppend(p, m, i); }
      Written(p, i) + Written(m, i) + Written(p, i);
      { NoIntensityWritesNothing(p, i); }
      Written(m, i);
      { BeatWritten(t, blue, orange, i); }
      if Selected(blue, orange, i) then HeartLevels() else [];
    }
  }

  /** Regrouping the delays of four consecutive lists. */
  lemma DelaysAppend4(a: seq<Command>, b: seq<Command>, c: seq<Command>, e: seq<Command>)
    ensures Delays(a + b + c + e) == Delays(a) + Delays(b) + Delays(c) + Delays(e)
  {
    DelaysAppend(a, b);
    DelaysAppend(a + b, c);
    DelaysAppend(a + b + c, e);
  }

  lemma DelaysOne(d: int)
    ensures Delays([Delay(d)]) == [d]
  {
    assert [Delay(d)][..0] == [];
  }

  /** The four ramps of a beat wait once per brightness value, each with its
      ramp's step delay. */
  lemma BeatDelays(t: HeartTiming, blue: bool, orange: bool)
    ensures Delays(Beat(t, blue, orange)) ==
      Repeat([t.rise], 31) + Repeat([t.dip], 25) + Repeat([t.climb], 46) + Repeat([t.fall], 52)
  {
    RampDelays(blue, orange, Rise, t.rise);
    RampDelays(blue, orange, Dip, t.dip);
    RampDelays(blue, orange, Climb, t.climb);
    RampDelays(blue, orange, Fall, t.fall);
    DelaysAppend4(RampCmds(blue, orange, Rise, t.rise), RampCmds(blue, orange, Dip, t.dip),
      RampCmds(blue, orange, Climb, t.climb), RampCmds(blue, orange, Fall, t.fall));
  }

  /** A beat waits once per brightness value, with its ramp's step delay,
      between the two flat stretches. */
  lemma HeartDelays(t: HeartTiming, blue: bool, orange: bool)
    ensures Delays(HeartCycle(t, blue, orange)) ==
      [t.flat] + Repeat([t.rise], 31) + Repeat([t.dip], 25) + Repeat([t.climb], 46) + Repeat([t.fall], 52) + [t.flat]
  {
    var p, m := [Delay(t.flat)], Beat(t, blue, orange);
    var f, ra, rb, rc, re := [t.flat], Repeat([t.rise], 31), Repeat([t.dip], 25), Repeat([t.climb], 46),
      Repeat([t.fall], 52);
    calc {
      Delays(HeartCycle(t, blue, orange));
      Delays(p + m + p);
      { DelaysAppend(p + m, p); DelaysAppend(p, m); }
      Delays(p) + Delays(m) + Delays(p);
      { DelaysOne(t.flat); BeatDelays(t, blue, orange); }
      f + (ra + rb + rc + re) + f;
      { Assoc(f, ra + rb + rc, re); Assoc(f, ra + rb, rc); Assoc(f, ra, rb); }
      f + ra + rb + rc + re + f;
    }
  }

  /** The four ramps end at brightness 0 and show 154 frames. */
  lemma BeatReplay(s: seq<Led>, t: HeartTiming, blue: bool, orange: bool)
    requires |s| == 4
    ensures Exec(s, Beat(t, blue, orange)) == Paint(s, blue, orange, 0)
    ensures |Frames(s, Beat(t, blue, orange))| == 154
  {
    var a, b, c, e := RampCmds(blue, orange, Rise, t.rise), RampCmds(blue, orange, Dip, t.dip),
      RampCmds(blue, orange, Climb, t.climb), RampCmds(blue, orange, Fall, t.fall);
    HeartShape();
    RampEnd(s, blue, orange, Rise, t.rise);
    var s1 := Paint(s, blue, orange, 150);
    RampEnd(s1, blue, orange, Dip, t.dip);
    PaintTwice(s, blue, orange, 150, 30);
    var s2 := Paint(s, blue, orange, 30);
    RampEnd(s2, blue, orange, Climb, t.climb);
    PaintTwice(s, blue, orange, 30, 255);
    var s3 := Paint(s, blue, orange, 255);
    RampEnd(s3, blue, orange, Fall, t.fall);
    PaintTwice(s, blue, orange, 255, 0);
    ExecAppend(s, a, b);
    ExecAppend(s, a + b, c);
    ExecAppend(s, a + b + c, e);
    RampFrames(s, blue, orange, Rise, t.rise);
    RampFrames(s1, blue, orange, Dip, t.dip);
    RampFrames(s2, blue, orange, Climb, t.climb);
    RampFrames(s3, blue, orange, Fall, t.fall);
    FramesAppend(s, a, b);
    FramesAppend(s, a + b, c);
    FramesAppend(s, a + b + c, e);
  }

  /** Replaying a beat: the first flat stretch shows the board as it was, the
      last one the board after the beat, on which the selected LEDs are dark
      (the last ramp ends at brightness 0) and the others unchanged; so a beat
      from a dark board ends dark. */
  lemma HeartCycleReplay(s: seq<Led>, t: HeartTiming, blue: bool, orange: bool)
    requires |s| == 4
    ensures |Frames(s, HeartCycle(t, blue, orange))| == 156
    ensures Frames(s, HeartCycle(t, blue, orange))[0] == Frame(t.flat, s)
    ensures Frames(s, HeartCycle(t, blue, orange))[155] == Frame(t.flat, Paint(s, blue, orange, 0))
    ensures Exec(s, HeartCycle(t, blue, orange)) == Paint(s, blue, orange, 0)
    ensures blue ==> Exec(s, HeartCycle(t, blue, orange))[Blue] == LedOff
    ensures orange ==> Exec(s, HeartCycle(t, blue, orange))[Orange] == LedOff
    ensures Exec(Dark, HeartCycle(t, blue, orange)) == Dark
  {
    var m := Beat(t, blue, orange);
    BeatReplay(s, t, blue, orange);
    BeatReplay(Dark, t, blue, orange);
    ExecCons(s, Delay(t.flat), m);
    ExecCons(Dark, Delay(t.flat), m);
    var e := Paint(s, blue, orange, 0);
    Snoc(s, [Delay(t.flat)] + m, Delay(t.flat));
    Snoc(Dark, [Delay(t.flat)] + m, Delay(t.flat));
    assert Paint(Dark, blue, orange, 0) == Dark;
  }

  /** A whole `heart_beat` run ends dark; from a dark board every beat shows
      the same frames. */
  lemma HeartRunReplay(s: seq<Led>, t: HeartTiming, k: nat, blue: bool, orange: bool)
    requires |s| == 4
    ensures Exec(s, HeartBeatRun(t, k, blue, orange)) == Dark
    ensures Frames(Dark, HeartBeatRun(t, k, blue, orange)) == Repeat(Frames(Dark, HeartCycle(t, blue, orange)), k)
  {
    EndsWithAllOff(s, Repeat(HeartCycle(t, blue, orange), k));
    HeartCycleReplay(Dark, t, blue, orange);
    RunFromDark(HeartCycle(t, blue, orange), k);
  }
}
