/** One cycle of each on/off effect as the list of commands it issues, how many
    cycles a run repeats, and what the LEDs show while each delay elapses. */
module Patterns {
  import opened Leds

  // ---------------------------------------------------------------------
  // Timing

  function Abs(x: int): nat { if x < 0 then -x else x }

  /** `int(a / n)`: the quotient truncated toward zero, as Python's `int`
      truncates the float `a / n`. */
  function TruncDiv(a: int, n: int): (q: int)
    requires n > 0
    ensures a >= 0 ==> q >= 0
    ensures a <= 0 ==> q <= 0
    ensures Abs(q) * n <= Abs(a) < Abs(q) * n + n
  {
    var m := Abs(a) / n;
    DivBounds(Abs(a), n);
    if a >= 0 then m else -m
  }

  lemma DivBounds(x: nat, n: int)
    requires n > 0
    ensures (x / n) * n <= x < (x / n) * n + n
  {
  }

  /** Steps per cycle that each effect divides its speed by. */
  const ExplodeSteps := 3
  const ScrollSteps := 5
  const BounceSteps := 8
  const GlowSteps := 51
  const SwingSteps := 102

  /** A cycle issued `k` times in a row: what a deadline loop does when its
      deadline check lets `k` cycles start. */
  function Repeat<T>(c: seq<T>, k: nat): seq<T>
  {
    if k == 0 then [] else Repeat(c, k - 1) + c
  }

  /** The delays of each frame, in order, are the delays of the list. */
  lemma {:induction false} DelaysAreFrameLengths(s: seq<Led>, cmds: seq<Command>)
    ensures |Delays(cmds)| == |Frames(s, cmds)|
    ensures forall k :: 0 <= k < |Delays(cmds)| ==> Delays(cmds)[k] == Frames(s, cmds)[k].ms
    decreases |cmds|
  {
    if cmds != [] {
      DelaysAreFrameLengths(s, cmds[..|cmds| - 1]);
    }
  }

  /** A cycle that ends dark, repeated from a dark board, shows its own frames
      again and again. */
  lemma {:induction false} RepeatFromDark(c: seq<Command>, k: nat)
    requires Exec(Dark, c) == Dark
    ensures Exec(Dark, Repeat(c, k)) == Dark
    ensures Frames(Dark, Repeat(c, k)) == Repeat(Frames(Dark, c), k)
  {
    if k > 0 {
      RepeatFromDark(c, k - 1);
      ExecAppend(Dark, Repeat(c, k - 1), c);
      FramesAppend(Dark, Repeat(c, k - 1), c);
    }
  }

  /** Every delay of `k` cycles is `d` when every delay of one cycle is. */
  lemma {:induction false} RepeatDelays(c: seq<Command>, k: nat, d: int)
    requires forall x :: x in Delays(c) ==> x == d
    ensures |Delays(Repeat(c, k))| == k * |Delays(c)|
    ensures forall x :: x in Delays(Repeat(c, k)) ==> x == d
  {
    if k > 0 {
      var n := |Delays(c)|;
      RepeatDelays(c, k - 1, d);
      DelaysAppend(Repeat(c, k - 1), c);
      assert (k - 1) * n + n == k * n;
    }
  }

  /** The frames and delays of a whole run: `k` cycles then a final `all_off`. */
  lemma RunFromDark(c: seq<Command>, k: nat)
    requires Exec(Dark, c) == Dark
    ensures Exec(Dark, Repeat(c, k) + AllOffCmds()) == Dark
    ensures Frames(Dark, Repeat(c, k) + AllOffCmds()) == Repeat(Frames(Dark, c), k)
    ensures Delays(Repeat(c, k) + AllOffCmds()) == Delays(Repeat(c, k))
  {
    RepeatFromDark(c, k);
    ExecAppend(Dark, Repeat(c, k), AllOffCmds());
    FramesAppend(Dark, Repeat(c, k), AllOffCmds());
    DelaysAppend(Repeat(c, k), AllOffCmds());
    AllOffIsDark(Dark);
  }

  /** A cycle that leaves a dark board at `e`, and from `e` shows the frames
      it shows from dark and comes back to `e`, repeated from a dark board
      shows its own frames again and again. */
  lemma {:induction false} RepeatSettled(c: seq<Command>, e: seq<Led>, k: nat)
    requires Exec(Dark, c) == e && Exec(e, c) == e && Frames(e, c) == Frames(Dark, c)
    ensures k > 0 ==> Exec(Dark, Repeat(c, k)) == e
    ensures Frames(Dark, Repeat(c, k)) == Repeat(Frames(Dark, c), k)
  {
    if k > 0 {
      RepeatSettled(c, e, k - 1);
      ExecAppend(Dark, Repeat(c, k - 1), c);
      FramesAppend(Dark, Repeat(c, k - 1), c);
    }
  }

  /** Whatever the LEDs showed, a run that ends with `all_off` leaves them dark. */
  lemma EndsWithAllOff(s: seq<Led>, cmds: seq<Command>)
    requires |s| == 4
    ensures Exec(s, cmds + AllOffCmds()) == Dark
  {
    ExecAppend(s, cmds, AllOffCmds());
    AllOffIsDark(Exec(s, cmds));
  }

  // ---------------------------------------------------------------------
  // Flashing LEDs one after another (scroll, jump, bounce, random_single)

  /** `led.on(); pyb.delay(d)` and, unless the LED is held, `led.off()`. */
  function Flash(j: int, d: int, hold: bool): seq<Command>
  {
    [On(j), Delay(d)] + (if hold then [] else [Off(j)])
  }

  /** `Flash` each LED of `order` in turn. */
  function Sweep(order: seq<int>, d: int, hold: bool): seq<Command>
    decreases |order|
  {
    if order == [] then [] else Sweep(order[..|order| - 1], d, hold) + Flash(order[|order| - 1], d, hold)
  }

  predicate AllLeds(order: seq<int>)
  {
    forall k :: 0 <= k < |order| ==> IsLed(order[k])
  }

  lemma FlashReplay(s: seq<Led>, j: int, d: int, hold: bool)
    requires |s| == 4 && IsLed(j)
    ensures Exec(s, Flash(j, d, hold)) == s[j := if hold then LedOn else LedOff]
    ensures Frames(s, Flash(j, d, hold)) == [Frame(d, s[j := LedOn])]
  {
    var p := Phase([On(j)], d);
    assert [On(j)][..0] == [];
    PhaseReplay(s, [On(j)], d);
    if hold {
      assert Flash(j, d, hold) == p;
    } else {
      assert Flash(j, d, hold) == p + [Off(j)];
      ExecAppend(s, p, [Off(j)]);
      FramesAppend(s, p, [Off(j)]);
      NoDelayNoFrames(Exec(s, p), [Off(j)]);
    }
  }

  /** Each LED of the order is switched on for its own delay; afterwards the
      LEDs of the order are all on (held) or all off, and the others as before. */
  lemma {:induction false} SweepReplay(s: seq<Led>, order: seq<int>, d: int, hold: bool)
    requires |s| == 4 && AllLeds(order)
    ensures forall i :: 0 <= i < 4 ==>
      Exec(s, Sweep(order, d, hold))[i] == if i in order then (if hold then LedOn else LedOff) else s[i]
    ensures |Frames(s, Sweep(order, d, hold))| == |order|
    ensures forall k :: 0 <= k < |order| ==>
      Frames(s, Sweep(order, d, hold))[k] == Frame(d, Exec(s, Sweep(order[..k], d, hold))[order[k] := LedOn])
    decreases |order|
  {
    if order != [] {
      var o', j := order[..|order| - 1], order[|order| - 1];
      assert order == o' + [j];
      SweepReplay(s, o', d, hold);
      var t := Exec(s, Sweep(o', d, hold));
      ExecAppend(s, Sweep(o', d, hold), Flash(j, d, hold));
      FramesAppend(s, Sweep(o', d, hold), Flash(j, d, hold));
      FlashReplay(t, j, d, hold);
      forall k | 0 <= k < |order|
        ensures Frames(s, Sweep(order, d, hold))[k] == Frame(d, Exec(s, Sweep(order[..k], d, hold))[order[k] := LedOn])
      {
        if k < |o'| {
          assert order[..k] == o'[..k];
        } else {
          assert order[..k] == o';
        }
      }
    }
  }

  /** From a dark board a sweep leaves lit exactly the held LEDs. */
  lemma SweepExecFromDark(order: seq<int>, d: int, hold: bool)
    requires AllLeds(order)
    ensures Exec(Dark, Sweep(order, d, hold)) == Showing(if hold then Elems(order) else {})
  {
    SweepReplay(Dark, order, d, hold);
    var e := Exec(Dark, Sweep(order, d, hold));
    var sh := Showing(if hold then Elems(order) else {});
    forall i | 0 <= i < 4
      ensures e[i] == sh[i]
    {
      assert i in Elems(order) <==> i in order;
    }
  }

  lemma ShowingAdd(js: set<int>, j: int)
    requires IsLed(j)
    ensures Showing(js)[j := LedOn] == Showing({j} + js)
  {
  }

  /** From a dark board, frame `k` of a sweep shows LED `order[k]`, together
      with the LEDs lit before it when they are held. */
  lemma SweepFromDark(order: seq<int>, d: int, hold: bool, k: nat)
    requires AllLeds(order) && k < |order|
    ensures |Frames(Dark, Sweep(order, d, hold))| == |order|
    ensures Frames(Dark, Sweep(order, d, hold))[k] ==
      Frame(d, Showing({order[k]} + (if hold then Elems(order[..k]) else {})))
  {
    SweepReplay(Dark, order, d, hold);
    var o := order[..k];
    assert AllLeds(o);
    SweepExecFromDark(o, d, hold);
    ShowingAdd(if hold then Elems(o) else {}, order[k]);
  }

  /** A sweep over all four LEDs ends dark from any start. */
  lemma FullSweepEndsDark(s: seq<Led>, order: seq<int>, d: int)
    requires |s| == 4 && AllLeds(order)
    requires forall i :: 0 <= i < 4 ==> i in order
    ensures Exec(s, Sweep(order, d, false)) == Dark
  {
    SweepReplay(s, order, d, false);
  }

  /** `for led in leds: on, delay, (off)`, then `all_off()` and one more delay:
      the cycle of `scroll` and of `jump`. */
  function WalkCycle(order: seq<int>, d: int, hold: bool): seq<Command>
  {
    Sweep(order, d, hold) + AllOffCmds() + [Delay(d)]
  }

  lemma WalkCycleReplay(s: seq<Led>, order: seq<int>, d: int, hold: bool)
    requires |s| == 4 && AllLeds(order)
    ensures Exec(s, WalkCycle(order, d, hold)) == Dark
    ensures Frames(s, WalkCycle(order, d, hold)) ==
      Frames(s, Sweep(order, d, hold)) + [Frame(d, Dark)]
  {
    var sw := Sweep(order, d, hold);
    var a := sw + AllOffCmds();
    ExecAppend(s, sw, AllOffCmds());
    AllOffExec(Exec(s, sw));
    FramesAppend(s, sw, AllOffCmds());
    AllOffNoFrames(Exec(s, sw));
    AppendNil(Frames(s, sw));
    Snoc(s, a, Delay(d));
  }

  /** Frame `k` of a walk cycle from a dark board. */
  lemma WalkCycleFromDark(order: seq<int>, d: int, hold: bool, k: nat)
    requires AllLeds(order) && k <= |order|
    ensures |Frames(Dark, WalkCycle(order, d, hold))| == |order| + 1
    ensures k < |order| ==>
      Frames(Dark, WalkCycle(order, d, hold))[k] ==
        Frame(d, Showing({order[k]} + (if hold then Elems(order[..k]) else {})))
    ensures k == |order| ==> Frames(Dark, WalkCycle(order, d, hold))[k] == Frame(d, Dark)
  {
    WalkCycleReplay(Dark, order, d, hold);
    SweepReplay(Dark, order, d, hold);
    if k < |order| {
      SweepFromDark(order, d, hold, k);
    }
  }

  // ---------------------------------------------------------------------
  // explode and implode

  /** Some LED commands followed by one delay. */
  function Phase(pre: seq<Command>, d: int): seq<Command>
  {
    pre + [Delay(d)]
  }

  predicate NoDelay(cmds: seq<Command>)
  {
    forall k :: 0 <= k < |cmds| ==> !cmds[k].Delay?
  }

  lemma PhaseReplay(s: seq<Led>, pre: seq<Command>, d: int)
    requires NoDelay(pre)
    ensures Frames(s, Phase(pre, d)) == [Frame(d, Exec(s, pre))]
    ensures Exec(s, Phase(pre, d)) == Exec(s, pre)
  {
    assert Phase(pre, d)[..|pre|] == pre;
    NoDelayNoFrames(s, pre);
  }

  /** Three phases show three frames, one per phase's state. */
  lemma ThreePhases(s: seq<Led>, a: seq<Command>, b: seq<Command>, c: seq<Command>, d: int)
    requires NoDelay(a) && NoDelay(b) && NoDelay(c)
    ensures Frames(s, Phase(a, d) + Phase(b, d) + Phase(c, d)) ==
      [Frame(d, Exec(s, a)), Frame(d, Exec(Exec(s, a), b)), Frame(d, Exec(Exec(Exec(s, a), b), c))]
    ensures Exec(s, Phase(a, d) + Phase(b, d) + Phase(c, d)) == Exec(Exec(Exec(s, a), b), c)
  {
    var s1 := Exec(s, a);
    var s2 := Exec(s1, b);
    PhaseReplay(s, a, d);
    PhaseReplay(s1, b, d);
    PhaseReplay(s2, c, d);
    ExecAppend(s, Phase(a, d), Phase(b, d));
    FramesAppend(s, Phase(a, d), Phase(b, d));
    ExecAppend(s, Phase(a, d) + Phase(b, d), Phase(c, d));
    FramesAppend(s, Phase(a, d) + Phase(b, d), Phase(c, d));
  }

  /** One `explode` cycle: inner pair on, then outer pair, then dark. */
  function ExplodeCycle(d: int): seq<Command>
  {
    Phase([On(Green), On(Orange)], d)
    + Phase([Off(Green), Off(Orange), On(Red), On(Blue)], d)
    + Phase([Off(Red), Off(Blue)], d)
  }

  /** `explode(delay, duration)` when the deadline lets `k` cycles start. */
  function ExplodeRun(delay: int, k: nat): seq<Command>
  {
    Repeat(ExplodeCycle(TruncDiv(delay, ExplodeSteps)), k) + AllOffCmds()
  }

  /** During one `explode` cycle the LEDs show exactly green and orange (plus
      red or blue if they were already lit), then exactly red and blue, then
      nothing; the cycle ends dark. */
  lemma ExplodeCycleFrames(s: seq<Led>, d: int)
    requires |s| == 4
    ensures Frames(s, ExplodeCycle(d)) ==
      [Frame(d, s[Green := LedOn][Orange := LedOn]), Frame(d, Showing({Red, Blue})), Frame(d, Dark)]
    ensures Lit(s[Green := LedOn][Orange := LedOn]) == {Green, Orange} + (Lit(s) * {Red, Blue})
    ensures Lit(Showing({Red, Blue})) == {Red, Blue}
    ensures Exec(s, ExplodeCycle(d)) == Dark
  {
    var a, b, c := [On(Green), On(Orange)], [Off(Green), Off(Orange), On(Red), On(Blue)], [Off(Red), Off(Blue)];
    ThreePhases(s, a, b, c, d);
    Exec2(s, On(Green), On(Orange));
    var s1 := Exec(s, a);
    Exec4(s1, Off(Green), Off(Orange), On(Red), On(Blue));
    var s2 := Exec(s1, b);
    assert s1 == s[Green := LedOn][Orange := LedOn];
    assert s2 == Showing({Red, Blue});
    Exec2(s2, Off(Red), Off(Blue));
    var s3 := Exec(s2, c);
    assert forall i :: 0 <= i < 4 ==> s3[i] == Dark[i];
    assert s3 == Dark;
    assert forall i :: i in Lit(s1) <==> i in {Green, Orange} + (Lit(s) * {Red, Blue});
    LitShowing({Red, Blue});
  }

  /** A whole `explode` run: every delay is `int(delay / 3)`, three per cycle;
      from a dark board every cycle shows the same three frames; the run ends
      dark from any start. */
  lemma ExplodeRunReplay(s: seq<Led>, delay: int, k: nat)
    requires |s| == 4
    ensures |Delays(ExplodeRun(delay, k))| == 3 * k
    ensures forall x :: x in Delays(ExplodeRun(delay, k)) ==> x == TruncDiv(delay, 3)
    ensures Frames(Dark, ExplodeRun(delay, k)) == Repeat(Frames(Dark, ExplodeCycle(TruncDiv(delay, 3))), k)
    ensures Exec(s, ExplodeRun(delay, k)) == Dark
  {
    var d := TruncDiv(delay, 3);
    var c := ExplodeCycle(d);
    ExplodeCycleFrames(Dark, d);
    DelaysAreFrameLengths(Dark, c);
    assert forall x :: x in Delays(c) ==> x == d;
    RepeatDelays(c, k, d);
    RunFromDark(c, k);
    EndsWithAllOff(s, Repeat(c, k));
  }

  /** `implode` as written: its first statement after reading the clock reads
      the local `delay` before anything assigns it, so every call raises
      `NameError` before any LED command, whatever the deadline. */
  function ImplodeRun(speed: int, k: nat): Run
  {
    Run([], Raised(NameError))
  }

  /** One cycle of the evidently intended `implode`: the mirror of `explode`. */
  function ImplodeCycle(d: int): seq<Command>
  {
    Phase([On(Red), On(Blue)], d)
    + Phase([Off(Red), Off(Blue), On(Green), On(Orange)], d)
    + Phase([Off(Green), Off(Orange)], d)
  }

  /** The evidently intended `implode(speed, duration)`, with the per-step delay
      taken from `speed`. */
  function ImplodeIntendedRun(speed: int, k: nat): seq<Command>
  {
    Repeat(ImplodeCycle(TruncDiv(speed, ExplodeSteps)), k) + AllOffCmds()
  }

  /** The intended `implode` mirrors `explode`: outer pair, inner pair, dark. */
  lemma ImplodeCycleFrames(s: seq<Led>, d: int)
    requires |s| == 4
    ensures Frames(s, ImplodeCycle(d)) ==
      [Frame(d, s[Red := LedOn][Blue := LedOn]), Frame(d, Showing({Green, Orange})), Frame(d, Dark)]
    ensures Lit(s[Red := LedOn][Blue := LedOn]) == {Red, Blue} + (Lit(s) * {Green, Orange})
    ensures Lit(Showing({Green, Orange})) == {Green, Orange}
    ensures Exec(s, ImplodeCycle(d)) == Dark
  {
    var a, b, c := [On(Red), On(Blue)], [Off(Red), Off(Blue), On(Green), On(Orange)], [Off(Green), Off(Orange)];
    ThreePhases(s, a, b, c, d);
    Exec2(s, On(Red), On(Blue));
    var s1 := Exec(s, a);
    Exec4(s1, Off(Red), Off(Blue), On(Green), On(Orange));
    var s2 := Exec(s1, b);
    assert s1 == s[Red := LedOn][Blue := LedOn];
    assert s2 == Showing({Green, Orange});
    Exec2(s2, Off(Green), Off(Orange));
    var s3 := Exec(s2, c);
    assert forall i :: 0 <= i < 4 ==> s3[i] == Dark[i];
    assert s3 == Dark;
    assert forall i :: i in Lit(s1) <==> i in {Red, Blue} + (Lit(s) * {Green, Orange});
    LitShowing({Green, Orange});
  }

  /** As written, `implode` never lights anything and always raises, where the
      intended one shows a frame in every cycle. */
  lemma ImplodeNeverLights(speed: int, k: nat)
    ensures ImplodeRun(speed, k).outcome == Raised(NameError)
    ensures Frames(Dark, ImplodeRun(speed, k).cmds) == []
    ensures |Frames(Dark, ImplodeIntendedRun(speed, k))| == 3 * k
  {
    var c := ImplodeCycle(TruncDiv(speed, ExplodeSteps));
    ImplodeCycleFrames(Dark, TruncDiv(speed, ExplodeSteps));
    RunFromDark(c, k);
    RepeatLength(Frames(Dark, c), k);
  }

  lemma {:induction false} RepeatLength<T>(c: seq<T>, k: nat)
    ensures |Repeat(c, k)| == k * |c|
  {
    if k > 0 {
      RepeatLength(c, k - 1);
    }
  }

  // ---------------------------------------------------------------------
  // scroll

  /** The LED list, or the list reversed (`leds[::-1]`) when `r2l` is set. */
  function ScrollOrder(r2l: bool): seq<int>
  {
    if r2l then Backward else All
  }

  lemma ScrollOrderLeds(r2l: bool)
    ensures AllLeds(ScrollOrder(r2l))
  {
  }

  lemma ScrollOrderCovers(r2l: bool)
    ensures forall i :: 0 <= i < 4 ==> i in ScrollOrder(r2l)
  {
    forall i | 0 <= i < 4
      ensures i in ScrollOrder(r2l)
    {
      if r2l {
        assert ScrollOrder(r2l)[3 - i] == i;
      } else {
        assert ScrollOrder(r2l)[i] == i;
      }
    }
  }

  function ScrollCycle(d: int, hold: bool, r2l: bool): seq<Command>
  {
    WalkCycle(ScrollOrder(r2l), d, hold)
  }

  /** `scroll(speed, duration, static, r2l)` for `k` cycles: no `all_off`
      after the loop. */
  function ScrollRun(speed: int, k: nat, hold: bool, r2l: bool): seq<Command>
  {
    Repeat(ScrollCycle(TruncDiv(speed, ScrollSteps), hold, r2l), k)
  }

  /** From a dark board a `scroll` cycle shows the LEDs one at a time in list
      order (reversed for `r2l`), or adds them one by one when `static`,
      and then a dark frame; every one of its five delays is `d`. */
  lemma ScrollCycleFrames(d: int, hold: bool, r2l: bool, k: nat)
    requires k < 5
    ensures |Frames(Dark, ScrollCycle(d, hold, r2l))| == 5
    ensures Frames(Dark, ScrollCycle(d, hold, r2l))[k].ms == d
    ensures k < 4 && !hold ==> Lit(Frames(Dark, ScrollCycle(d, hold, r2l))[k].leds) == {ScrollOrder(r2l)[k]}
    ensures k < 4 && hold ==>
      Lit(Frames(Dark, ScrollCycle(d, hold, r2l))[k].leds) == Elems(ScrollOrder(r2l)[..k + 1])
    ensures k == 4 ==> Lit(Frames(Dark, ScrollCycle(d, hold, r2l))[k].leds) == {}
  {
    var o := ScrollOrder(r2l);
    ScrollOrderLeds(r2l);
    WalkCycleFromDark(o, d, hold, k);
    if k < 4 {
      LitWalkFrame(o, k, hold);
    } else {
      LitDark();
    }
  }

  /** Frame `k` of a walk shows `order[k]` alone, or with `static` every LED
      of `order` up to it. */
  lemma LitWalkFrame(o: seq<int>, k: nat, hold: bool)
    requires AllLeds(o) && k < |o|
    ensures Lit(Showing({o[k]} + (if hold then Elems(o[..k]) else {}))) ==
      if hold then Elems(o[..k + 1]) else {o[k]}
  {
    TakeNext(o, k);
    assert Elems(o[..k + 1]) == {o[k]} + Elems(o[..k]);
    LitShowing({o[k]} + (if hold then Elems(o[..k]) else {}));
    assert Elems(o[..k + 1]) <= {Red, Green, Orange, Blue};
  }

  /** With `static`, all four LEDs are on just before the cycle's `all_off`,
      whatever they showed before. */
  lemma ScrollStaticLightsAll(s: seq<Led>, d: int, r2l: bool)
    requires |s| == 4
    ensures Lit(Exec(s, Sweep(ScrollOrder(r2l), d, true))) == {Red, Green, Orange, Blue}
    ensures ScrollCycle(d, true, r2l) == Sweep(ScrollOrder(r2l), d, true) + AllOffCmds() + [Delay(d)]
  {
    var o := ScrollOrder(r2l);
    ScrollOrderLeds(r2l);
    SweepReplay(s, o, d, true);
    var r := Exec(s, Sweep(o, d, true));
    ScrollOrderCovers(r2l);
    LitEveryOn(r);
  }

  lemma LitEveryOn(r: seq<Led>)
    requires |r| == 4 && forall i :: 0 <= i < 4 ==> r[i] == LedOn
    ensures Lit(r) == {Red, Green, Orange, Blue}
  {
    assert forall i :: i in Lit(r) <==> i in {Red, Green, Orange, Blue};
  }

  /** A `scroll` run leaves every LED dark once a cycle has run; with no cycle
      it leaves them as they were, since `scroll` has no final `all_off`. */
  lemma ScrollRunEnd(s: seq<Led>, speed: int, k: nat, hold: bool, r2l: bool)
    requires |s| == 4
    ensures k > 0 ==> Exec(s, ScrollRun(speed, k, hold, r2l)) == Dark
    ensures k == 0 ==> Exec(s, ScrollRun(speed, k, hold, r2l)) == s
  {
    if k > 0 {
      var c := ScrollCycle(TruncDiv(speed, ScrollSteps), hold, r2l);
      ExecRepeatLast(s, c, k);
      ScrollOrderLeds(r2l);
      WalkCycleReplay(Exec(s, Repeat(c, k - 1)), ScrollOrder(r2l), TruncDiv(speed, ScrollSteps), hold);
    }
  }

  /** From a dark board a whole `scroll` run shows the frames of one cycle
      once per cycle, and every delay of the run is `int(speed / 5)`. */
  lemma ScrollRunFrames(speed: int, k: nat, hold: bool, r2l: bool)
    ensures Frames(Dark, ScrollRun(speed, k, hold, r2l)) ==
      Repeat(Frames(Dark, ScrollCycle(TruncDiv(speed, ScrollSteps), hold, r2l)), k)
    ensures forall x :: x in Delays(ScrollRun(speed, k, hold, r2l)) ==> x == TruncDiv(speed, ScrollSteps)
  {
    var d := TruncDiv(speed, ScrollSteps);
    var c := ScrollCycle(d, hold, r2l);
    ScrollOrderLeds(r2l);
    WalkCycleReplay(Dark, ScrollOrder(r2l), d, hold);
    RepeatFromDark(c, k);
    DelaysAreFrameLengths(Dark, c);
    ScrollCycleFrames(d, hold, r2l, 0);
    forall i | 0 <= i < 5
      ensures Frames(Dark, c)[i].ms == d
    {
      ScrollCycleFrames(d, hold, r2l, i);
    }
    assert forall x :: x in Delays(c) ==> x == d;
    RepeatDelays(c, k, d);
  }

  /** The board after `k` cycles is the board after the last cycle. */
  lemma ExecRepeatLast(s: seq<Led>, c: seq<Command>, k: nat)
    requires k > 0
    ensures Exec(s, Repeat(c, k)) == Exec(Exec(s, Repeat(c, k - 1)), c)
  {
    ExecAppend(s, Repeat(c, k - 1), c);
  }

  // ---------------------------------------------------------------------
  // jump

  /** The order a working list is lit in when each round pops its first and
      then its last element; defined for even lengths, where no pop meets an
      empty list. */
  function FrontBack(work: seq<int>): (r: seq<int>)
    requires |work| % 2 == 0
    ensures |r| == |work|
    ensures forall x :: x in r <==> x in work
    decreases |work|
  {
    if work == [] then [] else [work[0], work[|work| - 1]] + FrontBack(work[1..|work| - 1])
  }

  /** `jump` lights red, blue, green, orange: first, last, second, third. */
  lemma JumpOrder()
    ensures FrontBack(All) == [Red, Blue, Green, Orange]
  {
    assert All[1..3] == [Green, Orange];
    assert [Green, Orange][1..1] == [];
  }

  function JumpCycle(d: int, hold: bool): seq<Command>
  {
    WalkCycle(FrontBack(All), d, hold)
  }

  /** `jump(speed, duration, static, r2l)` for `k` cycles. */
  function JumpRun(speed: int, k: nat, hold: bool): seq<Command>
  {
    Repeat(JumpCycle(TruncDiv(speed, ScrollSteps), hold), k) + AllOffCmds()
  }

  /** From a dark board a `jump` cycle shows red, blue, green, orange one at a
      time (added one by one when `static`), then a dark frame; it ends dark
      from any start. */
  lemma JumpCycleFrames(s: seq<Led>, d: int, hold: bool, k: nat)
    requires |s| == 4 && k < 5
    ensures Exec(s, JumpCycle(d, hold)) == Dark
    ensures |Frames(Dark, JumpCycle(d, hold))| == 5
    ensures Frames(Dark, JumpCycle(d, hold))[k].ms == d
    ensures k < 4 && !hold ==> Lit(Frames(Dark, JumpCycle(d, hold))[k].leds) == {[Red, Blue, Green, Orange][k]}
    ensures k < 4 && hold ==>
      Lit(Frames(Dark, JumpCycle(d, hold))[k].leds) == Elems([Red, Blue, Green, Orange][..k + 1])
    ensures k == 4 ==> Lit(Frames(Dark, JumpCycle(d, hold))[k].leds) == {}
  {
    JumpOrder();
    var o := FrontBack(All);
    WalkCycleReplay(s, o, d, hold);
    WalkCycleFromDark(o, d, hold, k);
    if k < 4 {
      LitWalkFrame(o, k, hold);
    } else {
      LitDark();
    }
  }

  /** Every `jump` run ends dark. */
  lemma JumpRunEnd(s: seq<Led>, speed: int, k: nat, hold: bool)
    requires |s| == 4
    ensures Exec(s, JumpRun(speed, k, hold)) == Dark
  {
    EndsWithAllOff(s, Repeat(JumpCycle(TruncDiv(speed, ScrollSteps), hold), k));
  }

  /** From a dark board a whole `jump` run shows the frames of one cycle once
      per cycle, and every delay of the run is `int(speed / 5)`. */
  lemma JumpRunFrames(speed: int, k: nat, hold: bool)
    ensures Frames(Dark, JumpRun(speed, k, hold)) ==
      Repeat(Frames(Dark, JumpCycle(TruncDiv(speed, ScrollSteps), hold)), k)
    ensures forall x :: x in Delays(JumpRun(speed, k, hold)) ==> x == TruncDiv(speed, ScrollSteps)
  {
    var d := TruncDiv(speed, ScrollSteps);
    var c := JumpCycle(d, hold);
    JumpCycleFrames(Dark, d, hold, 0);
    RunFromDark(c, k);
    DelaysAreFrameLengths(Dark, c);
    forall i | 0 <= i < 5
      ensures Frames(Dark, c)[i].ms == d
    {
      JumpCycleFrames(Dark, d, hold, i);
    }
    assert forall x :: x in Delays(c) ==> x == d;
    RepeatDelays(c, k, d);
  }

  // ---------------------------------------------------------------------
  // bounce

  /** `for led in leds: …` then `for led in reversed(leds): …`. */
  function BounceCycle(d: int): seq<Command>
  {
    Sweep(All, d, false) + Sweep(Backward, d, false)
  }

  /** `bounce(speed, duration, r2l)` for `k` cycles. */
  function BounceRun(speed: int, k: nat): seq<Command>
  {
    Repeat(BounceCycle(TruncDiv(speed, BounceSteps)), k) + AllOffCmds()
  }

  const BounceOrder: seq<int> := [Red, Green, Orange, Blue, Blue, Orange, Green, Red]

  /** A `bounce` cycle ends dark from any start. */
  lemma BounceEndsDark(s: seq<Led>, d: int)
    requires |s| == 4
    ensures Exec(s, BounceCycle(d)) == Dark
  {
    var back := Backward;
    FullSweepEndsDark(s, All, d);
    FullSweepEndsDark(Dark, back, d);
    ExecAppend(s, Sweep(All, d, false), Sweep(back, d, false));
  }

  /** The `k`-th LED of a `bounce` cycle: along the list, then back. */
  lemma BounceAt(k: nat)
    requires k < 8
    ensures BounceOrder[k] == if k < 4 then All[k] else Backward[k - 4]
    ensures BounceOrder[k] == if k < 4 then k else 7 - k
    ensures IsLed(BounceOrder[k])
  {
  }

  /** The frames of a `bounce` cycle from a dark board: those of the walk
      along the list, then those of the walk back. */
  lemma BounceHalves(d: int)
    ensures Frames(Dark, BounceCycle(d)) ==
      Frames(Dark, Sweep(All, d, false)) + Frames(Dark, Sweep(Backward, d, false))
  {
    SweepExecFromDark(All, d, false);
    ShowingNone();
    FramesAppend(Dark, Sweep(All, d, false), Sweep(Backward, d, false));
  }

  /** From a dark board, frame `k` of a non-held sweep shows LED `order[k]` alone. */
  lemma SweepSingle(order: seq<int>, d: int, k: nat)
    requires AllLeds(order) && k < |order|
    ensures |Frames(Dark, Sweep(order, d, false))| == |order|
    ensures Frames(Dark, Sweep(order, d, false))[k] == Frame(d, Showing({order[k]}))
  {
    SweepFromDark(order, d, false, k);
    assert {order[k]} + {} == {order[k]};
  }

  /** From a dark board a `bounce` cycle shows exactly one LED during each of
      its eight delays, 0, 1, 2, 3 then 3, 2, 1, 0. */
  lemma BounceCycleFrames(d: int, k: nat)
    requires k < 8
    ensures |Frames(Dark, BounceCycle(d))| == 8
    ensures Frames(Dark, BounceCycle(d))[k] == Frame(d, Showing({BounceOrder[k]}))
    ensures Lit(Frames(Dark, BounceCycle(d))[k].leds) == {BounceOrder[k]}
  {
    var back := Backward;
    BounceHalves(d);
    BounceAt(k);
    if k < 4 {
      SweepSingle(All, d, k);
      SweepSingle(back, d, 0);
    } else {
      SweepSingle(All, d, 0);
      SweepSingle(back, d, k - 4);
    }
    LitShowingOne(BounceOrder[k]);
  }

  /** Every `bounce` run ends dark. */
  lemma BounceRunEnd(s: seq<Led>, speed: int, k: nat)
    requires |s| == 4
    ensures Exec(s, BounceRun(speed, k)) == Dark
  {
    EndsWithAllOff(s, Repeat(BounceCycle(TruncDiv(speed, BounceSteps)), k));
  }

  /** From a dark board a whole `bounce` run shows the frames of one cycle once
      per cycle, and every delay of the run is `int(speed / 8)`. */
  lemma BounceRunFrames(speed: int, k: nat)
    ensures Frames(Dark, BounceRun(speed, k)) == Repeat(Frames(Dark, BounceCycle(TruncDiv(speed, BounceSteps))), k)
    ensures forall x :: x in Delays(BounceRun(speed, k)) ==> x == TruncDiv(speed, BounceSteps)
  {
    var d := TruncDiv(speed, BounceSteps);
    var c := BounceCycle(d);
    BounceEndsDark(Dark, d);
    RunFromDark(c, k);
    DelaysAreFrameLengths(Dark, c);
    BounceCycleFrames(d, 0);
    forall i | 0 <= i < 8
      ensures Frames(Dark, c)[i].ms == d
    {
      BounceCycleFrames(d, i);
    }
    assert forall x :: x in Delays(c) ==> x == d;
    RepeatDelays(c, k, d);
  }
}
