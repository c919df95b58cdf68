/** `scroll_fade` and `scroll_knigth`: a window of lit LEDs slides along the
    list, leaving a trail of `fade` LEDs behind its head. */
module Fading {
  import opened Leds
  import opened Patterns

  function Min(a: int, b: int): int { if a < b then a else b }

  /** Python's `xs[lo:hi]` for non-negative bounds: the elements at positions
      `lo` up to but excluding `hi`, cut at the end of the list. */
  function Slice(xs: seq<int>, lo: nat, hi: nat): seq<int>
  {
    if lo < hi && lo < |xs| then xs[lo..Min(hi, |xs|)] else []
  }

  /** A slice holds `min(hi, len(xs)) - lo` elements, none when that is not
      positive, and its `k`-th is the element at `lo + k`. */
  lemma SliceElements(xs: seq<int>, lo: nat, hi: nat)
    ensures |Slice(xs, lo, hi)| == if Min(hi, |xs|) <= lo then 0 else Min(hi, |xs|) - lo
    ensures forall k :: 0 <= k < |Slice(xs, lo, hi)| ==> Slice(xs, lo, hi)[k] == xs[lo + k]
  {
  }

  /** `index = 0 if (i - fade <= 0) else i - fade`. */
  function FadeStart(i: int, fade: int): nat
  {
    if i - fade <= 0 then 0 else i - fade
  }

  /** The LEDs lit at step `i`: `order[index:i+1]`. */
  function Window(order: seq<int>, i: nat, fade: int): seq<int>
  {
    Slice(order, FadeStart(i, fade), i + 1)
  }

  /** One step: light the window, wait, `all_off()`. */
  function FadeStep(order: seq<int>, i: nat, fade: int, d: int): seq<Command>
  {
    Ons(Window(order, i, fade)) + [Delay(d)] + AllOffCmds()
  }

  /** Steps `0 .. n-1` of a fade sweep over `order`. */
  function FadeSteps(order: seq<int>, fade: int, d: int, n: nat): seq<Command>
  {
    if n == 0 then [] else FadeSteps(order, fade, d, n - 1) + FadeStep(order, n - 1, fade, d)
  }

  /** `steps = len(leds) + fade`; `range(0, steps)` is empty when it is not positive. */
  function StepCount(fade: int): nat
  {
    if 4 + fade <= 0 then 0 else 4 + fade
  }

  function FadeCycle(d: int, fade: int): seq<Command>
  {
    FadeSteps(All, fade, d, StepCount(fade))
  }

  /** `scroll_fade(speed, duration, fade, r2l)` for `k` cycles. */
  function ScrollFadeRun(speed: int, k: nat, fade: int): seq<Command>
  {
    Repeat(FadeCycle(TruncDiv(speed, ScrollSteps), fade), k) + AllOffCmds()
  }

  /** A forward fade sweep, then one over `leds[::-1]`. */
  function KnightCycle(d: int, fade: int): seq<Command>
  {
    FadeSteps(All, fade, d, StepCount(fade)) + FadeSteps(Backward, fade, d, StepCount(fade))
  }

  /** `scroll_knigth(speed, duration, fade, r2l)` for `k` cycles. */
  function KnightRun(speed: int, k: nat, fade: int): seq<Command>
  {
    Repeat(KnightCycle(TruncDiv(speed, ScrollSteps), fade), k) + AllOffCmds()
  }

  // ---------------------------------------------------------------------

  lemma FadeStepsNext(order: seq<int>, fade: int, d: int, i: nat)
    ensures FadeSteps(order, fade, d, i + 1) == FadeSteps(order, fade, d, i) + FadeStep(order, i, fade, d)
  {
  }

  lemma WindowLeds(order: seq<int>, i: nat, fade: int)
    requires AllLeds(order)
    ensures AllLeds(Window(order, i, fade))
  {
  }

  /** From a dark board, switching LEDs on shows exactly those LEDs. */
  lemma OnsFromDark(js: seq<int>)
    requires AllLeds(js)
    ensures Exec(Dark, Ons(js)) == Showing(Elems(js))
  {
    LitOns(js);
    var e := Exec(Dark, Ons(js));
    forall i | 0 <= i < 4
      ensures e[i] == Showing(Elems(js))[i]
    {
      assert i in Elems(js) <==> i in js;
    }
  }

  /** One step shows its window for one delay and ends dark. */
  lemma FadeStepReplay(s: seq<Led>, order: seq<int>, i: nat, fade: int, d: int)
    requires |s| == 4 && AllLeds(order)
    ensures Frames(s, FadeStep(order, i, fade, d)) == [Frame(d, Exec(s, Ons(Window(order, i, fade))))]
    ensures Exec(s, FadeStep(order, i, fade, d)) == Dark
  {
    var w := Ons(Window(order, i, fade));
    assert NoDelay(w);
    PhaseReplay(s, w, d);
    assert FadeStep(order, i, fade, d) == Phase(w, d) + AllOffCmds();
    ExecAppend(s, Phase(w, d), AllOffCmds());
    FramesAppend(s, Phase(w, d), AllOffCmds());
    AllOffIsDark(Exec(s, Phase(w, d)));
  }

  /** After at least one step of a fade sweep the board is dark, whatever it
      showed before. */
  lemma {:induction false} FadeStepsEndDark(s: seq<Led>, order: seq<int>, fade: int, d: int, n: nat)
    requires |s| == 4 && AllLeds(order) && n > 0
    ensures Exec(s, FadeSteps(order, fade, d, n)) == Dark
  {
    var prev := FadeSteps(order, fade, d, n - 1);
    ExecAppend(s, prev, FadeStep(order, n - 1, fade, d));
    FadeStepReplay(Exec(s, prev), order, n - 1, fade, d);
  }

  /** From a dark board, the last step of a fade sweep shows exactly its window. */
  lemma FadeStepsLast(order: seq<int>, fade: int, d: int, n: nat)
    requires AllLeds(order) && n > 0
    ensures Frames(Dark, FadeSteps(order, fade, d, n)) ==
      Frames(Dark, FadeSteps(order, fade, d, n - 1)) + [Frame(d, Showing(Elems(Window(order, n - 1, fade))))]
  {
    var prev := FadeSteps(order, fade, d, n - 1);
    FramesAppend(Dark, prev, FadeStep(order, n - 1, fade, d));
    if n > 1 {
      FadeStepsEndDark(Dark, order, fade, d, n - 1);
    }
    FadeStepReplay(Dark, order, n - 1, fade, d);
    WindowLeds(order, n - 1, fade);
    OnsFromDark(Window(order, n - 1, fade));
  }

  /** From a dark board, step `i` of a fade sweep shows exactly its window. */
  lemma {:induction false} FadeStepsReplay(order: seq<int>, fade: int, d: int, n: nat)
    requires AllLeds(order)
    ensures |Frames(Dark, FadeSteps(order, fade, d, n))| == n
    ensures forall i :: 0 <= i < n ==>
      Frames(Dark, FadeSteps(order, fade, d, n))[i] == Frame(d, Showing(Elems(Window(order, i, fade))))
  {
    if n > 0 {
      FadeStepsReplay(order, fade, d, n - 1);
      FadeStepsExtend(order, fade, d, n);
    }
  }

  /** The inductive step of `FadeStepsReplay`: the windows of steps `0 .. n-2`
      and the frame of step `n - 1` give the windows of steps `0 .. n-1`. */
  lemma FadeStepsExtend(order: seq<int>, fade: int, d: int, n: nat)
    requires AllLeds(order) && n > 0
    requires |Frames(Dark, FadeSteps(order, fade, d, n - 1))| == n - 1
    requires forall i :: 0 <= i < n - 1 ==>
      Frames(Dark, FadeSteps(order, fade, d, n - 1))[i] == Frame(d, Showing(Elems(Window(order, i, fade))))
    ensures |Frames(Dark, FadeSteps(order, fade, d, n))| == n
    ensures forall i :: 0 <= i < n ==>
      Frames(Dark, FadeSteps(order, fade, d, n))[i] == Frame(d, Showing(Elems(Window(order, i, fade))))
  {
    FadeStepsLast(order, fade, d, n);
    WindowFramesSnoc(order, fade, d, n, Frames(Dark, FadeSteps(order, fade, d, n - 1)));
  }

  /** One more step's frame extends the frames of the earlier steps. */
  lemma WindowFramesSnoc(order: seq<int>, fade: int, d: int, n: nat, f0: seq<Frame>)
    requires n > 0 && |f0| == n - 1
    requires forall i :: 0 <= i < n - 1 ==> f0[i] == Frame(d, Showing(Elems(Window(order, i, fade))))
    ensures forall i :: 0 <= i < n ==>
      (f0 + [Frame(d, Showing(Elems(Window(order, n - 1, fade))))])[i] == Frame(d, Showing(Elems(Window(order, i, fade))))
  {
  }

  /** The window of the LED list at step `i`: positions `i - fade .. i`. */
  lemma ForwardWindow(i: nat, fade: int)
    ensures Elems(Window(All, i, fade)) == set j | IsLed(j) && i - fade <= j <= i
  {
    var lo := FadeStart(i, fade);
    var w := Window(All, i, fade);
    if lo < i + 1 && lo < 4 {
      var hi := Min(i + 1, 4);
      assert w == All[lo..hi];
      assert forall q :: 0 <= q < |w| ==> w[q] == lo + q;
      forall j
        ensures j in w <==> IsLed(j) && i - fade <= j <= i
      {
        if IsLed(j) && i - fade <= j <= i {
          assert w[j - lo] == j;
        }
      }
    } else {
      assert w == [];
    }
  }

  /** The window of the reversed list at step `i`: LED `3 - p` for each
      position `p` in `i - fade .. i`. */
  lemma BackwardWindow(i: nat, fade: int)
    ensures Elems(Window(Backward, i, fade)) == set j | IsLed(j) && i - fade <= 3 - j <= i
  {
    var rev := Backward;
    var lo := FadeStart(i, fade);
    var w := Window(rev, i, fade);
    if lo < i + 1 && lo < 4 {
      var hi := Min(i + 1, 4);
      assert w == rev[lo..hi];
      assert forall q :: 0 <= q < 4 ==> rev[q] == 3 - q;
      assert forall q :: 0 <= q < |w| ==> w[q] == 3 - (lo + q);
      forall j
        ensures j in w <==> IsLed(j) && i - fade <= 3 - j <= i
      {
        if IsLed(j) && i - fade <= 3 - j <= i {
          assert w[3 - j - lo] == j;
        }
      }
    } else {
      assert w == [];
    }
  }

  /** The LEDs lit at step `i` of a forward sweep. */
  lemma ForwardLit(i: nat, fade: int)
    ensures Lit(Showing(Elems(Window(All, i, fade)))) == set j | IsLed(j) && i - fade <= j <= i
  {
    ForwardWindow(i, fade);
    LitShowing(Elems(Window(All, i, fade)));
  }

  /** The LEDs lit at step `i` of a backward sweep. */
  lemma BackwardLit(i: nat, fade: int)
    ensures Lit(Showing(Elems(Window(Backward, i, fade)))) ==
      set j | IsLed(j) && i - fade <= 3 - j <= i
  {
    BackwardWindow(i, fade);
    LitShowing(Elems(Window(Backward, i, fade)));
  }

  /** A `scroll_fade` cycle from a dark board has `4 + fade` steps; at step
      `i` the LEDs lit during the delay are exactly those at positions
      `max(0, i - fade) .. min(i, 3)`; every LED is off after each step, and
      the cycle ends dark from any start. */
  lemma ScrollFadeFrames(s: seq<Led>, d: int, fade: int, i: nat)
    requires |s| == 4 && i < StepCount(fade)
    ensures |Frames(Dark, FadeCycle(d, fade))| == StepCount(fade) == 4 + fade
    ensures Frames(Dark, FadeCycle(d, fade))[i].ms == d
    ensures Lit(Frames(Dark, FadeCycle(d, fade))[i].leds) == set j | IsLed(j) && i - fade <= j <= i
    ensures Exec(s, FadeCycle(d, fade)) == Dark
  {
    FadeStepsReplay(All, fade, d, StepCount(fade));
    FadeStepsEndDark(s, All, fade, d, StepCount(fade));
    ForwardLit(i, fade);
  }

  /** With `fade = 0` a `scroll_fade` cycle shows the same four frames as a
      non-static `scroll` cycle in list order (which adds a fifth, dark one). */
  lemma FadeZeroIsScroll(d: int)
    ensures |Frames(Dark, ScrollCycle(d, false, false))| == 5
    ensures Frames(Dark, FadeCycle(d, 0)) == Frames(Dark, ScrollCycle(d, false, false))[..4]
  {
    var f := Frames(Dark, FadeCycle(d, 0));
    var g := Frames(Dark, ScrollCycle(d, false, false));
    FadeStepsReplay(All, 0, d, 4);
    WalkCycleFromDark(All, d, false, 0);
    forall i | 0 <= i < 4
      ensures f[i] == g[i]
    {
      FadeZeroAt(d, i);
    }
  }

  /** Step `i` of a `scroll_fade` cycle without trail and of a `scroll` cycle
      show the same frame. */
  lemma FadeZeroAt(d: int, i: nat)
    requires i < 4
    ensures |Frames(Dark, FadeCycle(d, 0))| == 4
    ensures |Frames(Dark, ScrollCycle(d, false, false))| == 5
    ensures Frames(Dark, FadeCycle(d, 0))[i] == Frames(Dark, ScrollCycle(d, false, false))[i]
  {
    FadeStepsReplay(All, 0, d, 4);
    WalkCycleFromDark(All, d, false, i);
    WindowsWithoutFade(i);
    assert {All[i]} + {} == {i};
  }

  /** The frames of a `scroll_knigth` cycle from a dark board: those of the
      forward sweep, then those of the backward one. */
  lemma KnightHalves(d: int, fade: int)
    ensures Frames(Dark, KnightCycle(d, fade)) ==
      Frames(Dark, FadeSteps(All, fade, d, StepCount(fade)))
        + Frames(Dark, FadeSteps(Backward, fade, d, StepCount(fade)))
  {
    var n := StepCount(fade);
    var fw := FadeSteps(All, fade, d, n);
    if n > 0 {
      FadeStepsEndDark(Dark, All, fade, d, n);
    }
    FramesAppend(Dark, fw, FadeSteps(Backward, fade, d, n));
  }

  /** A `scroll_knigth` cycle with at least one step ends dark from any start. */
  lemma KnightEndsDark(s: seq<Led>, d: int, fade: int)
    requires |s| == 4 && StepCount(fade) > 0
    ensures Exec(s, KnightCycle(d, fade)) == Dark
  {
    var n := StepCount(fade);
    var fw := FadeSteps(All, fade, d, n);
    FadeStepsEndDark(s, All, fade, d, n);
    FadeStepsEndDark(Exec(s, fw), Backward, fade, d, n);
    ExecAppend(s, fw, FadeSteps(Backward, fade, d, n));
  }

  /** A `scroll_knigth` cycle from a dark board: `4 + fade` forward steps whose
      windows are those of `scroll_fade`, then as many over the reversed
      list; it ends dark from any start. */
  lemma KnightFrames(s: seq<Led>, d: int, fade: int, i: nat)
    requires |s| == 4 && i < 2 * StepCount(fade)
    ensures |Frames(Dark, KnightCycle(d, fade))| == 2 * StepCount(fade)
    ensures Frames(Dark, KnightCycle(d, fade))[i].ms == d
    ensures i < StepCount(fade) ==>
      Lit(Frames(Dark, KnightCycle(d, fade))[i].leds) == set j | IsLed(j) && i - fade <= j <= i
    ensures i >= StepCount(fade) ==>
      var p := i - StepCount(fade);
      Lit(Frames(Dark, KnightCycle(d, fade))[i].leds) == set j | IsLed(j) && p - fade <= 3 - j <= p
    ensures Exec(s, KnightCycle(d, fade)) == Dark
  {
    var n := StepCount(fade);
    KnightHalves(d, fade);
    KnightEndsDark(s, d, fade);
    FadeStepsReplay(All, fade, d, n);
    FadeStepsReplay(Backward, fade, d, n);
    if i < n {
      ForwardLit(i, fade);
    } else {
      BackwardLit(i - n, fade);
    }
  }

  /** With no trail the window is the single LED at the step's position. */
  lemma WindowsWithoutFade(i: nat)
    requires i < 4
    ensures Elems(Window(All, i, 0)) == {i}
    ensures Elems(Window(Backward, i, 0)) == {3 - i}
  {
    ForwardWindow(i, 0);
    BackwardWindow(i, 0);
  }

  /** Frame `i` of a `scroll_knigth` cycle without trail: the single LED a
      `bounce` cycle shows there. */
  lemma KnightZeroAt(d: int, i: nat)
    requires i < 8
    ensures |Frames(Dark, KnightCycle(d, 0))| == 8
    ensures Frames(Dark, KnightCycle(d, 0))[i] == Frame(d, Showing({BounceOrder[i]}))
  {
    KnightHalves(d, 0);
    FadeStepsReplay(All, 0, d, 4);
    FadeStepsReplay(Backward, 0, d, 4);
    BounceAt(i);
    if i < 4 {
      WindowsWithoutFade(i);
    } else {
      WindowsWithoutFade(i - 4);
    }
  }

  /** With `fade = 0` a `scroll_knigth` cycle shows the same frames as a
      `bounce` cycle with the same per-step delay. */
  lemma KnightZeroIsBounce(d: int)
    ensures Frames(Dark, KnightCycle(d, 0)) == Frames(Dark, BounceCycle(d))
  {
    var f := Frames(Dark, KnightCycle(d, 0));
    var g := Frames(Dark, BounceCycle(d));
    KnightZeroAt(d, 0);
    BounceCycleFrames(d, 0);
    forall i | 0 <= i < 8
      ensures f[i] == g[i]
    {
      KnightZeroAt(d, i);
      BounceCycleFrames(d, i);
    }
  }

  /** From a dark board a whole `scroll_fade` run shows the frames of one
      cycle once per cycle, and every delay of the run is `int(speed / 5)`. */
  lemma ScrollFadeRunFrames(speed: int, k: nat, fade: int)
    ensures Frames(Dark, ScrollFadeRun(speed, k, fade)) ==
      Repeat(Frames(Dark, FadeCycle(TruncDiv(speed, ScrollSteps), fade)), k)
    ensures forall x :: x in Delays(ScrollFadeRun(speed, k, fade)) ==> x == TruncDiv(speed, ScrollSteps)
  {
    var d := TruncDiv(speed, ScrollSteps);
    var c := FadeCycle(d, fade);
    var n := StepCount(fade);
    if n > 0 {
      ScrollFadeFrames(Dark, d, fade, 0);
    } else {
      assert c == [];
    }
    RunFromDark(c, k);
    DelaysAreFrameLengths(Dark, c);
    forall i | 0 <= i < |Frames(Dark, c)|
      ensures Frames(Dark, c)[i].ms == d
    {
      ScrollFadeFrames(Dark, d, fade, i);
    }
    RepeatDelays(c, k, d);
  }

  /** From a dark board a whole `scroll_knigth` run shows the frames of one
      cycle once per cycle, and every delay of the run is `int(speed / 5)`. */
  lemma KnightRunFrames(speed: int, k: nat, fade: int)
    ensures Frames(Dark, KnightRun(speed, k, fade)) ==
      Repeat(Frames(Dark, KnightCycle(TruncDiv(speed, ScrollSteps), fade)), k)
    ensures forall x :: x in Delays(KnightRun(speed, k, fade)) ==> x == TruncDiv(speed, ScrollSteps)
  {
    var d := TruncDiv(speed, ScrollSteps);
    var c := KnightCycle(d, fade);
    var n := StepCount(fade);
    if n > 0 {
      KnightFrames(Dark, d, fade, 0);
    } else {
      assert c == [];
    }
    RunFromDark(c, k);
    DelaysAreFrameLengths(Dark, c);
    forall i | 0 <= i < |Frames(Dark, c)|
      ensures Frames(Dark, c)[i].ms == d
    {
      KnightFrames(Dark, d, fade, i);
    }
    RepeatDelays(c, k, d);
  }
}
