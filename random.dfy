/** `random_single` and `random_multiple`. The random generator is an oracle:
    each iteration of an effect's loop consumes one `Draw` of raw numbers,
    which the model maps into the ranges the driver asks for. */
module Randomness {
  import opened Leds
  import opened Patterns

  /** The raw numbers one loop iteration draws: for the new delay, for the
      LED, and for the on/off coin of `random_multiple`. */
  datatype Draw = Draw(delayRaw: nat, ledRaw: nat, coinRaw: nat)

  /** `randint(lo, hi)` driven by a raw draw. */
  function RandInt(lo: int, hi: int, raw: nat): (r: int)
    requires lo <= hi
    ensures lo <= r <= hi
  {
    lo + raw % (hi - lo + 1)
  }

  /** Every value of the range is drawn by some raw number. */
  lemma RandIntCovers(lo: int, hi: int, v: int)
    requires lo <= v <= hi
    ensures RandInt(lo, hi, v - lo) == v
  {
  }

  /** `choice(leds)` driven by a raw draw: a position in the LED list. */
  function Choice(raw: nat): (r: int)
    ensures IsLed(r)
    ensures raw < 4 ==> r == raw
  {
    raw % 4
  }

  /** `randint(0, 1)` of `random_multiple`. */
  function Coin(dr: Draw): (r: int)
    ensures r == 0 || r == 1
  {
    RandInt(0, 1, dr.coinRaw)
  }

  /** The delay of one iteration: `randint(0, delay)` when `random_delay`,
      which then becomes the bound of the next draw. */
  function NextDelay(delay: int, randomDelay: bool, dr: Draw): (r: int)
    requires randomDelay ==> delay >= 0
    ensures randomDelay ==> 0 <= r <= delay
    ensures !randomDelay ==> r == delay
  {
    if randomDelay then RandInt(0, delay, dr.delayRaw) else delay
  }

  /** The delays the iterations wait for, up to the first draw that would
      raise. */
  function DrawnDelays(delay: int, randomDelay: bool, draws: seq<Draw>): seq<int>
    decreases |draws|
  {
    if draws == [] || (randomDelay && delay < 0) then []
    else
      var d := NextDelay(delay, randomDelay, draws[0]);
      [d] + DrawnDelays(d, randomDelay, draws[1..])
  }

  predicate NonIncreasing(xs: seq<int>)
  {
    forall i, j :: 0 <= i <= j < |xs| ==> xs[j] <= xs[i]
  }

  /** With `random_delay` each delay lies between 0 and the one before it
      (the first between 0 and the argument), so the delays never grow;
      without it every delay is the argument. */
  lemma {:induction false} DrawnDelaysShape(delay: int, randomDelay: bool, draws: seq<Draw>)
    requires randomDelay ==> delay >= 0
    ensures |DrawnDelays(delay, randomDelay, draws)| == |draws|
    ensures randomDelay ==> NonIncreasing(DrawnDelays(delay, randomDelay, draws))
    ensures forall i :: 0 <= i < |draws| ==>
      if randomDelay then 0 <= DrawnDelays(delay, randomDelay, draws)[i] <= delay
      else DrawnDelays(delay, randomDelay, draws)[i] == delay
    decreases |draws|
  {
    if draws != [] {
      var d := NextDelay(delay, randomDelay, draws[0]);
      DrawnDelaysShape(d, randomDelay, draws[1..]);
      var rest := DrawnDelays(d, randomDelay, draws[1..]);
      assert DrawnDelays(delay, randomDelay, draws) == [d] + rest;
    }
  }

  // ---------------------------------------------------------------------
  // random_single

  /** The loop of `random_single`, one iteration per draw. */
  function SingleLoop(delay: int, randomDelay: bool, draws: seq<Draw>): Run
    decreases |draws|
  {
    if draws == [] then Run([], Completed)
    else if randomDelay && delay < 0 then Run([], Raised(ValueError))
    else
      var d := NextDelay(delay, randomDelay, draws[0]);
      var rest := SingleLoop(d, randomDelay, draws[1..]);
      Run(Flash(Choice(draws[0].ledRaw), d, false) + rest.cmds, rest.outcome)
  }

  /** `random_single(delay, duration, random_delay)`: the loop, then
      `all_off()` unless the loop raised. */
  function RandomSingleRun(delay: int, randomDelay: bool, draws: seq<Draw>): Run
  {
    var l := SingleLoop(delay, randomDelay, draws);
    if l.outcome == Completed then Run(l.cmds + AllOffCmds(), Completed) else l
  }

  /** `random_single` raises exactly when it draws a delay from an empty
      range: `random_delay` with a negative delay and at least one
      iteration; it then raises before lighting anything. */
  lemma RandomSingleRaises(delay: int, randomDelay: bool, draws: seq<Draw>)
    ensures RandomSingleRun(delay, randomDelay, draws).outcome.Raised? <==>
      randomDelay && delay < 0 && |draws| > 0
    ensures RandomSingleRun(delay, randomDelay, draws).outcome.Raised? ==>
      RandomSingleRun(delay, randomDelay, draws) == Run([], Raised(ValueError))
  {
    if draws != [] && !(randomDelay && delay < 0) {
      SingleCompletes(delay, randomDelay, draws);
    }
  }

  /** One iteration of the `random_single` loop, taken off the front. */
  lemma SingleUnroll(delay: int, randomDelay: bool, draws: seq<Draw>)
    requires draws != [] && (randomDelay ==> delay >= 0)
    ensures var d := NextDelay(delay, randomDelay, draws[0]);
      SingleLoop(delay, randomDelay, draws) ==
        Run(Flash(Choice(draws[0].ledRaw), d, false) + SingleLoop(d, randomDelay, draws[1..]).cmds,
            SingleLoop(d, randomDelay, draws[1..]).outcome)
  {
  }

  lemma {:induction false} SingleCompletes(delay: int, randomDelay: bool, draws: seq<Draw>)
    requires randomDelay ==> delay >= 0
    ensures SingleLoop(delay, randomDelay, draws).outcome == Completed
    decreases |draws|
  {
    if draws != [] {
      SingleCompletes(NextDelay(delay, randomDelay, draws[0]), randomDelay, draws[1..]);
    }
  }

  /** The delays of `random_single` are the drawn ones. */
  lemma {:induction false} SingleLoopDelays(delay: int, randomDelay: bool, draws: seq<Draw>)
    requires randomDelay ==> delay >= 0
    ensures Delays(SingleLoop(delay, randomDelay, draws).cmds) == DrawnDelays(delay, randomDelay, draws)
    decreases |draws|
  {
    if draws != [] {
      var d := NextDelay(delay, randomDelay, draws[0]);
      var j := Choice(draws[0].ledRaw);
      var rest := SingleLoop(d, randomDelay, draws[1..]).cmds;
      SingleLoopDelays(d, randomDelay, draws[1..]);
      assert SingleLoop(delay, randomDelay, draws).cmds == Flash(j, d, false) + rest;
      DelaysAppend(Flash(j, d, false), rest);
      FlashReplay(Dark, j, d, false);
      DelaysAreFrameLengths(Dark, Flash(j, d, false));
    }
  }

  /** `random_single` switches each LED it drew off again, so from a dark
      board its loop ends dark. */
  lemma {:induction false} SingleLoopDark(delay: int, randomDelay: bool, draws: seq<Draw>)
    requires randomDelay ==> delay >= 0
    ensures Exec(Dark, SingleLoop(delay, randomDelay, draws).cmds) == Dark
    decreases |draws|
  {
    if draws != [] {
      var d := NextDelay(delay, randomDelay, draws[0]);
      var j := Choice(draws[0].ledRaw);
      var rest := SingleLoop(d, randomDelay, draws[1..]).cmds;
      SingleLoopDark(d, randomDelay, draws[1..]);
      assert SingleLoop(delay, randomDelay, draws).cmds == Flash(j, d, false) + rest;
      FlashReplay(Dark, j, d, false);
      assert Dark[j := LedOff] == Dark;
      ExecAppend(Dark, Flash(j, d, false), rest);
    }
  }

  /** From a dark board each iteration of `random_single` shows exactly the
      LED it drew. */
  lemma {:induction false} SingleLoopFrames(delay: int, randomDelay: bool, draws: seq<Draw>)
    requires randomDelay ==> delay >= 0
    ensures |Frames(Dark, SingleLoop(delay, randomDelay, draws).cmds)| == |draws|
    ensures forall i :: 0 <= i < |draws| ==>
      Frames(Dark, SingleLoop(delay, randomDelay, draws).cmds)[i].leds == Showing({Choice(draws[i].ledRaw)})
    decreases |draws|
  {
    if draws != [] {
      var d := NextDelay(delay, randomDelay, draws[0]);
      var j := Choice(draws[0].ledRaw);
      var rest := SingleLoop(d, randomDelay, draws[1..]).cmds;
      SingleLoopFrames(d, randomDelay, draws[1..]);
      assert SingleLoop(delay, randomDelay, draws).cmds == Flash(j, d, false) + rest;
      FlashReplay(Dark, j, d, false);
      assert Dark[j := LedOff] == Dark;
      FramesAppend(Dark, Flash(j, d, false), rest);
      ShowingNone();
      ShowingAdd({}, j);
      assert {j} + {} == {j};
      var f := Frames(Dark, SingleLoop(delay, randomDelay, draws).cmds);
      assert f == [Frame(d, Showing({j}))] + Frames(Dark, rest);
      forall i | 1 <= i < |draws|
        ensures f[i].leds == Showing({Choice(draws[i].ledRaw)})
      {
        assert f[i] == Frames(Dark, rest)[i - 1];
        assert draws[1..][i - 1] == draws[i];
      }
    }
  }

  /** `random_single` from a dark board: while each delay elapses exactly one
      LED is lit, the one drawn; the delays are the drawn ones, so with
      `random_delay` they never grow and stay within `0 .. delay`; the run
      ends dark. */
  lemma RandomSingleFrames(delay: int, randomDelay: bool, draws: seq<Draw>, i: nat)
    requires RandomSingleRun(delay, randomDelay, draws).outcome == Completed
    requires i < |draws|
    ensures |Frames(Dark, RandomSingleRun(delay, randomDelay, draws).cmds)| == |draws|
    ensures Lit(Frames(Dark, RandomSingleRun(delay, randomDelay, draws).cmds)[i].leds) == {Choice(draws[i].ledRaw)}
    ensures Delays(RandomSingleRun(delay, randomDelay, draws).cmds) == DrawnDelays(delay, randomDelay, draws)
    ensures randomDelay ==> NonIncreasing(Delays(RandomSingleRun(delay, randomDelay, draws).cmds))
    ensures Exec(Dark, RandomSingleRun(delay, randomDelay, draws).cmds) == Dark
  {
    RandomSingleRaises(delay, randomDelay, draws);
    var l := SingleLoop(delay, randomDelay, draws).cmds;
    SingleLoopDelays(delay, randomDelay, draws);
    SingleLoopDark(delay, randomDelay, draws);
    SingleLoopFrames(delay, randomDelay, draws);
    DrawnDelaysShape(delay, randomDelay, draws);
    FramesAppend(Dark, l, AllOffCmds());
    ExecAppend(Dark, l, AllOffCmds());
    DelaysAppend(l, AllOffCmds());
    AllOffIsDark(Dark);
    LitShowing({Choice(draws[i].ledRaw)});
  }

  // ---------------------------------------------------------------------
  // random_multiple

  /** One iteration of `random_multiple`: the drawn LED goes on or off by the
      coin, and stays so for the delay. */
  function Toss(dr: Draw): (r: Command)
    ensures (r.On? || r.Off?) && r.led == Choice(dr.ledRaw)
    ensures r.On? <==> Coin(dr) == 0
  {
    if Coin(dr) == 0 then On(Choice(dr.ledRaw)) else Off(Choice(dr.ledRaw))
  }

  /** The loop of `random_multiple`, one iteration per draw. */
  function MultipleLoop(delay: int, randomDelay: bool, draws: seq<Draw>): Run
    decreases |draws|
  {
    if draws == [] then Run([], Completed)
    else if randomDelay && delay < 0 then Run([], Raised(ValueError))
    else
      var d := NextDelay(delay, randomDelay, draws[0]);
      var rest := MultipleLoop(d, randomDelay, draws[1..]);
      Run([Toss(draws[0]), Delay(d)] + rest.cmds, rest.outcome)
  }

  /** `random_multiple(delay, duration, random_delay)`: the loop, then
      `all_off()` unless the loop raised. */
  function RandomMultipleRun(delay: int, randomDelay: bool, draws: seq<Draw>): Run
  {
    var l := MultipleLoop(delay, randomDelay, draws);
    if l.outcome == Completed then Run(l.cmds + AllOffCmds(), Completed) else l
  }

  /** One iteration of the `random_multiple` loop, taken off the front. */
  lemma MultipleUnroll(delay: int, randomDelay: bool, draws: seq<Draw>)
    requires draws != [] && (randomDelay ==> delay >= 0)
    ensures var d := NextDelay(delay, randomDelay, draws[0]);
      MultipleLoop(delay, randomDelay, draws) ==
        Run([Toss(draws[0]), Delay(d)] + MultipleLoop(d, randomDelay, draws[1..]).cmds,
            MultipleLoop(d, randomDelay, draws[1..]).outcome)
  {
  }

  lemma {:induction false} MultipleCompletes(delay: int, randomDelay: bool, draws: seq<Draw>)
    requires randomDelay ==> delay >= 0
    ensures MultipleLoop(delay, randomDelay, draws).outcome == Completed
    decreases |draws|
  {
    if draws != [] {
      MultipleCompletes(NextDelay(delay, randomDelay, draws[0]), randomDelay, draws[1..]);
    }
  }

  /** `random_multiple` raises exactly as `random_single` does. */
  lemma RandomMultipleRaises(delay: int, randomDelay: bool, draws: seq<Draw>)
    ensures RandomMultipleRun(delay, randomDelay, draws).outcome.Raised? <==>
      randomDelay && delay < 0 && |draws| > 0
    ensures RandomMultipleRun(delay, randomDelay, draws).outcome.Raised? ==>
      RandomMultipleRun(delay, randomDelay, draws) == Run([], Raised(ValueError))
  {
    if draws != [] && !(randomDelay && delay < 0) {
      MultipleCompletes(delay, randomDelay, draws);
    }
  }

  /** Replaying one iteration of `random_multiple` at the front. */
  lemma TossThenWait(s: seq<Led>, c: Command, d: int, rest: seq<Command>)
    requires !c.Delay?
    ensures Frames(s, [c, Delay(d)] + rest) == [Frame(d, Step(s, c))] + Frames(Step(s, c), rest)
    ensures Exec(s, [c, Delay(d)] + rest) == Exec(Step(s, c), rest)
    ensures Delays([c, Delay(d)] + rest) == [d] + Delays(rest)
  {
    assert [c, Delay(d)] + rest == [c] + ([Delay(d)] + rest);
    ExecCons(s, c, [Delay(d)] + rest);
    ExecCons(Step(s, c), Delay(d), rest);
    DelaysAppend([c, Delay(d)], rest);
    assert [c, Delay(d)][..1] == [c];
    assert [c][..0] == [];
    assert Delays([c]) == [];
  }

  /** The delays of `random_multiple` are the drawn ones. */
  lemma {:induction false} MultipleLoopDelays(delay: int, randomDelay: bool, draws: seq<Draw>)
    requires randomDelay ==> delay >= 0
    ensures Delays(MultipleLoop(delay, randomDelay, draws).cmds) == DrawnDelays(delay, randomDelay, draws)
    decreases |draws|
  {
    if draws != [] {
      var d := NextDelay(delay, randomDelay, draws[0]);
      var c := Toss(draws[0]);
      var rest := MultipleLoop(d, randomDelay, draws[1..]).cmds;
      MultipleLoopDelays(d, randomDelay, draws[1..]);
      assert MultipleLoop(delay, randomDelay, draws).cmds == [c, Delay(d)] + rest;
      TossThenWait(Dark, c, d, rest);
    }
  }

  /** The LED commands the iterations of `random_multiple` issue for `draws`,
      without the delays between them. */
  function Tosses(draws: seq<Draw>): seq<Command>
  {
    seq(|draws|, k requires 0 <= k < |draws| => Toss(draws[k]))
  }

  /** The tosses of the first `i + 1` draws: the first toss, then those of the
      following `i` draws. */
  lemma TossesFront(draws: seq<Draw>, i: nat)
    requires i < |draws|
    ensures Tosses(draws[..i + 1]) == [Toss(draws[0])] + Tosses(draws[1..][..i])
  {
    var a, b := Tosses(draws[..i + 1]), [Toss(draws[0])] + Tosses(draws[1..][..i]);
    assert |a| == |b|;
    forall k | 0 <= k < |a|
      ensures a[k] == b[k]
    {
      if k > 0 {
        assert draws[1..][..i][k - 1] == draws[k];
      }
    }
  }

  /** The state after the tosses of the first `i + 1` draws is the state after
      the first `i`, with the LED of draw `i` switched as its coin says and
      every other LED kept. */
  lemma TossesStep(s: seq<Led>, draws: seq<Draw>, i: nat)
    requires |s| == 4 && i < |draws|
    ensures var before, now := Exec(s, Tosses(draws[..i])), Exec(s, Tosses(draws[..i + 1]));
      |now| == 4 &&
      now[Choice(draws[i].ledRaw)] == (if Coin(draws[i]) == 0 then LedOn else LedOff) &&
      forall j :: 0 <= j < 4 && j != Choice(draws[i].ledRaw) ==> now[j] == before[j]
  {
    var t := Tosses(draws[..i + 1]);
    assert t == Tosses(draws[..i]) + [Toss(draws[i])];
    Snoc(s, Tosses(draws[..i]), Toss(draws[i]));
  }

  /** While the delay of iteration `i` elapses, the LEDs show what the LED
      commands of the first `i + 1` iterations make of the starting board:
      nothing is switched off between iterations. */
  lemma {:induction false} MultipleLoopFrames(s: seq<Led>, delay: int, randomDelay: bool, draws: seq<Draw>)
    requires |s| == 4 && (randomDelay ==> delay >= 0)
    ensures |Frames(s, MultipleLoop(delay, randomDelay, draws).cmds)| == |draws|
    ensures forall i :: 0 <= i < |draws| ==>
      Frames(s, MultipleLoop(delay, randomDelay, draws).cmds)[i].leds == Exec(s, Tosses(draws[..i + 1]))
    decreases |draws|
  {
    if draws != [] {
      var d := NextDelay(delay, randomDelay, draws[0]);
      var c := Toss(draws[0]);
      var rest := MultipleLoop(d, randomDelay, draws[1..]).cmds;
      var s1 := Step(s, c);
      MultipleLoopFrames(s1, d, randomDelay, draws[1..]);
      assert MultipleLoop(delay, randomDelay, draws).cmds == [c, Delay(d)] + rest;
      TossThenWait(s, c, d, rest);
      var f := Frames(s, [c, Delay(d)] + rest);
      var g := Frames(s1, rest);
      assert f == [Frame(d, s1)] + g;
      forall i | 0 <= i < |draws|
        ensures f[i].leds == Exec(s, Tosses(draws[..i + 1]))
      {
        TossesFront(draws, i);
        ExecCons(s, c, Tosses(draws[1..][..i]));
        if i > 0 {
          assert f[i] == g[i - 1];
        }
      }
    }
  }

  /** `random_multiple` from any board: during iteration `i` the LEDs show
      the LED commands of the first `i + 1` iterations replayed, so the LED
      it drew shows its coin and every other LED keeps what it showed during
      the iteration before (the starting board for the first); the delays
      are the drawn ones, so with `random_delay` they never grow; the run
      ends dark. */
  lemma RandomMultipleFrames(s: seq<Led>, delay: int, randomDelay: bool, draws: seq<Draw>, i: nat)
    requires |s| == 4
    requires RandomMultipleRun(delay, randomDelay, draws).outcome == Completed
    requires i < |draws|
    ensures |Frames(s, RandomMultipleRun(delay, randomDelay, draws).cmds)| == |draws|
    ensures forall k :: 0 <= k < |draws| ==>
      Frames(s, RandomMultipleRun(delay, randomDelay, draws).cmds)[k].leds == Exec(s, Tosses(draws[..k + 1])) &&
      |Frames(s, RandomMultipleRun(delay, randomDelay, draws).cmds)[k].leds| == 4
    ensures |Frames(s, RandomMultipleRun(delay, randomDelay, draws).cmds)[i].leds| == 4 &&
      Frames(s, RandomMultipleRun(delay, randomDelay, draws).cmds)[i].leds[Choice(draws[i].ledRaw)] ==
      (if Coin(draws[i]) == 0 then LedOn else LedOff)
    ensures forall j :: 0 <= j < 4 && j != Choice(draws[i].ledRaw) ==>
      Frames(s, RandomMultipleRun(delay, randomDelay, draws).cmds)[i].leds[j] ==
      (if i == 0 then s[j] else Frames(s, RandomMultipleRun(delay, randomDelay, draws).cmds)[i - 1].leds[j])
    ensures Delays(RandomMultipleRun(delay, randomDelay, draws).cmds) == DrawnDelays(delay, randomDelay, draws)
    ensures randomDelay ==> NonIncreasing(Delays(RandomMultipleRun(delay, randomDelay, draws).cmds))
    ensures Exec(s, RandomMultipleRun(delay, randomDelay, draws).cmds) == Dark
  {
    RandomMultipleRaises(delay, randomDelay, draws);
    var l := MultipleLoop(delay, randomDelay, draws).cmds;
    MultipleLoopDelays(delay, randomDelay, draws);
    MultipleLoopFrames(s, delay, randomDelay, draws);
    DrawnDelaysShape(delay, randomDelay, draws);
    FramesAppend(s, l, AllOffCmds());
    ExecAppend(s, l, AllOffCmds());
    DelaysAppend(l, AllOffCmds());
    AllOffIsDark(Exec(s, l));
    TossesStep(s, draws, i);
    if i == 0 {
      assert Tosses(draws[..0]) == [];
    }
  }

  /** Unlike `random_single`, `random_multiple` does not switch an LED off
      after its delay, so several LEDs can be lit at once: two iterations
      that both switch an LED on leave red and green lit together. */
  lemma MultipleAccumulates()
    ensures var r := RandomMultipleRun(10, false, [Draw(0, 0, 0), Draw(0, 1, 0)]);
      |Frames(Dark, r.cmds)| == 2 && Lit(Frames(Dark, r.cmds)[1].leds) == {Red, Green}
  {
    var s1 := Dark[Red := LedOn];
    var s2 := s1[Green := LedOn];
    var tail := [On(Green), Delay(10)] + AllOffCmds();
    calc {
      Frames(Dark, RandomMultipleRun(10, false, [Draw(0, 0, 0), Draw(0, 1, 0)]).cmds);
      { TwoTossesCmds(); }
      Frames(Dark, [On(Red), Delay(10)] + tail);
      { TossThenWait(Dark, On(Red), 10, tail); }
      [Frame(10, s1)] + Frames(s1, tail);
      { TossThenWait(s1, On(Green), 10, AllOffCmds()); }
      [Frame(10, s1)] + ([Frame(10, s2)] + Frames(s2, AllOffCmds()));
      { AllOffNoFrames(s2); }
      [Frame(10, s1), Frame(10, s2)];
    }
    LitRedGreen();
  }

  lemma LitRedGreen()
    ensures Lit(Dark[Red := LedOn][Green := LedOn]) == {Red, Green}
  {
    var s2 := Dark[Red := LedOn][Green := LedOn];
    assert forall i :: i in Lit(s2) <==> i == Red || i == Green;
  }

  /** The commands of `random_multiple` for two draws that switch red, then green on. */
  lemma TwoTossesCmds()
    ensures RandomMultipleRun(10, false, [Draw(0, 0, 0), Draw(0, 1, 0)]).cmds ==
      [On(Red), Delay(10)] + ([On(Green), Delay(10)] + AllOffCmds())
  {
    TwoTosses();
    var a, b := [On(Red), Delay(10)], [On(Green), Delay(10)];
    assert a + b == [On(Red), Delay(10), On(Green), Delay(10)];
    Assoc(a, b, AllOffCmds());
  }

  /** The loop of `random_multiple` for two draws that switch red, then green on. */
  lemma TwoTosses()
    ensures MultipleLoop(10, false, [Draw(0, 0, 0), Draw(0, 1, 0)]) ==
      Run([On(Red), Delay(10), On(Green), Delay(10)], Completed)
  {
    var draws := [Draw(0, 0, 0), Draw(0, 1, 0)];
    var t0, t1 := Toss(draws[0]), Toss(draws[1]);
    assert t0.On? && t0.led == Red;
    assert t1.On? && t1.led == Green;
    assert draws[1..] == [Draw(0, 1, 0)];
    assert draws[1..][1..] == [];
    assert MultipleLoop(10, false, draws[1..][1..]) == Run([], Completed);
    assert MultipleLoop(10, false, draws[1..]) == Run([On(Green), Delay(10)], Completed);
  }
}
