/** The driver object: four LEDs whose states the effects update in place,
    and the list of every command sent to them so far. */
module Lights {
  import opened Leds
  import opened Patterns
  import opened Fading
  import opened Randomness
  import opened Ramps

  /** Sweeping two more LEDs flashes them after the others. */
  lemma SweepPair(lit: seq<int>, a: int, b: int, d: int, hold: bool)
    ensures Sweep(lit + [a, b], d, hold) == Sweep(lit, d, hold) + Flash(a, d, hold) + Flash(b, d, hold)
  {
    assert (lit + [a, b])[..|lit| + 1] == lit + [a];
    assert (lit + [a])[..|lit|] == lit;
  }

  /** A round of `jump` pops the front, then the back of the working list. */
  lemma FrontBackPop(w: seq<int>)
    requires |w| >= 2 && |w| % 2 == 0
    ensures FrontBack(w) == [w[0], w[|w| - 1]] + FrontBack(w[1..|w| - 1])
  {
  }

  /** The working list without its first element, then without its last. */
  lemma Inner<T>(w: seq<T>)
    requires |w| >= 2
    ensures w[1..][..|w| - 2] == w[1..|w| - 1] && w[1..][|w| - 2] == w[|w| - 1]
  {
  }

  /** After a `scroll` run the LEDs are dark, or as they were when no cycle ran. */
  lemma ScrollShows(s: seq<Led>, t: seq<Command>, speed: int, k: nat, hold: bool, r2l: bool)
    requires |s| == 4
    ensures Exec(s, t + ScrollRun(speed, k, hold, r2l)) == if k > 0 then Dark else Exec(s, t)
  {
    ExecAppend(s, t, ScrollRun(speed, k, hold, r2l));
    ScrollRunEnd(Exec(s, t), speed, k, hold, r2l);
  }

  class BeautyLights {
    /** The current state of red, green, orange and blue, in list order. */
    var leds: array<Led>
    /** Every command sent to the hardware, in order. */
    var trace: seq<Command>
    /** The LED states before the first command. */
    ghost var start: seq<Led>

    /** The LEDs show what replaying the trace from the first state gives. */
    ghost predicate Valid()
      reads this, leds
    {
      leds.Length == 4 && |start| == 4 && leds[..] == Exec(start, trace)
    }

    /** `BeautyLights()`: takes hold of the four LEDs in whatever state
        they are. */
    constructor (initial: seq<Led>)
      requires |initial| == 4
      ensures Valid() && fresh(leds)
      ensures leds[..] == initial && trace == []
    {
      leds := new Led[4](i requires 0 <= i < 4 => initial[i]);
      trace := [];
      start := initial;
      new;
      assert leds[..] == initial;
    }

    /** Sends one command to the hardware. */
    method Emit(c: Command)
      requires Valid()
      modifies this, leds
      ensures Valid() && leds == old(leds) && start == old(start)
      ensures trace == old(trace) + [c]
      ensures leds[..] == Step(old(leds[..]), c)
    {
      ghost var before := leds[..];
      match c {
        case On(i) =>
          if 0 <= i < 4 {
            leds[i] := LedOn;
          }
        case Off(i) =>
          if 0 <= i < 4 {
            leds[i] := LedOff;
          }
        case Intensity(i, v) =>
          if 0 <= i < 4 {
            leds[i] := LevelLed(v);
          }
        case Delay(_) =>
      }
      assert leds[..] == Step(before, c);
      TakeFront(trace, c);
      trace := trace + [c];
    }

    /** Sends a fixed list of commands, one after the other. The driver
        writes such a list out as straight-line calls (the `on()`/`off()`
        lines of one `explode` or `implode` step, or the body of `all_off`);
        a loop over the list stands for those calls and sends the same
        commands in the same order. */
    method Issue(cmds: seq<Command>)
      requires Valid()
      modifies this, leds
      ensures Valid() && leds == old(leds) && start == old(start)
      ensures trace == old(trace) + cmds
    {
      var k := 0;
      while k < |cmds|
        invariant 0 <= k <= |cmds|
        invariant Valid() && leds == old(leds) && start == old(start)
        invariant trace == old(trace) + cmds[..k]
      {
        Emit(cmds[k]);
        TakeNext(cmds, k);
        Assoc(old(trace), cmds[..k], [cmds[k]]);
        k := k + 1;
      }
      TakeAll(cmds);
    }

    /** `all_off`: switches every LED off in list order. */
    method AllOff()
      requires Valid()
      modifies this, leds
      ensures Valid() && leds == old(leds) && start == old(start)
      ensures trace == old(trace) + AllOffCmds()
      ensures leds[..] == Dark
    {
      var k := 0;
      while k < 4
        invariant 0 <= k <= 4
        invariant Valid() && leds == old(leds) && start == old(start)
        invariant trace == old(trace) + AllOffCmds()[..k]
      {
        Emit(Off(All[k]));
        TakeNext(AllOffCmds(), k);
        Assoc(old(trace), AllOffCmds()[..k], [Off(All[k])]);
        k := k + 1;
      }
      TakeAll(AllOffCmds());
      ExecAppend(start, old(trace), AllOffCmds());
      AllOffExec(old(leds[..]));
    }

    /** `all_on`: switches every LED on in list order. */
    method AllOn()
      requires Valid()
      modifies this, leds
      ensures Valid() && leds == old(leds) && start == old(start)
      ensures trace == old(trace) + AllOnCmds()
      ensures leds[..] == [LedOn, LedOn, LedOn, LedOn]
    {
      var k := 0;
      while k < 4
        invariant 0 <= k <= 4
        invariant Valid() && leds == old(leds) && start == old(start)
        invariant trace == old(trace) + AllOnCmds()[..k]
      {
        Emit(On(All[k]));
        TakeNext(AllOnCmds(), k);
        Assoc(old(trace), AllOnCmds()[..k], [On(All[k])]);
        k := k + 1;
      }
      TakeAll(AllOnCmds());
      ExecAppend(start, old(trace), AllOnCmds());
      AllOnExec(old(leds[..]));
    }

    /** `led.on(); pyb.delay(d)` and, unless `hold`, `led.off()`. */
    method Blink(j: int, d: int, hold: bool)
      requires Valid()
      modifies this, leds
      ensures Valid() && leds == old(leds) && start == old(start)
      ensures trace == old(trace) + Flash(j, d, hold)
    {
      Emit(On(j));
      Emit(Delay(d));
      Assoc(old(trace), [On(j)], [Delay(d)]);
      Two(On(j), Delay(d));
      if hold {
        AppendNil([On(j), Delay(d)]);
      } else {
        Emit(Off(j));
        Assoc(old(trace), [On(j), Delay(d)], [Off(j)]);
        Three(On(j), Delay(d), Off(j));
      }
    }

    /** `for led in order: led.on(); pyb.delay(d); if not static: led.off()`. */
    method Walk(order: seq<int>, d: int, hold: bool)
      requires Valid()
      modifies this, leds
      ensures Valid() && leds == old(leds) && start == old(start)
      ensures trace == old(trace) + Sweep(order, d, hold)
    {
      var k := 0;
      while k < |order|
        invariant 0 <= k <= |order|
        invariant Valid() && leds == old(leds) && start == old(start)
        invariant trace == old(trace) + Sweep(order[..k], d, hold)
      {
        Blink(order[k], d, hold);
        TakeTake(order, k);
        Assoc(old(trace), Sweep(order[..k], d, hold), Flash(order[k], d, hold));
        k := k + 1;
      }
      TakeAll(order);
    }

    // -------------------------------------------------------------------
    // random_single, random_multiple

    /** `random_single(delay, duration, random_delay)`, one iteration per draw. */
    method RandomSingle(delay: int, randomDelay: bool, draws: seq<Draw>) returns (outcome: Outcome)
      requires Valid()
      modifies this, leds
      ensures Valid() && leds == old(leds) && start == old(start)
      ensures trace == old(trace) + RandomSingleRun(delay, randomDelay, draws).cmds
      ensures outcome == RandomSingleRun(delay, randomDelay, draws).outcome
      ensures leds[..] == if outcome == Completed then Dark else old(leds[..])
    {
      var cur := delay;
      var n := 0;
      ghost var done: seq<Command> := [];
      while n < |draws|
        invariant 0 <= n <= |draws|
        invariant Valid() && leds == old(leds) && start == old(start)
        invariant trace == old(trace) + done
        invariant n == 0 ==> done == [] && cur == delay
        invariant randomDelay && n > 0 ==> cur >= 0
        invariant SingleLoop(delay, randomDelay, draws).cmds == done + SingleLoop(cur, randomDelay, draws[n..]).cmds
        invariant SingleLoop(delay, randomDelay, draws).outcome == SingleLoop(cur, randomDelay, draws[n..]).outcome
      {
        if randomDelay {
          if cur < 0 {
            AppendNil(old(trace));
            outcome := Raised(ValueError);
            return;
          }
        }
        ghost var before := cur;
        SingleUnroll(cur, randomDelay, draws[n..]);
        DropNext(draws, n);
        if randomDelay {
          cur := RandInt(0, cur, draws[n].delayRaw);
        }
        assert cur == NextDelay(before, randomDelay, draws[n]);
        var j := Choice(draws[n].ledRaw);
        Blink(j, cur, false);
        ghost var step := Flash(j, cur, false);
        ghost var next := SingleLoop(cur, randomDelay, draws[n + 1..]);
        assert SingleLoop(before, randomDelay, draws[n..]) == Run(step + next.cmds, next.outcome);
        Assoc(old(trace), done, step);
        Assoc(done, step, next.cmds);
        done := done + step;
        n := n + 1;
      }
      assert draws[n..] == [];
      AppendNil(done);
      AllOff();
      Assoc(old(trace), done, AllOffCmds());
      outcome := Completed;
    }

    /** `random_multiple(delay, duration, random_delay)`, one iteration per draw. */
    method RandomMultiple(delay: int, randomDelay: bool, draws: seq<Draw>) returns (outcome: Outcome)
      requires Valid()
      modifies this, leds
      ensures Valid() && leds == old(leds) && start == old(start)
      ensures trace == old(trace) + RandomMultipleRun(delay, randomDelay, draws).cmds
      ensures outcome == RandomMultipleRun(delay, randomDelay, draws).outcome
      ensures leds[..] == if outcome == Completed then Dark else old(leds[..])
    {
      var cur := delay;
      var n := 0;
      ghost var done: seq<Command> := [];
      while n < |draws|
        invariant 0 <= n <= |draws|
        invariant Valid() && leds == old(leds) && start == old(start)
        invariant trace == old(trace) + done
        invariant n == 0 ==> done == [] && cur == delay
        invariant randomDelay && n > 0 ==> cur >= 0
        invariant MultipleLoop(delay, randomDelay, draws).cmds == done + MultipleLoop(cur, randomDelay, draws[n..]).cmds
        invariant MultipleLoop(delay, randomDelay, draws).outcome == MultipleLoop(cur, randomDelay, draws[n..]).outcome
      {
        if randomDelay {
          if cur < 0 {
            AppendNil(old(trace));
            outcome := Raised(ValueError);
            return;
          }
        }
        ghost var before := cur;
        MultipleUnroll(cur, randomDelay, draws[n..]);
        DropNext(draws, n);
        if randomDelay {
          cur := RandInt(0, cur, draws[n].delayRaw);
        }
        assert cur == NextDelay(before, randomDelay, draws[n]);
        TossOnce(draws[n], cur);
        ghost var step := [Toss(draws[n]), Delay(cur)];
        ghost var next := MultipleLoop(cur, randomDelay, draws[n + 1..]);
        assert MultipleLoop(before, randomDelay, draws[n..]) == Run(step + next.cmds, next.outcome);
        Assoc(old(trace), done, step);
        Assoc(done, step, next.cmds);
        done := done + step;
        n := n + 1;
      }
      assert draws[n..] == [];
      AppendNil(done);
      AllOff();
      Assoc(old(trace), done, AllOffCmds());
      outcome := Completed;
    }

    /** One iteration of `random_multiple` after its delay is drawn: a random
        LED goes on or off at random, then the delay. */
    method TossOnce(dr: Draw, d: int)
      requires Valid()
      modifies this, leds
      ensures Valid() && leds == old(leds) && start == old(start)
      ensures trace == old(trace) + [Toss(dr), Delay(d)]
    {
      var j := Choice(dr.ledRaw);
      if RandInt(0, 1, dr.coinRaw) == 0 {
        Emit(On(j));
      } else {
        Emit(Off(j));
      }
      Emit(Delay(d));
      Assoc(old(trace), [Toss(dr)], [Delay(d)]);
      Two(Toss(dr), Delay(d));
    }

    // -------------------------------------------------------------------
    // explode, implode

    /** `explode(delay, duration)` for `cycles` cycles. */
    method Explode(delay: int, cycles: nat)
      requires Valid()
      modifies this, leds
      ensures Valid() && leds == old(leds) && start == old(start)
      ensures trace == old(trace) + ExplodeRun(delay, cycles)
      ensures leds[..] == Dark
    {
      var d := TruncDiv(delay, ExplodeSteps);
      var n := 0;
      while n < cycles
        invariant 0 <= n <= cycles
        invariant Valid() && leds == old(leds) && start == old(start)
        invariant trace == old(trace) + Repeat(ExplodeCycle(d), n)
      {
        ExplodeOnce(d);
        Assoc(old(trace), Repeat(ExplodeCycle(d), n), ExplodeCycle(d));
        n := n + 1;
      }
      AllOff();
      Assoc(old(trace), Repeat(ExplodeCycle(d), cycles), AllOffCmds());
    }

    /** One `explode` cycle: green and orange, then red and blue, then none. */
    method ExplodeOnce(d: int)
      requires Valid()
      modifies this, leds
      ensures Valid() && leds == old(leds) && start == old(start)
      ensures trace == old(trace) + ExplodeCycle(d)
    {
      ghost var p1 := Phase([On(Green), On(Orange)], d);
      ghost var p2 := Phase([Off(Green), Off(Orange), On(Red), On(Blue)], d);
      ghost var p3 := Phase([Off(Red), Off(Blue)], d);
      Issue(Phase([On(Green), On(Orange)], d));
      Issue(Phase([Off(Green), Off(Orange), On(Red), On(Blue)], d));
      Issue(Phase([Off(Red), Off(Blue)], d));
      Assoc(old(trace), p1, p2);
      Assoc(old(trace), p1 + p2, p3);
    }

    /** `implode(speed, duration)` as written: it reads `delay` before any
        assignment to it, so it raises before sending any command. */
    method Implode(speed: int, cycles: nat) returns (outcome: Outcome)
      ensures outcome == ImplodeRun(speed, cycles).outcome
      ensures outcome == Raised(NameError)
    {
      outcome := Raised(NameError);
    }

    /** The evidently intended `implode(speed, duration)`: the mirror of
        `explode`, with the per-step delay taken from `speed`. */
    method ImplodeIntended(speed: int, cycles: nat)
      requires Valid()
      modifies this, leds
      ensures Valid() && leds == old(leds) && start == old(start)
      ensures trace == old(trace) + ImplodeIntendedRun(speed, cycles)
      ensures leds[..] == Dark
    {
      var d := TruncDiv(speed, ExplodeSteps);
      var n := 0;
      while n < cycles
        invariant 0 <= n <= cycles
        invariant Valid() && leds == old(leds) && start == old(start)
        invariant trace == old(trace) + Repeat(ImplodeCycle(d), n)
      {
        ImplodeOnce(d);
        Assoc(old(trace), Repeat(ImplodeCycle(d), n), ImplodeCycle(d));
        n := n + 1;
      }
      AllOff();
      Assoc(old(trace), Repeat(ImplodeCycle(d), cycles), AllOffCmds());
    }

    /** One intended `implode` cycle: red and blue, then green and orange,
        then none. */
    method ImplodeOnce(d: int)
      requires Valid()
      modifies this, leds
      ensures Valid() && leds == old(leds) && start == old(start)
      ensures trace == old(trace) + ImplodeCycle(d)
    {
      ghost var p1 := Phase([On(Red), On(Blue)], d);
      ghost var p2 := Phase([Off(Red), Off(Blue), On(Green), On(Orange)], d);
      ghost var p3 := Phase([Off(Green), Off(Orange)], d);
      Issue(Phase([On(Red), On(Blue)], d));
      Issue(Phase([Off(Red), Off(Blue), On(Green), On(Orange)], d));
      Issue(Phase([Off(Green), Off(Orange)], d));
      Assoc(old(trace), p1, p2);
      Assoc(old(trace), p1 + p2, p3);
    }

    // -------------------------------------------------------------------
    // scroll, jump, bounce

    /** `scroll(speed, duration, static, r2l)` for `cycles` cycles. There is
        no `all_off()` after the loop, so with no cycle nothing changes. */
    method Scroll(speed: int, cycles: nat, hold: bool, r2l: bool)
      requires Valid()
      modifies this, leds
      ensures Valid() && leds == old(leds) && start == old(start)
      ensures trace == old(trace) + ScrollRun(speed, cycles, hold, r2l)
      ensures leds[..] == if cycles > 0 then Dark else old(leds[..])
    {
      var d := TruncDiv(speed, ScrollSteps);
      ScrollCycles(d, hold, r2l, cycles);
      ScrollShows(start, old(trace), speed, cycles, hold, r2l);
    }

    /** The `while` loop of `scroll`: `cycles` walks, each ending dark. */
    method ScrollCycles(d: int, hold: bool, r2l: bool, cycles: nat)
      requires Valid()
      modifies this, leds
      ensures Valid() && leds == old(leds) && start == old(start)
      ensures trace == old(trace) + Repeat(ScrollCycle(d, hold, r2l), cycles)
    {
      var n := 0;
      while n < cycles
        invariant 0 <= n <= cycles
        invariant Valid() && leds == old(leds) && start == old(start)
        invariant trace == old(trace) + Repeat(ScrollCycle(d, hold, r2l), n)
      {
        WalkOnce(ScrollOrder(r2l), d, hold);
        Assoc(old(trace), Repeat(ScrollCycle(d, hold, r2l), n), ScrollCycle(d, hold, r2l));
        n := n + 1;
      }
    }

    /** One `scroll` or `jump` cycle: walk `order`, `all_off()`, wait. */
    method WalkOnce(order: seq<int>, d: int, hold: bool)
      requires Valid()
      modifies this, leds
      ensures Valid() && leds == old(leds) && start == old(start)
      ensures trace == old(trace) + WalkCycle(order, d, hold)
    {
      Walk(order, d, hold);
      AllOff();
      Emit(Delay(d));
      Assoc(old(trace), Sweep(order, d, hold), AllOffCmds());
      Assoc(old(trace), Sweep(order, d, hold) + AllOffCmds(), [Delay(d)]);
    }

    /** `jump(speed, duration, static, r2l)` for `cycles` cycles; `r2l` is
        accepted and ignored. */
    method Jump(speed: int, cycles: nat, hold: bool, r2l: bool)
      requires Valid()
      modifies this, leds
      ensures Valid() && leds == old(leds) && start == old(start)
      ensures trace == old(trace) + JumpRun(speed, cycles, hold)
      ensures leds[..] == Dark
    {
      var d := TruncDiv(speed, ScrollSteps);
      JumpCycles(d, hold, cycles);
      AllOff();
      Assoc(old(trace), Repeat(JumpCycle(d, hold), cycles), AllOffCmds());
    }

    /** The `while` loop of `jump`: `cycles` front-and-back walks. */
    method JumpCycles(d: int, hold: bool, cycles: nat)
      requires Valid()
      modifies this, leds
      ensures Valid() && leds == old(leds) && start == old(start)
      ensures trace == old(trace) + Repeat(JumpCycle(d, hold), cycles)
    {
      var n := 0;
      while n < cycles
        invariant 0 <= n <= cycles
        invariant Valid() && leds == old(leds) && start == old(start)
        invariant trace == old(trace) + Repeat(JumpCycle(d, hold), n)
      {
        JumpOnce(d, hold);
        Assoc(old(trace), Repeat(JumpCycle(d, hold), n), JumpCycle(d, hold));
        n := n + 1;
      }
    }

    /** One `jump` cycle: the front-and-back walk, `all_off()`, wait. */
    method JumpOnce(d: int, hold: bool)
      requires Valid()
      modifies this, leds
      ensures Valid() && leds == old(leds) && start == old(start)
      ensures trace == old(trace) + JumpCycle(d, hold)
    {
      ghost var rounds := JumpSweep(d, hold);
      AllOff();
      Emit(Delay(d));
      Assoc(old(trace), Sweep(FrontBack(All), d, hold), AllOffCmds());
      Assoc(old(trace), Sweep(FrontBack(All), d, hold) + AllOffCmds(), [Delay(d)]);
    }

    /** The inner loop of `jump`: flash the first, then the last LED of a
        working copy of the list, removing both, until it is empty. */
    method JumpSweep(d: int, hold: bool) returns (ghost rounds: nat)
      requires Valid()
      modifies this, leds
      ensures Valid() && leds == old(leds) && start == old(start)
      ensures trace == old(trace) + Sweep(FrontBack(All), d, hold)
      ensures rounds == 2
    {
      var work := All;
      ghost var lit: seq<int> := [];
      rounds := 0;
      while |work| > 0
        invariant |work| % 2 == 0 && 2 * rounds + |work| == 4
        invariant lit + FrontBack(work) == FrontBack(All)
        invariant Valid() && leds == old(leds) && start == old(start)
        invariant trace == old(trace) + Sweep(lit, d, hold)
        decreases |work|
      {
        ghost var w := work;
        var first := work[0];
        work := work[1..];
        Blink(first, d, hold);
        var last := work[|work| - 1];
        work := work[..|work| - 1];
        Blink(last, d, hold);
        Inner(w);
        FrontBackPop(w);
        Assoc(lit, [first, last], FrontBack(work));
        SweepPair(lit, first, last, d, hold);
        Assoc(old(trace), Sweep(lit, d, hold), Flash(first, d, hold));
        Assoc(old(trace), Sweep(lit, d, hold) + Flash(first, d, hold), Flash(last, d, hold));
        lit := lit + [first, last];
        rounds := rounds + 1;
      }
      AppendNil(lit);
    }

    /** `bounce(speed, duration, r2l)` for `cycles` cycles; `r2l` is accepted
        and ignored. */
    method Bounce(speed: int, cycles: nat, r2l: bool)
      requires Valid()
      modifies this, leds
      ensures Valid() && leds == old(leds) && start == old(start)
      ensures trace == old(trace) + BounceRun(speed, cycles)
      ensures leds[..] == Dark
    {
      var d := TruncDiv(speed, BounceSteps);
      var n := 0;
      while n < cycles
        invariant 0 <= n <= cycles
        invariant Valid() && leds == old(leds) && start == old(start)
        invariant trace == old(trace) + Repeat(BounceCycle(d), n)
      {
        BounceOnce(d);
        Assoc(old(trace), Repeat(BounceCycle(d), n), BounceCycle(d));
        n := n + 1;
      }
      AllOff();
      Assoc(old(trace), Repeat(BounceCycle(d), cycles), AllOffCmds());
    }

    /** One `bounce` cycle: a walk along the list and back. */
    method BounceOnce(d: int)
      requires Valid()
      modifies this, leds
      ensures Valid() && leds == old(leds) && start == old(start)
      ensures trace == old(trace) + BounceCycle(d)
    {
      Walk(All, d, false);
      Walk(Backward, d, false);
      Assoc(old(trace), Sweep(All, d, false), Sweep(Backward, d, false));
    }

    // -------------------------------------------------------------------
    // scroll_fade, scroll_knigth

    /** `for i in range(0, steps)`: light `order[index:i+1]`, wait, `all_off()`. */
    method FadeSweep(order: seq<int>, fade: int, d: int)
      requires Valid()
      modifies this, leds
      ensures Valid() && leds == old(leds) && start == old(start)
      ensures trace == old(trace) + FadeSteps(order, fade, d, StepCount(fade))
    {
      var steps := 4 + fade;
      ghost var n := StepCount(fade);
      var i := 0;
      while i < steps
        invariant 0 <= i <= n
        invariant Valid() && leds == old(leds) && start == old(start)
        invariant trace == old(trace) + FadeSteps(order, fade, d, i)
      {
        ghost var done := FadeSteps(order, fade, d, i);
        FadeOnce(order, i, fade, d);
        Assoc(old(trace), done, FadeStep(order, i, fade, d));
        FadeStepsNext(order, fade, d, i);
        i := i + 1;
      }
      assert i == n;
    }

    /** Step `i` of a fade sweep: light `order[index:i+1]`, wait, `all_off()`. */
    method FadeOnce(order: seq<int>, i: nat, fade: int, d: int)
      requires Valid()
      modifies this, leds
      ensures Valid() && leds == old(leds) && start == old(start)
      ensures trace == old(trace) + FadeStep(order, i, fade, d)
    {
      var index := if i - fade <= 0 then 0 else i - fade;
      var window := Slice(order, index, i + 1);
      LightAll(window);
      Emit(Delay(d));
      AllOff();
      assert window == Window(order, i, fade);
      Assoc(old(trace), Ons(window), [Delay(d)]);
      Assoc(old(trace), Ons(window) + [Delay(d)], AllOffCmds());
    }

    /** `for led in window: led.on()`. */
    method LightAll(window: seq<int>)
      requires Valid()
      modifies this, leds
      ensures Valid() && leds == old(leds) && start == old(start)
      ensures trace == old(trace) + Ons(window)
    {
      var k := 0;
      while k < |window|
        invariant 0 <= k <= |window|
        invariant Valid() && leds == old(leds) && start == old(start)
        invariant trace == old(trace) + Ons(window[..k])
      {
        Emit(On(window[k]));
        TakeTake(window, k);
        Assoc(old(trace), Ons(window[..k]), [On(window[k])]);
        k := k + 1;
      }
      TakeAll(window);
    }

    /** `scroll_fade(speed, duration, fade, r2l)` for `cycles` cycles; `r2l`
        is accepted and ignored. */
    method ScrollFade(speed: int, cycles: nat, fade: int, r2l: bool)
      requires Valid()
      modifies this, leds
      ensures Valid() && leds == old(leds) && start == old(start)
      ensures trace == old(trace) + ScrollFadeRun(speed, cycles, fade)
      ensures leds[..] == Dark
    {
      var d := TruncDiv(speed, ScrollSteps);
      FadeCycles(d, fade, cycles);
      AllOff();
      Assoc(old(trace), Repeat(FadeCycle(d, fade), cycles), AllOffCmds());
    }

    /** The `while` loop of `scroll_fade`: `cycles` fade sweeps along the list. */
    method FadeCycles(d: int, fade: int, cycles: nat)
      requires Valid()
      modifies this, leds
      ensures Valid() && leds == old(leds) && start == old(start)
      ensures trace == old(trace) + Repeat(FadeCycle(d, fade), cycles)
    {
      var n := 0;
      while n < cycles
        invariant 0 <= n <= cycles
        invariant Valid() && leds == old(leds) && start == old(start)
        invariant trace == old(trace) + Repeat(FadeCycle(d, fade), n)
      {
        FadeSweep(All, fade, d);
        Assoc(old(trace), Repeat(FadeCycle(d, fade), n), FadeCycle(d, fade));
        n := n + 1;
      }
    }

    /** `scroll_knigth(speed, duration, fade, r2l)` for `cycles` cycles;
        `r2l` is accepted and ignored. */
    method ScrollKnight(speed: int, cycles: nat, fade: int, r2l: bool)
      requires Valid()
      modifies this, leds
      ensures Valid() && leds == old(leds) && start == old(start)
      ensures trace == old(trace) + KnightRun(speed, cycles, fade)
      ensures leds[..] == Dark
    {
      var d := TruncDiv(speed, ScrollSteps);
      KnightCycles(d, fade, cycles);
      AllOff();
      Assoc(old(trace), Repeat(KnightCycle(d, fade), cycles), AllOffCmds());
    }

    /** The `while` loop of `scroll_knigth`: `cycles` sweeps there and back. */
    method KnightCycles(d: int, fade: int, cycles: nat)
      requires Valid()
      modifies this, leds
      ensures Valid() && leds == old(leds) && start == old(start)
      ensures trace == old(trace) + Repeat(KnightCycle(d, fade), cycles)
    {
      var n := 0;
      while n < cycles
        invariant 0 <= n <= cycles
        invariant Valid() && leds == old(leds) && start == old(start)
        invariant trace == old(trace) + Repeat(KnightCycle(d, fade), n)
      {
        KnightOnce(d, fade);
        Assoc(old(trace), Repeat(KnightCycle(d, fade), n), KnightCycle(d, fade));
        n := n + 1;
      }
    }

    /** One `scroll_knigth` cycle: a fade sweep along the list and back. */
    method KnightOnce(d: int, fade: int)
      requires Valid()
      modifies this, leds
      ensures Valid() && leds == old(leds) && start == old(start)
      ensures trace == old(trace) + KnightCycle(d, fade)
    {
      ghost var there := FadeSteps(All, fade, d, StepCount(fade));
      ghost var back := FadeSteps(Backward, fade, d, StepCount(fade));
      FadeSweep(All, fade, d);
      FadeSweep(Backward, fade, d);
      Assoc(old(trace), there, back);
    }

    // -------------------------------------------------------------------
    // glow, swing, heart_beat

    /** `if blue: ...intensity(v)` then `if orange: ...intensity(v)`. */
    method SetLevels(blue: bool, orange: bool, v: int)
      requires Valid()
      modifies this, leds
      ensures Valid() && leds == old(leds) && start == old(start)
      ensures trace == old(trace) + Levels(blue, orange, v)
    {
      if blue {
        Emit(Intensity(Blue, v));
      }
      if orange {
        Emit(Intensity(Orange, v));
      }
    }

    /** `for intensity in range(..)`: each of `count` values `first + stride k`
        on the selected LEDs, then a delay. */
    method RampLoop(blue: bool, orange: bool, first: int, stride: int, count: nat, d: int)
      requires Valid()
      modifies this, leds
      ensures Valid() && leds == old(leds) && start == old(start)
      ensures trace == old(trace) + RampCmds(blue, orange, Ramp(first, stride, count), d)
    {
      var k := 0;
      while k < count
        invariant 0 <= k <= count
        invariant Valid() && leds == old(leds) && start == old(start)
        invariant trace == old(trace) + RampCmds(blue, orange, Ramp(first, stride, k), d)
      {
        var v := first + stride * k;
        SetLevels(blue, orange, v);
        Emit(Delay(d));
        ghost var done := RampCmds(blue, orange, Ramp(first, stride, k), d);
        Assoc(old(trace), done, Levels(blue, orange, v));
        Assoc(old(trace), done + Levels(blue, orange, v), [Delay(d)]);
        Assoc(done, Levels(blue, orange, v), [Delay(d)]);
        RampNext(blue, orange, first, stride, k, d);
        k := k + 1;
      }
    }

    /** One `glow` cycle: the rising ramp, then `all_off()`. */
    method GlowOnce(d: int, blue: bool, orange: bool)
      requires Valid()
      modifies this, leds
      ensures Valid() && leds == old(leds) && start == old(start)
      ensures trace == old(trace) + GlowCycle(d, blue, orange)
    {
      RampLoop(blue, orange, 0, 5, 52, d);
      AllOff();
      Assoc(old(trace), RampCmds(blue, orange, Up, d), AllOffCmds());
    }

    /** `glow(delay, duration, blue, orange)` for `cycles` cycles. */
    method Glow(delay: int, cycles: nat, blue: bool, orange: bool)
      requires Valid()
      modifies this, leds
      ensures Valid() && leds == old(leds) && start == old(start)
      ensures trace == old(trace) + GlowRun(delay, cycles, blue, orange)
      ensures leds[..] == Dark
    {
      var d := TruncDiv(delay, GlowSteps);
      var n := 0;
      while n < cycles
        invariant 0 <= n <= cycles
        invariant Valid() && leds == old(leds) && start == old(start)
        invariant trace == old(trace) + Repeat(GlowCycle(d, blue, orange), n)
      {
        GlowOnce(d, blue, orange);
        Assoc(old(trace), Repeat(GlowCycle(d, blue, orange), n), GlowCycle(d, blue, orange));
        n := n + 1;
      }
      AllOff();
      Assoc(old(trace), Repeat(GlowCycle(d, blue, orange), cycles), AllOffCmds());
    }

    /** One half of a `swing` cycle: 52 steps, orange then blue then a delay. */
    method SwingLoop(orangeFirst: int, orangeStride: int, blueFirst: int, blueStride: int, d: int)
      requires Valid()
      modifies this, leds
      ensures Valid() && leds == old(leds) && start == old(start)
      ensures trace == old(trace) + SwingHalf(Ramp(orangeFirst, orangeStride, 52), Ramp(blueFirst, blueStride, 52), d)
    {
      var k := 0;
      while k < 52
        invariant 0 <= k <= 52
        invariant Valid() && leds == old(leds) && start == old(start)
        invariant trace == old(trace) + SwingHalf(Ramp(orangeFirst, orangeStride, k), Ramp(blueFirst, blueStride, k), d)
      {
        ghost var t0 := trace;
        var o := orangeFirst + orangeStride * k;
        var b := blueFirst + blueStride * k;
        Emit(Intensity(Orange, o));
        Emit(Intensity(Blue, b));
        Emit(Delay(d));
        Assoc(t0, [Intensity(Orange, o)], [Intensity(Blue, b)]);
        Assoc(t0, [Intensity(Orange, o), Intensity(Blue, b)], [Delay(d)]);
        Assoc(old(trace), SwingHalf(Ramp(orangeFirst, orangeStride, k), Ramp(blueFirst, blueStride, k), d), SwingStep(o, b, d));
        SwingNext(orangeFirst, orangeStride, blueFirst, blueStride, k, d);
        k := k + 1;
      }
    }

    /** One `swing` cycle: the two halves in the order `r2l` picks. */
    method SwingOnce(d: int, r2l: bool)
      requires Valid()
      modifies this, leds
      ensures Valid() && leds == old(leds) && start == old(start)
      ensures trace == old(trace) + SwingCycle(d, r2l)
    {
      if r2l {
        SwingLoop(255, -5, 0, 5, d);
        SwingLoop(0, 5, 255, -5, d);
        Assoc(old(trace), SwingHalf(Down, Up, d), SwingHalf(Up, Down, d));
      } else {
        SwingLoop(0, 5, 255, -5, d);
        SwingLoop(255, -5, 0, 5, d);
        Assoc(old(trace), SwingHalf(Up, Down, d), SwingHalf(Down, Up, d));
      }
    }

    /** `swing(delay, duration, r2l)` for `cycles` cycles. */
    method Swing(delay: int, cycles: nat, r2l: bool)
      requires Valid()
      modifies this, leds
      ensures Valid() && leds == old(leds) && start == old(start)
      ensures trace == old(trace) + SwingRun(delay, cycles, r2l)
      ensures leds[..] == Dark
    {
      var d := TruncDiv(delay, SwingSteps);
      var n := 0;
      while n < cycles
        invariant 0 <= n <= cycles
        invariant Valid() && leds == old(leds) && start == old(start)
        invariant trace == old(trace) + Repeat(SwingCycle(d, r2l), n)
      {
        SwingOnce(d, r2l);
        Assoc(old(trace), Repeat(SwingCycle(d, r2l), n), SwingCycle(d, r2l));
        n := n + 1;
      }
      AllOff();
      Assoc(old(trace), Repeat(SwingCycle(d, r2l), cycles), AllOffCmds());
    }

    /** The four ramps of one beat: up to 150, down to 30, up to 255, down to 0. */
    method Pulse(t: HeartTiming, blue: bool, orange: bool)
      requires Valid()
      modifies this, leds
      ensures Valid() && leds == old(leds) && start == old(start)
      ensures trace == old(trace) + Beat(t, blue, orange)
    {
      ghost var r1 := RampCmds(blue, orange, Rise, t.rise);
      ghost var r2 := RampCmds(blue, orange, Dip, t.dip);
      ghost var r3 := RampCmds(blue, orange, Climb, t.climb);
      ghost var r4 := RampCmds(blue, orange, Fall, t.fall);
      RampLoop(blue, orange, 0, 5, 31, t.rise);
      RampLoop(blue, orange, 150, -5, 25, t.dip);
      RampLoop(blue, orange, 30, 5, 46, t.climb);
      RampLoop(blue, orange, 255, -5, 52, t.fall);
      Assoc(old(trace), r1, r2);
      Assoc(old(trace), r1 + r2, r3);
      Assoc(old(trace), r1 + r2 + r3, r4);
    }

    /** One heart beat: a flat stretch, the four ramps, a flat stretch. */
    method BeatOnce(t: HeartTiming, blue: bool, orange: bool)
      requires Valid()
      modifies this, leds
      ensures Valid() && leds == old(leds) && start == old(start)
      ensures trace == old(trace) + HeartCycle(t, blue, orange)
    {
      Emit(Delay(t.flat));
      Pulse(t, blue, orange);
      Emit(Delay(t.flat));
      Assoc(old(trace), [Delay(t.flat)], Beat(t, blue, orange));
      Assoc(old(trace), [Delay(t.flat)] + Beat(t, blue, orange), [Delay(t.flat)]);
    }

    /** `heart_beat(delay, duration, blue, orange)` for `cycles` beats, with
        the beat's delays given by `t`. */
    method HeartBeat(t: HeartTiming, cycles: nat, blue: bool, orange: bool)
      requires Valid()
      modifies this, leds
      ensures Valid() && leds == old(leds) && start == old(start)
      ensures trace == old(trace) + HeartBeatRun(t, cycles, blue, orange)
      ensures leds[..] == Dark
    {
      var n := 0;
      while n < cycles
        invariant 0 <= n <= cycles
        invariant Valid() && leds == old(leds) && start == old(start)
        invariant trace == old(trace) + Repeat(HeartCycle(t, blue, orange), n)
      {
        BeatOnce(t, blue, orange);
        Assoc(old(trace), Repeat(HeartCycle(t, blue, orange), n), HeartCycle(t, blue, orange));
        n := n + 1;
      }
      AllOff();
      Assoc(old(trace), Repeat(HeartCycle(t, blue, orange), cycles), AllOffCmds());
    }
  }
}
