/** The four LEDs of the board, the commands the driver sends to them, and a
    replay of a command list: the LED states it produces and the LED states
    that are showing while each delay elapses. */
module Leds {

  /** Positions of the four LEDs, left to right. */
  const Red := 0
  const Green := 1
  const Orange := 2
  const Blue := 3

  /** The driver's LED list, in its own order. */
  const All: seq<int> := [Red, Green, Orange, Blue]

  /** The LED list reversed, `leds[::-1]` or `reversed(leds)`. */
  const Backward: seq<int> := [Blue, Orange, Green, Red]

  predicate IsLed(i: int) { 0 <= i < 4 }

  /** One LED: whether it is lit, and its brightness 0..255. */
  datatype Led = Led(on: bool, level: int)

  /** `on()` lights an LED at full brightness, `off()` darkens it. */
  const LedOn := Led(true, 255)
  const LedOff := Led(false, 0)

  /** The four LEDs, all dark. */
  const Dark: seq<Led> := [LedOff, LedOff, LedOff, LedOff]

  /** One call the driver makes on the hardware. */
  datatype Command =
    | On(led: int)
    | Off(led: int)
    | Intensity(led: int, value: int)
    | Delay(ms: int)

  /** The exceptions an effect can raise: `ValueError` from `randint` on an
      empty range, and `NameError`, MicroPython's exception for a local
      variable read before it is assigned. */
  datatype PyError = ValueError | NameError

  /** How an effect ended: normally, or with an exception. */
  datatype Outcome = Completed | Raised(error: PyError)

  /** The commands an effect issued and how it ended. */
  datatype Run = Run(cmds: seq<Command>, outcome: Outcome)

  /** The hardware clamps a requested brightness into 0..255. */
  function Clamp(v: int): (r: int)
    ensures 0 <= r <= 255
    ensures 0 <= v <= 255 ==> r == v
    ensures v < 0 ==> r == 0
    ensures v > 255 ==> r == 255
  {
    if v < 0 then 0 else if v > 255 then 255 else v
  }

  /** `intensity(v)` sets the brightness; an LED at brightness 0 is dark. */
  function LevelLed(v: int): (r: Led)
    ensures r.level == Clamp(v) && (r.on <==> r.level > 0)
  {
    Led(Clamp(v) > 0, Clamp(v))
  }

  /** The LED states after one command. */
  function Step(s: seq<Led>, c: Command): (r: seq<Led>)
    ensures |r| == |s|
    ensures c.Delay? ==> r == s
  {
    match c
    case On(i) => if 0 <= i < |s| then s[i := LedOn] else s
    case Off(i) => if 0 <= i < |s| then s[i := LedOff] else s
    case Intensity(i, v) => if 0 <= i < |s| then s[i := LevelLed(v)] else s
    case Delay(_) => s
  }

  /** The LED states after a list of commands. */
  function Exec(s: seq<Led>, cmds: seq<Command>): (r: seq<Led>)
    ensures |r| == |s|
    decreases |cmds|
  {
    if cmds == [] then s else Step(Exec(s, cmds[..|cmds| - 1]), cmds[|cmds| - 1])
  }

  /** What is showing while one delay elapses: its length and the LED states. */
  datatype Frame = Frame(ms: int, leds: seq<Led>)

  /** One frame per `Delay` command of the list, in order. */
  function Frames(s: seq<Led>, cmds: seq<Command>): seq<Frame>
    decreases |cmds|
  {
    if cmds == [] then []
    else
      var init, c := cmds[..|cmds| - 1], cmds[|cmds| - 1];
      Frames(s, init) + (if c.Delay? then [Frame(c.ms, Exec(s, init))] else [])
  }

  /** The lengths of the delays of a command list, in order. */
  function Delays(cmds: seq<Command>): seq<int>
    decreases |cmds|
  {
    if cmds == [] then []
    else
      var c := cmds[|cmds| - 1];
      Delays(cmds[..|cmds| - 1]) + (if c.Delay? then [c.ms] else [])
  }

  /** The brightness values written to LED `i`, in order. */
  function Written(cmds: seq<Command>, i: int): seq<int>
    decreases |cmds|
  {
    if cmds == [] then []
    else
      var c := cmds[|cmds| - 1];
      Written(cmds[..|cmds| - 1], i) + (if c.Intensity? && c.led == i then [c.value] else [])
  }

  /** The positions of the lit LEDs. */
  function Lit(s: seq<Led>): set<int>
  {
    set i | 0 <= i < |s| && s[i].on
  }

  /** The elements of a list of LED positions. */
  function Elems(xs: seq<int>): set<int>
  {
    set x | x in xs
  }

  /** The board with exactly the LEDs of `js` lit at full brightness. */
  function Showing(js: set<int>): seq<Led>
  {
    seq(4, i => if i in js then LedOn else LedOff)
  }

  /** `all_off`: every LED in list order is switched off. */
  function AllOffCmds(): seq<Command>
  {
    [Off(Red), Off(Green), Off(Orange), Off(Blue)]
  }

  /** `all_on`: every LED in list order is switched on. */
  function AllOnCmds(): seq<Command>
  {
    [On(Red), On(Green), On(Orange), On(Blue)]
  }

  /** `on()` on each of `js`, in order. */
  function Ons(js: seq<int>): (r: seq<Command>)
    ensures |r| == |js|
    ensures forall k :: 0 <= k < |js| ==> r[k] == On(js[k])
    decreases |js|
  {
    if js == [] then [] else Ons(js[..|js| - 1]) + [On(js[|js| - 1])]
  }

  // ---------------------------------------------------------------------
  // Replay lemmas

  /** Regrouping a concatenation of command lists. */
  lemma Assoc<T>(a: seq<T>, b: seq<T>, c: seq<T>)
    ensures (a + b) + c == a + (b + c)
  {
  }

  /** A non-empty list is its front followed by its last element. */
  lemma LastSplit<T>(s: seq<T>)
    requires s != []
    ensures s == s[..|s| - 1] + [s[|s| - 1]]
  {
  }

  /** A prefix one element longer. */
  lemma TakeNext<T>(s: seq<T>, k: nat)
    requires k < |s|
    ensures s[..k + 1] == s[..k] + [s[k]]
  {
  }

  /** The whole of a list as a prefix. */
  lemma TakeAll<T>(s: seq<T>)
    ensures s[..|s|] == s
  {
  }

  /** The list before one more element is appended. */
  lemma TakeFront<T>(s: seq<T>, x: T)
    ensures (s + [x])[..|s|] == s
  {
  }

  /** A prefix one element longer, seen from its own front and last element. */
  lemma TakeTake<T>(s: seq<T>, k: nat)
    requires k < |s|
    ensures s[..k + 1][..k] == s[..k] && s[..k + 1][k] == s[k]
  {
  }

  /** The suffix from `n` starts with `s[n]`, followed by the suffix from `n + 1`. */
  lemma DropNext<T>(s: seq<T>, n: nat)
    requires n < |s|
    ensures s[n..][0] == s[n] && s[n..][1..] == s[n + 1..]
  {
  }

  /** Appending nothing. */
  lemma AppendNil<T>(s: seq<T>)
    ensures s + [] == s && [] + s == s
  {
  }

  lemma Two<T>(a: T, b: T)
    ensures [a] + [b] == [a, b]
  {
  }

  lemma Three<T>(a: T, b: T, c: T)
    ensures [a, b] + [c] == [a, b, c]
  {
  }

  lemma {:induction false} ExecAppend(s: seq<Led>, a: seq<Command>, b: seq<Command>)
    ensures Exec(s, a + b) == Exec(Exec(s, a), b)
    decreases |b|
  {
    if b == [] {
      assert a + b == a;
    } else {
      var b' := b[..|b| - 1];
      assert (a + b)[..|a + b| - 1] == a + b';
      ExecAppend(s, a, b');
    }
  }

  lemma {:induction false} FramesAppend(s: seq<Led>, a: seq<Command>, b: seq<Command>)
    ensures Frames(s, a + b) == Frames(s, a) + Frames(Exec(s, a), b)
    decreases |b|
  {
    if b == [] {
      assert a + b == a;
    } else {
      var b' := b[..|b| - 1];
      assert (a + b)[..|a + b| - 1] == a + b';
      FramesAppend(s, a, b');
      ExecAppend(s, a, b');
    }
  }

  lemma {:induction false} DelaysAppend(a: seq<Command>, b: seq<Command>)
    ensures Delays(a + b) == Delays(a) + Delays(b)
    decreases |b|
  {
    if b == [] {
      assert a + b == a;
    } else {
      var b' := b[..|b| - 1];
      assert (a + b)[..|a + b| - 1] == a + b';
      DelaysAppend(a, b');
    }
  }

  lemma {:induction false} WrittenAppend(a: seq<Command>, b: seq<Command>, i: int)
    ensures Written(a + b, i) == Written(a, i) + Written(b, i)
    decreases |b|
  {
    if b == [] {
      assert a + b == a;
    } else {
      var b' := b[..|b| - 1];
      assert (a + b)[..|a + b| - 1] == a + b';
      WrittenAppend(a, b', i);
    }
  }

  /** Every frame shows as many LEDs as the board has. */
  lemma {:induction false} FramesWidth(s: seq<Led>, cmds: seq<Command>)
    ensures forall k :: 0 <= k < |Frames(s, cmds)| ==> |Frames(s, cmds)[k].leds| == |s|
    decreases |cmds|
  {
    if cmds != [] {
      FramesWidth(s, cmds[..|cmds| - 1]);
    }
  }

  /** Replaying one more command at the end. */
  lemma Snoc(s: seq<Led>, cmds: seq<Command>, c: Command)
    ensures Exec(s, cmds + [c]) == Step(Exec(s, cmds), c)
    ensures Frames(s, cmds + [c]) == Frames(s, cmds) + (if c.Delay? then [Frame(c.ms, Exec(s, cmds))] else [])
    ensures Delays(cmds + [c]) == Delays(cmds) + (if c.Delay? then [c.ms] else [])
  {
    assert (cmds + [c])[..|cmds|] == cmds;
  }

  lemma SnocWritten(cmds: seq<Command>, c: Command, i: int)
    ensures Written(cmds + [c], i) == Written(cmds, i) + (if c.Intensity? && c.led == i then [c.value] else [])
  {
    assert (cmds + [c])[..|cmds|] == cmds;
  }

  /** A list without brightness commands writes no brightness. */
  lemma {:induction false} NoIntensityWritesNothing(cmds: seq<Command>, i: int)
    requires forall k :: 0 <= k < |cmds| ==> !cmds[k].Intensity?
    ensures Written(cmds, i) == []
    decreases |cmds|
  {
    if cmds != [] {
      NoIntensityWritesNothing(cmds[..|cmds| - 1], i);
    }
  }

  /** Replaying one command at the front. */
  lemma ExecCons(s: seq<Led>, c: Command, rest: seq<Command>)
    ensures Exec(s, [c] + rest) == Exec(Step(s, c), rest)
    ensures Frames(s, [c] + rest) ==
      (if c.Delay? then [Frame(c.ms, s)] else []) + Frames(Step(s, c), rest)
  {
    ExecAppend(s, [c], rest);
    FramesAppend(s, [c], rest);
    assert [c][..0] == [];
  }

  /** A list without delays shows no frame. */
  lemma {:induction false} NoDelayNoFrames(s: seq<Led>, cmds: seq<Command>)
    requires forall k :: 0 <= k < |cmds| ==> !cmds[k].Delay?
    ensures Frames(s, cmds) == []
    ensures Delays(cmds) == []
    decreases |cmds|
  {
    if cmds != [] {
      NoDelayNoFrames(s, cmds[..|cmds| - 1]);
    }
  }

  lemma Exec2(s: seq<Led>, a: Command, b: Command)
    ensures Exec(s, [a, b]) == Step(Step(s, a), b)
  {
    assert [a, b][..1] == [a];
    assert [a][..0] == [];
    assert Exec(s, [a]) == Step(s, a);
  }

  lemma Exec4(s: seq<Led>, a: Command, b: Command, c: Command, e: Command)
    ensures Exec(s, [a, b, c, e]) == Step(Step(Step(Step(s, a), b), c), e)
  {
    ExecAppend(s, [a, b], [c, e]);
    assert [a, b] + [c, e] == [a, b, c, e];
    Exec2(s, a, b);
    Exec2(Step(Step(s, a), b), c, e);
  }

  /** `all_off` darkens every LED, whatever was showing before. */
  lemma AllOffIsDark(s: seq<Led>)
    requires |s| == 4
    ensures Exec(s, AllOffCmds()) == Dark
    ensures Frames(s, AllOffCmds()) == []
    ensures Delays(AllOffCmds()) == []
    ensures Lit(Dark) == {}
  {
    AllOffExec(s);
    AllOffNoFrames(s);
    LitDark();
  }

  lemma AllOffExec(s: seq<Led>)
    requires |s| == 4
    ensures Exec(s, AllOffCmds()) == Dark
  {
    var s4 := s[Red := LedOff][Green := LedOff][Orange := LedOff][Blue := LedOff];
    calc {
      Exec(s, AllOffCmds());
      { Exec4(s, Off(Red), Off(Green), Off(Orange), Off(Blue)); }
      Step(Step(Step(Step(s, Off(Red)), Off(Green)), Off(Orange)), Off(Blue));
      s4;
      { assert s4[0] == s4[1] == s4[2] == s4[3] == LedOff; }
      Dark;
    }
  }

  lemma AllOffNoFrames(s: seq<Led>)
    ensures Frames(s, AllOffCmds()) == []
    ensures Delays(AllOffCmds()) == []
  {
    NoDelayNoFrames(s, AllOffCmds());
  }

  lemma LitDark()
    ensures Lit(Dark) == {}
  {
    assert forall i :: i !in Lit(Dark);
  }

  /** `all_on` lights every LED at full brightness, whatever was showing before. */
  lemma AllOnLightsAll(s: seq<Led>)
    requires |s| == 4
    ensures Exec(s, AllOnCmds()) == [LedOn, LedOn, LedOn, LedOn]
    ensures Lit(Exec(s, AllOnCmds())) == {Red, Green, Orange, Blue}
  {
    AllOnExec(s);
    LitAllOn();
  }

  lemma AllOnExec(s: seq<Led>)
    requires |s| == 4
    ensures Exec(s, AllOnCmds()) == [LedOn, LedOn, LedOn, LedOn]
  {
    var s1 := s[Red := LedOn];
    var s2 := s1[Green := LedOn];
    var s3 := s2[Orange := LedOn];
    var s4 := s3[Blue := LedOn];
    calc {
      Exec(s, AllOnCmds());
      { Exec4(s, On(Red), On(Green), On(Orange), On(Blue)); }
      Step(Step(Step(Step(s, On(Red)), On(Green)), On(Orange)), On(Blue));
      s4;
      { assert s4[0] == s4[1] == s4[2] == s4[3] == LedOn; }
      [LedOn, LedOn, LedOn, LedOn];
    }
  }

  lemma LitAllOn()
    ensures Lit([LedOn, LedOn, LedOn, LedOn]) == {Red, Green, Orange, Blue}
  {
    var r := [LedOn, LedOn, LedOn, LedOn];
    assert forall i :: i in Lit(r) <==> i in {Red, Green, Orange, Blue};
  }

  /** `Showing(js)` lights exactly the LEDs of `js`. */
  lemma LitShowing(js: set<int>)
    ensures Lit(Showing(js)) == js * {Red, Green, Orange, Blue}
  {
    var s := Showing(js);
    assert forall i :: i in Lit(s) <==> i in js * {Red, Green, Orange, Blue};
  }

  lemma ShowingNone()
    ensures Showing({}) == Dark
  {
  }

  /** Exactly one LED lit. */
  lemma LitShowingOne(j: int)
    requires IsLed(j)
    ensures Lit(Showing({j})) == {j}
  {
    var s := Showing({j});
    assert forall i :: i in Lit(s) <==> i == j;
  }

  /** Switching LEDs on from a dark board lights exactly those LEDs. */
  lemma LitOns(js: seq<int>)
    requires forall k :: 0 <= k < |js| ==> IsLed(js[k])
    ensures forall i :: 0 <= i < 4 ==> Exec(Dark, Ons(js))[i] == (if i in js then LedOn else LedOff)
    ensures Lit(Exec(Dark, Ons(js))) == set k | 0 <= k < |js| :: js[k]
    ensures Frames(Dark, Ons(js)) == []
  {
    OnsExec(js);
    OnsNoFrames(Dark, js);
    var r := Exec(Dark, Ons(js));
    assert forall i :: i in Lit(r) <==> i in js;
  }

  lemma {:induction false} OnsExec(js: seq<int>)
    requires forall k :: 0 <= k < |js| ==> IsLed(js[k])
    ensures forall i :: 0 <= i < 4 ==> Exec(Dark, Ons(js))[i] == (if i in js then LedOn else LedOff)
    decreases |js|
  {
    if js != [] {
      var js', j := js[..|js| - 1], js[|js| - 1];
      OnsExec(js');
      var c := Ons(js);
      assert c[..|c| - 1] == Ons(js');
      assert c[|c| - 1] == On(j);
      var r', r := Exec(Dark, Ons(js')), Exec(Dark, c);
      assert r == r'[j := LedOn];
      forall i | 0 <= i < 4
        ensures r[i] == (if i in js then LedOn else LedOff)
      {
        assert i in js <==> i in js' || i == j by {
          LastSplit(js);
        }
      }
    }
  }

  /** Switching LEDs on takes no time. */
  lemma {:induction false} OnsNoFrames(s: seq<Led>, js: seq<int>)
    ensures Frames(s, Ons(js)) == []
    decreases |js|
  {
    if js != [] {
      var c := Ons(js);
      OnsNoFrames(s, js[..|js| - 1]);
      assert c[..|c| - 1] == Ons(js[..|js| - 1]);
    }
  }
}
