# BeautyLights in Dafny

A model of `BeautyLights`, the MicroPython driver for the four LEDs of a
PYBLITE v1.0 board (red, green, orange, blue at positions 0..3), and proofs
about the light effects it plays.

The driver object is the class `Lights.BeautyLights`. It holds the four LED
states in an `array<Led>` that its methods update in place, and the `trace`
of every command sent to the hardware so far. A command is `On(i)`, `Off(i)`,
`Intensity(i, v)` or `Delay(ms)`. The class invariant `Valid()` ties the two
together: the array always equals the replay `Exec` of the trace from the
LEDs' first state. There is one method per effect, and each states:

- the commands it appends, as a pure function of its arguments
  (`ExplodeRun`, `ScrollRun`, `JumpRun`, ...);
- the LED states it leaves behind.

The pure functions live in modules `Patterns`, `Fading`, `Randomness` and
`Ramps`. The lemmas there replay them:

- `Frames` gives what is showing while each delay elapses;
- `Delays` gives the delay lengths;
- `Written` gives the brightness values written to each LED.

The lemmas prove what the driver's effects promise: which LEDs are lit
during each delay, the order they light in, the brightness ramps and their
bounds, the per-step delay, and that every run ends dark.

Modelling choices:

- **Deadline loops.** Every effect loops until `pyb.millis()` passes a
  deadline, checked only at the top of the `while`. The model takes the
  number of whole cycles that start, `cycles: nat`, as a parameter. Any
  `k >= 0` is possible.
- **Randomness.** `urandom` is an oracle: each loop iteration of
  `random_single` and `random_multiple` consumes one `Draw` of raw numbers.
  `RandInt(lo, hi, raw)` maps a raw number into `lo..hi`, and every value of
  the range is reachable (`RandIntCovers`). `Choice` maps one onto an LED
  position.
- **Errors.** `randint(0, delay)` with `random_delay` set and a negative
  `delay` raises `ValueError`, and the model returns that as an outcome
  (`Run`, `Outcome`). `implode` as written raises `NameError`, MicroPython's
  exception for a local read before assignment (CPython calls it
  `UnboundLocalError`); see "## Findings".
- **LED hardware.** `on()` lights an LED at brightness 255 and `off()`
  darkens it. `intensity(v)` clamps `v` into 0..255, and brightness 0 is
  dark (`Leds.LevelLed`).
- **Integer division.** `int(x / n)` truncates toward zero (`Patterns.TruncDiv`).
  The step counts are 3 for `explode`; 5 for `scroll`, `jump`, `scroll_fade`
  and `scroll_knigth`; 8 for `bounce`; 51 for `glow`; 102 for `swing`.

What the model keeps from the code as written:

- `jump`, `bounce`, `scroll_fade` and `scroll_knigth` accept `r2l` and
  ignore it. Their run functions do not depend on it.
- `scroll` has no `all_off()` after its loop. A run with no cycle leaves the
  LEDs as they were.
- `swing` with `r2l` plays its two halves in swapped order.
- A `heart_beat` beat does not switch the LEDs off between beats.

## Model

| member | source | states |
|---|---|---|
| Lights.BeautyLights.constructor | beautylights.py:25-34 | the driver takes hold of the four LEDs in whatever state they are, with nothing sent yet |
| Lights.BeautyLights.AllOff | beautylights.py:36-41 | switches red, green, orange, blue off in list order; afterwards every LED is dark |
| Lights.BeautyLights.AllOn | beautylights.py:43-48 | switches the four LEDs on in list order; afterwards every LED is lit at full brightness |
| Leds.AllOffIsDark | beautylights.py:36-41 | `all_off` leaves every LED dark from any state and takes no time |
| Leds.AllOnLightsAll | beautylights.py:43-48 | `all_on` lights all four LEDs from any state |
| Leds.AllOffCmds | beautylights.py:36-41 | the commands of `all_off`: `off()` on red, green, orange and blue, in list order; `Leds.AllOffIsDark` and `Leds.AllOffNoFrames` state what they do |
| Leds.AllOnCmds | beautylights.py:43-48 | the commands of `all_on`: `on()` on red, green, orange and blue, in list order; `Leds.AllOnLightsAll` states what they do |
| Leds.Ons | beautylights.py:262-263 | the `led.on()` calls of one fade window (also beautylights.py:291-292 and 299-300): exactly one `On` per listed LED, in the listed order |
| Leds.LevelLed | beautylights.py:328 | `intensity(v)`: the LED's brightness becomes `v` clamped into 0..255, and the LED is lit exactly when that brightness is above 0 |
| Leds.Step | beautylights.py:109-117 | one `on()`, `off()` or `intensity(v)` call changes only the LED it is made on, to lit, dark or the clamped level; `pyb.delay` changes nothing; the board keeps its four LEDs |
| Lights.BeautyLights.Emit | beautylights.py:109-111 | one call on the hardware (`led.on()`, `led.off()`, `led.intensity(v)` or `pyb.delay(ms)`) is appended to the trace, and the LED array becomes what that call makes of it |
| Lights.BeautyLights.Issue | beautylights.py:109-121 | the straight-line `on()`/`off()`/`pyb.delay` calls of one `explode` step (and of `implode`, beautylights.py:139-151) are appended to the trace in the order written, and the LED array follows them |
| Lights.BeautyLights.Walk | beautylights.py:172-176 | each LED of the order is switched on, held for the delay and, unless static, switched off, in order |
| Lights.BeautyLights.Blink | beautylights.py:173-176 | one LED on, the delay, then off unless static |
| Patterns.Flash | beautylights.py:173-176 | the commands of one LED's turn: `on()`, the delay, and `off()` unless static |
| Patterns.Sweep | beautylights.py:172-176 | the turns of every LED of the order, one after another |
| Patterns.WalkCycle | beautylights.py:172-178 | the turns of every LED of the order, then `all_off` and one more delay: a cycle of `scroll` and of `jump` |
| Patterns.SweepReplay | beautylights.py:172-176 | during delay `k` of a walk LED `order[k]` is lit; afterwards the walked LEDs are all on (static) or all off, the others unchanged |
| Patterns.TruncDiv | beautylights.py:106 | `int(a / n)`: the quotient truncated toward zero, with `abs(q) * n <= abs(a) < abs(q) * n + n` and the sign of `a` |
| Randomness.RandInt | beautylights.py:65 | `randint(lo, hi)` yields a value in `lo..hi` |
| Randomness.RandIntCovers | beautylights.py:65 | every value of `lo..hi` is drawn by some raw number |
| Randomness.Choice | beautylights.py:66 | `choice(leds)` picks one of the four LEDs |
| Randomness.NextDelay | beautylights.py:64-65 | with `random_delay` the new delay lies in `0..delay`; without it the delay is unchanged |
| Randomness.DrawnDelaysShape | beautylights.py:63-65 | with `random_delay` every drawn delay lies in `0..delay` and the delays never increase; without it every delay is `delay` |
| Randomness.DrawnDelays | beautylights.py:64-65 | the delay each round of a random effect waits: `randint(0, delay)` from the previous delay when `random_delay` is set, otherwise `delay`; a negative bound ends the list where `randint` raises. `Randomness.DrawnDelaysShape` states its bounds |
| Lights.BeautyLights.RandomSingle | beautylights.py:50-70 | the loop issues one flash per draw, then `all_off`; it raises `ValueError` instead when a negative delay is drawn from, and otherwise ends dark |
| Randomness.RandomSingleRaises | beautylights.py:63-65 | `random_single` raises exactly when `random_delay` is set, `delay < 0` and one iteration starts, before any LED command |
| Randomness.SingleLoop | beautylights.py:63-69 | the `while` loop of `random_single`, one iteration per draw: the new delay, the drawn LED on, the delay, the LED off; it stops with `ValueError` at the first draw from an empty delay range |
| Randomness.RandomSingleRun | beautylights.py:61-70 | `random_single`: its loop, then `all_off` unless the loop raised |
| Randomness.SingleLoopFrames | beautylights.py:63-69 | from a dark board exactly the drawn LED is lit during each iteration's delay |
| Randomness.SingleLoopDelays | beautylights.py:63-68 | the delays `random_single` waits are the drawn ones |
| Randomness.RandomSingleFrames | beautylights.py:61-70 | a completed `random_single` from a dark board lights exactly one LED per delay, the drawn one; its delays are the drawn ones, never increasing with `random_delay`; it ends dark |
| Lights.BeautyLights.RandomMultiple | beautylights.py:72-93 | the loop switches one drawn LED on or off per draw and waits, then `all_off`; it raises `ValueError` on a negative delay with `random_delay`, and otherwise ends dark |
| Lights.BeautyLights.TossOnce | beautylights.py:87-92 | one iteration: the drawn LED goes on when the coin is 0 and off otherwise, then the delay |
| Randomness.Coin | beautylights.py:88 | `randint(0, 1)` is 0 or 1 |
| Randomness.RandomMultipleRaises | beautylights.py:84-86 | `random_multiple` raises exactly when `random_delay` is set, `delay < 0` and one iteration starts, before any LED command |
| Randomness.Toss | beautylights.py:87-91 | the LED command of one iteration is an `on()` or `off()` of the drawn LED, `on()` exactly when the coin is 0 |
| Randomness.Tosses | beautylights.py:87-91 | the LED commands of successive iterations, without the delays between them |
| Randomness.TossesStep | beautylights.py:87-92 | one more iteration leaves the drawn LED as its coin says and every other LED as it was |
| Randomness.MultipleLoop | beautylights.py:84-92 | the `while` loop of `random_multiple`, one iteration per draw: the new delay, the drawn LED on or off by the coin, the delay; it stops with `ValueError` at the first draw from an empty delay range |
| Randomness.RandomMultipleRun | beautylights.py:82-93 | `random_multiple`: its loop, then `all_off` unless the loop raised |
| Randomness.MultipleLoopDelays | beautylights.py:84-92 | the delays `random_multiple` waits are the drawn ones |
| Randomness.MultipleLoopFrames | beautylights.py:84-92 | from any board, during iteration `i` the LEDs show exactly the LED commands of iterations `0 .. i` replayed on that board: nothing is switched off between iterations |
| Randomness.RandomMultipleFrames | beautylights.py:82-93 | a completed `random_multiple` shows during iteration `i` the LED commands of iterations `0 .. i` replayed: the drawn LED as its coin says, every other LED as in iteration `i - 1` (as on the starting board for `i = 0`); it waits the drawn delays (never increasing with `random_delay`) and ends dark |
| Randomness.MultipleAccumulates | beautylights.py:84-92 | LEDs are not switched off after their delay: two draws that switch red, then green on leave both lit |
| Lights.BeautyLights.Explode | beautylights.py:95-123 | `k` cycles with per-step delay `int(delay / 3)`, then `all_off`; the LEDs end dark |
| Lights.BeautyLights.ExplodeOnce | beautylights.py:109-121 | one cycle: green and orange on, delay; off, red and blue on, delay; off, delay |
| Patterns.Phase | beautylights.py:109-111 | some LED commands, then one delay: a step of `explode` or `implode` |
| Patterns.ExplodeCycle | beautylights.py:109-121 | the commands of one `explode` cycle: green and orange on; off, red and blue on; off; each phase followed by the delay |
| Patterns.ExplodeRun | beautylights.py:103-123 | `k` `explode` cycles with per-step delay `int(delay / 3)`, then `all_off` |
| Patterns.ExplodeCycleFrames | beautylights.py:109-121 | during one cycle's three delays exactly green and orange (plus red or blue left lit before), then exactly red and blue, then none are lit; the cycle ends dark |
| Patterns.ExplodeRunReplay | beautylights.py:103-123 | a run has three delays per cycle, each `int(delay / 3)`; from a dark board every cycle shows the same frames; the run ends dark from any state |
| Lights.BeautyLights.Implode | beautylights.py:125-153 | as written, `implode` raises `NameError` and changes nothing |
| Patterns.ImplodeRun | beautylights.py:133-136 | `implode` as written: no command, and the outcome `NameError` |
| Patterns.ImplodeNeverLights | beautylights.py:133-136 | as written, `implode` always raises before any frame, while the intended one shows three frames per cycle |
| Lights.BeautyLights.ImplodeIntended | beautylights.py:125-153 | the intended `implode`: `k` mirror cycles of `explode` with delay `int(speed / 3)`, then `all_off`; ends dark |
| Lights.BeautyLights.ImplodeOnce | beautylights.py:139-151 | one intended cycle: red and blue, then green and orange, then none, each for one delay |
| Patterns.ImplodeCycle | beautylights.py:139-151 | the commands of one intended `implode` cycle: red and blue on; off, green and orange on; off; each phase followed by the delay |
| Patterns.ImplodeIntendedRun | beautylights.py:133-153 | `k` intended `implode` cycles with per-step delay `int(speed / 3)`, then `all_off` |
| Patterns.ImplodeCycleFrames | beautylights.py:139-151 | the intended cycle shows exactly red and blue, then exactly green and orange, then nothing, and ends dark |
| Lights.BeautyLights.Scroll | beautylights.py:155-178 | `k` cycles with delay `int(speed / 5)`; with no final `all_off` the LEDs end dark after a cycle and unchanged after none |
| Patterns.ScrollOrder | beautylights.py:171 | `leds[::-1] if r2l else leds` |
| Patterns.ScrollCycle | beautylights.py:171-178 | one `scroll` cycle: a walk over that order, `all_off`, one more delay |
| Patterns.ScrollRun | beautylights.py:165-178 | `k` `scroll` cycles with delay `int(speed / 5)`, with no `all_off` after the loop |
| Lights.BeautyLights.ScrollCycles | beautylights.py:170-178 | the `while` loop of `scroll`: `k` walk cycles |
| Lights.BeautyLights.WalkOnce | beautylights.py:171-178 | one cycle: the walk, `all_off`, one more delay |
| Patterns.WalkCycleReplay | beautylights.py:171-178 | a walk cycle ends dark from any state, its last frame dark |
| Patterns.ScrollCycleFrames | beautylights.py:170-178 | from a dark board a cycle shows five frames of `d` each: LEDs 0,1,2,3 (3,2,1,0 with `r2l`) one at a time, or added one by one with static, then a dark one |
| Patterns.ScrollStaticLightsAll | beautylights.py:171-177 | with static, all four LEDs are on just before the cycle's `all_off`, from any state |
| Patterns.ScrollRunEnd | beautylights.py:165-178 | a run leaves every LED dark once a cycle has run, and the LEDs unchanged with no cycle |
| Patterns.Repeat | beautylights.py:108-121 | `k` copies of one cycle: the `while(pyb.millis() < until)` loop of every effect (also beautylights.py:138, 170, 195, 229, 258, 287, 324, 356, 411) with the clock replaced by a cycle count `k`; each effect first divides its speed by its step count (`Patterns.ExplodeSteps` 3, `ScrollSteps` 5, `BounceSteps` 8, `GlowSteps` 51, `SwingSteps` 102: beautylights.py:106, 168, 193, 227, 256, 285, 322, 354). `Patterns.RepeatFromDark`, `Patterns.RepeatSettled` and `Patterns.RepeatDelays` state what repeating does |
| Patterns.RepeatSettled | beautylights.py:356-382 | a cycle whose frames from its own end board are its frames from a dark board, repeated from dark, shows those frames once per cycle (the shape of `swing`, whose cycle does not end dark) |
| Patterns.ScrollRunFrames | beautylights.py:165-178 | from dark, the frames of a whole `scroll` run are the frames of one cycle once per cycle, and every delay is `int(speed / 5)` |
| Lights.ScrollShows | beautylights.py:170-178 | replayed after any earlier commands, a `scroll` run ends dark or, with no cycle, leaves the LEDs as they were |
| Lights.BeautyLights.Jump | beautylights.py:180-213 | `k` cycles with delay `int(speed / 5)`, then `all_off`; the LEDs end dark |
| Patterns.JumpCycle | beautylights.py:198-211 | one `jump` cycle: a walk in front-and-back order, `all_off`, one more delay |
| Patterns.JumpRun | beautylights.py:190-213 | `k` `jump` cycles with delay `int(speed / 5)`, then `all_off` |
| Lights.BeautyLights.JumpCycles | beautylights.py:195-211 | the `while` loop of `jump`: `k` front-and-back cycles |
| Lights.BeautyLights.JumpOnce | beautylights.py:198-211 | one cycle: the front-and-back walk, `all_off`, one more delay |
| Lights.BeautyLights.JumpSweep | beautylights.py:198-209 | popping the front then the back of a copy of the list flashes its LEDs in front-and-back order, in exactly two rounds and with no pop on an empty list |
| Patterns.FrontBack | beautylights.py:198-209 | the front-and-back order holds the same LEDs as the list, as many |
| Patterns.JumpOrder | beautylights.py:198-209 | the LEDs light in the order red, blue, green, orange (0,3,1,2) |
| Patterns.JumpCycleFrames | beautylights.py:198-211 | from a dark board a cycle shows 0,3,1,2 one at a time (added one by one with static), then a dark frame, each `d` long; it ends dark from any state |
| Patterns.JumpRunEnd | beautylights.py:190-213 | a `jump` run ends dark from any state |
| Patterns.JumpRunFrames | beautylights.py:190-213 | from dark, the frames of a whole `jump` run are the frames of one cycle once per cycle, and every delay is `int(speed / 5)` |
| Lights.BeautyLights.Bounce | beautylights.py:215-240 | `k` cycles with delay `int(speed / 8)`, then `all_off`; the LEDs end dark |
| Patterns.BounceCycle | beautylights.py:230-238 | one `bounce` cycle: a non-static walk along the list, then one along `reversed(leds)` |
| Patterns.BounceRun | beautylights.py:224-240 | `k` `bounce` cycles with delay `int(speed / 8)`, then `all_off` |
| Lights.BeautyLights.BounceOnce | beautylights.py:230-238 | one cycle: a walk along the list, then one along `reversed(leds)` |
| Patterns.BounceCycleFrames | beautylights.py:229-238 | from a dark board a cycle has eight delays, lighting exactly one LED each: 0,1,2,3 then 3,2,1,0 |
| Patterns.BounceEndsDark | beautylights.py:230-238 | a cycle ends dark from any state |
| Patterns.BounceRunEnd | beautylights.py:224-240 | a `bounce` run ends dark from any state |
| Patterns.BounceRunFrames | beautylights.py:224-240 | from dark, the frames of a whole `bounce` run are the frames of one cycle once per cycle, and every delay is `int(speed / 8)` |
| Lights.BeautyLights.ScrollFade | beautylights.py:242-267 | `k` cycles with delay `int(speed / 5)`, then `all_off`; the LEDs end dark |
| Lights.BeautyLights.FadeCycles | beautylights.py:258-265 | the `while` loop of `scroll_fade`: `k` fade sweeps |
| Lights.BeautyLights.FadeSweep | beautylights.py:259-265 | `range(0, len(leds) + fade)` steps over the order, none when that is not positive |
| Lights.BeautyLights.FadeOnce | beautylights.py:261-265 | one step: the window `order[index:i+1]` on, the delay, `all_off` |
| Lights.BeautyLights.LightAll | beautylights.py:262-263 | each LED of the window switched on, in order |
| Fading.Slice | beautylights.py:262 | Python's `xs[lo:hi]` for non-negative bounds, cut at the end of the list and empty when `lo` reaches `hi` or the end |
| Fading.SliceElements | beautylights.py:262 | a slice holds `min(hi, len(xs)) - lo` elements (none when that is not positive), the `k`-th being `xs[lo + k]` |
| Fading.FadeStart | beautylights.py:261 | `index = 0 if (i - fade <= 0) else i - fade` |
| Fading.Window | beautylights.py:261-262 | the LEDs a step lights: `order[index:i+1]` |
| Fading.StepCount | beautylights.py:259-260 | the number of steps `range(0, len(leds) + fade)` takes: `4 + fade`, or none when that is not positive |
| Fading.FadeStep | beautylights.py:261-265 | one step: the window on, the delay, `all_off` |
| Fading.FadeSteps | beautylights.py:260-265 | steps `0 .. n - 1` of a fade sweep over an order |
| Fading.FadeCycle | beautylights.py:259-265 | one `scroll_fade` cycle: a fade sweep over the list |
| Fading.ScrollFadeRun | beautylights.py:253-267 | `k` `scroll_fade` cycles with delay `int(speed / 5)`, then `all_off` |
| Fading.ScrollFadeRunFrames | beautylights.py:253-267 | from dark, the frames of a whole `scroll_fade` run are the frames of one cycle once per cycle (none when `fade` leaves no step), and every delay is `int(speed / 5)` |
| Fading.ForwardWindow | beautylights.py:261-262 | the window at step `i` holds exactly the positions `max(0, i - fade) .. min(i, 3)` |
| Fading.BackwardWindow | beautylights.py:296-299 | over the reversed list the window at step `i` holds the LEDs `3 - p` for `p` in `max(0, i - fade) .. min(i, 3)` |
| Fading.FadeStepReplay | beautylights.py:261-265 | a step shows its window for one delay and leaves every LED off, from any state |
| Fading.FadeStepsReplay | beautylights.py:260-265 | from a dark board step `i` shows exactly its window |
| Fading.ScrollFadeFrames | beautylights.py:258-265 | from a dark board a cycle has `4 + fade` delays of `d`; during step `i` exactly the LEDs `max(0, i - fade) .. min(i, 3)` are lit; the cycle ends dark from any state |
| Fading.FadeZeroIsScroll | beautylights.py:244-245 | with `fade = 0` a cycle shows the same four frames as a non-static `scroll` cycle, which adds a dark fifth |
| Lights.BeautyLights.ScrollKnight | beautylights.py:269-304 | `k` cycles with delay `int(speed / 5)`, then `all_off`; the LEDs end dark |
| Lights.BeautyLights.KnightCycles | beautylights.py:287-302 | the `while` loop of `scroll_knigth`: `k` cycles there and back |
| Lights.BeautyLights.KnightOnce | beautylights.py:288-302 | one cycle: a fade sweep along the list, then one along `leds[::-1]` |
| Fading.KnightCycle | beautylights.py:288-302 | one `scroll_knigth` cycle: a fade sweep along the list, then one along `leds[::-1]` |
| Fading.KnightRun | beautylights.py:282-304 | `k` `scroll_knigth` cycles with delay `int(speed / 5)`, then `all_off` |
| Fading.KnightRunFrames | beautylights.py:282-304 | from dark, the frames of a whole `scroll_knigth` run are the frames of one cycle once per cycle, and every delay is `int(speed / 5)` |
| Fading.KnightFrames | beautylights.py:287-302 | from a dark board a cycle has `2 (4 + fade)` delays: the `scroll_fade` windows, then the mirrored ones over the reversed list; it ends dark from any state |
| Fading.KnightZeroIsBounce | beautylights.py:272-273 | with `fade = 0` a cycle shows the same frames as a `bounce` cycle with the same step delay; for the same `speed` only the frames agree, not the timing, since `scroll_knigth` steps every `int(speed / 5)` and `bounce` every `int(speed / 8)` |
| Lights.BeautyLights.Glow | beautylights.py:306-337 | `k` cycles with delay `int(delay / 51)`, then `all_off`; the LEDs end dark |
| Lights.BeautyLights.GlowOnce | beautylights.py:326-335 | one cycle: the rising ramp, then `all_off` |
| Lights.BeautyLights.RampLoop | beautylights.py:326-333 | for each value of the ramp, blue then orange (as selected) get it, then the delay |
| Lights.BeautyLights.SetLevels | beautylights.py:327-330 | blue, then orange, get the brightness when selected |
| Ramps.Levels | beautylights.py:327-330 | the intensity writes of one ramp value: blue, then orange, each when selected |
| Ramps.RampCmds | beautylights.py:326-333 | each ramp value written to the selected LEDs, followed by the delay |
| Ramps.Ramp | beautylights.py:326-328 | the brightness values of one `for intensity in range(...)` loop: `n` values from `start` in steps of `stride`. `Ramps.Up`/`Ramps.Down` are the ramps of `glow` and `swing` (beautylights.py:326-328, 359-380); `Rise`, `Dip`, `Climb`, `Fall` the four ramps of `heart_beat` (beautylights.py:416-444). `Ramps.UpDown` and `Ramps.HeartShape` state their bounds and order |
| Ramps.GlowCycle | beautylights.py:326-335 | one `glow` cycle: the rising ramp, then `all_off` |
| Ramps.GlowRun | beautylights.py:319-337 | `k` `glow` cycles with delay `int(delay / 51)`, then `all_off` |
| Ramps.UpDown | beautylights.py:326-328 | the ramps `5 i` and `255 - 5 i` for `i` in `range(0, 52)`: 52 values from 0 to 255 and back, strictly monotone, within 0..255, adding up to 255 |
| Ramps.RampWritten | beautylights.py:326-333 | a ramp writes exactly its values to each selected LED and nothing to the others |
| Ramps.RampFrames | beautylights.py:326-333 | during the `n`-th delay of a ramp the selected LEDs show its `n`-th value and the others keep their state |
| Ramps.GlowWrites | beautylights.py:326-335 | a cycle writes 52 strictly increasing values 0..255 to each selected LED, ending at 255, never writes to an unselected one, and waits `d` after each value |
| Ramps.GlowFrames | beautylights.py:326-335 | during delay `n` the selected LEDs glow at `5 n` (dark at first, lit after); the cycle ends dark |
| Ramps.GlowRunReplay | beautylights.py:319-337 | a run ends dark from any state; every delay is `int(delay / 51)` |
| Lights.BeautyLights.Swing | beautylights.py:339-382 | `k` cycles with delay `int(delay / 102)`, then `all_off`; the LEDs end dark |
| Lights.BeautyLights.SwingOnce | beautylights.py:356-380 | one cycle: orange rises while blue falls, then the reverse; with `r2l` the halves are swapped |
| Lights.BeautyLights.SwingLoop | beautylights.py:371-374 | 52 steps: orange, then blue, get their values, then the delay |
| Ramps.SwingHalf | beautylights.py:371-374 | one half of a `swing` cycle: at step `k` orange, then blue, get their `k`-th values, then the delay |
| Ramps.SwingCycle | beautylights.py:356-380 | one `swing` cycle: orange rising with blue falling, then the reverse; with `r2l` the halves are swapped |
| Ramps.SwingRun | beautylights.py:351-382 | `k` `swing` cycles with delay `int(delay / 102)`, then `all_off` |
| Ramps.SwingHalfFrames | beautylights.py:371-374 | during step `k` of a half orange shows its `k`-th value and blue its own; red and green keep their state |
| Ramps.SwingBalanced | beautylights.py:356-380 | during each of a cycle's 104 delays the orange and blue brightness add up to 255, and red and green keep their state |
| Ramps.SwingMirror | beautylights.py:357-380 | the `r2l` cycle is the other cycle with its halves swapped: orange gets what blue gets without `r2l`, and the reverse |
| Ramps.SwingLeavesOthers | beautylights.py:356-380 | a cycle never writes to red or green |
| Ramps.SwingRunEnd | beautylights.py:351-382 | a `swing` run ends dark from any state |
| Ramps.SwingStep | beautylights.py:372-374 | one step of a `swing` half: orange's then blue's `intensity()`, then the delay (also beautylights.py:360-362, 366-368, 378-380); `Ramps.SwingStepReplay` states that it sets orange and blue and shows one frame |
| Ramps.PairAgrees | beautylights.py:372-374 | setting orange and blue leaves a board that depends only on its red and green |
| Ramps.HalfAgrees | beautylights.py:359-368 | a `swing` half shows the same frames from any two boards that agree on red and green, and leaves the same board, red and green kept |
| Ramps.CycleAgrees | beautylights.py:356-382 | a `swing` cycle shows the same frames and leaves the same board from any two boards that agree on red and green, and keeps red and green |
| Ramps.SwingRunFrames | beautylights.py:351-382 | from dark, the frames of a whole `swing` run are the frames of one cycle once per cycle, although a cycle leaves orange or blue at 255, and every delay is `int(delay / 102)` |
| Lights.BeautyLights.HeartBeat | beautylights.py:384-450 | `k` beats, then `all_off`; the LEDs end dark |
| Lights.BeautyLights.BeatOnce | beautylights.py:411-447 | one beat: a flat delay, the four ramps, a flat delay |
| Lights.BeautyLights.Pulse | beautylights.py:415-445 | the four ramps in order, each with its own step delay |
| Ramps.HeartLevels | beautylights.py:415-445 | the brightness values of one beat: 0 up to 150, down to 30, up to 255, down to 0, in steps of 5 |
| Ramps.Beat | beautylights.py:415-445 | the four ramps of a beat on the selected LEDs, each with its own step delay |
| Ramps.HeartCycle | beautylights.py:411-447 | one beat: a flat delay, the four ramps, a flat delay |
| Ramps.HeartBeatRun | beautylights.py:409-450 | `k` beats, then `all_off` |
| Ramps.HeartShape | beautylights.py:415-445 | 0 to 150 in 31 steps, 150 to 30 in 25, 30 to 255 in 46, 255 to 0 in 52, monotone, every value within 0..255 |
| Ramps.BeatWritten | beautylights.py:416-445 | the ramps write the beat's 154 values to each selected LED and nothing else |
| Ramps.HeartWritten | beautylights.py:411-447 | a beat writes the 154 values to each selected LED and nothing to the others |
| Ramps.HeartDelays | beautylights.py:411-447 | a beat waits: flat, then once per value with its ramp's delay, then flat |
| Ramps.HeartCycleReplay | beautylights.py:411-447 | a beat shows 156 frames, the first the board as it was; the selected LEDs end dark, the others unchanged |
| Ramps.HeartRunReplay | beautylights.py:409-450 | a run ends dark from any state; from a dark board every beat shows the same frames |

## Left out

- `pyb` is not part of this model. The LED behaviour is assumed: `on()` is
  brightness 255, `off()` is 0, and `intensity(v)` clamps to 0..255 with 0
  dark. Red and green are driven through `intensity` the same way, though
  the driver only calls it on orange and blue.
- `pyb.millis()` and the deadline are replaced by the number of cycles that
  start. A cycle is never cut short, and clock overrun or drift is not
  modelled.
- `pyb.delay` is a `Delay(ms)` entry in the trace. Nothing sleeps, and a
  negative delay is kept as a negative entry.
- `urandom` is an oracle of raw draws. No distribution or uniformity is
  modelled. `randint(0, delay)` with a negative `delay` raises
  `ValueError`; that is the only exception modelled for the two random
  effects.
- Lights.BeautyLights.HeartBeat: the sleep lengths of `heart_beat` are a
  `HeartTiming` parameter. The float divisions and the round-half-to-even of
  `round(delay / 6)`, `round((delay / 8) / 30)` and so on are not modelled.
  Only the brightness sequence and where each delay falls are.
- Patterns.TruncDiv: `int(x / n)` divides in floating point, and the
  PYBLITE's STM32F411 port of MicroPython uses single-precision floats. The
  model divides exactly, so it may differ once `abs(x)` exceeds about 2^24.
- Argument types are not checked. Non-integer speeds and delays, and
  non-boolean flags, are outside the model.
- The `__main__` block (beautylights.py:452-453) names an undefined class and
  is left out. So is the module metadata (beautylights.py:11-18).

## Findings

| source | as written | input that shows it | evidently intended | confidence | as-written member | corrected member |
|---|---|---|---|---|---|---|
| beautylights.py:136 | `implode(self, speed, duration)` computes `delay = int(delay/3)`. It reads the local `delay` before anything assigns it, so every call raises `NameError` (CPython: `UnboundLocalError`) before any LED command | `implode(300, 1000)` | `delay = int(speed/3)` and the mirror of `explode`: red and blue, then green and orange, then none, for `int(speed / 3)` each | high; not executed | Patterns.ImplodeNeverLights | Patterns.ImplodeCycleFrames |
