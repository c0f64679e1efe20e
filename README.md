# RunCat tray loop

A model of the animation loop of `runcat-rs`, a tray utility that shows a running
cat whose pace follows CPU usage. Each time the event loop wakes the closure in
`src/main.rs`, one tick does four things in this order:

1. **Frame.** If more than `interval` ms have passed since the last frame, it
   resets `current` to 0 once it has reached the frame count (5). It pushes frame
   `current` of the dark or the light icon set, as `is_dark` says. It increments
   `current` and shows the usage in the tooltip. Then it recomputes
   `interval = 200 / clamp(usage / 5, 1, 20)` and restarts the wait.
2. **CPU sample.** Once more than 3000 ms have passed since the last refresh,
   it refreshes the usage reading.
3. **Menu.** It takes at most one menu event. If that event is the Quit item's,
   it tells the loop to exit; otherwise it asks to be woken in 16 ms.
4. **Tray.** It takes at most one tray event. A left-button press flips the
   colour variant.

`tray.dfy` (module `Tray`) holds the values the loop receives from the tray and
menu libraries: icons, mouse and menu events, and the control flow.
`runcat.dfy` (module `RunCat`) holds the rest:

- `FrameTick`, `CpuTick`, `MenuTick` and `TrayTick` are the four parts as pure
  functions. Each sees only its own part of the state. `Step` composes them into
  one tick.
- Lemmas cover the interval formula, single ticks (`Step*`) and runs of ticks.
  `Shown` lists the frames shown over a run and `Run` gives the state after it.
- The class `Animator` holds the captured variables and mutates them in place.
  `Tick` runs the four parts in order, and its contract proves it equal to
  `Step`. A ghost counter `frameUpdates` records how many frames have been shown.

Time is a natural number of milliseconds. The CPU reading is a real number. The
reading a refresh would take is an input of the tick.

Two consequences of the code are easy to miss:

- `interval` is 200 ms only for usage up to 5%, because `usage / 5` is clamped
  at 1 (`src/main.rs:76`). At 10% usage it is already 100 ms (`NextInterval`).
- The wrap check and the push happen on the same tick (`src/main.rs:61-68`). The
  frames shown are 0, 1, 2, 3, 4, 0, ... with period five. `current` holds 5
  between ticks, but frame 5 is never shown (`ShownFromInitial`).

## Model

| member | source | states |
|---|---|---|
| `RunCat.Elapsed` | src/main.rs:60 | elapsed time is `now - since`, and zero if the clock reads earlier (saturating, as `Instant::elapsed`) |
| `RunCat.TruncMillis` | src/main.rs:60 | `interval as u128` is at most the interval and within 1 ms of it; it is 0 for a non-positive value |
| `RunCat.DueIffExceeds` | src/main.rs:60 | whole elapsed ms exceed the truncated interval exactly when they exceed the interval, so the cast never changes when a frame is due |
| `RunCat.Speed` | src/main.rs:76 | the speed divisor lies in [1, 20] and equals usage / 5 inside that range |
| `RunCat.NextInterval` | src/main.rs:76 | the new interval lies in [10, 200] ms; it is 200 for usage up to 5% and 10 from 100% on |
| `RunCat.IntervalInverse` | src/main.rs:76 | between the clamps, interval × usage = 1000, so usage 50 gives 20 ms |
| `RunCat.IntervalAntitone` | src/main.rs:76 | higher usage never gives a longer interval |
| `RunCat.Wrap` | src/main.rs:61-63 | the index used for the icon arrays is below the frame count; an index already below it is kept and one at or above it is reset to 0 |
| `RunCat.FrameTick` | src/main.rs:60-78 | a frame is shown exactly when due; the index shown is in bounds; the index is `Wrap(current)`; afterwards `current` is that index + 1 (at most 5), the wait restarts now, and the interval is `NextInterval(usage)`, in [10, 200]; a tick that is not due changes nothing |
| `RunCat.CpuTick` | src/main.rs:80-83 | the sample and its time change only when more than 3000 ms have passed, and then become the new reading and now |
| `RunCat.MenuTick` | src/main.rs:85-89 | exit is requested exactly when the event taken is the Quit item's; otherwise the loop waits until now + 16 ms |
| `RunCat.TrayTick` | src/main.rs:91-104 | the colour flips exactly when the event taken is a left-button press |
| `RunCat.Initial` | src/main.rs:52-56 | the loop starts with `current = 0` (so the first frame shown is 0), a 200 ms interval, both timers at the start time, the first usage reading and the dark variant |
| `RunCat.ShowIcon` | src/main.rs:65-69 | an icon is pushed exactly when a frame is shown; it is the dark frame at that index when `is_dark` holds and the light frame otherwise |
| `RunCat.Step` | src/main.rs:57-105 | one whole tick: icon and tooltip are pushed exactly when the frame is due, exit exactly on Quit, the colour flips exactly on a left press; `StepShowsFrame`, `StepIdleFrame`, `StepEvents` and `StepOrthogonal` state the rest |
| `RunCat.StepShowsFrame` | src/main.rs:60-78 | icon and tooltip are pushed exactly on a due tick; the icon is the dark frame when `is_dark` holds and the light one otherwise, at the wrapped index; the tooltip reports the usage the new interval is computed from |
| `RunCat.StepIdleFrame` | src/main.rs:60-78 | when the interval has not passed, `current`, `update_time` and `interval` are unchanged and nothing is pushed |
| `RunCat.StepEvents` | src/main.rs:80-104 | over a whole tick, the colour flips iff there is a left press, exit iff Quit, and the sample changes only after the refresh period |
| `RunCat.StepOrthogonal` | src/main.rs:57-105 | the sampler's next state does not depend on the frame, colour or events, and the frame's next state depends only on the frame, the usage and the clock |
| `RunCat.AdvanceLast` | src/main.rs:61-71 | one more frame update leaves `current` one past the frame it shows |
| `RunCat.AdvanceRange` | src/main.rs:61-71 | after at least one frame update, `current` lies in [1, 5] |
| `RunCat.AdvanceCycle` | src/main.rs:61-71 | after k more frame updates, the frame shown is k steps on, modulo 5, from the frame shown now |
| `RunCat.ShownFromStart` | src/main.rs:52-71 | starting from `current = 0`, frame update number k shows frame k mod 5 |
| `RunCat.StepCountsFrames` | src/main.rs:52-71 | if `current` is where n updates leave it, a due tick shows frame n mod 5 and leaves `current` where n + 1 updates leave it; a tick that is not due leaves it alone |
| `RunCat.ShownCycles` | src/main.rs:57-78 | over any run of ticks, whatever their timing, the frames shown follow on cyclically from the frame the run starts at |
| `RunCat.ShownFromInitial` | src/main.rs:52-78 | from the initial state, the k-th frame shown is k mod 5: 0, 1, 2, 3, 4, 0, ... |
| `RunCat.RunColour` | src/main.rs:91-104 | after any run the colour variant is the initial one exactly when the run held an even number of left presses, so two presses restore it |
| `RunCat.Animator.constructor` | src/main.rs:52-56 | the loop starts at frame 0 with a 200 ms interval, both timers at the start time, and the dark variant |
| `RunCat.Animator.AdvanceFrame` | src/main.rs:60-78 | the in-place frame update equals `FrameTick`; it pushes the icon of the chosen variant at index (frames shown so far) mod 5 |
| `RunCat.Animator.RefreshCpu` | src/main.rs:80-83 | the in-place sampler update equals `CpuTick` |
| `RunCat.Animator.HandleTray` | src/main.rs:91-104 | the in-place colour update equals `TrayTick` |
| `RunCat.Animator.Tick` | src/main.rs:57-105 | one run of the closure gives the new state and the pushed icon, tooltip and control flow that `Step` gives; the frame counter grows by one exactly when an icon is pushed, and that icon is at index (earlier count) mod 5 |

## Left out

- The tray, menu and event-loop setup (`src/main.rs:17-30`) is OS plumbing over libraries this model does not include. The `tao` loop is left out too, including its stop after `ControlFlow::Exit`: the model returns the control flow but does not stop later ticks.
- `load_icon` and the icon file paths (`src/main.rs:16`, `36-50`, `108-118`) are file I/O and image decoding. The icon sets are two given sequences of five icons.
- The `sysinfo` measurement (`src/main.rs:32-34`, `73`, `81`) is a foreign call. The first reading is a constructor argument. The reading a refresh would take is a tick input.
- `f32` arithmetic is not modelled: the interval formula is computed over exact reals. There is no rounding, NaN or infinity, so a NaN usage (which `f32::max`/`min` would clamp) is not covered.
- The clock has whole-millisecond resolution and is read once per tick. The source reads `Instant::now()` separately at lines 58, 60, 77, 80 and 82, at nanosecond resolution.
- The tooltip text `CPU: {usage:.2}%` (`src/main.rs:74`) is float formatting. The model records the usage value shown.
- The results of `set_icon` and `set_tooltip` are ignored by the source. The model treats each push as an output that always happens.
- The event channels are treated as giving at most one event per tick, as an `Option`. Events left in a channel for later ticks are not modelled.
