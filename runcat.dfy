/** The tray animation loop of `src/main.rs`: on every scheduler tick it may advance
    the cat animation by one frame (at a cadence derived from CPU usage), refresh
    the CPU sample every three seconds, stop on the Quit menu item and switch
    between the dark and light icon sets on a left click.

    The tick is specified by the pure function `Step`, built from four pieces that
    each see only their own part of the state; `Animator.Tick` is the imperative
    tick over mutable fields, proved equal to `Step`. */
module RunCat {
  import opened Tray

  /** Frames per colour variant: the length of `dark_cats` and of `light_cats`. */
  const FrameCount: nat := 5
  /** Interval (ms) at the slowest speed; also the interval before the first frame. */
  const BaseInterval: real := 200.0
  /** CPU percentage per unit of speed. */
  const SpeedScale: real := 5.0
  const MinSpeed: real := 1.0
  const MaxSpeed: real := 20.0
  /** Interval (ms) at the fastest speed: `BaseInterval / MaxSpeed`. */
  const FastestInterval: real := 10.0
  /** The CPU sample is refreshed once more than this many ms have passed. */
  const CpuRefreshPeriod: nat := 3000
  /** The loop asks to be woken this many ms after each tick. */
  const TickWait: nat := 16

  // ---------------------------------------------------------------------------
  // Time
  // ---------------------------------------------------------------------------

  /** Milliseconds from `since` to `now`; like `Instant::elapsed`, zero when the
      clock reads earlier than `since`. */
  function Elapsed(now: nat, since: nat): (e: nat)
    ensures since <= now ==> since + e == now
    ensures now <= since ==> e == 0
  {
    if since <= now then now - since else 0
  }

  /** The saturating cast `x as u128` of a non-NaN float: truncation toward zero,
      and zero for anything not positive. */
  function TruncMillis(x: real): (n: nat)
    ensures 0.0 <= x ==> n as real <= x < n as real + 1.0
    ensures x <= 0.0 ==> n == 0
  {
    if x <= 0.0 then 0 else x.Floor
  }

  /** Comparing whole elapsed milliseconds against the truncated interval decides
      exactly as comparing against the interval itself: truncation never delays
      or advances a frame at millisecond resolution. */
  lemma DueIffExceeds(e: nat, x: real)
    requires 0.0 <= x
    ensures e > TruncMillis(x) <==> e as real > x
  {
  }

  // ---------------------------------------------------------------------------
  // Interval formula
  // ---------------------------------------------------------------------------

  function Min(a: real, b: real): real { if a <= b then a else b }

  function Max(a: real, b: real): real { if a <= b then b else a }

  /** Animation speed: usage scaled down by `SpeedScale`, clamped to the speed range. */
  function Speed(usage: real): (s: real)
    ensures MinSpeed <= s <= MaxSpeed
    ensures MinSpeed <= usage / SpeedScale <= MaxSpeed ==> s == usage / SpeedScale
  {
    Max(MinSpeed, Min(MaxSpeed, usage / SpeedScale))
  }

  /** The interval recomputed after every frame: `200 / clamp(usage / 5, 1, 20)`.
      It stays between the fastest and the slowest interval, is the slowest for
      usage up to 5% and the fastest from 100% on. */
  function NextInterval(usage: real): (r: real)
    ensures FastestInterval <= r <= BaseInterval
    ensures usage <= SpeedScale * MinSpeed ==> r == BaseInterval
    ensures usage >= SpeedScale * MaxSpeed ==> r == FastestInterval
  {
    BaseInterval / Speed(usage)
  }

  /** Between the two clamps the interval is inversely proportional to usage:
      interval times usage is 1000 (so usage 50 gives 20 ms). */
  lemma IntervalInverse(usage: real)
    requires SpeedScale * MinSpeed <= usage <= SpeedScale * MaxSpeed
    ensures NextInterval(usage) * usage == 1000.0
    ensures usage == 50.0 ==> NextInterval(usage) == 20.0
  {
  }

  /** Dividing by a larger positive number gives a smaller quotient. */
  lemma DivAntitone(a: real, x: real, y: real)
    requires 0.0 < x <= y && 0.0 <= a
    ensures a / y <= a / x
  {
  }

  /** More CPU usage never slows the animation down. */
  lemma IntervalAntitone(u1: real, u2: real)
    requires u1 <= u2
    ensures NextInterval(u2) <= NextInterval(u1)
  {
    assert u1 / SpeedScale <= u2 / SpeedScale;
    DivAntitone(BaseInterval, Speed(u1), Speed(u2));
  }

  // ---------------------------------------------------------------------------
  // State of the loop and the four pieces of one tick
  // ---------------------------------------------------------------------------

  /** The two icon sets, dark and light, each indexed by frame number. */
  datatype Cats = Cats(dark: seq<Icon>, light: seq<Icon>) {
    ghost predicate Valid() {
      |dark| == FrameCount && |light| == FrameCount
    }

    /** The frame `i` of the variant `isDark` selects. */
    function Pick(isDark: bool, i: nat): Icon
      requires Valid() && i < FrameCount
    {
      if isDark then dark[i] else light[i]
    }
  }

  /** Frame machine: the next frame number, when the last frame was shown and the
      current wait between frames. */
  datatype Frame = Frame(current: nat, updateTime: nat, interval: real)

  /** CPU sampler: the last usage reading and when it was refreshed. */
  datatype Cpu = Cpu(usage: real, cpuTime: nat)

  datatype LoopState = LoopState(frame: Frame, cpu: Cpu, isDark: bool)

  /** What one tick observes: the clock, the usage a refresh would measure, and
      at most one event from each channel. */
  datatype TickInput = TickInput(
    now: nat,
    sample: real,
    menuEvent: Option<MenuEvent>,
    trayEvent: Option<TrayIconEvent>)

  /** What one tick does outside its state: the icon pushed to the tray, the
      usage shown in the tooltip, and the control flow handed back. */
  datatype TickOutput = TickOutput(icon: Option<Icon>, tooltip: Option<real>, flow: ControlFlow)

  /** The state before the first tick: frame 0, a 200 ms interval, dark icons. */
  function Initial(now: nat, usage: real): (s: LoopState)
    ensures s.frame.current <= FrameCount && Wrap(s.frame.current) == 0
    ensures FastestInterval <= s.frame.interval <= BaseInterval
    ensures s.frame.updateTime == s.cpu.cpuTime == now && s.cpu.usage == usage && s.isDark
  {
    LoopState(Frame(0, now, BaseInterval), Cpu(usage, now), true)
  }

  /** The frame number actually shown: the overflow value is reset to 0 first. */
  function Wrap(current: nat): (i: nat)
    ensures i < FrameCount
    ensures current < FrameCount ==> i == current
    ensures FrameCount <= current ==> i == 0
  {
    if FrameCount <= current then 0 else current
  }

  predicate FrameDue(f: Frame, now: nat) {
    Elapsed(now, f.updateTime) > TruncMillis(f.interval)
  }

  /** Frame piece: when more than the interval has passed, show frame
      `Wrap(current)`, move `current` one past it, recompute the interval from the
      usage and restart the wait; otherwise change nothing and show nothing. */
  function FrameTick(f: Frame, usage: real, now: nat): (r: (Frame, Option<nat>))
    ensures r.1.Some? <==> FrameDue(f, now)
    ensures r.1.None? ==> r.0 == f
    ensures r.1.Some? ==> r.1.value < FrameCount && r.0.current == r.1.value + 1 <= FrameCount
    ensures r.1.Some? ==> r.0.updateTime == now && FastestInterval <= r.0.interval <= BaseInterval
    ensures r.1.Some? ==> r.1.value == Wrap(f.current) && r.0.interval == NextInterval(usage)
  {
    if FrameDue(f, now) then
      var shown := Wrap(f.current);
      (Frame(shown + 1, now, NextInterval(usage)), Some(shown))
    else
      (f, None)
  }

  predicate CpuRefreshDue(c: Cpu, now: nat) {
    Elapsed(now, c.cpuTime) > CpuRefreshPeriod
  }

  /** CPU piece: take a new sample and restart the timer once more than the
      refresh period has passed. */
  function CpuTick(c: Cpu, now: nat, sample: real): (r: Cpu)
    ensures r != c ==> CpuRefreshDue(c, now) && r == Cpu(sample, now)
    ensures CpuRefreshDue(c, now) ==> r.cpuTime == now && r.usage == sample
  {
    if CpuRefreshDue(c, now) then Cpu(sample, now) else c
  }

  predicate QuitSelected(quitId: MenuId, ev: Option<MenuEvent>) {
    ev.Some? && ev.value.id == quitId
  }

  /** Menu piece: exit when the event taken is the Quit item's, otherwise wait
      one tick period. */
  function MenuTick(quitId: MenuId, ev: Option<MenuEvent>, now: nat): (flow: ControlFlow)
    ensures flow.Exit? <==> QuitSelected(quitId, ev)
    ensures flow.WaitUntil? ==> flow.deadline == now + TickWait
  {
    if QuitSelected(quitId, ev) then Exit else WaitUntil(now + TickWait)
  }

  /** A left-button press (button down) on the tray icon. */
  predicate IsLeftPress(ev: Option<TrayIconEvent>) {
    match ev
    case Some(Click(button, state)) => button == Left && state == Down
    case _ => false
  }

  /** Tray piece: flip the colour variant on a left press, keep it otherwise. */
  function TrayTick(isDark: bool, ev: Option<TrayIconEvent>): (r: bool)
    ensures r != isDark <==> IsLeftPress(ev)
  {
    if IsLeftPress(ev) then !isDark else isDark
  }

  /** The icon pushed for the frame shown, if any, in the variant `isDark` selects. */
  function ShowIcon(cats: Cats, isDark: bool, shown: Option<nat>): (icon: Option<Icon>)
    requires cats.Valid() && (shown.Some? ==> shown.value < FrameCount)
    ensures icon.Some? <==> shown.Some?
    ensures shown.Some? && isDark ==> icon.value == cats.dark[shown.value]
    ensures shown.Some? && !isDark ==> icon.value == cats.light[shown.value]
  {
    if shown.Some? then Some(cats.Pick(isDark, shown.value)) else None
  }

  /** One tick of the loop. The icon uses the colour from before this tick's
      click and the usage from before this tick's refresh, as the pieces run in
      the order frame, CPU, menu, tray. */
  function Step(cats: Cats, quitId: MenuId, s: LoopState, t: TickInput): (r: (LoopState, TickOutput))
    requires cats.Valid()
    ensures r.1.icon.Some? <==> FrameDue(s.frame, t.now)
    ensures r.1.tooltip.Some? <==> r.1.icon.Some?
    ensures r.1.flow.Exit? <==> QuitSelected(quitId, t.menuEvent)
    ensures r.0.isDark != s.isDark <==> IsLeftPress(t.trayEvent)
  {
    var (frame, shown) := FrameTick(s.frame, s.cpu.usage, t.now);
    var icon := ShowIcon(cats, s.isDark, shown);
    var tooltip := if shown.Some? then Some(s.cpu.usage) else None;
    var cpu := CpuTick(s.cpu, t.now, t.sample);
    var flow := MenuTick(quitId, t.menuEvent, t.now);
    var isDark := TrayTick(s.isDark, t.trayEvent);
    (LoopState(frame, cpu, isDark), TickOutput(icon, tooltip, flow))
  }

  // ---------------------------------------------------------------------------
  // Properties of one tick
  // ---------------------------------------------------------------------------

  /** An icon and a tooltip are pushed exactly on a due tick; the icon is the dark
      frame when the variant is dark and the light one otherwise, at an index in
      bounds, and the tooltip reports the usage the interval was computed from. */
  lemma StepShowsFrame(cats: Cats, quitId: MenuId, s: LoopState, t: TickInput)
    requires cats.Valid()
    ensures var (s', out) := Step(cats, quitId, s, t);
      && (out.icon.Some? <==> FrameDue(s.frame, t.now))
      && (out.tooltip.Some? <==> out.icon.Some?)
      && (out.icon.Some? ==>
            && Wrap(s.frame.current) < |cats.dark| == |cats.light|
            && out.icon.value == (if s.isDark then cats.dark else cats.light)[Wrap(s.frame.current)]
            && s'.frame.current == Wrap(s.frame.current) + 1
            && out.tooltip.value == s.cpu.usage
            && s'.frame.interval == NextInterval(s.cpu.usage))
  {
  }

  /** A tick that is not due leaves the frame machine as it was and pushes nothing. */
  lemma StepIdleFrame(cats: Cats, quitId: MenuId, s: LoopState, t: TickInput)
    requires cats.Valid()
    requires !FrameDue(s.frame, t.now)
    ensures var (s', out) := Step(cats, quitId, s, t);
      s'.frame == s.frame && out.icon == None && out.tooltip == None
  {
  }

  /** The colour flips exactly on a left press; exit is requested exactly on the
      Quit item; the CPU sample changes only after the refresh period. */
  lemma StepEvents(cats: Cats, quitId: MenuId, s: LoopState, t: TickInput)
    requires cats.Valid()
    ensures var (s', out) := Step(cats, quitId, s, t);
      && (s'.isDark != s.isDark <==> IsLeftPress(t.trayEvent))
      && (out.flow == Exit <==> QuitSelected(quitId, t.menuEvent))
      && (out.flow != Exit ==> out.flow == WaitUntil(t.now + TickWait))
      && (s'.cpu != s.cpu ==> Elapsed(t.now, s.cpu.cpuTime) > CpuRefreshPeriod && s'.cpu == Cpu(t.sample, t.now))
  {
  }

  /** The four pieces are independent: the CPU sampler ignores the frame machine,
      the colour and the events, and the frame machine ignores the colour, the
      events and the CPU timer (it reads only the current usage). */
  lemma StepOrthogonal(cats: Cats, quitId: MenuId, s1: LoopState, s2: LoopState, t1: TickInput, t2: TickInput)
    requires cats.Valid()
    ensures s1.cpu == s2.cpu && t1.now == t2.now && t1.sample == t2.sample ==>
      Step(cats, quitId, s1, t1).0.cpu == Step(cats, quitId, s2, t2).0.cpu
    ensures s1.frame == s2.frame && s1.cpu.usage == s2.cpu.usage && t1.now == t2.now ==>
      Step(cats, quitId, s1, t1).0.frame == Step(cats, quitId, s2, t2).0.frame
  {
  }

  // ---------------------------------------------------------------------------
  // Properties of a run of ticks
  // ---------------------------------------------------------------------------

  /** `current` after `k` frame updates starting from `current = c`. */
  function Advance(c: nat, k: nat): nat
    decreases k
  {
    if k == 0 then c else Advance(Wrap(c) + 1, k - 1)
  }

  /** One more update moves `current` one past the frame it shows. */
  lemma {:induction false} AdvanceLast(c: nat, k: nat)
    ensures Advance(c, k + 1) == Wrap(Advance(c, k)) + 1
    decreases k
  {
    if k > 0 {
      AdvanceLast(Wrap(c) + 1, k - 1);
    }
  }

  /** After at least one update `current` lies in [1, FrameCount]: the overflow
      value FrameCount is possible between ticks, never more. */
  lemma {:induction false} AdvanceRange(c: nat, k: nat)
    requires 0 < k
    ensures 1 <= Advance(c, k) <= FrameCount
    decreases k
  {
    if k > 1 {
      AdvanceRange(Wrap(c) + 1, k - 1);
    }
  }

  /** The frame shown after `k` further updates is `k` steps on, cyclically, from
      the frame shown now. */
  lemma {:induction false} AdvanceCycle(c: nat, k: nat)
    ensures Wrap(Advance(c, k)) == (Wrap(c) + k) % FrameCount
    decreases k
  {
    if k > 0 {
      var w := Wrap(c);
      AdvanceCycle(w + 1, k - 1);
      assert Wrap(w + 1) == (w + 1) % FrameCount;
      SuccMod(w, k - 1);
    }
  }

  /** `((w + 1) mod n + j) mod n == (w + j + 1) mod n` for the frame count n. */
  lemma SuccMod(w: nat, j: nat)
    ensures ((w + 1) % FrameCount + j) % FrameCount == (w + j + 1) % FrameCount
  {
  }

  /** Starting from the initial `current = 0`, the frame shown on update number
      `k` (counting from 0) is `k mod FrameCount`: 0, 1, 2, 3, 4, 0, 1, ... */
  lemma ShownFromStart(k: nat)
    ensures Wrap(Advance(0, k)) == k % FrameCount
  {
    AdvanceCycle(0, k);
  }

  /** If `current` is where `n` updates from the start leave it, a tick shows
      frame `n mod FrameCount` and leaves `current` where `n + 1` updates leave it,
      or shows nothing and leaves `current` alone. */
  lemma StepCountsFrames(cats: Cats, quitId: MenuId, s: LoopState, t: TickInput, n: nat)
    requires cats.Valid()
    requires s.frame.current == Advance(0, n)
    ensures var (s', out) := Step(cats, quitId, s, t);
      && (out.icon.Some? ==>
            && s'.frame.current == Advance(0, n + 1)
            && out.icon.value == cats.Pick(s.isDark, n % FrameCount))
      && (out.icon.None? ==> s'.frame.current == Advance(0, n))
  {
    ShownFromStart(n);
    AdvanceLast(0, n);
  }

  /** The state after a sequence of ticks. Quit does not change the state, so this
      is the state of the loop at the tick where it stops, too. */
  function Run(cats: Cats, quitId: MenuId, s: LoopState, ts: seq<TickInput>): LoopState
    requires cats.Valid()
    decreases |ts|
  {
    if ts == [] then s else Run(cats, quitId, Step(cats, quitId, s, ts[0]).0, ts[1..])
  }

  /** The frame numbers shown over a sequence of ticks, in order. */
  function Shown(cats: Cats, quitId: MenuId, s: LoopState, ts: seq<TickInput>): seq<nat>
    requires cats.Valid()
    decreases |ts|
  {
    if ts == [] then []
    else
      var (frame, shown) := FrameTick(s.frame, s.cpu.usage, ts[0].now);
      (if shown.Some? then [shown.value] else [])
        + Shown(cats, quitId, Step(cats, quitId, s, ts[0]).0, ts[1..])
  }

  /** `n` frame numbers counting cyclically from `w`. */
  function Cycle(w: nat, n: nat): seq<nat> {
    seq(n, j => (w + j) % FrameCount)
  }

  /** Over any run, whatever the timing, the frames shown follow each other
      cyclically from the frame the run starts at. */
  lemma {:induction false} ShownCycles(cats: Cats, quitId: MenuId, s: LoopState, ts: seq<TickInput>)
    requires cats.Valid()
    ensures Shown(cats, quitId, s, ts) == Cycle(Wrap(s.frame.current), |Shown(cats, quitId, s, ts)|)
    decreases |ts|
  {
    if ts != [] {
      var s' := Step(cats, quitId, s, ts[0]).0;
      var rest := Shown(cats, quitId, s', ts[1..]);
      ShownCycles(cats, quitId, s', ts[1..]);
      if FrameDue(s.frame, ts[0].now) {
        var w := Wrap(s.frame.current);
        assert Wrap(s'.frame.current) == (w + 1) % FrameCount;
        var all := Shown(cats, quitId, s, ts);
        assert all == [w] + rest;
        forall j | 0 <= j < |all|
          ensures all[j] == Cycle(w, |all|)[j]
        {
          if j > 0 {
            SuccMod(w, j - 1);
          } else {
            assert w % FrameCount == w;
          }
        }
      }
    }
  }

  /** From the start of the program the frames shown are 0, 1, 2, 3, 4, 0, 1, ...:
      the k-th frame shown (from 0) is k mod FrameCount. */
  lemma ShownFromInitial(cats: Cats, quitId: MenuId, now: nat, usage: real, ts: seq<TickInput>, k: nat)
    requires cats.Valid()
    requires k < |Shown(cats, quitId, Initial(now, usage), ts)|
    ensures Shown(cats, quitId, Initial(now, usage), ts)[k] == k % FrameCount
  {
    ShownCycles(cats, quitId, Initial(now, usage), ts);
  }

  /** The number of left presses among the ticks' tray events. */
  function LeftPresses(ts: seq<TickInput>): nat
    decreases |ts|
  {
    if ts == [] then 0 else (if IsLeftPress(ts[0].trayEvent) then 1 else 0) + LeftPresses(ts[1..])
  }

  /** After a run the colour variant is the initial one exactly when the run held
      an even number of left presses: every press toggles, nothing else does, and
      two presses restore the original variant. */
  lemma {:induction false} RunColour(cats: Cats, quitId: MenuId, s: LoopState, ts: seq<TickInput>)
    requires cats.Valid()
    ensures Run(cats, quitId, s, ts).isDark == (s.isDark == (LeftPresses(ts) % 2 == 0))
    decreases |ts|
  {
    if ts != [] {
      var s' := Step(cats, quitId, s, ts[0]).0;
      RunColour(cats, quitId, s', ts[1..]);
    }
  }

  // ---------------------------------------------------------------------------
  // The loop's captured variables, updated in place by each tick
  // ---------------------------------------------------------------------------

  /** The variables the event-loop closure captures and mutates, with the icon
      sets and the Quit item's identity it reads. `frameUpdates` counts the frames
      shown so far. */
  class Animator {
    const cats: Cats
    const quitId: MenuId
    var current: nat
    var updateTime: nat
    var interval: real
    var cpuTime: nat
    /** The usage the system sampler currently reports. */
    var usage: real
    var isDark: bool
    ghost var frameUpdates: nat

    ghost function State(): LoopState
      reads this
    {
      LoopState(Frame(current, updateTime, interval), Cpu(usage, cpuTime), isDark)
    }

    ghost predicate Valid()
      reads this
    {
      && cats.Valid()
      && current == Advance(0, frameUpdates)
      && current <= FrameCount
      && (0 < frameUpdates ==> 1 <= current)
      && FastestInterval <= interval <= BaseInterval
    }

    /** The state set up before the loop starts, at clock reading `now` with the
        sampler's first reading `usage`. */
    constructor (cats: Cats, quitId: MenuId, now: nat, usage: real)
      requires cats.Valid()
      ensures Valid() && this.cats == cats && this.quitId == quitId
      ensures State() == Initial(now, usage) && frameUpdates == 0
    {
      this.cats := cats;
      this.quitId := quitId;
      current := 0;
      updateTime := now;
      interval := BaseInterval;
      cpuTime := now;
      this.usage := usage;
      isDark := true;
      frameUpdates := 0;
    }

    /** The frame part of a tick: once more than the interval has passed, show
        the next frame in the current variant, advance `current`, report the usage
        in the tooltip, recompute the interval and restart the wait. */
    method AdvanceFrame(now: nat) returns (icon: Option<Icon>, tooltip: Option<real>)
      requires Valid()
      modifies this`current, this`updateTime, this`interval, this`frameUpdates
      ensures Valid()
      ensures var (f, shown) := FrameTick(old(State()).frame, usage, now);
        && State().frame == f
        && icon == ShowIcon(cats, isDark, shown)
        && tooltip == (if shown.Some? then Some(usage) else None)
      ensures frameUpdates == old(frameUpdates) + (if icon.Some? then 1 else 0)
      ensures icon.Some? ==> icon.value == cats.Pick(isDark, old(frameUpdates) % FrameCount)
    {
      icon, tooltip := None, None;
      if Elapsed(now, updateTime) > TruncMillis(interval) {
        ShownFromStart(frameUpdates);
        AdvanceLast(0, frameUpdates);
        if |cats.dark| <= current {
          current := 0;
        }
        if isDark {
          icon := Some(cats.dark[current]);
        } else {
          icon := Some(cats.light[current]);
        }
        current := current + 1;
        var cpuUsage := usage;
        tooltip := Some(cpuUsage);
        interval := NextInterval(cpuUsage);
        updateTime := now;
        frameUpdates := frameUpdates + 1;
      }
    }

    /** The sampler part of a tick: take the reading `sample` once more than the
        refresh period has passed since the last one. */
    method RefreshCpu(now: nat, sample: real)
      requires Valid()
      modifies this`usage, this`cpuTime
      ensures Valid()
      ensures State().cpu == CpuTick(old(State()).cpu, now, sample)
    {
      if Elapsed(now, cpuTime) > CpuRefreshPeriod {
        usage := sample;
        cpuTime := now;
      }
    }

    /** The tray part of a tick: a left press flips the colour variant. */
    method HandleTray(ev: Option<TrayIconEvent>)
      requires Valid()
      modifies this`isDark
      ensures Valid()
      ensures isDark == TrayTick(old(isDark), ev)
    {
      if ev.Some? {
        match ev.value
        case Click(button, buttonState) =>
          if button == Left && buttonState == Down {
            isDark := !isDark;
          }
        case Other =>
      }
    }

    /** One run of the loop closure: the frame, sampler, menu and tray parts in
        that order. */
    method Tick(t: TickInput) returns (out: TickOutput)
      requires Valid()
      modifies this
      ensures Valid()
      ensures (State(), out) == Step(cats, quitId, old(State()), t)
      ensures frameUpdates == old(frameUpdates) + (if out.icon.Some? then 1 else 0)
      ensures out.icon.Some? ==> out.icon.value == cats.Pick(old(isDark), old(frameUpdates) % FrameCount)
    {
      var flow := WaitUntil(t.now + TickWait);
      var icon, tooltip := AdvanceFrame(t.now);
      RefreshCpu(t.now, t.sample);
      if t.menuEvent.Some? {
        if t.menuEvent.value.id == quitId {
          flow := Exit;
        }
      }
      HandleTray(t.trayEvent);
      out := TickOutput(icon, tooltip, flow);
    }
  }
}
