/** The stepping loop of the canvas: one call of `stepSimulation` per
    iteration, the sub-step counter that decides which calls are full
    simulation steps, and the frame pacing with its overrun counter. */
module Stepping {
  import opened Scene

  /** Wire animation sub-steps per full simulation step. */
  const SteppingRatio := 3

  /** Frame budget in ms: 1000 / 80 frames per second, truncated. */
  const Period := 12

  /** Sleepless iterations between two voluntary yields. */
  const NoDelaysPerYield := 6

  /** One `stepSimulation` call per module visual, in list order. */
  function ModuleSteps(mods: seq<ModuleUI>, mode: Mode): seq<Event>
  {
    seq(|mods|, i requires 0 <= i < |mods| => ModuleStep(mods[i].id, mode))
  }

  /** One `stepSimulation` call per wire visual, in list order. */
  function WireSteps(wires: seq<WireUI>, mode: Mode): seq<Event>
  {
    seq(|wires|, i requires 0 <= i < |wires| => WireStep(wires[i].id, mode))
  }

  /** What `stepSimulation` returns, given what the clock answered: true
      outside Simulation, and on a clock tick inside it. */
  predicate Stepped(mode: Mode, tick: bool)
  {
    mode != Simulation || tick
  }

  /** Whether `stepSimulation(stepping)` advances the simulation graph. */
  predicate FullStep(mode: Mode, stepping: int, tick: bool)
  {
    mode == Simulation && tick && stepping == SteppingRatio
  }

  /** The calls `stepSimulation(stepping)` makes, given the clock's answer
      `tick`: the clock is asked only in Simulation; the graph steps on a tick
      at a full-resolution boundary; module visuals step at such a boundary or
      outside Simulation; wire visuals step whenever the call returns true. */
  function StepEvents(mode: Mode, stepping: int, tick: bool, mods: seq<ModuleUI>, wires: seq<WireUI>): seq<Event>
  {
    (if mode == Simulation then [ClockTick(stepping != SteppingRatio)] else [])
    + (if FullStep(mode, stepping, tick) then [ManagerStep] else [])
    + (if Stepped(mode, tick) then
         (if stepping == SteppingRatio || mode != Simulation then ModuleSteps(mods, mode) else [])
         + WireSteps(wires, mode)
       else [])
  }

  /** Outside Simulation every visual steps and the clock is not asked; in
      Simulation the clock is asked first, flagged as a sub-step unless the
      counter is at its full-resolution value, and without a tick nothing
      else happens. */
  lemma StepEventsByMode(mode: Mode, stepping: int, tick: bool, mods: seq<ModuleUI>, wires: seq<WireUI>)
    ensures var r := StepEvents(mode, stepping, tick, mods, wires);
      && (mode != Simulation ==> r == ModuleSteps(mods, mode) + WireSteps(wires, mode))
      && (mode == Simulation ==> |r| > 0 && r[0] == ClockTick(stepping != SteppingRatio))
      && (mode == Simulation && !tick ==> r == [ClockTick(stepping != SteppingRatio)])
  {
  }

  /** The calls of one `stepSimulation` in three parts: the clock and graph
      calls, then the module visuals, then the wire visuals. */
  lemma StepEventsParts(mode: Mode, stepping: int, tick: bool, mods: seq<ModuleUI>, wires: seq<WireUI>)
    returns (head: seq<Event>, ms: seq<Event>, ws: seq<Event>)
    ensures StepEvents(mode, stepping, tick, mods, wires) == head + ms + ws
    ensures |head| <= 2 && forall i :: 0 <= i < |head| ==> head[i].ClockTick? || head[i].ManagerStep?
    ensures ManagerStep in head <==> FullStep(mode, stepping, tick)
    ensures ms == if Stepped(mode, tick) && (stepping == SteppingRatio || mode != Simulation) then ModuleSteps(mods, mode) else []
    ensures ws == if Stepped(mode, tick) then WireSteps(wires, mode) else []
  {
    head := (if mode == Simulation then [ClockTick(stepping != SteppingRatio)] else [])
            + (if FullStep(mode, stepping, tick) then [ManagerStep] else []);
    ms := if Stepped(mode, tick) && (stepping == SteppingRatio || mode != Simulation) then ModuleSteps(mods, mode) else [];
    ws := if Stepped(mode, tick) then WireSteps(wires, mode) else [];
  }

  /** The graph steps exactly on a tick at a full-resolution boundary; module
      visuals step when the graph does or outside Simulation; wire visuals
      step exactly when the call returns true. */
  lemma StepSimulationWhen(mode: Mode, stepping: int, tick: bool, mods: seq<ModuleUI>, wires: seq<WireUI>)
    ensures ManagerStep in StepEvents(mode, stepping, tick, mods, wires) <==> FullStep(mode, stepping, tick)
    ensures (exists i :: 0 <= i < |StepEvents(mode, stepping, tick, mods, wires)|
                          && StepEvents(mode, stepping, tick, mods, wires)[i].ModuleStep?)
            <==> |mods| > 0 && (mode != Simulation || (tick && stepping == SteppingRatio))
    ensures (exists i :: 0 <= i < |StepEvents(mode, stepping, tick, mods, wires)|
                          && StepEvents(mode, stepping, tick, mods, wires)[i].WireStep?)
            <==> |wires| > 0 && Stepped(mode, tick)
  {
    var r := StepEvents(mode, stepping, tick, mods, wires);
    var head, ms, ws := StepEventsParts(mode, stepping, tick, mods, wires);
    assert forall i :: 0 <= i < |r| ==> r[i] in head || r[i] in ms || r[i] in ws;
    if |mods| > 0 && (mode != Simulation || (tick && stepping == SteppingRatio)) {
      assert r[|head|].ModuleStep?;
    }
    if |wires| > 0 && Stepped(mode, tick) {
      assert r[|head| + |ms|].WireStep?;
    }
  }

  /** Every module visual steps before any wire visual. */
  lemma StepSimulationOrder(mode: Mode, stepping: int, tick: bool, mods: seq<ModuleUI>, wires: seq<WireUI>)
    ensures var r := StepEvents(mode, stepping, tick, mods, wires);
            forall i, j :: 0 <= i < j < |r| && r[i].WireStep? ==> !r[j].ModuleStep?
  {
    var head, ms, ws := StepEventsParts(mode, stepping, tick, mods, wires);
  }

  /** What the loop observes of the outside world in one iteration: the
      clock's answer, the time spent stepping and rendering, and (when it
      sleeps) the time the sleep actually took. */
  datatype Frame = Frame(tick: bool, work: int, slept: int)

  /** The loop's local counters between iterations. */
  datatype LoopState = LoopState(stepping: int, overSleep: int, noDelays: int)

  /** One iteration: the counter passed to `stepSimulation`, what it returned,
      whether it advanced the graph, whether a render was requested, the
      computed sleep time, and whether the loop yielded. */
  datatype Iteration = Iteration(stepping: int, stepped: bool, fullStep: bool, rendered: bool,
                                 sleepTime: int, yielded: bool)

  datatype Trace = Trace(state: LoopState, iterations: seq<Iteration>, events: seq<Event>)

  const Start := LoopState(SteppingRatio, 0, 0)

  /** One iteration of `run` from counters `s`. */
  function Advance(mode: Mode, renderAlways: bool, s: LoopState, f: Frame): (r: (LoopState, Iteration))
    ensures r.1.stepping == s.stepping && r.1.stepped == Stepped(mode, f.tick)
    ensures r.1.fullStep == FullStep(mode, s.stepping, f.tick)
    ensures r.0.stepping == NextStepping(r.1)
    ensures r.1.yielded ==> r.1.sleepTime <= 0 && r.0.noDelays == 0
    ensures r.1.sleepTime == Period - f.work - s.overSleep && r.0.overSleep == OverSleep(r.1, f)
  {
    var ret := Stepped(mode, f.tick);
    var st := if ret then s.stepping - 1 else s.stepping;
    var stepping := if st == 0 then SteppingRatio else st;
    var sleepTime := (Period - f.work) - s.overSleep;
    var it := Iteration(s.stepping, ret, FullStep(mode, s.stepping, f.tick), ret || renderAlways, sleepTime, false);
    if sleepTime > 0 then
      (LoopState(stepping, f.slept - sleepTime, s.noDelays), it)
    else if s.noDelays + 1 >= NoDelaysPerYield then
      (LoopState(stepping, 0, 0), it.(yielded := true))
    else
      (LoopState(stepping, 0, s.noDelays + 1), it)
  }

  /** The counter value after an iteration that was passed `it.stepping`. */
  function NextStepping(it: Iteration): (r: int)
    ensures 1 <= it.stepping <= SteppingRatio ==> 1 <= r <= SteppingRatio
    ensures !it.stepped && 1 <= it.stepping ==> r == it.stepping
    ensures it.stepped && it.stepping == 1 ==> r == SteppingRatio
  {
    var st := if it.stepped then it.stepping - 1 else it.stepping;
    if st == 0 then SteppingRatio else st
  }

  /** The run of the loop over `frames`: final counters, iterations, and the
      calls into collaborators. */
  function RunTrace(mode: Mode, renderAlways: bool, mods: seq<ModuleUI>, wires: seq<WireUI>, frames: seq<Frame>): (t: Trace)
    ensures |t.iterations| == |frames|
    decreases |frames|
  {
    if frames == [] then Trace(Start, [], [])
    else
      var prev := RunTrace(mode, renderAlways, mods, wires, frames[..|frames| - 1]);
      var f := frames[|frames| - 1];
      var (s, it) := Advance(mode, renderAlways, prev.state, f);
      Trace(s, prev.iterations + [it], prev.events + StepEvents(mode, prev.state.stepping, f.tick, mods, wires))
  }

  /** The run over one more frame is the run so far followed by one `Advance`. */
  lemma RunTraceStep(mode: Mode, renderAlways: bool, mods: seq<ModuleUI>, wires: seq<WireUI>, frames: seq<Frame>, k: nat)
    requires k < |frames|
    ensures var prev := RunTrace(mode, renderAlways, mods, wires, frames[..k]);
      var next := RunTrace(mode, renderAlways, mods, wires, frames[..k + 1]);
      && next.state == Advance(mode, renderAlways, prev.state, frames[k]).0
      && next.iterations == prev.iterations + [Advance(mode, renderAlways, prev.state, frames[k]).1]
      && next.events == prev.events + StepEvents(mode, prev.state.stepping, frames[k].tick, mods, wires)
  {
    assert frames[..k + 1][..k] == frames[..k];
  }

  /** The sub-step counter starts at 3, stays within 1..3, and each iteration
      passes on the counter the previous one left; the overrun counter stays
      below the yield threshold. */
  lemma {:induction false} RunTraceCounters(mode: Mode, renderAlways: bool, mods: seq<ModuleUI>, wires: seq<WireUI>, frames: seq<Frame>)
    ensures var t := RunTrace(mode, renderAlways, mods, wires, frames);
      && 1 <= t.state.stepping <= SteppingRatio
      && 0 <= t.state.noDelays < NoDelaysPerYield
      && (forall i :: 0 <= i < |frames| ==> 1 <= t.iterations[i].stepping <= SteppingRatio)
      && (|frames| > 0 ==> t.iterations[0].stepping == SteppingRatio)
      && (forall i :: 0 < i < |frames| ==> t.iterations[i].stepping == NextStepping(t.iterations[i - 1]))
      && (|frames| > 0 ==> t.state.stepping == NextStepping(t.iterations[|frames| - 1]))
    decreases |frames|
  {
    if frames != [] {
      var init := frames[..|frames| - 1];
      RunTraceCounters(mode, renderAlways, mods, wires, init);
      var t := RunTrace(mode, renderAlways, mods, wires, frames);
      var prev := RunTrace(mode, renderAlways, mods, wires, init);
      assert t.iterations[..|init|] == prev.iterations;
    }
  }

  /** How much the sleep of iteration `it` over frame `f` overran its
      request; the next iteration takes it out of its budget. An iteration
      that did not sleep carries nothing over. */
  function OverSleep(it: Iteration, f: Frame): int
  {
    if it.sleepTime > 0 then f.slept - it.sleepTime else 0
  }

  /** Drift correction: each iteration asks to sleep for what is left of the
      `Period` after its work, less what the previous sleep overran; the first
      iteration has nothing to correct. */
  lemma {:induction false} OverSleepCarried(mode: Mode, renderAlways: bool, mods: seq<ModuleUI>, wires: seq<WireUI>, frames: seq<Frame>)
    ensures var t := RunTrace(mode, renderAlways, mods, wires, frames);
      && (|frames| > 0 ==> t.iterations[0].sleepTime == Period - frames[0].work)
      && (forall k :: 0 < k < |frames| ==>
            t.iterations[k].sleepTime == Period - frames[k].work - OverSleep(t.iterations[k - 1], frames[k - 1]))
      && t.state.overSleep == (if frames == [] then 0 else OverSleep(t.iterations[|frames| - 1], frames[|frames| - 1]))
    decreases |frames|
  {
    if frames != [] {
      var init := frames[..|frames| - 1];
      OverSleepCarried(mode, renderAlways, mods, wires, init);
      var t := RunTrace(mode, renderAlways, mods, wires, frames);
      var prev := RunTrace(mode, renderAlways, mods, wires, init);
      assert t.iterations[..|init|] == prev.iterations;
    }
  }

  /** The number of elements of `s` satisfying `p`. */
  function CountWhere<T>(s: seq<T>, p: T -> bool): nat
    decreases |s|
  {
    if s == [] then 0 else CountWhere(s[..|s| - 1], p) + (if p(s[|s| - 1]) then 1 else 0)
  }

  predicate IsTick(f: Frame) { f.tick }
  predicate IsFullStep(it: Iteration) { it.fullStep }
  predicate IsOverrun(it: Iteration) { it.sleepTime <= 0 }
  predicate IsYield(it: Iteration) { it.yielded }

  /** Counting over a sequence one element longer. */
  lemma CountWhereSnoc<T>(s: seq<T>, x: T, p: T -> bool)
    ensures CountWhere(s + [x], p) == CountWhere(s, p) + (if p(x) then 1 else 0)
  {
    assert (s + [x])[..|s + [x]| - 1] == s;
  }

  /** The counter and the full-step count after one more frame, as integer
      facts: with n ticks so far the counter is 3 - n % 3 and there have been
      ceil(n / 3) full steps. */
  lemma ThirdsAfterFrame(n: nat, n': nat, stepping: int, stepping': int, full: nat, full': nat, tick: bool)
    requires stepping == SteppingRatio - n % SteppingRatio
    requires full == (n + SteppingRatio - 1) / SteppingRatio
    requires n' == if tick then n + 1 else n
    requires stepping' == NextStepping(Iteration(stepping, tick, false, false, 0, false))
    requires full' == full + (if tick && stepping == SteppingRatio then 1 else 0)
    ensures stepping' == SteppingRatio - n' % SteppingRatio
    ensures full' == (n' + SteppingRatio - 1) / SteppingRatio
  {
    var q, r := n / SteppingRatio, n % SteppingRatio;
    assert n == SteppingRatio * q + r;
    if !tick {
      assert n' == n;
    } else if r == 0 {
      assert full == q && n' == SteppingRatio * q + 1;
      assert n' % SteppingRatio == 1 && (n' + SteppingRatio - 1) / SteppingRatio == q + 1;
    } else if r == 1 {
      assert full == q + 1 && n' == SteppingRatio * q + 2;
      assert n' % SteppingRatio == 2 && (n' + SteppingRatio - 1) / SteppingRatio == q + 1;
    } else {
      assert full == q + 1 && n' == SteppingRatio * (q + 1);
      assert n' % SteppingRatio == 0 && (n' + SteppingRatio - 1) / SteppingRatio == q + 1;
    }
  }

  /** In Simulation, after `T` clock ticks the counter is 3 - T % 3, and the
      graph has advanced on the 1st, 4th, 7th, ... tick: ceil(T / 3) times.
      The other ticks only animate the wires. */
  lemma {:induction false} FullStepEveryThirdTick(renderAlways: bool, mods: seq<ModuleUI>, wires: seq<WireUI>, frames: seq<Frame>)
    ensures var t := RunTrace(Simulation, renderAlways, mods, wires, frames);
      && t.state.stepping == SteppingRatio - CountWhere(frames, IsTick) % SteppingRatio
      && CountWhere(t.iterations, IsFullStep) == (CountWhere(frames, IsTick) + SteppingRatio - 1) / SteppingRatio
    decreases |frames|
  {
    if frames != [] {
      var init, f := frames[..|frames| - 1], frames[|frames| - 1];
      FullStepEveryThirdTick(renderAlways, mods, wires, init);
      var t := RunTrace(Simulation, renderAlways, mods, wires, frames);
      var prev := RunTrace(Simulation, renderAlways, mods, wires, init);
      var it := Advance(Simulation, renderAlways, prev.state, f).1;
      CountWhereSnoc(prev.iterations, it, IsFullStep);
      assert NextStepping(it) == NextStepping(Iteration(prev.state.stepping, f.tick, false, false, 0, false));
      ThirdsAfterFrame(CountWhere(init, IsTick), CountWhere(frames, IsTick),
                       prev.state.stepping, t.state.stepping,
                       CountWhere(prev.iterations, IsFullStep), CountWhere(t.iterations, IsFullStep), f.tick);
    }
  }

  /** Outside Simulation every iteration steps all visuals and requests a
      render, and the graph never advances. */
  lemma {:induction false} OutsideSimulationAlwaysSteps(mode: Mode, renderAlways: bool, mods: seq<ModuleUI>, wires: seq<WireUI>, frames: seq<Frame>)
    requires mode != Simulation
    ensures forall i :: 0 <= i < |frames| ==>
      var it := RunTrace(mode, renderAlways, mods, wires, frames).iterations[i];
      it.stepped && it.rendered && !it.fullStep
    decreases |frames|
  {
    if frames != [] {
      var init := frames[..|frames| - 1];
      OutsideSimulationAlwaysSteps(mode, renderAlways, mods, wires, init);
      assert RunTrace(mode, renderAlways, mods, wires, frames).iterations[..|frames| - 1]
          == RunTrace(mode, renderAlways, mods, wires, init).iterations;
    }
  }

  /** The overrun counter is never reset by an iteration that sleeps, so the
      loop yields once per six overruns in total, consecutive or not, and the
      counter holds the overruns since the last yield. */
  lemma {:induction false} YieldsCountAllOverruns(mode: Mode, renderAlways: bool, mods: seq<ModuleUI>, wires: seq<WireUI>, frames: seq<Frame>)
    ensures var t := RunTrace(mode, renderAlways, mods, wires, frames);
      && CountWhere(t.iterations, IsYield) == CountWhere(t.iterations, IsOverrun) / NoDelaysPerYield
      && t.state.noDelays == CountWhere(t.iterations, IsOverrun) % NoDelaysPerYield
    decreases |frames|
  {
    if frames != [] {
      var init := frames[..|frames| - 1];
      YieldsCountAllOverruns(mode, renderAlways, mods, wires, init);
      var t := RunTrace(mode, renderAlways, mods, wires, frames);
      var prev := RunTrace(mode, renderAlways, mods, wires, init);
      var it := t.iterations[|frames| - 1];
      assert t.iterations == prev.iterations + [it];
      CountWhereSnoc(prev.iterations, it, IsYield);
      CountWhereSnoc(prev.iterations, it, IsOverrun);
      var o := CountWhere(prev.iterations, IsOverrun);
      assert o % NoDelaysPerYield == NoDelaysPerYield - 1 ==> (o + 1) / NoDelaysPerYield == o / NoDelaysPerYield + 1 && (o + 1) % NoDelaysPerYield == 0;
      assert o % NoDelaysPerYield < NoDelaysPerYield - 1 ==> (o + 1) / NoDelaysPerYield == o / NoDelaysPerYield && (o + 1) % NoDelaysPerYield == o % NoDelaysPerYield + 1;
    }
  }
}
