/** The mode state machine of `changeMode`: which mode a request leads to, and
    which simulation entry or exit action runs on the way. */
module Modes {
  import opened Scene

  /** The mode after `changeMode(req)` is called in mode `cur`. */
  function NextMode(cur: Mode, req: Mode): (m: Mode)
    ensures cur == req ==> m == cur
    ensures req != Paused ==> m == req
    ensures req == Paused && cur != Paused ==> (m == Paused <==> cur == Simulation)
    ensures m == cur || m == req
  {
    if cur == req then cur
    else match req
      case WireCreation => req
      case Simulation => req
      case Edit => req
      case Paused => if cur == Simulation then req else cur
  }

  /** The simulation action `changeMode(req)` runs in mode `cur`, if any. */
  function EntryExit(cur: Mode, req: Mode): (r: seq<Event>)
    ensures |r| <= 1
    ensures cur == req ==> r == []
    ensures SimulationStarted in r <==> cur == Edit && req == Simulation
    ensures SimulationResumed in r <==> cur == Paused && req == Simulation
    ensures SimulationStopped in r <==> (cur == Simulation || cur == Paused) && req == Edit
    ensures SimulationPaused in r <==> cur == Simulation && req == Paused
    ensures forall e :: e in r ==> e.SimulationStarted? || e.SimulationResumed? || e.SimulationStopped? || e.SimulationPaused?
  {
    if cur == req then []
    else match req
      case WireCreation => []
      case Simulation =>
        if cur == Edit then [SimulationStarted]
        else if cur == Paused then [SimulationResumed]
        else []
      case Edit => if cur == Simulation || cur == Paused then [SimulationStopped] else []
      case Paused => if cur == Simulation then [SimulationPaused] else []
  }

  /** `updatePrivateData` on every wire visual, in list order. */
  function WireRefreshes(wires: seq<WireUI>): seq<Event>
  {
    seq(|wires|, i requires 0 <= i < |wires| => UpdatePrivateData(wires[i].id))
  }

  /** The calls the simulation actions `acts` make over the wire visuals
      `wires`: starting or resuming a session first refreshes every wire
      visual, the other actions are calls of their own. */
  function Performed(acts: seq<Event>, wires: seq<WireUI>): (r: seq<Event>)
    ensures |r| >= |acts| && r[|r| - |acts|..] == acts
    ensures forall i :: 0 <= i < |r| - |acts| ==> r[i].UpdatePrivateData?
  {
    if SimulationStarted in acts || SimulationResumed in acts then WireRefreshes(wires) + acts else acts
  }

  /** A wire visual is refreshed by a mode change exactly when the change
      opens a session: a start from Edit or a resume from Paused. */
  lemma {:induction false} RefreshExactlyWhenOpening(cur: Mode, req: Mode, wires: seq<WireUI>)
    ensures forall i :: 0 <= i < |wires| ==>
      (UpdatePrivateData(wires[i].id) in Performed(EntryExit(cur, req), wires) <==>
       req == Simulation && (cur == Edit || cur == Paused))
  {
    var acts := EntryExit(cur, req);
    if req == Simulation && (cur == Edit || cur == Paused) {
      forall i | 0 <= i < |wires|
        ensures UpdatePrivateData(wires[i].id) in Performed(acts, wires)
      {
        assert Performed(acts, wires)[i] == UpdatePrivateData(wires[i].id);
      }
    } else {
      assert Performed(acts, wires) == acts;
    }
  }

  /** Whether the stepping thread runs after `acts`, starting from `open`:
      a start or a resume creates it, a stop or a pause joins it. (The thread
      exists only when rendering is on demand; see `ManagerSimulating` for the
      simulation manager's own state.) */
  function SessionOpen(open: bool, acts: seq<Event>): bool
  {
    if SimulationStarted in acts || SimulationResumed in acts then true
    else if SimulationStopped in acts || SimulationPaused in acts then false
    else open
  }

  /** Mode and session state after the requests `reqs`, made one after another. */
  function Replay(cur: Mode, open: bool, reqs: seq<Mode>): (Mode, bool)
    decreases |reqs|
  {
    if reqs == [] then (cur, open)
    else Replay(NextMode(cur, reqs[0]), SessionOpen(open, EntryExit(cur, reqs[0])), reqs[1..])
  }

  /** The two transitions that change the mode across the Simulation boundary
      without any start or stop action: WireCreation to Simulation and
      Simulation to WireCreation. */
  predicate Bypasses(cur: Mode, req: Mode)
  {
    (cur == WireCreation && req == Simulation) || (cur == Simulation && req == WireCreation)
  }

  /** Whether no request in `reqs`, replayed from `cur`, bypasses the actions. */
  predicate NoBypass(cur: Mode, reqs: seq<Mode>)
    decreases |reqs|
  {
    reqs == [] || (!Bypasses(cur, reqs[0]) && NoBypass(NextMode(cur, reqs[0]), reqs[1..]))
  }

  /** Entry and exit actions keep "a session is open" equivalent to "the mode is
      Simulation", for every sequence of requests that avoids the two bypassing
      transitions. */
  lemma {:induction false} SessionMatchesMode(cur: Mode, open: bool, reqs: seq<Mode>)
    requires open <==> cur == Simulation
    requires NoBypass(cur, reqs)
    ensures Replay(cur, open, reqs).1 <==> Replay(cur, open, reqs).0 == Simulation
    decreases |reqs|
  {
    if reqs != [] {
      var next := NextMode(cur, reqs[0]);
      var acts := EntryExit(cur, reqs[0]);
      assert SessionOpen(open, acts) <==> next == Simulation;
      SessionMatchesMode(next, SessionOpen(open, acts), reqs[1..]);
    }
  }

  /** Whether the simulation manager's simulation is open after `acts`,
      starting from `open`: only a start (`initSimulation`) opens it and only
      a stop (`endSimulation`) closes it; pausing and resuming leave it. */
  function ManagerSimulating(open: bool, acts: seq<Event>): bool
  {
    if SimulationStarted in acts then true
    else if SimulationStopped in acts then false
    else open
  }

  /** The manager's state after the requests `reqs`, made one after another. */
  function ManagerReplay(cur: Mode, open: bool, reqs: seq<Mode>): bool
    decreases |reqs|
  {
    if reqs == [] then open
    else ManagerReplay(NextMode(cur, reqs[0]), ManagerSimulating(open, EntryExit(cur, reqs[0])), reqs[1..])
  }

  /** The transitions that leave Simulation or Paused, or enter Simulation,
      without a start or stop: the two bypasses, and Paused to WireCreation. */
  predicate ManagerBypasses(cur: Mode, req: Mode)
  {
    Bypasses(cur, req) || (cur == Paused && req == WireCreation)
  }

  predicate NoManagerBypass(cur: Mode, reqs: seq<Mode>)
    decreases |reqs|
  {
    reqs == [] || (!ManagerBypasses(cur, reqs[0]) && NoManagerBypass(NextMode(cur, reqs[0]), reqs[1..]))
  }

  /** The manager's simulation is open exactly in Simulation and Paused, for
      every sequence of requests that avoids the transitions without a start
      or stop action. */
  lemma {:induction false} ManagerMatchesMode(cur: Mode, open: bool, reqs: seq<Mode>)
    requires open <==> cur == Simulation || cur == Paused
    requires NoManagerBypass(cur, reqs)
    ensures var m := Replay(cur, open, reqs).0;
      ManagerReplay(cur, open, reqs) <==> m == Simulation || m == Paused
    decreases |reqs|
  {
    if reqs != [] {
      var next := NextMode(cur, reqs[0]);
      var acts := EntryExit(cur, reqs[0]);
      assert ManagerSimulating(open, acts) <==> next == Simulation || next == Paused;
      ManagerMatchesMode(next, ManagerSimulating(open, acts), reqs[1..]);
      assert Replay(cur, open, reqs).0 == Replay(next, SessionOpen(open, acts), reqs[1..]).0;
      ModeIgnoresFlag(next, SessionOpen(open, acts), ManagerSimulating(open, acts), reqs[1..]);
    }
  }

  /** The mode a replay reaches does not depend on the flag it starts with. */
  lemma {:induction false} ModeIgnoresFlag(cur: Mode, a: bool, b: bool, reqs: seq<Mode>)
    ensures Replay(cur, a, reqs).0 == Replay(cur, b, reqs).0
    decreases |reqs|
  {
    if reqs != [] {
      ModeIgnoresFlag(NextMode(cur, reqs[0]), SessionOpen(a, EntryExit(cur, reqs[0])),
                      SessionOpen(b, EntryExit(cur, reqs[0])), reqs[1..]);
    }
  }

  /** Pausing and resuming leave the manager's simulation open, and Paused to
      WireCreation runs no stop, so the manager keeps simulating in
      WireCreation. */
  lemma {:induction false} PauseKeepsManagerSimulating(open: bool)
    ensures ManagerReplay(Simulation, open, [Paused]) == open
    ensures ManagerReplay(Paused, open, [Simulation]) == open
    ensures ManagerReplay(Paused, true, [WireCreation]) && Replay(Paused, false, [WireCreation]).0 == WireCreation
  {
    assert [Paused][1..] == [] && [Simulation][1..] == [] && [WireCreation][1..] == [];
  }

  /** WireCreation to Simulation runs no start action: from WireCreation, a
      Simulation request reaches Simulation with the session as it was, so a
      closed session stays closed inside Simulation. */
  lemma {:induction false} WireCreationEntersSimulationUnstarted(open: bool)
    ensures Replay(WireCreation, open, [Simulation]) == (Simulation, open)
  {
    assert [Simulation][1..] == [];
  }

  /** Simulation to WireCreation runs no stop action: an open session stays
      open outside Simulation. */
  lemma {:induction false} SimulationLeavesSessionOpen(open: bool)
    ensures Replay(Simulation, open, [WireCreation]) == (WireCreation, open)
  {
    assert [WireCreation][1..] == [];
  }

  /** A Paused request is refused from every mode other than Simulation and
      Paused, and from Simulation it pauses the session. */
  lemma {:induction false} PausedOnlyFromSimulation(cur: Mode, open: bool)
    ensures cur != Simulation ==> Replay(cur, open, [Paused]) == (cur, open)
    ensures cur == Simulation ==> Replay(cur, open, [Paused]) == (Paused, false)
  {
    assert [Paused][1..] == [];
  }
}
