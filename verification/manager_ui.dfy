/** The canvas of the simulator (ManagerUI): its mode, the parallel lists of
    modules and wires with their visuals, the registered handles, the pending
    placement buffer, and the operations that edit them, each proved against
    the specification functions of the other modules and the click
    specifications below. */
module Canvas {
  import opened Scene
  import opened Modes
  import opened Geometry
  import opened Handles
  import opened Clicks
  import opened Gestures
  import opened Stepping

  datatype Button = Primary | Middle | Secondary

  /** A mouse click: button, position, time stamp, and whether Shift is down. */
  datatype MouseEvent = MouseEvent(button: Button, at: Point, when: int, shift: bool)

  /** What the collaborators answer during one click: the hit tests of module
      and wire visuals, the two handles the wire visual's `commit` returns,
      and the module the class loader puts into the buffer (None when loading
      or instantiating fails). */
  datatype Probe = Probe(hitModule: ModuleUI -> bool, hitWire: WireUI -> bool,
                         committed: (Handle, Handle), loaded: Option<(Module, ModuleUI)>)

  /** The part of the canvas a click can change, as a value: the click
      specifications below relate the snapshot before a click to the one after. */
  datatype Snapshot = Snapshot(
    mode: Mode, modules: seq<Module>, modulesUI: seq<ModuleUI>, wires: seq<Wire>, wiresUI: seq<WireUI>,
    handlesUI: seq<HandleUI>, selectionName: Option<string>,
    pendingModule: Option<Module>, pendingModuleUI: Option<ModuleUI>,
    pendingPort: Option<Port>, pendingWire: Option<Wire>, pendingWireUI: Option<WireUI>,
    pointer: Point, nextId: nat, log: seq<Event>)

  /** The buffered wire visual as a (possibly null) reference. */
  function WireRef(w: Option<WireUI>): Ref
  {
    if w.Some? then Obj(w.value.id) else Null
  }

  /** A wire is being drawn from a committed module: the wire half of the
      buffer is full and its port belongs to a module of the list. */
  predicate Ready(s: Snapshot)
  {
    |s.modules| == |s.modulesUI|
    && s.pendingPort.Some? && s.pendingWire.Some? && s.pendingWireUI.Some?
    && LastIndexOf(s.modules, s.pendingPort.value.owner) >= 0
  }

  /** The handle registered for the first handle `commit` returns: only a port
      handle is, owned by the visual of the module the wire starts from and
      given the identity `uid`. */
  function OriginHandles(s: Snapshot, h0: Handle, uid: nat): seq<HandleUI>
    requires Ready(s)
  {
    if h0.isPort then
      [HandleUI(uid, h0, Obj(s.modulesUI[LastIndexOf(s.modules, s.pendingPort.value.owner)].id), WireRef(s.pendingWireUI), Idle)]
    else []
  }

  /** The visual of module `k` with status `st`. */
  function WithStatus(s: Snapshot, k: nat, st: Status): Snapshot
    requires k < |s.modulesUI|
  {
    s.(modulesUI := s.modulesUI[k := s.modulesUI[k].(status := st)])
  }

  /** The wire being drawn is abandoned: the handles of its visual go, the
      wire half of the buffer empties and the mode is Edit. */
  function Abandoned(s: Snapshot): Snapshot
  {
    s.(mode := Edit, handlesUI := Without(s.handlesUI, WireRef(s.pendingWireUI)),
       pendingPort := None, pendingWire := None, pendingWireUI := None)
  }

  /** The buffered module is placed: it joins `modules` with the next sequence
      number, its visual joins `modulesUI` with a window, the module half of
      the buffer empties, the manager is told, and every visual is deselected. */
  function Placed(s: Snapshot): Snapshot
    requires s.pendingModule.Some? && s.pendingModuleUI.Some?
  {
    s.(modules := s.modules + [s.pendingModule.value.(sno := |s.modules| + 1)],
       modulesUI := Idled(s.modulesUI + [s.pendingModuleUI.value.(hasWindow := true)]),
       pendingModule := None, pendingModuleUI := None,
       log := s.log + [ManagerAddModule(s.pendingModule.value.id)])
  }

  /** A new port on module `k`, a new wire and its visual (without a window)
      fill the wire half of the buffer; the mode is WireCreation and `p` is
      remembered. */
  function WireBuffered(s: Snapshot, k: nat, p: Point): Snapshot
    requires k < |s.modules|
  {
    s.(mode := WireCreation, pendingPort := Some(Port(s.nextId, s.modules[k].id)),
       pendingWire := Some(Wire(s.nextId + 1)), pendingWireUI := Some(WireUI(s.nextId + 2, s.nextId + 1, false)),
       pointer := p, nextId := s.nextId + 3)
  }

  /** The scan of an Edit click with nothing to place: the hit visuals become
      Selected and the others Idle; each hit module buffers a wire in turn,
      so the wire of the last hit one stays in the buffer. */
  function WireStarted(s: Snapshot, p: Point, hit: ModuleUI -> bool): Snapshot
    requires |s.modules| == |s.modulesUI|
  {
    var marked := s.(modulesUI := Marked(s.modulesUI, hit));
    var k := LastHit(s.modulesUI, hit);
    if k < 0 then marked
    else WireBuffered(marked.(nextId := s.nextId + 3 * (Hits(s.modulesUI, hit) - 1)), k, p)
  }

  /** The state of the scan of `startWire` after its first `i` passes, with
      the module visuals `mods`. */
  function ScanState(s: Snapshot, mods: seq<ModuleUI>, i: nat, p: Point, hit: ModuleUI -> bool): Snapshot
    requires i <= |s.modulesUI| && |s.modules| == |s.modulesUI|
  {
    var k := LastHit(s.modulesUI[..i], hit);
    var m := s.(modulesUI := mods);
    if k < 0 then m else WireBuffered(m.(nextId := s.nextId + 3 * (Hits(s.modulesUI[..i], hit) - 1)), k, p)
  }

  /** One more pass of the scan buffers a wire exactly when visual `i` is hit. */
  lemma ScanStep(s: Snapshot, mods: seq<ModuleUI>, mods': seq<ModuleUI>, i: nat, p: Point, hit: ModuleUI -> bool)
    requires i < |s.modulesUI| && |s.modules| == |s.modulesUI|
    ensures var m := ScanState(s, mods, i, p, hit).(modulesUI := mods');
      ScanState(s, mods', i + 1, p, hit) == if hit(s.modulesUI[i]) then WireBuffered(m, i, p) else m
  {
    assert s.modulesUI[..i + 1][..i] == s.modulesUI[..i];
    assert s.modulesUI[..i + 1][i] == s.modulesUI[i];
  }

  /** The finished scan is the specification of the click. */
  lemma ScanDone(s: Snapshot, p: Point, hit: ModuleUI -> bool)
    requires |s.modules| == |s.modulesUI|
    ensures ScanState(s, Marked(s.modulesUI, hit), |s.modulesUI|, p, hit) == WireStarted(s, p, hit)
  {
    assert s.modulesUI[..|s.modulesUI|] == s.modulesUI;
  }

  /** The handles registered while drawing: the origin handle `h0`, if it
      stands on a port, then `h1` with the given owners, each a new record. */
  function HandlesAdded(s: Snapshot, h0: Handle, h1: Handle, owner: Ref, wireOwner: Ref): Snapshot
    requires Ready(s)
  {
    var o := OriginHandles(s, h0, s.nextId);
    s.(handlesUI := s.handlesUI + o + [HandleUI(s.nextId + |o|, h1, owner, wireOwner, Idle)],
       nextId := s.nextId + |o| + 1)
  }

  /** A click on empty space while drawing: the second handle `commit`
      returns is a routing point of the wire visual. */
  function RoutingPointAdded(s: Snapshot, c: (Handle, Handle)): Snapshot
    requires Ready(s)
  {
    HandlesAdded(s, c.0, c.1, WireRef(s.pendingWireUI), Null)
  }

  /** The wire joins the lists: the far port (identity `nextId`) on module
      `k`, the origin handle and the far handle (owned by module `k`'s
      visual) registered, the wire and its visual (now with a window)
      appended, and the four calls made. */
  function WireRegistered(s: Snapshot, k: nat, c: (Handle, Handle)): Snapshot
    requires Ready(s) && k < |s.modulesUI|
  {
    var from := s.pendingPort.value;
    var wire := s.pendingWire.value;
    var h := HandlesAdded(s.(nextId := s.nextId + 1), c.0, c.1, Obj(s.modulesUI[k].id), WireRef(s.pendingWireUI));
    h.(wires := s.wires + [wire], wiresUI := s.wiresUI + [s.pendingWireUI.value.(hasWindow := true)],
       log := s.log + [AddPort(from.owner, from.id), AddPort(s.modules[k].id, s.nextId),
                       WireAddPort(wire.id, s.nextId), ManagerAddWire(wire.id)])
  }

  /** A click on module `k`, not the origin: the visual goes Idle, the wire
      is registered, the buffer empties and the mode is Edit. */
  function WireCommitted(s: Snapshot, k: nat, c: (Handle, Handle)): Snapshot
    requires Ready(s) && k < |s.modulesUI|
  {
    WireRegistered(WithStatus(s, k, Idle), k, c).(mode := Edit, pendingPort := None, pendingWire := None, pendingWireUI := None)
  }

  /** Right click: in WireCreation every visual goes Idle and the wire is
      abandoned; in Edit the selection is forgotten and the module half of the
      buffer empties; otherwise nothing changes. */
  predicate RightClickSpec(s: Snapshot, t: Snapshot)
  {
    match s.mode
    case WireCreation => t == Abandoned(s.(modulesUI := Idled(s.modulesUI)))
    case Edit => t == s.(selectionName := None, pendingModule := None, pendingModuleUI := None)
    case _ => t == s
  }

  /** Middle click: in WireCreation the hit visuals start moving and, when
      one is hit, the wire half of the buffer empties and the mode is Edit
      (the drawn handles stay); in Edit a hit visual toggles moving and the
      others go Idle; otherwise nothing changes. */
  predicate MiddleClickSpec(s: Snapshot, t: Snapshot, hit: ModuleUI -> bool)
  {
    match s.mode
    case WireCreation =>
      var moved := s.(modulesUI := MovedIfHit(s.modulesUI, hit));
      t == if AnyHit(s.modulesUI, hit) then moved.(mode := Edit, pendingPort := None, pendingWire := None, pendingWireUI := None)
           else moved
    case Edit => t == s.(modulesUI := Toggled(s.modulesUI, hit))
    case _ => t == s
  }

  /** Double click: every visual goes Idle; in WireCreation the wire is
      abandoned and the windows of the hit modules come up; in every other
      mode the windows of the hit modules come up, or of the hit wires when
      no module is hit. */
  predicate DoubleClickSpec(s: Snapshot, t: Snapshot, hitModule: ModuleUI -> bool, hitWire: WireUI -> bool)
  {
    var idled := Idled(s.modulesUI);
    if s.mode == WireCreation then
      t == Abandoned(s.(modulesUI := idled)).(log := s.log + ModuleWindows(idled, hitModule))
    else
      t == s.(modulesUI := idled,
              log := s.log + if AnyHit(idled, hitModule) then ModuleWindows(idled, hitModule) else WireWindows(s.wiresUI, hitWire))
  }

  /** Single click in WireCreation: on empty space a routing point is added;
      on the module the wire starts from the wire is abandoned; on another
      module the wire is committed. The first hit visual decides. */
  predicate WireClickSpec(s: Snapshot, t: Snapshot, hit: ModuleUI -> bool, c: (Handle, Handle))
    requires Ready(s)
  {
    var k := FirstHit(s.modulesUI, hit);
    if k < 0 then t == RoutingPointAdded(s, c)
    else if s.pendingPort.value.owner == s.modules[k].id then t == Abandoned(WithStatus(s, k, Idle))
    else t == WireCommitted(s, k, c)
  }

  /** Shift can load the selected module kind: only with a selection and an
      empty module buffer. */
  predicate Loadable(s: Snapshot)
  {
    s.selectionName.Some? && s.pendingModule.None? && s.pendingModuleUI.None?
  }

  /** The first step of an Edit click: with Shift, a loadable selection puts
      the loaded module into the buffer, its visual at `p`; without Shift,
      the selection is forgotten. */
  function Loaded(s: Snapshot, p: Point, shift: bool, loaded: Option<(Module, ModuleUI)>): Snapshot
  {
    if !shift then s.(selectionName := None)
    else if Loadable(s) && loaded.Some? then
      s.(pendingModule := Some(loaded.value.0), pendingModuleUI := Some(loaded.value.1.(at := p)))
    else s
  }

  /** Single click in Edit: a failed load aborts the click; otherwise, after
      the first step, a full module buffer is placed, and an empty one starts
      a wire from the modules under the pointer. */
  predicate EditClickSpec(s: Snapshot, t: Snapshot, p: Point, shift: bool, hit: ModuleUI -> bool,
                          loaded: Option<(Module, ModuleUI)>)
    requires |s.modules| == |s.modulesUI|
  {
    if shift && Loadable(s) && loaded.None? then t == s
    else
      var b := Loaded(s, p, shift, loaded);
      if b.pendingModule.Some? && b.pendingModuleUI.Some? then t == Placed(b) else t == WireStarted(b, p, hit)
  }

  /** What a click needs of the canvas: parallel module lists, and a wire
      being drawn from a committed module when a single primary click arrives
      in WireCreation. */
  predicate ClickDefined(s: Snapshot, before: ClickState, e: MouseEvent)
  {
    |s.modules| == |s.modulesUI|
    && (e.button == Primary && s.mode == WireCreation && !IsDouble(before, e.at.x, e.at.y, e.when) ==> Ready(s))
  }

  /** Primary click: the recogniser, in state `before`, decides between the
      double click and the single click of the current mode; a single click
      in Simulation or Paused does nothing. */
  predicate PrimaryClickSpec(s: Snapshot, t: Snapshot, before: ClickState, e: MouseEvent, probe: Probe)
    requires ClickDefined(s, before, e) && e.button == Primary
  {
    if IsDouble(before, e.at.x, e.at.y, e.when) then DoubleClickSpec(s, t, probe.hitModule, probe.hitWire)
    else match s.mode
      case WireCreation => WireClickSpec(s, t, probe.hitModule, probe.committed)
      case Edit => EditClickSpec(s, t, e.at, e.shift, probe.hitModule, probe.loaded)
      case _ => t == s
  }

  /** mouseClicked: the button selects the gesture. */
  predicate ClickSpec(s: Snapshot, t: Snapshot, before: ClickState, e: MouseEvent, probe: Probe)
    requires ClickDefined(s, before, e)
  {
    match e.button
    case Secondary => RightClickSpec(s, t)
    case Middle => MiddleClickSpec(s, t, probe.hitModule)
    case Primary => PrimaryClickSpec(s, t, before, e, probe)
  }

  /** What every click keeps: the module and wire lists only grow, by one at
      the end; nothing but the module statuses and the windows changes in
      Simulation or Paused; the mode stays, returns to Edit, or goes from Edit
      to WireCreation; and a wire being drawn is always drawn from a
      committed module. */
  lemma {:induction false} ClickInvariants(s: Snapshot, t: Snapshot, before: ClickState, e: MouseEvent, probe: Probe)
    requires ClickDefined(s, before, e) && ClickSpec(s, t, before, e, probe)
    ensures |t.modules| == |t.modulesUI|
    ensures t.modules == s.modules || (|t.modules| == |s.modules| + 1 && t.modules[..|s.modules|] == s.modules)
    ensures t.wires == s.wires || (s.pendingWire.Some? && t.wires == s.wires + [s.pendingWire.value])
    ensures s.mode == Simulation || s.mode == Paused ==>
      t.mode == s.mode && t.modules == s.modules && t.wires == s.wires && t.handlesUI == s.handlesUI && t.nextId == s.nextId
    ensures t.mode == s.mode || t.mode == Edit || (s.mode == Edit && t.mode == WireCreation)
    ensures (s.mode == WireCreation ==> Ready(s)) ==> (t.mode == WireCreation ==> Ready(t))
  {
    if e.button == Primary && !IsDouble(before, e.at.x, e.at.y, e.when) && s.mode == Edit {
      EditClickInvariants(s, t, e.at, e.shift, probe.hitModule, probe.loaded);
    }
  }

  /** The Edit single click: it places at most the one buffered module, and a
      wire it starts is drawn from a committed module. */
  lemma EditClickInvariants(s: Snapshot, t: Snapshot, p: Point, shift: bool, hit: ModuleUI -> bool,
                            loaded: Option<(Module, ModuleUI)>)
    requires |s.modules| == |s.modulesUI| && s.mode == Edit && EditClickSpec(s, t, p, shift, hit, loaded)
    ensures |t.modules| == |t.modulesUI| && t.wires == s.wires
    ensures t.modules == s.modules || (|t.modules| == |s.modules| + 1 && t.modules[..|s.modules|] == s.modules)
    ensures t.mode == Edit || (t.mode == WireCreation && Ready(t))
  {
    var b := Loaded(s, p, shift, loaded);
    if !(shift && Loadable(s) && loaded.None?) && !(b.pendingModule.Some? && b.pendingModuleUI.Some?) {
      var k := LastHit(b.modulesUI, hit);
      if k >= 0 {
        assert t.modules[k].id == t.pendingPort.value.owner;
      }
    }
  }

  /** A Shift click with a selection and an empty buffer places exactly the
      module the loader returns, numbered after the others, its visual at the
      pointer; when the loader fails nothing changes. */
  lemma ShiftClickPlacesLoadedModule(s: Snapshot, t: Snapshot, p: Point, hit: ModuleUI -> bool,
                                     loaded: Option<(Module, ModuleUI)>)
    requires |s.modules| == |s.modulesUI| && Loadable(s) && EditClickSpec(s, t, p, true, hit, loaded)
    ensures loaded.None? ==> t == s
    ensures loaded.Some? ==>
      t.modules == s.modules + [loaded.value.0.(sno := |s.modules| + 1)]
      && t.modulesUI == Idled(s.modulesUI + [loaded.value.1.(at := p, hasWindow := true)])
      && t.pendingModule.None? && t.pendingModuleUI.None? && t.selectionName == s.selectionName
      && t.log == s.log + [ManagerAddModule(loaded.value.0.id)]
  {
  }

  /** A plain click forgets the selection; it places the module already in
      the buffer when there is one, and otherwise changes no list but the
      module statuses. */
  lemma PlainClickPlacesOnlyTheBuffer(s: Snapshot, t: Snapshot, p: Point, hit: ModuleUI -> bool,
                                      loaded: Option<(Module, ModuleUI)>)
    requires |s.modules| == |s.modulesUI| && EditClickSpec(s, t, p, false, hit, loaded)
    ensures t.selectionName.None?
    ensures s.pendingModule.Some? && s.pendingModuleUI.Some? ==>
      t.modules == s.modules + [s.pendingModule.value.(sno := |s.modules| + 1)]
    ensures !(s.pendingModule.Some? && s.pendingModuleUI.Some?) ==>
      t.modules == s.modules && t.modulesUI == Marked(s.modulesUI, hit) && t.handlesUI == s.handlesUI
      && t.log == s.log
  {
  }

  class ManagerUI {
    var mode: Mode
    var modules: seq<Module>
    var modulesUI: seq<ModuleUI>
    var wires: seq<Wire>
    var wiresUI: seq<WireUI>
    var handlesUI: seq<HandleUI>
    var selectionName: Option<string>
    var noOneMoving: bool
    var boundingbox: Option<Dim>
    var renderAlways: bool
    /** The component's current size (getSize). */
    var size: Dim
    // The edit-mode half of the pending buffer: a module waiting to be placed.
    var pendingModule: Option<Module>
    var pendingModuleUI: Option<ModuleUI>
    // The wire-creation half: the port, wire and wire visual of the wire being drawn.
    var pendingPort: Option<Port>
    var pendingWire: Option<Wire>
    var pendingWireUI: Option<WireUI>
    var pointer: Point
    /** The identity the next object created by the canvas receives. */
    var nextId: nat
    /** The mouse listener, which holds the double-click record. */
    const listener: ClickRecorder
    /** Calls into collaborators, in the order they were made. */
    ghost var log: seq<Event>

    /** The lists stay parallel, module i carries sequence number i + 1, every
        committed module and wire visual has its property window, and the
        registered handles are distinct records, all older than `nextId`. */
    ghost predicate Valid()
      reads this`modules, this`modulesUI, this`wires, this`wiresUI, this`handlesUI, this`nextId
    {
      |modules| == |modulesUI| && |wires| == |wiresUI|
      && (forall i :: 0 <= i < |modules| ==> modules[i].sno == i + 1)
      && AllWindowed(modulesUI, wiresUI)
      && HandlesFresh(handlesUI, nextId)
    }

    /** The state a click can change. */
    ghost function Snap(): Snapshot
      reads this`mode, this`modules, this`modulesUI, this`wires, this`wiresUI, this`handlesUI
      reads this`selectionName, this`pendingModule, this`pendingModuleUI
      reads this`pendingPort, this`pendingWire, this`pendingWireUI, this`pointer, this`nextId, this`log
    {
      Snapshot(mode, modules, modulesUI, wires, wiresUI, handlesUI, selectionName, pendingModule, pendingModuleUI,
               pendingPort, pendingWire, pendingWireUI, pointer, nextId, log)
    }

    predicate WireBufferEmpty()
      reads this`pendingPort, this`pendingWire, this`pendingWireUI
    {
      pendingPort.None? && pendingWire.None? && pendingWireUI.None?
    }

    /** A wire is being drawn from a committed module. */
    ghost predicate WireGestureReady()
      reads this`modules, this`modulesUI, this`pendingPort, this`pendingWire, this`pendingWireUI
    {
      |modules| == |modulesUI|
      && pendingPort.Some? && pendingWire.Some? && pendingWireUI.Some?
      && LastIndexOf(modules, pendingPort.value.owner) >= 0
    }

    /** The wire visual in the buffer, as a (possibly null) reference. */
    function PendingWireRef(): Ref
      reads this`pendingWireUI
    {
      WireRef(pendingWireUI)
    }

    /** A new canvas. The placement buffer is shared by every canvas and is
        not reset here: its contents at construction are the two parameters. */
    constructor (size: Dim, editBuffer: (Option<Module>, Option<ModuleUI>),
                 wireBuffer: (Option<Port>, Option<Wire>, Option<WireUI>))
      ensures Valid()
      ensures mode == Edit && modules == [] && wires == [] && handlesUI == []
      ensures boundingbox.None? && !renderAlways && this.size == size
      ensures (pendingModule, pendingModuleUI) == editBuffer
      ensures (pendingPort, pendingWire, pendingWireUI) == wireBuffer
      ensures listener.State() == ClickState(0, 0, 0)
      ensures log == []
    {
      mode := Edit;
      modules, modulesUI := [], [];
      wires, wiresUI := [], [];
      handlesUI := [];
      selectionName := None;
      noOneMoving := true;
      boundingbox := None;
      renderAlways := false;
      this.size := size;
      pendingModule, pendingModuleUI := editBuffer.0, editBuffer.1;
      pendingPort, pendingWire, pendingWireUI := wireBuffer.0, wireBuffer.1, wireBuffer.2;
      pointer := Point(0, 0);
      nextId := 0;
      listener := new ClickRecorder();
      log := [];
    }

    // ------------------------------------------------------------------
    // Mode changes

    /** startSimulation: refresh every wire visual, then start the session. */
    method StartSimulation()
      modifies this`log
      ensures log == old(log) + WireRefreshes(wiresUI) + [SimulationStarted]
    {
      RefreshWires();
      log := log + [SimulationStarted];
    }

    /** resumeSimulation: refresh every wire visual, then resume the session. */
    method ResumeSimulation()
      modifies this`log
      ensures log == old(log) + WireRefreshes(wiresUI) + [SimulationResumed]
    {
      RefreshWires();
      log := log + [SimulationResumed];
    }

    /** The loop both session openers run: updatePrivateData on every wire
        visual, in list order. */
    method RefreshWires()
      modifies this`log
      ensures log == old(log) + WireRefreshes(wiresUI)
    {
      for i := 0 to |wiresUI|
        invariant log == old(log) + WireRefreshes(wiresUI)[..i]
      {
        log := log + [UpdatePrivateData(wiresUI[i].id)];
        assert WireRefreshes(wiresUI)[..i + 1] == WireRefreshes(wiresUI)[..i] + [UpdatePrivateData(wiresUI[i].id)];
      }
      assert WireRefreshes(wiresUI)[..|wiresUI|] == WireRefreshes(wiresUI);
    }

    method StopSimulation()
      modifies this`log
      ensures log == old(log) + [SimulationStopped]
    {
      log := log + [SimulationStopped];
    }

    method PauseSimulation()
      modifies this`log
      ensures log == old(log) + [SimulationPaused]
    {
      log := log + [SimulationPaused];
    }

    /** changeMode: the mode follows the state machine, the entry or exit
        action of the transition runs (a start or resume refreshing the wire
        visuals first), and every module window is told the resulting mode,
        even when a Paused request is refused. */
    method ChangeMode(newMode: Mode)
      modifies this`mode, this`log
      ensures mode == NextMode(old(mode), newMode)
      ensures old(mode) == newMode ==> log == old(log)
      ensures old(mode) != newMode ==>
        log == old(log) + Performed(EntryExit(old(mode), newMode), wiresUI) + PropertyPages(modulesUI, mode)
    {
      if mode != newMode {
        SessionAction(newMode);
        BroadcastMode();
      }
    }

    /** The switch of changeMode: the new mode, with the entry or exit action
        of the transition. */
    method SessionAction(newMode: Mode)
      requires mode != newMode
      modifies this`mode, this`log
      ensures mode == NextMode(old(mode), newMode)
      ensures log == old(log) + Performed(EntryExit(old(mode), newMode), wiresUI)
    {
      ghost var acts := EntryExit(mode, newMode);
      match newMode {
        case WireCreation =>
          mode := newMode;
          assert acts == [];
        case Simulation =>
          if mode == Edit {
            StartSimulation();
            assert acts == [SimulationStarted];
          } else if mode == Paused {
            ResumeSimulation();
            assert acts == [SimulationResumed];
          } else {
            assert acts == [];
          }
          mode := newMode;
        case Edit =>
          if mode == Simulation || mode == Paused {
            StopSimulation();
            assert acts == [SimulationStopped];
          } else {
            assert acts == [];
          }
          mode := newMode;
        case Paused =>
          if mode == Simulation {
            mode := newMode;
            PauseSimulation();
            assert acts == [SimulationPaused];
          } else {
            assert acts == [];
          }
      }
    }

    /** The broadcast at the end of changeMode: every module window is told
        the current mode. */
    method BroadcastMode()
      modifies this`log
      ensures log == old(log) + PropertyPages(modulesUI, mode)
    {
      for i := 0 to |modulesUI|
        invariant log == old(log) + PropertyPages(modulesUI[..i], mode)
      {
        if modulesUI[i].hasWindow {
          log := log + [PropertyPageState(modulesUI[i].id, mode)];
        }
        assert modulesUI[..i + 1][..i] == modulesUI[..i];
      }
      assert modulesUI[..|modulesUI|] == modulesUI;
    }

    /** setSelectionName: outside Simulation and Paused, remember the chosen
        module kind and return to Edit. */
    method SetSelectionName(selection: Option<string>)
      modifies this`selectionName, this`mode, this`log
      ensures old(mode) == Simulation || old(mode) == Paused ==>
        selectionName == old(selectionName) && mode == old(mode) && log == old(log)
      ensures old(mode) == Edit || old(mode) == WireCreation ==>
        selectionName == selection && mode == Edit
        && log == old(log) + (if old(mode) == Edit then [] else PropertyPages(modulesUI, Edit))
    {
      if mode != Paused && mode != Simulation {
        selectionName := selection;
        assert EntryExit(WireCreation, Edit) == [];
        ChangeMode(Edit);
      }
    }

    // ------------------------------------------------------------------
    // Geometry

    /** updateBoundingBox: the box spans every module and handle, padded. */
    method UpdateBoundingBox()
      modifies this`boundingbox
      ensures boundingbox == Some(BoundingExtent(modulesUI, handlesUI))
    {
      var x, y := ModuleExtent();
      x, y := HandleExtent(x, y);
      x := x + Padding;
      y := y + Padding;
      if boundingbox.None? {
        boundingbox := Some(Dim(x, y));
      } else {
        boundingbox := Some(boundingbox.value.(width := x, height := y));
      }
    }

    /** The first scan of updateBoundingBox: the furthest module coordinate,
        never below 0. */
    method ModuleExtent() returns (x: int, y: int)
      ensures x == MaxOf(0, ModuleXs(modulesUI)) && y == MaxOf(0, ModuleYs(modulesUI))
    {
      x, y := 0, 0;
      ghost var xs, ys := ModuleXs(modulesUI), ModuleYs(modulesUI);
      for i := 0 to |modulesUI|
        invariant x == MaxOf(0, xs[..i]) && y == MaxOf(0, ys[..i])
      {
        MaxOfStep(0, xs, i);
        MaxOfStep(0, ys, i);
        var m := modulesUI[i];
        if x <= m.at.x {
          x := m.at.x;
        }
        if y <= m.at.y {
          y := m.at.y;
        }
      }
      assert xs[..|modulesUI|] == xs && ys[..|modulesUI|] == ys;
    }

    /** The second scan of updateBoundingBox: the handles carry the maxima
        `x0`, `y0` of the first scan further. */
    method HandleExtent(x0: int, y0: int) returns (x: int, y: int)
      ensures x == MaxOf(x0, HandleXs(handlesUI)) && y == MaxOf(y0, HandleYs(handlesUI))
    {
      x, y := x0, y0;
      ghost var hxs, hys := HandleXs(handlesUI), HandleYs(handlesUI);
      for i := 0 to |handlesUI|
        invariant x == MaxOf(x0, hxs[..i]) && y == MaxOf(y0, hys[..i])
      {
        MaxOfStep(x0, hxs, i);
        MaxOfStep(y0, hys, i);
        var h := handlesUI[i];
        if x <= h.handle.at.x {
          x := h.handle.at.x;
        }
        if y <= h.handle.at.y {
          y := h.handle.at.y;
        }
      }
      assert hxs[..|handlesUI|] == hxs && hys[..|handlesUI|] == hys;
    }

    /** adjustSize: grow the component so that `p` is back inside the margin,
        asking for a resize only when a dimension changes. */
    method AdjustSize(p: Point)
      modifies this`log
      ensures GrowTo(p, size).None? ==> log == old(log)
      ensures GrowTo(p, size).Some? ==>
        log == old(log) + [Resize(GrowTo(p, size).value.width, GrowTo(p, size).value.height)]
    {
      var x, y := p.x, p.y;
      var w, h := size.width, size.height;
      var grow := false;
      if y > size.height - Margin {
        h := y + Margin;
        grow := true;
      }
      if x > size.width - Margin {
        w := x + Margin;
        grow := true;
      }
      if grow {
        log := log + [Resize(w, h)];
      }
    }

    // ------------------------------------------------------------------
    // Handles

    /** addHandle: a new handle record, with an identity of its own, joins the
        end of the list. */
    method AddHandle(handle: Handle, owner: Ref, wireOwner: Ref)
      modifies this`handlesUI, this`nextId
      ensures handlesUI == old(handlesUI) + [HandleUI(old(nextId), handle, owner, wireOwner, Idle)]
      ensures nextId == old(nextId) + 1
      ensures old(Valid()) ==> Valid()
    {
      var h := HandleUI(nextId, handle, owner, wireOwner, Idle);
      if Valid() {
        HandlesFreshAppend(handlesUI, nextId, h, nextId + 1);
      }
      handlesUI := handlesUI + [h];
      nextId := nextId + 1;
    }

    /** removeHandles: drop every handle owned by `owner`, keeping the order
        of the others. */
    method RemoveHandles(owner: Ref)
      modifies this`handlesUI
      ensures handlesUI == Without(old(handlesUI), owner)
    {
      ghost var orig := handlesUI;
      ghost var j := 0;
      var i := 0;
      while i < |handlesUI|
        invariant 0 <= j <= |orig|
        invariant handlesUI == Without(orig[..j], owner) + orig[j..]
        invariant i == |Without(orig[..j], owner)| || (i == |Without(orig[..j], owner)| + 1 && j == |orig|)
      {
        j := RemoveRunAt(i, owner, orig, j);
        i := i + 1;
      }
      assert orig[..|orig|] == orig;
    }

    /** The inner loop of removeHandles: remove owned handles at index `i`
        until the handle there is not owned. Read against the original list
        `orig`, of which the first `j0` handles are decided, it decides the
        owned handles that follow and the kept handle that ends the run. */
    method RemoveRunAt(i: nat, owner: Ref, ghost orig: seq<HandleUI>, ghost j0: nat) returns (ghost j: nat)
      requires j0 <= |orig| && handlesUI == Without(orig[..j0], owner) + orig[j0..]
      requires i == |Without(orig[..j0], owner)|
      modifies this`handlesUI
      ensures j0 <= j <= |orig| && handlesUI == Without(orig[..j], owner) + orig[j..]
      ensures i + 1 == |Without(orig[..j], owner)| || (i == |Without(orig[..j], owner)| && j == |orig|)
    {
      j := j0;
      while i < |handlesUI| && handlesUI[i].owner == owner
        invariant j0 <= j <= |orig|
        invariant handlesUI == Without(orig[..j], owner) + orig[j..]
        invariant i == |Without(orig[..j], owner)|
      {
        assert handlesUI[i] == orig[j];
        WithoutDropStep(orig, j, owner);
        handlesUI := handlesUI[..i] + handlesUI[i + 1..];
        j := j + 1;
      }
      if i < |handlesUI| {
        assert handlesUI[i] == orig[j];
        WithoutKeepStep(orig, j, owner);
        j := j + 1;
      }
    }

    /** rePositionHandles: move every handle owned by a non-null `owner` to
        `loc`. */
    method RePositionHandles(owner: Ref, loc: Point)
      modifies this`handlesUI
      ensures owner.Null? ==> handlesUI == old(handlesUI)
      ensures owner.Obj? ==> handlesUI == Repositioned(old(handlesUI), owner, loc)
    {
      if owner != Null {
        for i := 0 to |handlesUI|
          invariant |handlesUI| == |old(handlesUI)|
          invariant forall k :: 0 <= k < i ==> handlesUI[k] == Moved(old(handlesUI)[k], owner, loc)
          invariant forall k :: i <= k < |handlesUI| ==> handlesUI[k] == old(handlesUI)[k]
        {
          if handlesUI[i].owner == owner {
            handlesUI := handlesUI[i := handlesUI[i].(handle := handlesUI[i].handle.(at := loc))];
          }
        }
      }
    }

    /** mergeHandle: a naked handle dropped onto an adjacent handle of its own
        wire is removed from that wire and from the list. */
    method MergeHandle(h: Option<HandleUI>, contains: (HandleUI, Point) -> bool,
                       adjacent: (nat, Handle, Handle) -> bool) returns (outcome: MergeOutcome)
      modifies this`handlesUI, this`log
      ensures outcome == MergeDecision(old(handlesUI), h, contains, adjacent)
      ensures handlesUI == AfterMerge(old(handlesUI), h, contains, adjacent)
      ensures outcome.Merged? ==> log == old(log) + [RemoveNakedPoint(h.value.wireOwner.id, h.value.handle.hid)]
      ensures !outcome.Merged? ==> log == old(log)
      ensures old(Valid()) ==> Valid()
    {
      if h.None? || !h.value.handle.naked {
        return Skipped;
      }
      var hv := h.value;
      var i := 0;
      while i < |handlesUI|
        invariant 0 <= i <= |handlesUI|
        invariant handlesUI == old(handlesUI) && log == old(log)
        invariant ScanFrom(handlesUI, hv, contains, adjacent, 0) == ScanFrom(handlesUI, hv, contains, adjacent, i)
      {
        var hi := handlesUI[i];
        if contains(hi, hv.handle.at) && hv.wireOwner == hi.wireOwner {
          if hv.wireOwner.Null? {
            // The source asks the null wire owner about adjacency.
            return NullWireOwner(i);
          }
          if adjacent(hv.wireOwner.id, hv.handle, hi.handle) {
            RemoveMerged(hv);
            return Merged(i);
          }
        }
        i := i + 1;
      }
      return NoPartner;
    }

    /** The end of a merge: the wire drops the naked point and the handle
        record leaves the list. */
    method RemoveMerged(hv: HandleUI)
      requires hv.wireOwner.Obj?
      modifies this`handlesUI, this`log
      ensures handlesUI == RemoveFirst(old(handlesUI), hv.uid)
      ensures log == old(log) + [RemoveNakedPoint(hv.wireOwner.id, hv.handle.hid)]
      ensures old(Valid()) ==> Valid()
    {
      log := log + [RemoveNakedPoint(hv.wireOwner.id, hv.handle.hid)];
      if Valid() {
        RemoveFirstKeepsFresh(handlesUI, hv.uid, nextId);
      }
      handlesUI := RemoveFirst(handlesUI, hv.uid);
    }

    // ------------------------------------------------------------------
    // Click gestures

    method ClearModuleStatuses()
      modifies this`modulesUI
      ensures modulesUI == Idled(old(modulesUI))
      ensures old(Valid()) ==> Valid()
    {
      for i := 0 to |modulesUI|
        invariant |modulesUI| == |old(modulesUI)|
        invariant forall k :: 0 <= k < i ==> modulesUI[k] == old(modulesUI)[k].(status := Idle)
        invariant forall k :: i <= k < |modulesUI| ==> modulesUI[k] == old(modulesUI)[k]
      {
        modulesUI := modulesUI[i := modulesUI[i].(status := Idle)];
      }
      assert old(Valid()) ==> AllWindowed(modulesUI, wiresUI);
    }

    /** Abandon the wire being drawn: its handles go, the buffer empties and
        the mode returns to Edit directly, without `changeMode`. */
    method AbandonWire()
      modifies this`handlesUI, this`pendingPort, this`pendingWire, this`pendingWireUI, this`mode
      ensures Snap() == Abandoned(old(Snap()))
      ensures old(Valid()) ==> Valid()
    {
      if Valid() {
        WithoutKeepsFresh(handlesUI, PendingWireRef(), nextId);
      }
      RemoveHandles(PendingWireRef());
      EndWire();
    }

    /** Right click: in WireCreation abandon the wire; in Edit forget the
        selection and cancel the module waiting to be placed. */
    method RightClick()
      requires Valid()
      modifies this`modulesUI, this`handlesUI, this`pendingPort, this`pendingWire, this`pendingWireUI, this`mode
      modifies this`selectionName, this`pendingModule, this`pendingModuleUI
      ensures Valid()
      ensures RightClickSpec(old(Snap()), Snap())
    {
      match mode {
        case WireCreation =>
          ClearModuleStatuses();
          AbandonWire();
        case Simulation =>
        case Paused =>
        case Edit =>
          selectionName := None;
          if pendingModule.Some? || pendingModuleUI.Some? {
            pendingModule, pendingModuleUI := None, None;
          }
      }
    }

    /** Bring up the property window of every hit module visual; report
        whether any was hit. */
    method ShowModuleWindows(hit: ModuleUI -> bool) returns (shown: bool)
      requires AllWindowed(modulesUI, wiresUI)
      modifies this`log
      ensures shown <==> AnyHit(modulesUI, hit)
      ensures log == old(log) + ModuleWindows(modulesUI, hit)
    {
      shown := false;
      for i := 0 to |modulesUI|
        invariant log == old(log) + ModuleWindows(modulesUI[..i], hit)
        invariant shown <==> AnyHit(modulesUI[..i], hit)
      {
        if hit(modulesUI[i]) {
          shown := true;
          log := log + [ShowWindow(modulesUI[i].id)];
        }
        assert modulesUI[..i + 1][..i] == modulesUI[..i];
      }
      assert modulesUI[..|modulesUI|] == modulesUI;
    }

    /** Bring up the property window of every hit wire visual. */
    method ShowWireWindows(hit: WireUI -> bool)
      requires AllWindowed(modulesUI, wiresUI)
      modifies this`log
      ensures log == old(log) + WireWindows(wiresUI, hit)
    {
      for i := 0 to |wiresUI|
        invariant log == old(log) + WireWindows(wiresUI[..i], hit)
      {
        if hit(wiresUI[i]) {
          log := log + [ShowWindow(wiresUI[i].id)];
        }
        assert wiresUI[..i + 1][..i] == wiresUI[..i];
      }
      assert wiresUI[..|wiresUI|] == wiresUI;
    }

    /** Double click: in WireCreation abandon the wire and show the windows
        of the hit modules; in every other mode show the windows of the hit
        modules, or of the hit wires when no module is hit. */
    method DoubleClick(hitModule: ModuleUI -> bool, hitWire: WireUI -> bool)
      requires Valid()
      modifies this`modulesUI, this`handlesUI, this`pendingPort, this`pendingWire, this`pendingWireUI, this`mode, this`log
      ensures Valid()
      ensures DoubleClickSpec(old(Snap()), Snap(), hitModule, hitWire)
    {
      if mode == WireCreation {
        AbandonAndShow(hitModule);
      } else {
        ShowHit(hitModule, hitWire);
      }
    }

    /** The WireCreation double click: abandon the wire, deselect every
        visual, and show the windows of the hit modules. */
    method AbandonAndShow(hitModule: ModuleUI -> bool)
      requires Valid()
      modifies this`modulesUI, this`handlesUI, this`pendingPort, this`pendingWire, this`pendingWireUI, this`mode, this`log
      ensures Valid()
      ensures Snap() == Abandoned(old(Snap()).(modulesUI := Idled(old(modulesUI))))
                          .(log := old(log) + ModuleWindows(Idled(old(modulesUI)), hitModule))
    {
      AbandonWire();
      ClearModuleStatuses();
      var _ := ShowModuleWindows(hitModule);
    }

    /** The double click of the other modes: deselect every visual and show
        the windows of the hit modules, or of the hit wires when no module is
        hit. */
    method ShowHit(hitModule: ModuleUI -> bool, hitWire: WireUI -> bool)
      requires Valid()
      modifies this`modulesUI, this`log
      ensures Valid()
      ensures modulesUI == Idled(old(modulesUI))
      ensures log == old(log) + if AnyHit(modulesUI, hitModule) then ModuleWindows(modulesUI, hitModule)
                                else WireWindows(wiresUI, hitWire)
    {
      ClearModuleStatuses();
      var shown := ShowModuleWindows(hitModule);
      if !shown {
        ShowWireWindows(hitWire);
      }
    }

    /** Shift-click loads the selected module kind into an empty buffer at the
        pointer; a plain click forgets the selection. `failed` reports that
        loading produced no module, which aborts the click. */
    method SelectOrLoad(p: Point, shift: bool, loaded: Option<(Module, ModuleUI)>) returns (failed: bool)
      modifies this`selectionName, this`pendingModule, this`pendingModuleUI
      ensures failed <==> shift && Loadable(old(Snap())) && loaded.None?
      ensures Snap() == Loaded(old(Snap()), p, shift, loaded)
    {
      failed := false;
      if shift {
        if selectionName.Some? && pendingModule.None? && pendingModuleUI.None? {
          match loaded {
            case None =>
              failed := true;
            case Some((m, ui)) =>
              pendingModule := Some(m);
              pendingModuleUI := Some(ui.(at := p));
          }
        }
      } else {
        selectionName := None;
      }
    }

    /** Place the buffered module: it gets the next sequence number, joins
        `modules` and its visual (with a window) joins `modulesUI`, the buffer
        empties, and every visual is deselected. */
    method CommitPendingModule()
      requires Valid() && pendingModule.Some? && pendingModuleUI.Some?
      modifies this`modules, this`modulesUI, this`pendingModule, this`pendingModuleUI, this`log
      ensures Valid()
      ensures Snap() == Placed(old(Snap()))
    {
      ghost var s := Snap();
      var m := pendingModule.value.(sno := |modules| + 1);
      var ui := pendingModuleUI.value;
      if !ui.hasWindow {
        ui := ui.(hasWindow := true);
      }
      AppendModule(m, ui);
      ClearModuleStatuses();
      assert modules == Placed(s).modules && modulesUI == Placed(s).modulesUI && log == Placed(s).log;
    }

    /** The module and its visual join the lists, the manager is told, and
        the module half of the buffer empties. */
    method AppendModule(m: Module, ui: ModuleUI)
      requires m.sno == |modules| + 1 && ui.hasWindow
      modifies this`modules, this`modulesUI, this`pendingModule, this`pendingModuleUI, this`log
      ensures modules == old(modules) + [m] && modulesUI == old(modulesUI) + [ui]
      ensures pendingModule.None? && pendingModuleUI.None? && log == old(log) + [ManagerAddModule(m.id)]
      ensures old(Valid()) ==> Valid()
    {
      modules := modules + [m];
      log := log + [ManagerAddModule(m.id)];
      pendingModule := None;
      modulesUI := modulesUI + [ui];
      pendingModuleUI := None;
    }

    /** Edit-mode click on nothing to place: every hit visual is selected and
        the last hit module becomes the origin of a new wire, entering
        WireCreation directly. */
    method StartWire(p: Point, hit: ModuleUI -> bool)
      requires |modules| == |modulesUI|
      modifies this`modulesUI, this`mode, this`pendingPort, this`pendingWire, this`pendingWireUI, this`pointer, this`nextId
      ensures Snap() == WireStarted(old(Snap()), p, hit)
      ensures old(Valid()) ==> Valid()
    {
      ghost var s := Snap();
      for i := 0 to |modulesUI|
        invariant |modulesUI| == |s.modulesUI| && modules == s.modules
        invariant forall k :: 0 <= k < i ==>
          modulesUI[k] == s.modulesUI[k].(status := if hit(s.modulesUI[k]) then Selected else Idle)
        invariant forall k :: i <= k < |modulesUI| ==> modulesUI[k] == s.modulesUI[k]
        invariant Snap() == ScanState(s, modulesUI, i, p, hit)
      {
        ghost var mods := modulesUI;
        SelectForWire(i, p, hit);
        ScanStep(s, mods, modulesUI, i, p, hit);
      }
      assert modulesUI == Marked(s.modulesUI, hit);
      ScanDone(s, p, hit);
      if old(Valid()) {
        HandlesFreshGrow(handlesUI, s.nextId, nextId);
      }
    }

    /** One pass of the scan of startWire: a hit visual is selected and a
        wire from its module is buffered; a missed one goes back to Idle. */
    method SelectForWire(i: nat, p: Point, hit: ModuleUI -> bool)
      requires i < |modulesUI| == |modules|
      modifies this`modulesUI, this`mode, this`pendingPort, this`pendingWire, this`pendingWireUI, this`pointer, this`nextId
      ensures modulesUI == old(modulesUI)[i := old(modulesUI)[i].(status := if hit(old(modulesUI)[i]) then Selected else Idle)]
      ensures var m := old(Snap()).(modulesUI := modulesUI);
        Snap() == if hit(old(modulesUI)[i]) then WireBuffered(m, i, p) else m
    {
      if hit(modulesUI[i]) {
        modulesUI := modulesUI[i := modulesUI[i].(status := Selected)];
        BufferWire(i, p);
      } else {
        modulesUI := modulesUI[i := modulesUI[i].(status := Idle)];
      }
    }

    /** Enter WireCreation with a new port on module `i`, a new wire and its
        visual in the buffer, and the pointer location remembered. */
    method BufferWire(i: nat, p: Point)
      requires i < |modules|
      modifies this`mode, this`pendingPort, this`pendingWire, this`pendingWireUI, this`pointer, this`nextId
      ensures mode == WireCreation && pointer == p && nextId == old(nextId) + 3
      ensures pendingPort == Some(Port(old(nextId), modules[i].id))
      ensures pendingWire == Some(Wire(old(nextId) + 1)) && pendingWireUI == Some(WireUI(old(nextId) + 2, old(nextId) + 1, false))
    {
      mode, pointer := WireCreation, p;
      pendingPort, pendingWire, pendingWireUI := Some(Port(nextId, modules[i].id)), Some(Wire(nextId + 1)), Some(WireUI(nextId + 2, nextId + 1, false));
      nextId := nextId + 3;
    }

    /** Single click in Edit: load on Shift, then either place the buffered
        module or start a wire from the module under the pointer. */
    method EditSingleClick(p: Point, shift: bool, hit: ModuleUI -> bool, loaded: Option<(Module, ModuleUI)>)
      requires Valid() && mode == Edit
      modifies this`selectionName, this`pendingModule, this`pendingModuleUI, this`modules, this`modulesUI, this`log
      modifies this`mode, this`pendingPort, this`pendingWire, this`pendingWireUI, this`pointer, this`nextId
      ensures Valid()
      ensures EditClickSpec(old(Snap()), Snap(), p, shift, hit, loaded)
    {
      var failed := SelectOrLoad(p, shift, loaded);
      if failed {
        return;
      }
      PlaceOrStartWire(p, hit);
    }

    /** The second step of an Edit click: place the buffered module, or, with
        nothing to place, start a wire from the modules under the pointer. */
    method PlaceOrStartWire(p: Point, hit: ModuleUI -> bool)
      requires Valid()
      modifies this`modules, this`modulesUI, this`pendingModule, this`pendingModuleUI, this`log
      modifies this`mode, this`pendingPort, this`pendingWire, this`pendingWireUI, this`pointer, this`nextId
      ensures Valid()
      ensures var b := old(Snap());
        Snap() == if b.pendingModule.Some? && b.pendingModuleUI.Some? then Placed(b) else WireStarted(b, p, hit)
    {
      if pendingModule.Some? && pendingModuleUI.Some? {
        CommitPendingModule();
      } else {
        StartWire(p, hit);
      }
    }

    /** Single click in WireCreation. On the module the wire started from:
        abandon the wire. On another module: commit the wire between the two
        modules and return to Edit. On empty space: add a routing point. */
    method WireSingleClick(hit: ModuleUI -> bool, committed: (Handle, Handle))
      requires Valid() && mode == WireCreation && WireGestureReady()
      modifies this`modulesUI, this`wires, this`wiresUI, this`handlesUI, this`log, this`mode
      modifies this`pendingPort, this`pendingWire, this`pendingWireUI, this`nextId
      ensures Valid()
      ensures WireClickSpec(old(Snap()), Snap(), hit, committed)
    {
      var k := FindFirstHit(hit);
      if k < 0 {
        AddRoutingPoint(committed);
      } else if pendingPort.value.owner != modules[k].id {
        CommitWire(k, committed);
      } else {
        SetStatus(k, Idle);
        AbandonWire();
      }
    }

    /** The scan of wireSingleClick for the module under the pointer: the
        first hit visual, or -1. */
    method FindFirstHit(hit: ModuleUI -> bool) returns (k: int)
      ensures k == FirstHit(modulesUI, hit)
    {
      k := -1;
      var i := 0;
      while i < |modulesUI|
        invariant 0 <= i <= |modulesUI|
        invariant forall j :: 0 <= j < i ==> !hit(modulesUI[j])
      {
        if hit(modulesUI[i]) {
          k := i;
          break;
        }
        i := i + 1;
      }
    }

    /** A click on empty space while drawing a wire: register the origin
        handle if it stands on a port, then the new routing point. */
    method AddRoutingPoint(committed: (Handle, Handle))
      requires Valid() && WireGestureReady()
      modifies this`handlesUI, this`nextId
      ensures Valid()
      ensures Snap() == RoutingPointAdded(old(Snap()), committed)
    {
      RegisterHandles(committed.0, committed.1, PendingWireRef(), Null);
    }

    /** The two addHandle calls after a commit of the wire visual: the origin
        handle `h0` if it stands on a port, owned by the visual of the module
        the wire starts from, then `h1`. */
    method RegisterHandles(h0: Handle, h1: Handle, owner: Ref, wireOwner: Ref)
      requires Valid() && WireGestureReady()
      modifies this`handlesUI, this`nextId
      ensures Valid()
      ensures Snap() == HandlesAdded(old(Snap()), h0, h1, owner, wireOwner)
    {
      if h0.isPort {
        AddHandle(h0, Obj(modulesUI[LastIndexOf(modules, pendingPort.value.owner)].id), PendingWireRef());
      }
      AddHandle(h1, owner, wireOwner);
    }

    /** setStatus on the visual of module `i`; nothing else about it changes. */
    method SetStatus(i: nat, s: Status)
      requires Valid() && i < |modulesUI|
      modifies this`modulesUI
      ensures Valid()
      ensures Snap() == WithStatus(old(Snap()), i, s)
    {
      modulesUI := modulesUI[i := modulesUI[i].(status := s)];
    }

    /** A click on module `k`, other than the one the wire starts from: add a
        port to each end module and the far port to the wire, register both
        end handles, hand the wire to the manager and return to Edit. */
    method CommitWire(k: nat, committed: (Handle, Handle))
      requires Valid() && mode == WireCreation && WireGestureReady()
      requires k < |modulesUI| && pendingPort.value.owner != modules[k].id
      modifies this`modulesUI, this`wires, this`wiresUI, this`handlesUI, this`log, this`mode
      modifies this`pendingPort, this`pendingWire, this`pendingWireUI, this`nextId
      ensures Valid()
      ensures Snap() == WireCommitted(old(Snap()), k, committed)
    {
      SetStatus(k, Idle);
      RegisterWire(k, committed);
      EndWire();
    }

    /** The end of a commit: the wire half of the buffer empties and the mode
        returns to Edit directly. */
    method EndWire()
      modifies this`mode, this`pendingPort, this`pendingWire, this`pendingWireUI
      ensures Snap() == old(Snap()).(mode := Edit, pendingPort := None, pendingWire := None, pendingWireUI := None)
    {
      mode := Edit;
      pendingPort, pendingWire, pendingWireUI := None, None, None;
    }

    /** The part of the commit that builds the wire: a port on each end
        module, the far port on the wire, both end handles registered, and the
        wire handed to the manager with its property window. */
    method RegisterWire(k: nat, committed: (Handle, Handle))
      requires Valid() && WireGestureReady() && k < |modulesUI|
      modifies this`wires, this`wiresUI, this`handlesUI, this`log, this`nextId
      ensures Valid()
      ensures Snap() == WireRegistered(old(Snap()), k, committed)
    {
      ghost var s := Snap();
      var from, wire := pendingPort.value, pendingWire.value;
      var port := Port(nextId, modules[k].id);
      HandlesFreshGrow(handlesUI, nextId, nextId + 1);
      nextId := nextId + 1;
      assert Snap() == s.(nextId := s.nextId + 1);
      RegisterHandles(committed.0, committed.1, Obj(modulesUI[k].id), PendingWireRef());
      ghost var h := Snap();
      assert h == HandlesAdded(s.(nextId := s.nextId + 1), committed.0, committed.1, Obj(s.modulesUI[k].id), WireRef(s.pendingWireUI));
      // The handles are not logged, so the four calls can be recorded at once.
      AppendWire(wire, pendingWireUI.value.(hasWindow := true),
                 [AddPort(from.owner, from.id), AddPort(port.owner, port.id), WireAddPort(wire.id, port.id), ManagerAddWire(wire.id)]);
    }

    /** The wire and its visual join the lists, and the calls `calls` are made. */
    method AppendWire(wire: Wire, wireUI: WireUI, calls: seq<Event>)
      requires wireUI.hasWindow
      modifies this`wires, this`wiresUI, this`log
      ensures Snap() == old(Snap()).(wires := old(wires) + [wire], wiresUI := old(wiresUI) + [wireUI], log := old(log) + calls)
      ensures old(Valid()) ==> Valid()
    {
      wires := wires + [wire];
      wiresUI := wiresUI + [wireUI];
      log := log + calls;
    }

    /** Middle click. In WireCreation a hit module starts moving and the
        buffer empties, leaving the drawn handles in place; in Edit a hit
        module toggles moving and every other module is deselected. */
    method MiddleClick(hit: ModuleUI -> bool)
      requires Valid()
      modifies this`modulesUI, this`mode, this`pendingPort, this`pendingWire, this`pendingWireUI
      ensures Valid()
      ensures MiddleClickSpec(old(Snap()), Snap(), hit)
    {
      if mode == WireCreation {
        MoveHitModules(hit);
      } else if mode == Edit {
        ToggleHitModules(hit);
      }
    }

    /** The WireCreation middle click: every hit visual starts moving, and
        once one is hit the wire is dropped and the mode returns to Edit. */
    method MoveHitModules(hit: ModuleUI -> bool)
      modifies this`modulesUI, this`mode, this`pendingPort, this`pendingWire, this`pendingWireUI
      ensures modulesUI == MovedIfHit(old(modulesUI), hit)
      ensures AnyHit(old(modulesUI), hit) ==> mode == Edit && WireBufferEmpty()
      ensures !AnyHit(old(modulesUI), hit) ==>
        mode == old(mode) && pendingPort == old(pendingPort)
        && pendingWire == old(pendingWire) && pendingWireUI == old(pendingWireUI)
      ensures old(Valid()) ==> Valid()
    {
      for i := 0 to |modulesUI|
        invariant |modulesUI| == |old(modulesUI)|
        invariant forall k :: 0 <= k < i ==>
          modulesUI[k] == if hit(old(modulesUI)[k]) then old(modulesUI)[k].(status := Moving) else old(modulesUI)[k]
        invariant forall k :: i <= k < |modulesUI| ==> modulesUI[k] == old(modulesUI)[k]
        invariant AnyHit(old(modulesUI)[..i], hit) ==> mode == Edit && WireBufferEmpty()
        invariant !AnyHit(old(modulesUI)[..i], hit) ==>
          mode == old(mode) && pendingPort == old(pendingPort)
          && pendingWire == old(pendingWire) && pendingWireUI == old(pendingWireUI)
      {
        assert old(modulesUI)[..i + 1][..i] == old(modulesUI)[..i];
        if hit(modulesUI[i]) {
          modulesUI := modulesUI[i := modulesUI[i].(status := Moving)];
          mode := Edit;
          pendingPort, pendingWire, pendingWireUI := None, None, None;
          assert old(modulesUI)[..i + 1][i] == old(modulesUI)[i];
        }
      }
      assert old(modulesUI)[..|modulesUI|] == old(modulesUI);
      assert modulesUI == MovedIfHit(old(modulesUI), hit);
    }

    /** The Edit middle click: a hit visual toggles between Moving and Idle,
        every other visual becomes Idle. */
    method ToggleHitModules(hit: ModuleUI -> bool)
      modifies this`modulesUI
      ensures modulesUI == Toggled(old(modulesUI), hit)
      ensures old(Valid()) ==> Valid()
    {
      for i := 0 to |modulesUI|
        invariant |modulesUI| == |old(modulesUI)|
        invariant forall k :: 0 <= k < i ==>
          modulesUI[k] == old(modulesUI)[k].(status := if hit(old(modulesUI)[k]) && old(modulesUI)[k].status != Moving then Moving else Idle)
        invariant forall k :: i <= k < |modulesUI| ==> modulesUI[k] == old(modulesUI)[k]
      {
        if hit(modulesUI[i]) {
          if modulesUI[i].status == Moving {
            modulesUI := modulesUI[i := modulesUI[i].(status := Idle)];
          } else {
            modulesUI := modulesUI[i := modulesUI[i].(status := Moving)];
          }
        } else {
          modulesUI := modulesUI[i := modulesUI[i].(status := Idle)];
        }
      }
      assert modulesUI == Toggled(old(modulesUI), hit);
    }

    /** mouseClicked: dispatch on the button, and for the primary button on
        whether the double-click recogniser classifies the click as double. */
    method MouseClicked(e: MouseEvent, probe: Probe)
      requires Valid()
      requires mode == WireCreation && e.button == Primary && !IsDouble(listener.State(), e.at.x, e.at.y, e.when)
               ==> WireGestureReady()
      modifies this`noOneMoving, this`mode, this`log, this`modules, this`modulesUI, this`wires, this`wiresUI
      modifies this`handlesUI, this`selectionName, this`pendingModule, this`pendingModuleUI
      modifies this`pendingPort, this`pendingWire, this`pendingWireUI, this`pointer, this`nextId, listener
      ensures Valid() && noOneMoving
      ensures e.button == Primary ==> listener.State() == Record(old(listener.State()), e.at.x, e.at.y, e.when)
      ensures e.button != Primary ==> listener.State() == old(listener.State())
      ensures ClickSpec(old(Snap()), Snap(), old(listener.State()), e, probe)
    {
      noOneMoving := true;
      match e.button {
        case Secondary =>
          RightClick();
        case Primary =>
          PrimaryClick(e, probe);
        case Middle =>
          MiddleClick(probe.hitModule);
      }
    }

    /** A primary-button click: the click recorder decides between the
        double-click and the single-click gestures of the current mode. */
    method PrimaryClick(e: MouseEvent, probe: Probe)
      requires Valid() && e.button == Primary
      requires mode == WireCreation && !IsDouble(listener.State(), e.at.x, e.at.y, e.when) ==> WireGestureReady()
      modifies this`mode, this`log, this`modules, this`modulesUI, this`wires, this`wiresUI
      modifies this`handlesUI, this`selectionName, this`pendingModule, this`pendingModuleUI
      modifies this`pendingPort, this`pendingWire, this`pendingWireUI, this`pointer, this`nextId, listener
      ensures Valid()
      ensures listener.State() == Record(old(listener.State()), e.at.x, e.at.y, e.when)
      ensures PrimaryClickSpec(old(Snap()), Snap(), old(listener.State()), e, probe)
    {
      var double := listener.IsDoubleClick(e.at.x, e.at.y, e.when);
      if double {
        DoubleClick(probe.hitModule, probe.hitWire);
      } else if mode == WireCreation {
        WireSingleClick(probe.hitModule, probe.committed);
      } else if mode == Edit {
        EditSingleClick(e.at, e.shift, probe.hitModule, probe.loaded);
      }
    }

    // ------------------------------------------------------------------
    // Stepping

    /** stepSimulation: ask the clock in Simulation, advance the graph on a
        tick at a full-resolution boundary, then step module visuals before
        wire visuals; report whether visuals stepped. */
    method StepSimulation(stepping: int, tick: bool) returns (stepped: bool)
      modifies this`log
      ensures stepped == Stepped(mode, tick)
      ensures log == old(log) + StepEvents(mode, stepping, tick, modulesUI, wiresUI)
    {
      ghost var head := (if mode == Simulation then [ClockTick(stepping != SteppingRatio)] else [])
                        + (if FullStep(mode, stepping, tick) then [ManagerStep] else []);
      ghost var ms := if stepping == SteppingRatio || mode != Simulation then ModuleSteps(modulesUI, mode) else [];
      var clocktick := false;
      if mode == Simulation {
        log := log + [ClockTick(stepping != SteppingRatio)];
        clocktick := tick;
      }
      if clocktick && stepping == SteppingRatio {
        log := log + [ManagerStep];
      }
      assert log == old(log) + head;
      if mode != Simulation || clocktick {
        StepVisuals(stepping);
        assert StepEvents(mode, stepping, tick, modulesUI, wiresUI) == head + (ms + WireSteps(wiresUI, mode));
        return true;
      }
      return false;
    }

    /** The visuals' part of a call that returns true: the module visuals at
        a full-resolution boundary or outside Simulation, then the wires. */
    method StepVisuals(stepping: int)
      modifies this`log
      ensures log == old(log) + ((if stepping == SteppingRatio || mode != Simulation then ModuleSteps(modulesUI, mode) else [])
                                 + WireSteps(wiresUI, mode))
    {
      if stepping == SteppingRatio || mode != Simulation {
        StepModules();
      }
      StepWires();
    }

    /** Every module visual steps, in list order. */
    method StepModules()
      modifies this`log
      ensures log == old(log) + ModuleSteps(modulesUI, mode)
    {
      for i := 0 to |modulesUI|
        invariant log == old(log) + ModuleSteps(modulesUI, mode)[..i]
      {
        log := log + [ModuleStep(modulesUI[i].id, mode)];
        assert ModuleSteps(modulesUI, mode)[..i + 1] == ModuleSteps(modulesUI, mode)[..i] + [ModuleStep(modulesUI[i].id, mode)];
      }
      assert ModuleSteps(modulesUI, mode)[..|modulesUI|] == ModuleSteps(modulesUI, mode);
    }

    /** Every wire visual steps, in list order. */
    method StepWires()
      modifies this`log
      ensures log == old(log) + WireSteps(wiresUI, mode)
    {
      for i := 0 to |wiresUI|
        invariant log == old(log) + WireSteps(wiresUI, mode)[..i]
      {
        log := log + [WireStep(wiresUI[i].id, mode)];
        assert WireSteps(wiresUI, mode)[..i + 1] == WireSteps(wiresUI, mode)[..i] + [WireStep(wiresUI[i].id, mode)];
      }
      assert WireSteps(wiresUI, mode)[..|wiresUI|] == WireSteps(wiresUI, mode);
    }

    /** run: the stepping loop over the frames it observes, with the
        sub-step counter and the frame pacing counters. The iterations it
        returns record what each pass did (render, sleep time, yield). */
    method Run(frames: seq<Frame>) returns (ghost iterations: seq<Iteration>)
      modifies this`log
      ensures iterations == RunTrace(mode, renderAlways, modulesUI, wiresUI, frames).iterations
      ensures log == old(log) + RunTrace(mode, renderAlways, modulesUI, wiresUI, frames).events
    {
      var overSleepTime := 0;
      var noDelays := 0;
      var stepping := SteppingRatio;
      iterations := [];
      ghost var trace := RunTrace(mode, renderAlways, modulesUI, wiresUI, frames[..0]);
      for k := 0 to |frames|
        invariant trace == RunTrace(mode, renderAlways, modulesUI, wiresUI, frames[..k])
        invariant trace.state == LoopState(stepping, overSleepTime, noDelays)
        invariant trace.iterations == iterations && log == old(log) + trace.events
      {
        RunTraceStep(mode, renderAlways, modulesUI, wiresUI, frames, k);
        ghost var it;
        stepping, overSleepTime, noDelays, it := RunOnce(stepping, overSleepTime, noDelays, frames[k]);
        iterations := iterations + [it];
        ghost var steps := StepEvents(mode, trace.state.stepping, frames[k].tick, modulesUI, wiresUI);
        AppendAssoc(old(log), trace.events, steps);
        trace := RunTrace(mode, renderAlways, modulesUI, wiresUI, frames[..k + 1]);
      }
      assert frames[..|frames|] == frames;
    }

    /** One pass of the loop of run: step, then pace the frame. */
    method RunOnce(stepping: int, overSleepTime: int, noDelays: int, f: Frame)
      returns (stepping': int, overSleepTime': int, noDelays': int, ghost it: Iteration)
      modifies this`log
      ensures (LoopState(stepping', overSleepTime', noDelays'), it)
              == Advance(mode, renderAlways, LoopState(stepping, overSleepTime, noDelays), f)
      ensures log == old(log) + StepEvents(mode, stepping, f.tick, modulesUI, wiresUI)
    {
      var ret := StepSimulation(stepping, f.tick);
      var stepped := ret;
      stepping' := stepping;
      if ret {
        stepping' := stepping' - 1;
      }
      if stepping' == 0 {
        stepping' := SteppingRatio;
      }
      if renderAlways {
        ret := true;
      }
      var rendered := ret;
      var sleepTime := (Period - f.work) - overSleepTime;
      var yielded := false;
      noDelays' := noDelays;
      if sleepTime > 0 {
        overSleepTime' := f.slept - sleepTime;
      } else {
        overSleepTime' := 0;
        noDelays' := noDelays' + 1;
        if noDelays' >= NoDelaysPerYield {
          yielded := true;
          noDelays' := 0;
        }
      }
      it := Iteration(stepping, stepped, FullStep(mode, stepping, f.tick), rendered, sleepTime, yielded);
    }
  }
}
