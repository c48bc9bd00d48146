/** The entities of the canvas: modes, points, modules, wires, handles and the
    observable effects of calls into collaborators that are not modelled. */
module Scene {

  datatype Option<T> = None | Some(value: T)

  /** A nullable object reference; `Obj(id)` names the object by its identity. */
  datatype Ref = Null | Obj(id: nat)

  /** The four interaction modes (ui.Mode). */
  datatype Mode = Edit | WireCreation | Simulation | Paused

  /** An integer pixel position. */
  datatype Point = Point(x: int, y: int)

  /** A width and a height. */
  datatype Dim = Dim(width: int, height: int)

  /** Selection state of a module or handle visual; `Idle` is the source's NONE. */
  datatype Status = Idle | Selected | Moving

  /** A logical module: its identity and its sequence number. */
  datatype Module = Module(id: nat, sno: int)

  /** The visual of a module: position, selection state, and whether its
      property window has been created. */
  datatype ModuleUI = ModuleUI(id: nat, at: Point, status: Status, hasWindow: bool)

  /** A port of a module; `owner` is the identity of that module. */
  datatype Port = Port(id: nat, owner: nat)

  datatype Wire = Wire(id: nat)

  /** The visual of a wire; `wire` is the identity of the wire it draws. */
  datatype WireUI = WireUI(id: nat, wire: nat, hasWindow: bool)

  /** A geometric anchor returned by a wire visual: its identity, position,
      whether it stands on a port, and whether it is naked (a free routing
      point, eligible for merging). */
  datatype Handle = Handle(hid: nat, at: Point, isPort: bool, naked: bool)

  /** A handle registered with the canvas: its own identity (every registration
      creates a new record), the handle it wraps, its owning visual, the wire
      visual it belongs to (possibly none), and its selection state. */
  datatype HandleUI = HandleUI(uid: nat, handle: Handle, owner: Ref, wireOwner: Ref, status: Status)

  /** Calls into collaborators, in the order they happen. */
  datatype Event =
    | UpdatePrivateData(wireUI: nat)               // WireUI.updatePrivateData
    | SimulationStarted                            // startSimulation: init graph, start stepping
    | SimulationResumed                            // resumeSimulation: restart stepping, clock kept
    | SimulationStopped                            // stopSimulation: end graph, join, render
    | SimulationPaused                             // pauseSimulation: join, render
    | PropertyPageState(moduleUI: nat, mode: Mode) // moduleWindow.updatePropertyPageState
    | ManagerAddModule(moduleId: nat)              // manager.addModule
    | ManagerAddWire(wire: nat)                    // manager.addWire
    | AddPort(moduleId: nat, port: nat)            // Module.addPort
    | WireAddPort(wire: nat, port: nat)            // Wire.addPort
    | RemoveNakedPoint(wireUI: nat, handle: nat)   // WireUI.removeNakedHandle
    | ShowWindow(component: nat)                   // makeWindowVisible
    | ClockTick(subStep: bool)                     // clock.tick
    | ManagerStep                                  // manager.stepSimulation and the time label
    | ModuleStep(moduleUI: nat, mode: Mode)        // ModuleUI.stepSimulation
    | WireStep(wireUI: nat, mode: Mode)            // WireUI.stepSimulation
    | Resize(width: int, height: int)              // Resize

  /** Every module visual reset to `Idle`, as the source's "setStatus(NONE)" loops do. */
  function Idled(mods: seq<ModuleUI>): (r: seq<ModuleUI>)
    ensures |r| == |mods|
    ensures forall i :: 0 <= i < |mods| ==> r[i] == mods[i].(status := Idle)
  {
    seq(|mods|, i requires 0 <= i < |mods| => mods[i].(status := Idle))
  }

  /** Whether every module visual and wire visual has its property window. */
  predicate AllWindowed(mods: seq<ModuleUI>, wires: seq<WireUI>)
  {
    (forall i :: 0 <= i < |mods| ==> mods[i].hasWindow)
    && (forall i :: 0 <= i < |wires| ==> wires[i].hasWindow)
  }

  /** Appending to a log in two steps appends the concatenation. */
  lemma AppendAssoc<T>(a: seq<T>, b: seq<T>, c: seq<T>)
    ensures (a + b) + c == a + (b + c)
  {
  }

  /** The last index of module `id` in `mods`, or -1 (ArrayList.lastIndexOf). */
  function LastIndexOf(mods: seq<Module>, id: nat): (k: int)
    ensures -1 <= k < |mods|
    ensures k >= 0 ==> mods[k].id == id
    ensures forall j :: k < j < |mods| ==> mods[j].id != id
    decreases |mods|
  {
    if mods == [] then -1
    else if mods[|mods| - 1].id == id then |mods| - 1
    else LastIndexOf(mods[..|mods| - 1], id)
  }
}
