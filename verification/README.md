# ManagerUI canvas model

A Dafny model of the editing canvas of the LANSim network simulator
(`ManagerUI`). It covers the interaction mode and its state machine
(`changeMode`). It covers the parallel lists of modules, wires and their
visuals, the handles the canvas registers, and the pending buffer of the
module or wire being placed. It models what a mouse click does in each mode
and the double-click recogniser of the mouse listener. It models the
geometry helpers (`locInBound`, `adjustSize`, `updateBoundingBox`). It
models `stepSimulation` and the stepping loop of `run`, with its sub-step
counter and its frame-pacing counters.

The canvas is a class, `Canvas.ManagerUI`, whose methods update its fields in
place. Each method is proved against pure specification functions in the
other modules:

- `Scene`: entities and the event log.
- `Modes`: the mode state machine.
- `Geometry`: bounds, growth and the bounding box.
- `Handles`: removal, repositioning and merging of handles.
- `Clicks`: the double-click recogniser, with its own small class.
- `Gestures`: what each gesture does to the module visuals and which windows it shows.
- `Stepping`: one step and the loop.

The stated properties are proved about those functions as lemmas.

The calls that change a collaborator (the simulation manager, module, port
and wire objects, wire visuals, property windows, the clock) are recorded,
in order, in a ghost event log: starting, resuming, stopping and pausing the
simulation, `updatePrivateData`, `addPort`, `addModule`, `addWire`,
`removeNakedHandle`, showing a window, updating a property page, stepping
and resizing. Queries are not logged: what the collaborators answer is
passed in as a parameter (hit tests, `areAdjacent`, the handles `commit`
returns, the clock's tick, and the module the class loader produces).
Creating an object is not logged either: a new port, wire or wire visual
takes a fresh identity, and a new property window is a `hasWindow` flag on
its visual.

Each click method is specified by a predicate relating a snapshot of the
canvas before the click to the snapshot after it (`RightClickSpec`,
`DoubleClickSpec`, `WireClickSpec`, `EditClickSpec`, `MiddleClickSpec`,
`ClickSpec`); the lemmas `ClickInvariants` and the Edit-click lemmas derive
what every click keeps from those predicates.

## Model

| member | source | states |
|---|---|---|
| Canvas.ManagerUI.constructor | src/ui/ManagerUI.java:90-109 | A new canvas is in Edit with empty lists, no bounding box and rendering on demand, and its click record is at (0, 0, 0). The shared placement buffer keeps whatever it held. The invariant holds. |
| Canvas.ManagerUI.StartSimulation | src/ui/ManagerUI.java:1035-1043 | Every wire visual gets `updatePrivateData`, in list order, and then the simulation starts: the manager initialises it and the stepping thread is created. |
| Canvas.ManagerUI.ResumeSimulation | src/ui/ManagerUI.java:1045-1052 | Every wire visual gets `updatePrivateData`, in list order, and then the stepping thread is created again; the manager is not called. |
| Canvas.ManagerUI.RefreshWires | src/ui/ManagerUI.java:1036-1037 | The loop calls `updatePrivateData` once per wire visual, in list order. |
| Canvas.ManagerUI.StopSimulation | src/ui/ManagerUI.java:999-1014 | Stopping records one stop: the manager ends its simulation and the stepping thread is joined. |
| Canvas.ManagerUI.PauseSimulation | src/ui/ManagerUI.java:1016-1029 | Pausing records one pause: the stepping thread is joined; the manager is not called. |
| Canvas.ManagerUI.ChangeMode | src/ui/ManagerUI.java:238-275 | The new mode is the state machine's next mode. A request for the current mode does nothing. Otherwise the transition's entry or exit action runs, with the wire refreshes before a start or resume. Then every module window is told the resulting mode, also when a Paused request is refused. |
| Canvas.ManagerUI.SessionAction | src/ui/ManagerUI.java:241-266 | The switch sets the next mode and performs the transition's action, preceded by the wire refreshes when it starts or resumes. |
| Canvas.ManagerUI.BroadcastMode | src/ui/ManagerUI.java:267-271 | Every module visual that has a window, in list order, receives the current mode. |
| Canvas.ManagerUI.SetSelectionName | src/ui/ManagerUI.java:824-829 | In Simulation or Paused nothing changes. In Edit or WireCreation the selection is stored and the mode becomes Edit, with the broadcast only when the mode changed. |
| Canvas.ManagerUI.UpdateBoundingBox | src/ui/ManagerUI.java:175-199 | The box becomes the padded extent of all modules and handles, whether or not it existed before. |
| Canvas.ManagerUI.ModuleExtent | src/ui/ManagerUI.java:176-183 | The first scan yields the largest module coordinate in each dimension, never below 0. |
| Canvas.ManagerUI.HandleExtent | src/ui/ManagerUI.java:184-190 | The second scan carries those maxima over the handle coordinates. |
| Canvas.ManagerUI.AdjustSize | src/ui/ManagerUI.java:807-821 | A resize is requested exactly when the point is within the margin of the right or bottom edge, and its size is the one that takes the point back inside. |
| Canvas.ManagerUI.AddHandle | src/ui/ManagerUI.java:285-293 | A new handle record, Idle, with its owner, its wire and an identity no listed record has, is appended. The invariant is kept. |
| Canvas.ManagerUI.RemoveHandles | src/ui/ManagerUI.java:315-320 | The list becomes the handles not owned by the owner, in their original order. The scan does not skip the handle after a removed one. |
| Canvas.ManagerUI.RemoveRunAt | src/ui/ManagerUI.java:317-318 | The inner loop removes a run of owned handles at one index. Read against the original list, it decides those handles and the kept one after them. |
| Canvas.ManagerUI.RePositionHandles | src/ui/ManagerUI.java:322-329 | A null owner changes nothing. Otherwise every handle of the owner moves to the location and nothing else changes. |
| Canvas.ManagerUI.MergeHandle | src/ui/ManagerUI.java:331-346 | The outcome is the first coinciding, adjacent handle of the same wire. Only on a merge is the dropped record removed (by identity) and its wire told to remove the naked point. The invariant is kept. |
| Canvas.ManagerUI.RemoveMerged | src/ui/ManagerUI.java:339-341 | The wire removes the naked point and the record with that identity leaves the list. |
| Canvas.ManagerUI.ClearModuleStatuses | src/ui/ManagerUI.java:455-456 | Every module visual becomes Idle and nothing else about it changes. |
| Canvas.ManagerUI.AbandonWire | src/ui/ManagerUI.java:457-461 | The handles of the wire visual being drawn are removed, the wire buffer empties and the mode is Edit; nothing else changes. |
| Canvas.ManagerUI.RightClick | src/ui/ManagerUI.java:451-477 | The new state is RightClickSpec of the old one. In WireCreation the modules are deselected and the wire abandoned. In Edit the selection and the pending module are cleared. In Simulation and Paused nothing changes. |
| Canvas.ManagerUI.ShowModuleWindows | src/ui/ManagerUI.java:505-510 | The window of every hit module visual is shown, in order. The result says whether any visual was hit. |
| Canvas.ManagerUI.ShowWireWindows | src/ui/ManagerUI.java:511-517 | The window of every hit wire visual is shown, in order. |
| Canvas.ManagerUI.DoubleClick | src/ui/ManagerUI.java:481-539 | The new state is DoubleClickSpec of the old one: the modules are deselected; in WireCreation the wire is abandoned and the hit module windows open; in the other modes the hit module windows open, or the hit wire windows when no module is hit, and nothing else changes. |
| Canvas.ManagerUI.AbandonAndShow | src/ui/ManagerUI.java:486-499 | The WireCreation branch: the wire is abandoned, the modules deselected and the hit module windows shown. |
| Canvas.ManagerUI.ShowHit | src/ui/ManagerUI.java:501-517 | The other branches: the modules are deselected, then the hit module windows open, or the hit wire windows when no module is hit. |
| Canvas.ManagerUI.SelectOrLoad | src/ui/ManagerUI.java:602-608 | A Shift click loads the selected kind into an empty buffer at the pointer, and the click is aborted exactly when such a load produces nothing. A plain click forgets the selection. |
| Canvas.ManagerUI.CommitPendingModule | src/ui/ManagerUI.java:609-623 | The new state is Placed of the old one: the buffered module joins the list with sequence number length + 1, its visual joins with a window, the manager is told, the buffer empties and all visuals are Idle. |
| Canvas.ManagerUI.AppendModule | src/ui/ManagerUI.java:610-620 | The module and its windowed visual are appended, the manager is told and the module buffer empties; the invariant is kept. |
| Canvas.ManagerUI.StartWire | src/ui/ManagerUI.java:624-640 | The new state is WireStarted of the old one: hit visuals become Selected and the others Idle, and if any is hit WireCreation starts with a wire from the last hit module, buffered at the pointer. |
| Canvas.ManagerUI.SelectForWire | src/ui/ManagerUI.java:626-637 | One pass of the scan: a hit visual is Selected and buffers a wire from its module; a missed one becomes Idle. |
| Canvas.ManagerUI.BufferWire | src/ui/ManagerUI.java:628-633 | Enters WireCreation with a fresh port on the module, a fresh wire, a windowless wire visual and the pointer position. |
| Canvas.ManagerUI.EditSingleClick | src/ui/ManagerUI.java:601-643 | The new state is EditClickSpec of the old one: a failed load changes nothing; otherwise the buffered module is placed, or, with nothing buffered, a wire is started from the modules under the pointer. |
| Canvas.ManagerUI.PlaceOrStartWire | src/ui/ManagerUI.java:609-640 | After the load step: a full module buffer is placed, otherwise the wire scan runs. |
| Canvas.ManagerUI.WireSingleClick | src/ui/ManagerUI.java:542-597 | The new state is WireClickSpec of the old one: on empty space a routing point is added; on the origin module the wire is abandoned; on another module the wire is committed. |
| Canvas.ManagerUI.FindFirstHit | src/ui/ManagerUI.java:544-545 | The scan stops at the first hit module visual, or reports none. |
| Canvas.ManagerUI.AddRoutingPoint | src/ui/ManagerUI.java:584-594 | The origin handle is registered only when it stands on a port, then the routing point is registered under the wire visual. |
| Canvas.ManagerUI.RegisterHandles | src/ui/ManagerUI.java:555-560 | The origin handle, if it stands on a port, and the second handle join the list as new records. |
| Canvas.ManagerUI.SetStatus | src/ui/ManagerUI.java:546 | Only the status of that module visual changes. |
| Canvas.ManagerUI.CommitWire | src/ui/ManagerUI.java:547-569 | The new state is WireCommitted: module k is deselected, the wire and its end handles are registered, the buffer empties and the mode is Edit. |
| Canvas.ManagerUI.RegisterWire | src/ui/ManagerUI.java:548-565 | Adds a port on each end module and the far port on the wire. Registers both end handles, appends the wire and its windowed visual, and hands the wire to the manager. |
| Canvas.ManagerUI.AppendWire | src/ui/ManagerUI.java:561-565 | The wire and its windowed visual are appended and the given calls logged; nothing else changes and the invariant is kept. |
| Canvas.ManagerUI.EndWire | src/ui/ManagerUI.java:566-569 | The wire buffer empties and the mode is Edit; nothing else changes. |
| Canvas.ManagerUI.MiddleClick | src/ui/ManagerUI.java:647-680 | The new state is MiddleClickSpec of the old one. In WireCreation hit visuals start moving and a hit drops the wire buffer back to Edit. In Edit a hit visual toggles Moving and the others go Idle. In Simulation and Paused nothing changes. |
| Canvas.ManagerUI.MoveHitModules | src/ui/ManagerUI.java:650-659 | Hit visuals become Moving, the others are unchanged, and the buffer empties exactly when something was hit. |
| Canvas.ManagerUI.ToggleHitModules | src/ui/ManagerUI.java:665-675 | A hit visual toggles between Moving and Idle, a Selected one starts Moving, and the others become Idle. |
| Canvas.ManagerUI.MouseClicked | src/ui/ManagerUI.java:449-681 | The new state is ClickSpec of the old one: the right, middle or primary gesture, per button. The click record follows the recogniser for a primary click and is unchanged otherwise. The invariant is kept. |
| Canvas.ManagerUI.PrimaryClick | src/ui/ManagerUI.java:479-645 | The new state is PrimaryClickSpec of the old one: a double click (as the recogniser decides) is DoubleClickSpec, and a single click is the WireCreation or Edit single click, or nothing in Simulation and Paused. |
| Canvas.ClickInvariants | src/ui/ManagerUI.java:449-681 | Every click keeps the lists parallel and lets modules and wires grow only by one at the end. Simulation and Paused change no list, handle or identity. The mode stays, returns to Edit, or goes from Edit to WireCreation, and a wire being drawn always starts on a committed module. |
| Canvas.EditClickInvariants | src/ui/ManagerUI.java:601-643 | An Edit single click adds no wire, places at most the buffered module, and a wire it starts is drawn from a listed module. |
| Canvas.ShiftClickPlacesLoadedModule | src/ui/ManagerUI.java:602-623 | A Shift click with a selection and an empty buffer places exactly the loaded module, numbered after the others, its visual at the pointer; a failed load changes nothing. |
| Canvas.PlainClickPlacesOnlyTheBuffer | src/ui/ManagerUI.java:607-640 | A plain click forgets the selection and places the module already buffered if any. Otherwise the module list, the handles and the log stay, and the visuals are marked by the hit test. |
| Canvas.ScanStep | src/ui/ManagerUI.java:625-639 | One more pass of the scan buffers a new wire exactly when that visual is hit. |
| Canvas.ManagerUI.StepSimulation | src/ui/ManagerUI.java:878-905 | The result is true outside Simulation or on a clock tick. The calls made are the clock, the graph step, the module visuals and the wire visuals, as StepEvents lists them. |
| Canvas.ManagerUI.StepVisuals | src/ui/ManagerUI.java:896-901 | Module visuals step at a full-resolution boundary or outside Simulation, then every wire visual steps. |
| Canvas.ManagerUI.StepModules | src/ui/ManagerUI.java:897-898 | Every module visual steps, in list order. |
| Canvas.ManagerUI.StepWires | src/ui/ManagerUI.java:900-901 | Every wire visual steps, in list order. |
| Canvas.ManagerUI.Run | src/ui/ManagerUI.java:832-872 | The loop over the observed frames produces the iterations and calls of RunTrace. |
| Canvas.ManagerUI.RunOnce | src/ui/ManagerUI.java:843-868 | One pass equals Advance on the counters and makes the calls of one stepSimulation. |
| Scene.LastIndexOf | src/ui/ManagerUI.java:221-223 | The index found holds the module and no later index does; -1 when it is absent. |
| Modes.NextMode | src/ui/ManagerUI.java:238-266 | Requests other than Paused always take effect. Paused takes effect only from Simulation. A request for the current mode changes nothing. |
| Modes.EntryExit | src/ui/ManagerUI.java:238-266 | Start runs exactly on Edit to Simulation, resume on Paused to Simulation, stop on Simulation or Paused to Edit, and pause on Simulation to Paused. At most one action runs. |
| Modes.Performed | src/ui/ManagerUI.java:1035-1048 | The calls of a transition end with its action, and anything before it is a wire refresh. |
| Modes.RefreshExactlyWhenOpening | src/ui/ManagerUI.java:246-251 | A wire visual is refreshed exactly when the transition starts or resumes the simulation: Simulation requested from Edit or Paused. |
| Modes.SessionMatchesMode | src/ui/ManagerUI.java:238-266 | Over any sequence of requests that avoids WireCreation to or from Simulation, the stepping thread runs exactly when the mode is Simulation. |
| Modes.ManagerMatchesMode | src/ui/ManagerUI.java:238-266 | The manager's simulation is opened only by a start and closed only by a stop. Over any sequence of requests that avoids WireCreation to or from Simulation and Paused to WireCreation, it is open exactly in Simulation and Paused. |
| Modes.PauseKeepsManagerSimulating | src/ui/ManagerUI.java:1016-1052 | Pausing and resuming leave the manager's simulation as it was, and Paused to WireCreation leaves it open. |
| Modes.WireCreationEntersSimulationUnstarted | src/ui/ManagerUI.java:241-252 | From WireCreation, a Simulation request reaches Simulation and leaves the stepping thread as it was: none is started. |
| Modes.SimulationLeavesSessionOpen | src/ui/ManagerUI.java:241-244 | From Simulation, a WireCreation request leaves the stepping thread as it was: it is not stopped. |
| Modes.PausedOnlyFromSimulation | src/ui/ManagerUI.java:260-265 | Paused is refused from every other mode, and from Simulation it pauses, joining the stepping thread. |
| Geometry.LocInBound | src/ui/ManagerUI.java:798-805 | A point in bounds never makes the canvas grow. |
| Geometry.GrowTo | src/ui/ManagerUI.java:807-821 | A resize happens exactly when a coordinate passes its dimension less the margin; only those dimensions change, each to the coordinate plus the margin. |
| Geometry.GrowthRestoresBounds | src/ui/ManagerUI.java:798-821 | For a non-negative point, growth happens exactly when it is out of bounds, and the grown size puts it back in bounds. |
| Geometry.MaxOf | src/ui/ManagerUI.java:177-190 | The scan's result is never below its starting value. |
| Geometry.MaxOfIsMaximum | src/ui/ManagerUI.java:177-190 | The scan's result bounds every value and is the base or one of the values. |
| Geometry.BoundingExtent | src/ui/ManagerUI.java:175-199 | The box is at least the padding in each dimension. |
| Geometry.BoundingExtentIsTight | src/ui/ManagerUI.java:175-199 | The box covers every module and handle with the padding to spare. It is the least such box: each side is the padding or a coordinate plus the padding. |
| Handles.Without | src/ui/ManagerUI.java:315-320 | No handle of the owner remains. |
| Handles.WithoutKeepsExactlyUnowned | src/ui/ManagerUI.java:315-320 | A handle remains exactly when it was listed and is not the owner's. |
| Handles.WithoutAppend | src/ui/ManagerUI.java:315-320 | Removal distributes over concatenation, so the relative order of kept handles is preserved. |
| Handles.WithoutNoneOwned | src/ui/ManagerUI.java:315-320 | Without handles of the owner, removal changes nothing. |
| Handles.WithoutIdempotent | src/ui/ManagerUI.java:315-320 | Removing twice is removing once. |
| Handles.WithoutKeepsFresh | src/ui/ManagerUI.java:315-320 | Removal keeps the records distinct and older than the next identity. |
| Handles.Repositioned | src/ui/ManagerUI.java:322-329 | Each handle is moved when owned and unchanged otherwise; the length is kept. |
| Handles.RepositionedTouchesOnlyOwned | src/ui/ManagerUI.java:322-329 | Repositioning changes only the positions of owned handles, to the target. |
| Handles.RepositionedLastWins | src/ui/ManagerUI.java:322-329 | A second reposition of the same owner overrides the first, and repositioning does not affect which handles removal keeps. |
| Handles.HandlesFreshAppend | src/ui/ManagerUI.java:285-289 | Appending a record with the next identity keeps the records distinct and older than the new next identity. |
| Handles.RemoveFirst | src/ui/ManagerUI.java:340 | Removing a record by identity shortens the list by one when it is present, changes nothing when it is absent, and adds nothing. |
| Handles.RemoveFirstAt | src/ui/ManagerUI.java:340 | Removal deletes exactly the first record with that identity and keeps the rest in order. |
| Handles.RemoveFirstRemovesOnlyIt | src/ui/ManagerUI.java:340 | With distinct identities, removal takes out that record and keeps every other. |
| Handles.RemoveFirstKeepsFresh | src/ui/ManagerUI.java:340 | Removal keeps the records distinct and older than the next identity. |
| Handles.ScanFrom | src/ui/ManagerUI.java:334-345 | The scan finds no partner exactly when no handle coincides, shares the wire and is adjacent. Otherwise it stops at the first such handle and tells apart a real wire from a null one. |
| Handles.MergeDecision | src/ui/ManagerUI.java:331-346 | The merge is skipped exactly when there is no handle or it is not naked. |
| Handles.AfterMerge | src/ui/ManagerUI.java:331-346 | The merge only removes records: it never adds one and never lengthens the list. |
| Handles.MergeRemovesAtMostItself | src/ui/ManagerUI.java:331-346 | A null or non-naked handle changes nothing. Otherwise at most the handle itself is removed, and only when a coinciding adjacent handle of its non-null wire exists. |
| Clicks.DoubleIsOnePixelInTime | src/ui/ManagerUI.java:394-410 | At one moment at most one pixel completes a double click, only within 300 ms of the recorded click, and never once 300 ms have passed. |
| Clicks.Record | src/ui/ManagerUI.java:394-410 | A double click keeps the record; any other click replaces it with its own position and time. |
| Clicks.SecondClick | src/ui/ManagerUI.java:394-410 | After a single click, a later click is double exactly when it is on the same pixel and less than 300 ms later. |
| Clicks.ThirdClickMeasuredFromFirst | src/ui/ManagerUI.java:394-410 | A double click does not restart the window: a third click is measured from the first. |
| Clicks.ClickRecorder.constructor | src/ui/ManagerUI.java:350-352 | The recogniser starts at position (0, 0), time 0. |
| Clicks.ClickRecorder.IsDoubleClick | src/ui/ManagerUI.java:394-410 | The answer is the double-click test on the old record, and the new record is what Record prescribes. |
| Gestures.FirstHit | src/ui/ManagerUI.java:544-583 | The first hit visual, or -1 exactly when none is hit. |
| Gestures.LastHit | src/ui/ManagerUI.java:625-639 | The last hit visual, or -1 exactly when none is hit. |
| Gestures.Hits | src/ui/ManagerUI.java:625-639 | The number of hit visuals, at most the list's length and zero exactly when none is hit. |
| Gestures.Marked | src/ui/ManagerUI.java:625-639 | Exactly the hit visuals are Selected, none is Moving, and only statuses change. |
| Gestures.Toggled | src/ui/ManagerUI.java:666-675 | A visual is Moving exactly when hit and not Moving before; none is Selected; only statuses change. |
| Gestures.MovedIfHit | src/ui/ManagerUI.java:651-659 | Hit visuals are Moving and the others keep their status. |
| Gestures.ModuleWindows | src/ui/ManagerUI.java:495-499 | Only window openings, and none exactly when no module is hit. |
| Gestures.ModuleWindowsShowExactlyHits | src/ui/ManagerUI.java:495-510 | A module window opens exactly for the hit visuals. |
| Gestures.WireWindows | src/ui/ManagerUI.java:512-516 | Only window openings, at most one per wire visual. |
| Gestures.WireWindowsShowExactlyHits | src/ui/ManagerUI.java:512-516 | A wire window opens exactly for the hit wire visuals. |
| Gestures.PropertyPages | src/ui/ManagerUI.java:267-271 | Only property-page updates carrying the given mode, at most one per visual. |
| Gestures.BroadcastReachesEveryWindow | src/ui/ManagerUI.java:267-271 | When every visual has a window, each receives the mode once, in list order. |
| Stepping.StepEventsByMode | src/ui/ManagerUI.java:878-905 | Outside Simulation every module and then every wire visual steps and the clock is not asked. In Simulation the clock is asked first, as a sub-step unless the counter is 3, and without a tick nothing else happens. |
| Stepping.StepEventsParts | src/ui/ManagerUI.java:886-904 | The calls of one step are at most two clock and graph calls, then the module visuals, then the wire visuals. |
| Stepping.StepSimulationWhen | src/ui/ManagerUI.java:886-904 | The graph steps exactly on a tick at a full-resolution boundary. Module visuals step exactly outside Simulation or at such a tick. Wire visuals step exactly when the call returns true. |
| Stepping.StepSimulationOrder | src/ui/ManagerUI.java:893-901 | No wire visual steps before a module visual. |
| Stepping.Advance | src/ui/ManagerUI.java:843-868 | An iteration is passed the current counter and returns the stepping result. It is a full step exactly when stepSimulation advances the graph. The counter passes on. The sleep asked for is the period less the work less the previous overrun, and the new overrun is the sleep's excess or 0. A yield happens only on an overrun and resets the overrun counter. |
| Stepping.NextStepping | src/ui/ManagerUI.java:844-847 | The counter stays within 1..3, is unchanged when the call did not step, and wraps from 1 to 3. |
| Stepping.RunTrace | src/ui/ManagerUI.java:832-872 | One iteration per observed frame. |
| Stepping.RunTraceCounters | src/ui/ManagerUI.java:834-847 | The sub-step counter starts at 3 and stays in 1..3, each iteration receives what the previous left, and the overrun counter stays below 6. |
| Stepping.OverSleepCarried | src/ui/ManagerUI.java:852-864 | The first iteration asks to sleep the period less its work; each later one also subtracts how much the previous sleep overran, and the loop ends holding the last overrun. |
| Stepping.FullStepEveryThirdTick | src/ui/ManagerUI.java:840-847 | In Simulation, after T ticks the counter is 3 - T mod 3 and the graph has advanced ceil(T / 3) times. |
| Stepping.OutsideSimulationAlwaysSteps | src/ui/ManagerUI.java:843-851 | Outside Simulation every iteration steps the visuals and renders, and the graph never advances. |
| Stepping.YieldsCountAllOverruns | src/ui/ManagerUI.java:856-867 | The loop yields once per six overruns in total, consecutive or not, and the counter holds the overruns since the last yield. |

## Left out

- Rendering, painting, the off-screen image buffer and `Resize` beyond the size it is asked for (src/ui/ManagerUI.java:295-308 and 907-993): these draw pixels.
- Threads: `startthread`, `terminatethread`, `setRenderAllways`, the join in stop and pause, and the sleep and yield calls of `run`. Only their effect on the counters is modelled, and the loop runs over a finite sequence of observed frames instead of until terminated.
- Wall-clock time: the duration of each iteration and of each sleep is an input of each frame. `Period` is 1000 / 80 truncated to 12, as the source's cast gives.
- `getNewModToBuffer`: loading a class by reflection and instantiating it is replaced by the loaded module as an input (`Probe.loaded`). When loading fails the source dereferences a null visual; the model aborts the click instead.
- `mousePressed`, `mouseReleased`, `mouseDragged`, `mouseMoved`, `mouseEntered`, `mouseExited`: the drag gestures are not part of this model, apart from `mergeHandle`, `rePositionHandles`, `locInBound` and `adjustSize`, which they call.
- 32-bit and 64-bit integer overflow of coordinates and times: all arithmetic is on unbounded integers.
- The internals of collaborators. The answers of the queries `isClicked`, `areAdjacent` and `clock.tick` are inputs, and querying is not logged. Only the calls that change a collaborator are entries of the log: the `Manager` calls (`initSimulation`, `endSimulation`, `addModule`, `addWire`, `stepSimulation`), `Module.addPort`, `Wire.addPort`, `WireUI.removeNakedHandle`, `updatePrivateData`, the visuals' `stepSimulation`, showing a window, updating a property page, and the clock's tick as `ClockTick`. The calls to `commit` and the creation of windows (`moduleWindow`, `createWireModWin`) are not logged; see the lines for Canvas.ManagerUI.RegisterWire, Canvas.ManagerUI.AddRoutingPoint and Canvas.ManagerUI.CommitPendingModule.
- `scrollRectToVisible`, `revalidate`, the time label, console output, `ResizeToSmallestSize`, `reset`, the getters and `addNewComponent`: display side effects and one-line delegations.
- Canvas.ManagerUI.WireSingleClick: requires a full wire buffer whose port belongs to a listed module. The source dereferences the buffer without a check, so a WireCreation reached through `changeMode` (which fills no buffer) fails there. The source needs the origin module to be listed only when the first handle `commit` returns is a port (`getModuleUI` at src/ui/ManagerUI.java:556 and 589); with a non-port first handle it also handles an unlisted origin, which the model excludes. An unlisted origin arises only from a buffer filled by another canvas (the buffer is shared); within one canvas Canvas.ClickInvariants shows that every wire being drawn starts on a listed module. Canvas.ManagerUI.MouseClicked and Canvas.ManagerUI.PrimaryClick carry the same precondition for a single primary click in WireCreation.
- Canvas.ManagerUI.AddRoutingPoint: the origin handle's owner is found from the buffered port rather than from `wire.getPort(0)`. The two are the same port because the wire is created on that port.
- Object creation (ports, wires, wire visuals) is modelled as fresh identities taken from `nextId`. Java object identity is an `Obj(id)` reference.
- Canvas.ManagerUI.RegisterWire: the four collaborator calls of a commit are logged together at the end. Registering the handles is not a logged call, so their order relative to the handles is not recorded.
- Canvas.ManagerUI.StartWire: when several visuals are hit, each hit creates a new port, wire and wire visual and only the last remains buffered. The model shows this by advancing `nextId` per hit; the discarded objects themselves are not modelled.
- Canvas.ManagerUI.ChangeMode does not clear the pending buffer when entering Simulation or Paused, so a module or wire being placed is still buffered there. The model follows the code.
- Canvas.ManagerUI.MergeHandle: when the dropped handle has no wire and a coinciding handle also has none, the source calls a method on a null wire. The model stops with the outcome `NullWireOwner` and changes nothing.
- Canvas.ManagerUI.constructor: the placement buffer is a static object shared by every canvas. The model gives each canvas its own copy of the buffer's fields, starting from what the buffer held at construction, and does not model a second canvas changing it.
- Canvas.ManagerUI.UpdateBoundingBox: handle coordinates are `Point2D.Double` values compared as doubles and truncated by the `(int)` cast. The model keeps handle coordinates as integers, so the comparison and the truncation coincide.
- Canvas.ManagerUI.Run: the source reads the volatile `mode` and `renderAllways` afresh on every iteration, so another thread can change them during a run. The model fixes both for the whole run.
- Stepping.FullStepEveryThirdTick: holds for a run whose mode stays Simulation throughout; a run whose mode changes part way is not covered.
- Modes.SessionMatchesMode: the flag it tracks is the stepping thread, which `startSimulation` and `resumeSimulation` create and `stopSimulation` and `pauseSimulation` join. That thread exists only when `renderAllways` is off; with rendering always on the flag says only that a start or resume was the last opening call. The simulation manager's own state is a separate flag, stated by Modes.ManagerMatchesMode.
- Canvas.ManagerUI.RegisterWire: the call to the wire visual's `commit` is not an entry of the log; its two handles are an input. Creating the wire's property window (`createWireModWin`, `setModWin`) is the `hasWindow` flag of the appended visual.
- Canvas.ManagerUI.AddRoutingPoint: the call to `commit` is not an entry of the log; its two handles are an input.
- Canvas.ManagerUI.CommitPendingModule: creating the module's property window is the `hasWindow` flag of the appended visual.
- Canvas.ManagerUI.StartWire: creating the port, the wire and the wire visual is not logged; they take fresh identities from `nextId`.
