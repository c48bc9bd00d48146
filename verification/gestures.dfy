/** What the mouse gestures of the canvas do to the module visuals, and which
    windows they bring up, as functions of the hit test `hit` (the source's
    `isClicked` at the pointer). */
module Gestures {
  import opened Scene

  /** Some visual in `mods` is hit. */
  predicate AnyHit(mods: seq<ModuleUI>, hit: ModuleUI -> bool)
  {
    exists i :: 0 <= i < |mods| && hit(mods[i])
  }

  /** The first hit visual, or -1: the scan that stops at the first hit. */
  function FirstHit(mods: seq<ModuleUI>, hit: ModuleUI -> bool): (k: int)
    ensures -1 <= k < |mods|
    ensures k >= 0 ==> hit(mods[k]) && forall j :: 0 <= j < k ==> !hit(mods[j])
    ensures k < 0 <==> !AnyHit(mods, hit)
    decreases |mods|
  {
    if mods == [] then -1
    else if hit(mods[0]) then 0
    else
      var k := FirstHit(mods[1..], hit);
      assert forall j :: 0 < j < |mods| ==> mods[j] == mods[1..][j - 1];
      if k < 0 then -1 else k + 1
  }

  /** The last hit visual, or -1: the scan that runs to the end and lets each
      hit overwrite the previous one. */
  function LastHit(mods: seq<ModuleUI>, hit: ModuleUI -> bool): (k: int)
    ensures -1 <= k < |mods|
    ensures k >= 0 ==> hit(mods[k]) && forall j :: k < j < |mods| ==> !hit(mods[j])
    ensures k < 0 <==> !AnyHit(mods, hit)
    decreases |mods|
  {
    if mods == [] then -1
    else if hit(mods[|mods| - 1]) then |mods| - 1
    else LastHit(mods[..|mods| - 1], hit)
  }

  /** The number of hit visuals: the number of wires the scan of `startWire`
      buffers one after another. */
  function Hits(mods: seq<ModuleUI>, hit: ModuleUI -> bool): (n: nat)
    ensures n <= |mods|
    ensures n == 0 <==> !AnyHit(mods, hit)
    decreases |mods|
  {
    if mods == [] then 0
    else
      var init := mods[..|mods| - 1];
      assert forall i :: 0 <= i < |init| ==> init[i] == mods[i];
      Hits(init, hit) + (if hit(mods[|mods| - 1]) then 1 else 0)
  }

  /** Edit-mode single click with nothing to place: the hit visuals become
      Selected and every other visual Idle; nothing but the status changes. */
  function Marked(mods: seq<ModuleUI>, hit: ModuleUI -> bool): (r: seq<ModuleUI>)
    ensures |r| == |mods|
    ensures forall i :: 0 <= i < |mods| ==> r[i].(status := mods[i].status) == mods[i]
    ensures forall i :: 0 <= i < |mods| ==> (r[i].status == Selected <==> hit(mods[i]))
    ensures forall i :: 0 <= i < |mods| ==> r[i].status != Moving
  {
    seq(|mods|, i requires 0 <= i < |mods| => mods[i].(status := if hit(mods[i]) then Selected else Idle))
  }

  /** Edit-mode middle click: a hit visual toggles between Moving and Idle
      (a Selected one starts Moving), every other visual becomes Idle. */
  function Toggled(mods: seq<ModuleUI>, hit: ModuleUI -> bool): (r: seq<ModuleUI>)
    ensures |r| == |mods|
    ensures forall i :: 0 <= i < |mods| ==> r[i].(status := mods[i].status) == mods[i]
    ensures forall i :: 0 <= i < |mods| ==> (r[i].status == Moving <==> hit(mods[i]) && mods[i].status != Moving)
    ensures forall i :: 0 <= i < |mods| ==> r[i].status != Selected
  {
    seq(|mods|, i requires 0 <= i < |mods| =>
      mods[i].(status := if hit(mods[i]) && mods[i].status != Moving then Moving else Idle))
  }

  /** Wire-creation middle click: the hit visuals start Moving, the others
      keep their status. */
  function MovedIfHit(mods: seq<ModuleUI>, hit: ModuleUI -> bool): (r: seq<ModuleUI>)
    ensures |r| == |mods|
    ensures forall i :: 0 <= i < |mods| ==> r[i].(status := mods[i].status) == mods[i]
    ensures forall i :: 0 <= i < |mods| ==> r[i].status == (if hit(mods[i]) then Moving else mods[i].status)
  {
    seq(|mods|, i requires 0 <= i < |mods| => if hit(mods[i]) then mods[i].(status := Moving) else mods[i])
  }

  /** The property windows a double click brings up: one per hit module
      visual, in list order. */
  function ModuleWindows(mods: seq<ModuleUI>, hit: ModuleUI -> bool): (r: seq<Event>)
    ensures |r| <= |mods|
    ensures forall k :: 0 <= k < |r| ==> r[k].ShowWindow?
    ensures r == [] <==> !AnyHit(mods, hit)
    decreases |mods|
  {
    if mods == [] then []
    else
      var init := mods[..|mods| - 1];
      var m := mods[|mods| - 1];
      assert forall i :: 0 <= i < |init| ==> init[i] == mods[i];
      ModuleWindows(init, hit) + (if hit(m) then [ShowWindow(m.id)] else [])
  }

  /** A window is shown exactly for the visuals that are hit. */
  lemma {:induction false} ModuleWindowsShowExactlyHits(mods: seq<ModuleUI>, hit: ModuleUI -> bool)
    ensures forall id :: ShowWindow(id) in ModuleWindows(mods, hit) <==>
      exists i :: 0 <= i < |mods| && hit(mods[i]) && mods[i].id == id
    decreases |mods|
  {
    if mods != [] {
      var init := mods[..|mods| - 1];
      ModuleWindowsShowExactlyHits(init, hit);
      assert forall i :: 0 <= i < |init| ==> init[i] == mods[i];
    }
  }

  /** The property windows of the hit wire visuals, in list order. */
  function WireWindows(wires: seq<WireUI>, hit: WireUI -> bool): (r: seq<Event>)
    ensures |r| <= |wires|
    ensures forall k :: 0 <= k < |r| ==> r[k].ShowWindow?
    decreases |wires|
  {
    if wires == [] then []
    else
      var init := wires[..|wires| - 1];
      var w := wires[|wires| - 1];
      WireWindows(init, hit) + (if hit(w) then [ShowWindow(w.id)] else [])
  }

  /** A window is shown exactly for the wire visuals that are hit. */
  lemma {:induction false} WireWindowsShowExactlyHits(wires: seq<WireUI>, hit: WireUI -> bool)
    ensures forall id :: ShowWindow(id) in WireWindows(wires, hit) <==>
      exists i :: 0 <= i < |wires| && hit(wires[i]) && wires[i].id == id
    decreases |wires|
  {
    if wires != [] {
      var init := wires[..|wires| - 1];
      WireWindowsShowExactlyHits(init, hit);
      assert forall i :: 0 <= i < |init| ==> init[i] == wires[i];
    }
  }

  /** The property-page updates `changeMode` broadcasts: one per module visual
      that has a window, each carrying the mode `m`. */
  function PropertyPages(mods: seq<ModuleUI>, m: Mode): (r: seq<Event>)
    ensures |r| <= |mods|
    ensures forall k :: 0 <= k < |r| ==> r[k].PropertyPageState? && r[k].mode == m
    decreases |mods|
  {
    if mods == [] then []
    else
      var init := mods[..|mods| - 1];
      var u := mods[|mods| - 1];
      PropertyPages(init, m) + (if u.hasWindow then [PropertyPageState(u.id, m)] else [])
  }

  /** When every module visual has its window, the broadcast reaches each of
      them once, in list order. */
  lemma {:induction false} BroadcastReachesEveryWindow(mods: seq<ModuleUI>, m: Mode)
    requires forall i :: 0 <= i < |mods| ==> mods[i].hasWindow
    ensures |PropertyPages(mods, m)| == |mods|
    ensures forall i :: 0 <= i < |mods| ==> PropertyPages(mods, m)[i] == PropertyPageState(mods[i].id, m)
    decreases |mods|
  {
    if mods != [] {
      var init := mods[..|mods| - 1];
      BroadcastReachesEveryWindow(init, m);
      assert forall i :: 0 <= i < |init| ==> init[i] == mods[i];
    }
  }
}
