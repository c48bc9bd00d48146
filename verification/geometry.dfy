/** Integer geometry of the canvas: the "point in bounds" test used while
    dragging, the automatic growth of the canvas, and the bounding extent of
    the scene. */
module Geometry {
  import opened Scene

  /** Margin kept between a dragged point and the canvas edge. */
  const Margin := 30

  /** Padding added to the furthest coordinate of the scene. */
  const Padding := 60

  /** Whether `p` lies inside a canvas of `size`, with `Margin` to spare
      on the right and bottom. */
  predicate LocInBound(p: Point, size: Dim)
    ensures LocInBound(p, size) ==> GrowTo(p, size).None?
  {
    0 <= p.y <= size.height - Margin && 0 <= p.x <= size.width - Margin
  }

  /** The size `adjustSize(p)` asks `Resize` for, or `None` when it does not
      resize: a dimension grows to the coordinate plus `Margin` exactly when
      the coordinate is past that dimension less `Margin`. */
  function GrowTo(p: Point, size: Dim): (r: Option<Dim>)
    ensures r.Some? <==> p.x > size.width - Margin || p.y > size.height - Margin
    ensures r.Some? ==> (r.value.width != size.width <==> p.x > size.width - Margin)
    ensures r.Some? ==> (r.value.height != size.height <==> p.y > size.height - Margin)
    ensures r.Some? && r.value.width != size.width ==> r.value.width == p.x + Margin > size.width
    ensures r.Some? && r.value.height != size.height ==> r.value.height == p.y + Margin > size.height
  {
    var w := if p.x > size.width - Margin then p.x + Margin else size.width;
    var h := if p.y > size.height - Margin then p.y + Margin else size.height;
    if w != size.width || h != size.height then Some(Dim(w, h)) else None
  }

  /** For a point with non-negative coordinates, the canvas is grown exactly
      when the point is out of bounds, and the requested size brings it back
      in bounds. */
  lemma GrowthRestoresBounds(p: Point, size: Dim)
    requires p.x >= 0 && p.y >= 0
    ensures GrowTo(p, size).None? <==> LocInBound(p, size)
    ensures GrowTo(p, size).Some? ==> LocInBound(p, GrowTo(p, size).value)
  {
  }

  /** The largest of `base` and the values of `xs`, computed as the source's
      loop does: `if (x <= c) x = c` for each `c` in turn. */
  function MaxOf(base: int, xs: seq<int>): (m: int)
    ensures m >= base
    decreases |xs|
  {
    if xs == [] then base
    else
      var m := MaxOf(base, xs[..|xs| - 1]);
      if m <= xs[|xs| - 1] then xs[|xs| - 1] else m
  }

  /** `MaxOf` is the maximum: it bounds every value and is `base` or one of
      the values. */
  lemma {:induction false} MaxOfIsMaximum(base: int, xs: seq<int>)
    ensures forall i :: 0 <= i < |xs| ==> xs[i] <= MaxOf(base, xs)
    ensures MaxOf(base, xs) == base || exists i :: 0 <= i < |xs| && xs[i] == MaxOf(base, xs)
    decreases |xs|
  {
    if xs != [] {
      var init := xs[..|xs| - 1];
      MaxOfIsMaximum(base, init);
      assert forall i :: 0 <= i < |init| ==> init[i] == xs[i];
    }
  }

  /** One more step of the scan behind `MaxOf`. */
  lemma MaxOfStep(base: int, xs: seq<int>, i: nat)
    requires i < |xs|
    ensures MaxOf(base, xs[..i + 1]) == if MaxOf(base, xs[..i]) <= xs[i] then xs[i] else MaxOf(base, xs[..i])
  {
    assert xs[..i + 1][..i] == xs[..i];
  }

  function ModuleXs(mods: seq<ModuleUI>): (r: seq<int>)
    ensures |r| == |mods| && forall i :: 0 <= i < |mods| ==> r[i] == mods[i].at.x
  {
    seq(|mods|, i requires 0 <= i < |mods| => mods[i].at.x)
  }

  function ModuleYs(mods: seq<ModuleUI>): (r: seq<int>)
    ensures |r| == |mods| && forall i :: 0 <= i < |mods| ==> r[i] == mods[i].at.y
  {
    seq(|mods|, i requires 0 <= i < |mods| => mods[i].at.y)
  }

  function HandleXs(hs: seq<HandleUI>): (r: seq<int>)
    ensures |r| == |hs| && forall i :: 0 <= i < |hs| ==> r[i] == hs[i].handle.at.x
  {
    seq(|hs|, i requires 0 <= i < |hs| => hs[i].handle.at.x)
  }

  function HandleYs(hs: seq<HandleUI>): (r: seq<int>)
    ensures |r| == |hs| && forall i :: 0 <= i < |hs| ==> r[i] == hs[i].handle.at.y
  {
    seq(|hs|, i requires 0 <= i < |hs| => hs[i].handle.at.y)
  }

  /** The bounding box `updateBoundingBox` computes: the furthest module and
      handle coordinate (never below 0), padded. */
  function BoundingExtent(mods: seq<ModuleUI>, hs: seq<HandleUI>): (r: Dim)
    ensures r.width >= Padding && r.height >= Padding
  {
    Dim(MaxOf(MaxOf(0, ModuleXs(mods)), HandleXs(hs)) + Padding,
        MaxOf(MaxOf(0, ModuleYs(mods)), HandleYs(hs)) + Padding)
  }

  /** The bounding extent is at least `Padding` in each dimension, covers every
      module and handle with `Padding` to spare, and is the least such size:
      each dimension is `Padding` or some coordinate plus `Padding`. */
  lemma {:induction false} BoundingExtentIsTight(mods: seq<ModuleUI>, hs: seq<HandleUI>)
    ensures BoundingExtent(mods, hs).width >= Padding && BoundingExtent(mods, hs).height >= Padding
    ensures forall i :: 0 <= i < |mods| ==>
      mods[i].at.x + Padding <= BoundingExtent(mods, hs).width && mods[i].at.y + Padding <= BoundingExtent(mods, hs).height
    ensures forall i :: 0 <= i < |hs| ==>
      hs[i].handle.at.x + Padding <= BoundingExtent(mods, hs).width && hs[i].handle.at.y + Padding <= BoundingExtent(mods, hs).height
    ensures var w := BoundingExtent(mods, hs).width;
      w == Padding || (exists i :: 0 <= i < |mods| && mods[i].at.x + Padding == w)
                   || (exists i :: 0 <= i < |hs| && hs[i].handle.at.x + Padding == w)
    ensures var h := BoundingExtent(mods, hs).height;
      h == Padding || (exists i :: 0 <= i < |mods| && mods[i].at.y + Padding == h)
                   || (exists i :: 0 <= i < |hs| && hs[i].handle.at.y + Padding == h)
  {
    var mx, my := ModuleXs(mods), ModuleYs(mods);
    var hx, hy := HandleXs(hs), HandleYs(hs);
    var topX, topY := MaxOf(0, mx), MaxOf(0, my);
    MaxOfIsMaximum(0, mx);
    MaxOfIsMaximum(0, my);
    MaxOfIsMaximum(topX, hx);
    MaxOfIsMaximum(topY, hy);
    forall i | 0 <= i < |mods|
      ensures mods[i].at.x <= MaxOf(topX, hx) && mods[i].at.y <= MaxOf(topY, hy)
    {
      assert mx[i] == mods[i].at.x && mx[i] <= topX;
      assert my[i] == mods[i].at.y && my[i] <= topY;
    }
  }
}
