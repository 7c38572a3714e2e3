/*
  Pixel geometry shared by the libui input and layout code, and the layout
  context of game/src/libui/LayoutContext.cpp: what a window inherits from
  its parent when the layout pass descends into one of its children.
  Coordinates and factors are the source's floats, taken here as reals.
*/
module Geometry {
  datatype Vec = Vec(x: real, y: real)

  function Add(a: Vec, b: Vec): Vec { Vec(a.x + b.x, a.y + b.y) }

  function Sub(a: Vec, b: Vec): Vec { Vec(a.x - b.x, a.y - b.y) }

  const Zero := Vec(0.0, 0.0)

  /** A floating-point rectangle (FRECT). */
  datatype FRect = FRect(left: real, top: real, right: real, bottom: real)

  function Offset(r: FRect): Vec { Vec(r.left, r.top) }

  function Size(r: FRect): Vec { Vec(r.right - r.left, r.bottom - r.top) }
}

module Layout {
  import opened Geometry

  /** A child's layout as its parent computes it. */
  datatype WindowLayout = WindowLayout(rect: FRect, opacity: real, enabled: bool)

  datatype LayoutContext = LayoutContext(
    offset: Vec, size: Vec, scale: real, opacity: real, enabled: bool, focused: bool)

  /** The root constructor: every combined value is the given one. */
  function Root(opacity: real, scale: real, offset: Vec, size: Vec, enabled: bool, focused: bool): (lc: LayoutContext)
    ensures lc.opacity == opacity && lc.scale == scale && lc.offset == offset
    ensures lc.size == size && lc.enabled == enabled && lc.focused == focused
  {
    LayoutContext(offset, size, scale, opacity, enabled, focused)
  }

  /** The child constructor.  `focusIsChild` says whether the parent window's
      focus is this child. */
  function Child(parent: LayoutContext, focusIsChild: bool, layout: WindowLayout): LayoutContext
  {
    LayoutContext(
      Add(parent.offset, Offset(layout.rect)),
      Size(layout.rect),
      parent.scale,
      parent.opacity * layout.opacity,
      parent.enabled && layout.enabled,
      parent.focused && focusIsChild)
  }

  /** One step down the window tree: whether the parent focuses the child,
      and the child's layout. */
  datatype Step = Step(focusIsChild: bool, layout: WindowLayout)

  /** The context of the window reached from `root` by `steps`. */
  function Descend(root: LayoutContext, steps: seq<Step>): LayoutContext
    decreases |steps|
  {
    if steps == [] then root
    else Child(Descend(root, steps[..|steps| - 1]), steps[|steps| - 1].focusIsChild, steps[|steps| - 1].layout)
  }

  function SumOffsets(steps: seq<Step>): Vec
    decreases |steps|
  {
    if steps == [] then Zero
    else Add(SumOffsets(steps[..|steps| - 1]), Offset(steps[|steps| - 1].layout.rect))
  }

  function OpacityProduct(steps: seq<Step>): real
    decreases |steps|
  {
    if steps == [] then 1.0
    else OpacityProduct(steps[..|steps| - 1]) * steps[|steps| - 1].layout.opacity
  }

  /** Descending the tree: a window is enabled exactly when the root and every
      layout on the way are enabled, and focused exactly when the root is
      focused and every window on the way focuses the next one. */
  lemma {:induction false} DescendCombines(root: LayoutContext, steps: seq<Step>)
    ensures Descend(root, steps).enabled <==>
      root.enabled && forall i :: 0 <= i < |steps| ==> steps[i].layout.enabled
    ensures Descend(root, steps).focused <==>
      root.focused && forall i :: 0 <= i < |steps| ==> steps[i].focusIsChild
    decreases |steps|
  {
    if steps != [] {
      var init := steps[..|steps| - 1];
      DescendCombines(root, init);
      assert forall i :: 0 <= i < |init| ==> init[i] == steps[i];
    }
  }

  /** Descending the tree: a window's offset is the root's plus all the child
      offsets on the way, its opacity the root's times all their opacities,
      its scale the root's and its size that of its own layout. */
  lemma {:induction false} DescendAccumulates(root: LayoutContext, steps: seq<Step>)
    ensures Descend(root, steps).offset == Add(root.offset, SumOffsets(steps))
    ensures Descend(root, steps).opacity == root.opacity * OpacityProduct(steps)
    ensures Descend(root, steps).scale == root.scale
    ensures steps != [] ==> Descend(root, steps).size == Size(steps[|steps| - 1].layout.rect)
    decreases |steps|
  {
    if steps != [] {
      DescendAccumulates(root, steps[..|steps| - 1]);
    }
  }
}
