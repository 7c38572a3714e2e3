/*
  The pointer and focus routing of game/src/libui/InputContext.cpp: the
  stack of input transforms pushed while the window tree is traversed, the
  map from pointer ids to the window paths that captured them, and the
  focus propagation along the path of the window that receives a pointer
  press or a tap.

  Finding the window under the pointer (FindAreaSink) walks the whole
  window tree and is not modelled: ProcessPointer receives the path it
  found, and the sink's handlers are represented by what they return.
*/
module Input {
  import opened Geometry
  import Layout

  /** A window, as far as routing is concerned: the child it focuses. */
  class Window {
    var focus: Window?

    constructor ()
      ensures focus == null
    {
      focus := null;
    }
  }

  datatype InputFrame = InputFrame(offset: Vec, focused: bool, hovered: bool)

  const BASE := InputFrame(Zero, true, true)

  /** The frame a push with argument `arg` puts on top of `top`. */
  function Pushed(top: InputFrame, arg: InputFrame): InputFrame
  {
    InputFrame(Add(top.offset, arg.offset), top.focused && arg.focused, top.hovered && arg.hovered)
  }

  /** The top frame after pushing `args` onto a fresh stack, in order. */
  function Compose(args: seq<InputFrame>): InputFrame
    decreases |args|
  {
    if args == [] then BASE else Pushed(Compose(args[..|args| - 1]), args[|args| - 1])
  }

  /** A window is seen as focused (hovered) exactly when every transform pushed
      on the way to it passed focused (hovered). */
  lemma {:induction false} ComposeFlags(args: seq<InputFrame>)
    ensures Compose(args).focused <==> forall i :: 0 <= i < |args| ==> args[i].focused
    ensures Compose(args).hovered <==> forall i :: 0 <= i < |args| ==> args[i].hovered
    decreases |args|
  {
    if args != [] {
      var init := args[..|args| - 1];
      ComposeFlags(init);
      assert forall i :: 0 <= i < |init| ==> init[i] == args[i];
    }
  }

  lemma ComposeSnoc(args: seq<InputFrame>, arg: InputFrame)
    ensures Compose(args + [arg]) == Pushed(Compose(args), arg)
  {
    assert (args + [arg])[..|args|] == args;
  }

  datatype Msg = PointerDown | PointerUp | PointerCancel | PointerMove | Tap

  /** Whether some captured pointer's path starts at `w`. */
  predicate Captures(captures: map<nat, seq<Window>>, w: Window)
  {
    exists id :: id in captures && |captures[id]| > 0 && captures[id][0] == w
  }

  class InputContext {
    /** The transform stack, bottom first. */
    var stack: seq<InputFrame>
    /** The arguments of the pushes that built the stack above its base. */
    ghost var args: seq<InputFrame>
    /** For each captured pointer, the path from the capturing window up to the root. */
    var captures: map<nat, seq<Window>>

    ghost predicate Valid()
      reads this
    {
      && |stack| == |args| + 1
      && (forall i :: 0 <= i < |stack| ==> stack[i] == Compose(args[..i]))
      && (forall id :: id in captures ==> |captures[id]| > 0)
    }

    constructor ()
      ensures Valid() && stack == [BASE] && captures == map[]
    {
      stack := [BASE];
      args := [];
      captures := map[];
    }

    function Top(): InputFrame
      reads this
      requires Valid()
    {
      stack[|stack| - 1]
    }

    /** The top frame is what the pushes composed to. */
    lemma TopComposed()
      requires Valid()
      ensures Top() == Compose(args)
    {
      assert args[..|stack| - 1] == args;
    }

    method PushInputTransform(offset: Vec, focused: bool, hovered: bool)
      requires Valid()
      modifies this`stack, this`args
      ensures Valid()
      ensures stack == old(stack) + [Pushed(old(Top()), InputFrame(offset, focused, hovered))]
      ensures args == old(args) + [InputFrame(offset, focused, hovered)]
    {
      var arg := InputFrame(offset, focused, hovered);
      ghost var before := args;
      TopComposed();
      ComposeSnoc(args, arg);
      stack := stack + [Pushed(stack[|stack| - 1], arg)];
      args := args + [arg];
      forall i | 0 <= i < |stack|
        ensures stack[i] == Compose(args[..i])
      {
        if i < |stack| - 1 {
          assert args[..i] == before[..i];
        } else {
          assert args[..i] == args;
        }
      }
    }

    method PopInputTransform()
      requires Valid() && |stack| > 1
      modifies this`stack, this`args
      ensures Valid()
      ensures stack == old(stack[..|stack| - 1]) && args == old(args[..|args| - 1])
    {
      ghost var before := args;
      stack := stack[..|stack| - 1];
      args := args[..|args| - 1];
      forall i | 0 <= i < |stack|
        ensures stack[i] == Compose(args[..i])
      {
        assert args[..i] == before[..i];
      }
    }

    /** The pointer position relative to the current window; `raw` is the
        platform's pointer position. */
    function GetMousePos(raw: Vec): (p: Vec)
      reads this
      requires Valid()
      ensures Add(p, Top().offset) == raw
    {
      Sub(raw, Top().offset)
    }

    function GetFocused(): bool
      reads this
      requires Valid()
    {
      Top().focused
    }

    function GetHovered(): bool
      reads this
      requires Valid()
    {
      Top().hovered
    }

    /** The current window is focused exactly when every transform pushed
        since the root was pushed focused. */
    lemma FocusedIffAllFocused()
      requires Valid()
      ensures GetFocused() <==> forall i :: 0 <= i < |args| ==> args[i].focused
      ensures GetHovered() <==> forall i :: 0 <= i < |args| ==> args[i].hovered
    {
      TopComposed();
      ComposeFlags(args);
    }

    method HasCapturedPointers(w: Window) returns (found: bool)
      requires Valid()
      ensures found <==> Captures(captures, w)
    {
      var ids := captures.Keys;
      while ids != {}
        invariant ids <= captures.Keys
        invariant forall id :: id in captures && id !in ids ==> captures[id][0] != w
        decreases ids
      {
        var id :| id in ids;
        if captures[id][0] == w {
          return true;
        }
        ids := ids - {id};
      }
      return false;
    }

    /** ProcessPointer for every message but scrolling.  `search` is the path
        FindAreaSink finds under the pointer (empty when it finds no sink),
        `needsFocus` whether the target window takes focus, and `accepts`
        what the sink's OnPointerDown returns.  The result says whether a sink
        received the message. */
    method ProcessPointer(pointerID: nat, msg: Msg, search: seq<Window>, needsFocus: bool, accepts: bool)
      returns (handled: bool, ghost path: seq<Window>)
      requires Valid()
      modifies this`captures, if pointerID in captures then captures[pointerID] else search
      ensures Valid() && stack == old(stack)
      ensures path == if pointerID in old(captures) then old(captures[pointerID]) else search
      ensures handled == (path != [])
      ensures msg == PointerDown && handled && accepts ==> captures == old(captures)[pointerID := path]
      ensures (msg == PointerUp || msg == PointerCancel) && pointerID in old(captures) ==>
        captures == old(captures) - {pointerID}
      ensures !(msg == PointerDown && handled && accepts) ==>
        !((msg == PointerUp || msg == PointerCancel) && pointerID in old(captures)) ==>
        captures == old(captures)
      ensures handled && (msg == PointerDown || msg == Tap) && needsFocus ==> FocusPropagated(path)
      ensures !(handled && (msg == PointerDown || msg == Tap) && needsFocus) ==>
        forall i :: 0 <= i < |path| ==> path[i].focus == old(path[i].focus)
    {
      var captured := pointerID in captures;
      var sinkPath := if captured then captures[pointerID] else search;
      path := sinkPath;
      handled := sinkPath != [];
      if handled {
        if (msg == PointerDown || msg == Tap) && needsFocus {
          PropagateFocus(sinkPath);
        }
        match msg
        case PointerDown =>
          if accepts {
            captures := captures[pointerID := sinkPath];
          }
        case PointerUp =>
          if captured {
            captures := captures - {pointerID};
          }
        case PointerCancel =>
          if captured {
            captures := captures - {pointerID};
          }
        case PointerMove =>
        case Tap =>
      }
    }
  }

  /** After focus propagation, every window on the path above the target
      focuses the window below it (a window listed twice keeps the focus of
      its first, deepest occurrence). */
  ghost predicate FocusPropagated(path: seq<Window>)
    reads set i | 0 <= i < |path| :: path[i]
  {
    forall i :: 1 <= i < |path| && (forall j :: 1 <= j < i ==> path[j] != path[i]) ==>
      path[i].focus == path[i - 1]
  }

  /** PropagateFocus: walks the path from the root (its last window) down to
      the target (its first), making each window focus the one below it. */
  method PropagateFocus(path: seq<Window>)
    requires |path| > 0
    modifies path
    ensures FocusPropagated(path)
    ensures forall w :: w in path[..1] && w !in path[1..] ==> w.focus == old(w.focus)
  {
    var i := |path| - 1;
    while i > 0
      invariant 0 <= i < |path|
      invariant forall k :: i < k < |path| && (forall j :: 1 <= j < k ==> path[j] != path[k]) ==>
        path[k].focus == path[k - 1]
      invariant forall w :: w in path[..1] && w !in path[i + 1..] ==> w.focus == old(w.focus)
      decreases i
    {
      path[i].focus := path[i - 1];
      i := i - 1;
    }
  }

  /** The steps the layout pass takes from the root of `path` (its last
      window) down to its target (its first), with the child layouts
      `layouts` in that order. */
  ghost function PathSteps(path: seq<Window>, layouts: seq<Layout.WindowLayout>): (steps: seq<Layout.Step>)
    reads set i | 0 <= i < |path| :: path[i]
    requires |layouts| + 1 == |path|
    ensures |steps| == |layouts|
    ensures forall k :: 0 <= k < |steps| ==>
      steps[k].focusIsChild == (path[|path| - 1 - k].focus == path[|path| - 2 - k])
  {
    seq(|layouts|, k requires 0 <= k < |layouts| reads set i | 0 <= i < |path| :: path[i] =>
      Layout.Step(path[|path| - 1 - k].focus == path[|path| - 2 - k], layouts[k]))
  }

  /** Once focus has been propagated along a path of distinct windows, the
      layout pass reaches the target with the focus of the root. */
  lemma PropagatedTargetFocused(path: seq<Window>, layouts: seq<Layout.WindowLayout>, root: Layout.LayoutContext)
    requires |layouts| + 1 == |path|
    requires forall i, j :: 0 <= i < j < |path| ==> path[i] != path[j]
    requires FocusPropagated(path)
    ensures Layout.Descend(root, PathSteps(path, layouts)).focused == root.focused
  {
    var steps := PathSteps(path, layouts);
    forall k | 0 <= k < |steps|
      ensures steps[k].focusIsChild
    {
      var i := |path| - 1 - k;
      assert forall j :: 1 <= j < i ==> path[j] != path[i];
    }
    Layout.DescendCombines(root, steps);
  }
}
