/*
  The event-driven buttons of game/src/libui/Button.cpp.  A button keeps
  its visual state and changes it in response to pointer events, holding
  the pointer captured between press and release; a click is a release of
  the pressing pointer while the button still shows pushed.  A check box
  is a button whose click toggles its check mark and whose sprite frame
  shows both the state and the mark.

  The layout manager's capture table appears here as the set of pointers
  it has captured for this button.  The optional event callbacks run code
  that is not shown: the click callback's one effect the button reacts
  to, disabling the button, is a parameter of OnPointerUp.
*/
module LibUiButton {
  import opened ButtonStates

  /** How the button's frame follows its state: the plain ButtonBase (and
      TextButton) ignores state changes, Button and ImageButton show the
      state as the frame, CheckBox shows the check-box frame. */
  datatype Kind = Plain | Framed | Check

  class ButtonBase {
    const kind: Kind
    const width: real
    const height: real
    var state: State
    var enabled: bool
    var checked: bool
    var frame: nat
    /** The pointers the layout manager has captured for this button. */
    var captured: set<nat>
    /** The states SetState has reported to OnChangeState, in order. */
    var changes: seq<State>
    /** The clicks delivered (OnClick calls). */
    var clicks: nat

    /** The frame always shows the state (and the check mark), and a button
        never holds more than one pointer. */
    predicate Valid()
      reads this
    {
      && (kind == Framed ==> frame == Index(state))
      && (kind == Check ==> frame == CheckFrame(state, checked))
      && |captured| <= 1
    }

    constructor (kind: Kind, width: real, height: real)
      ensures Valid() && this.kind == kind && this.width == width && this.height == height
      ensures state == Normal && enabled && !checked && frame == 0
      ensures captured == {} && changes == [] && clicks == 0
    {
      this.kind := kind;
      this.width := width;
      this.height := height;
      state := Normal;
      enabled := true;
      checked := false;
      frame := 0;
      captured := {};
      changes := [];
      clicks := 0;
    }

    /** The frame OnChangeState sets for state `s`. */
    function FrameFor(s: State): nat
      reads this`checked, this`frame
    {
      match kind
      case Plain => frame
      case Framed => Index(s)
      case Check => CheckFrame(s, checked)
    }

    method SetState(s: State)
      requires Valid()
      modifies this`state, this`frame, this`changes
      ensures Valid() && state == s
      ensures old(state) != s ==> changes == old(changes) + [s] && frame == old(FrameFor(s))
      ensures old(state) == s ==> changes == old(changes) && frame == old(frame)
    {
      if state != s {
        state := s;
        frame := FrameFor(s);
        changes := changes + [s];
      }
    }

    /** OnPointerMove: while this button holds the pointer it shows pushed
        exactly when the pointer is strictly inside it; with no pointer
        captured it shows hot-tracked. */
    method OnPointerMove(x: real, y: real, pointerID: nat) returns (handled: bool)
      requires Valid()
      modifies this`state, this`frame, this`changes
      ensures Valid() && handled
      ensures pointerID in captured ==> state == (if 0.0 < x < width && 0.0 < y < height then Pushed else Normal)
      ensures captured == {} ==> state == Hottrack
      ensures captured != {} && pointerID !in captured ==> state == old(state) && changes == old(changes)
      ensures changes == old(changes) + (if state != old(state) then [state] else [])
      ensures kind == Plain ==> frame == old(frame)
    {
      if captured != {} {
        if pointerID in captured {
          var push := x < width && y < height && x > 0.0 && y > 0.0;
          SetState(if push then Pushed else Normal);
        }
      } else {
        SetState(Hottrack);
      }
      handled := true;
    }

    /** OnPointerDown: the primary button captures the pointer and pushes the
        button, unless the button already holds a pointer. */
    method OnPointerDown(button: int, pointerID: nat) returns (handled: bool)
      requires Valid()
      modifies this`captured, this`state, this`frame, this`changes
      ensures Valid() && handled
      ensures old(captured) == {} && button == 1 ==> captured == {pointerID} && state == Pushed
      ensures !(old(captured) == {} && button == 1) ==>
        captured == old(captured) && state == old(state) && changes == old(changes)
      ensures changes == old(changes) + (if state != old(state) then [state] else [])
      ensures kind == Plain ==> frame == old(frame)
    {
      if captured == {} && button == 1 {
        captured := {pointerID};
        SetState(Pushed);
      }
      handled := true;
    }

    /** OnClick followed by the click event. */
    method Click()
      requires Valid()
      modifies this`checked, this`frame, this`clicks
      ensures Valid() && clicks == old(clicks) + 1
      ensures kind == Check ==> checked == !old(checked)
      ensures kind != Check ==> checked == old(checked) && frame == old(frame)
    {
      if kind == Check {
        SetCheck(!checked);
      }
      clicks := clicks + 1;
    }

    /** OnPointerUp: releasing the primary button on the pointer this button
        holds frees the capture, and clicks if the button still showed pushed;
        `handlerDisables` says whether the click callback disabled the
        button, which otherwise returns to hot-tracked. */
    method OnPointerUp(button: int, pointerID: nat, handlerDisables: bool) returns (handled: bool)
      requires Valid()
      modifies this`captured, this`state, this`frame, this`changes, this`checked, this`clicks, this`enabled
      ensures Valid() && handled
      ensures pointerID in old(captured) && button == 1 ==> captured == old(captured) - {pointerID}
      ensures !(pointerID in old(captured) && button == 1) ==>
        captured == old(captured) && state == old(state) && clicks == old(clicks) && checked == old(checked)
      ensures clicks == old(clicks) + (if pointerID in old(captured) && button == 1 && old(state) == Pushed then 1 else 0)
      ensures kind == Check ==> (checked != old(checked) <==> clicks != old(clicks))
      ensures clicks != old(clicks) && handlerDisables ==> state == Disabled && !enabled
      ensures clicks != old(clicks) && !handlerDisables ==>
        state == (if old(enabled) then Hottrack else Pushed) && enabled == old(enabled)
      ensures clicks == old(clicks) ==> enabled == old(enabled)
      ensures changes == old(changes) + (if state != old(state) then [state] else [])
      ensures kind == Plain ==> frame == old(frame)
      ensures old(state) != Pushed ==> state == old(state)
      ensures kind != Check ==> checked == old(checked)
    {
      if pointerID in captured && button == 1 {
        captured := captured - {pointerID};
        var click := state == Pushed;
        if click {
          Click();
          if handlerDisables {
            OnEnabledChange(false);
          }
          if enabled {
            SetState(Hottrack);
          }
        }
      }
      handled := true;
    }

    method OnMouseLeave() returns (handled: bool)
      requires Valid()
      modifies this`state, this`frame, this`changes
      ensures Valid() && handled && state == Normal
      ensures changes == old(changes) + (if state != old(state) then [state] else [])
      ensures kind == Plain ==> frame == old(frame)
    {
      SetState(Normal);
      handled := true;
    }

    /** OnTap: a tap clicks unless the button holds a pointer. */
    method OnTap() returns (handled: bool)
      requires Valid()
      modifies this`checked, this`frame, this`clicks
      ensures Valid() && handled
      ensures clicks == old(clicks) + (if old(captured) == {} then 1 else 0)
      ensures checked == if kind == Check && old(captured) == {} then !old(checked) else old(checked)
      ensures kind != Check ==> frame == old(frame)
    {
      if captured == {} {
        Click();
      }
      handled := true;
    }

    /** OnEnabledChange with the window's new enabled flag. */
    method OnEnabledChange(enable: bool)
      requires Valid()
      modifies this`enabled, this`state, this`frame, this`changes
      ensures Valid() && enabled == enable
      ensures state == if enable then Normal else Disabled
      ensures changes == old(changes) + (if state != old(state) then [state] else [])
      ensures kind == Plain ==> frame == old(frame)
    {
      enabled := enable;
      SetState(if enable then Normal else Disabled);
    }

    /** CheckBox::SetCheck. */
    method SetCheck(c: bool)
      requires Valid() && kind == Check
      modifies this`checked, this`frame
      ensures Valid() && checked == c
    {
      checked := c;
      frame := CheckFrame(state, c);
    }
  }
}
