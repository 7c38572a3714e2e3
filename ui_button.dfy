/*
  The buttons of engine/ui/Button.cpp.  Here a button stores no visual
  state: GetState derives it on every frame from the layout and input
  contexts, and the event handlers only decide when to click.  A click
  runs OnClick (a check box toggles its mark) and then the click handler,
  when one is installed.

  The pointer geometry (PtInFRect on the button's pixel rectangle) is not
  part of this model: whether a pointer lies inside the button is given.
*/
module UiButton {
  import opened ButtonStates

  datatype PointerType = Unknown | Mouse | Touch

  /** Navigation directions and phases; only Enter and the completed phase
      matter to a button. */
  datatype Navigate = Enter | OtherDirection
  datatype NavigationPhase = Completed | OtherPhase

  /** Everything GetState reads about the button, the layout context, the
      input context and the platform's first pointer. */
  datatype Observed = Observed(
    enabledCombined: bool,
    hasClickHandler: bool,
    pointerType: PointerType,
    pointerInRect: bool,
    pointerPressed: bool,
    captured: bool,
    enterSubject: bool,
    lastKeyTime: real,
    lastPointerTime: real,
    focusedCombined: bool,
    hovered: bool)

  /** The keyboard was used last and the button's layout is focused. */
  predicate FocusActive(o: Observed)
  {
    o.lastKeyTime >= o.lastPointerTime && o.focusedCombined
  }

  /** The pointer was used last and is either held by this button or hovers
      it unpressed. */
  predicate PointerActive(o: Observed)
  {
    o.lastPointerTime > o.lastKeyTime && (o.captured || (o.hovered && !o.pointerPressed))
  }

  function GetState(o: Observed): (s: State)
    ensures s == Disabled <==> !o.enabledCombined || !o.hasClickHandler
    ensures s == Pushed <==> (o.enabledCombined && o.hasClickHandler &&
      ((o.pointerType != Unknown && o.pointerInRect && o.pointerPressed && o.captured) || o.enterSubject))
    ensures s == Hottrack <==> s != Disabled && s != Pushed && (FocusActive(o) || PointerActive(o))
    ensures s == Normal ==> !FocusActive(o) && !PointerActive(o) && !o.enterSubject
  {
    if !o.enabledCombined || !o.hasClickHandler then Disabled
    else
      var pointerInside := o.pointerType != Unknown && o.pointerInRect;
      if (pointerInside && o.pointerPressed && o.captured) || o.enterSubject then Pushed
      else if FocusActive(o) || PointerActive(o) then Hottrack
      else Normal
  }

  /** Keyboard focus and pointer activity never hold together: whichever
      input came last decides. */
  lemma FocusOrPointer(o: Observed)
    ensures !(FocusActive(o) && PointerActive(o))
  {
  }

  /** While the keyboard was used last, hovering does not change the state. */
  lemma KeyboardIgnoresHover(o: Observed, hovered: bool)
    requires o.lastKeyTime >= o.lastPointerTime
    ensures GetState(o.(hovered := hovered)) == GetState(o)
  {
  }

  /** While the pointer was used last, layout focus does not change the state. */
  lemma PointerIgnoresFocus(o: Observed, focused: bool)
    requires o.lastPointerTime > o.lastKeyTime
    ensures GetState(o.(focusedCombined := focused)) == GetState(o)
  {
  }

  /** A button shown enabled can always be clicked from the keyboard. */
  lemma EnabledNavigable(o: Observed)
    requires GetState(o) != Disabled
    ensures CanNavigate(Enter, o.hasClickHandler)
  {
  }

  /** OnPointerDown: whether the button takes the pointer (and so captures
      it): a touch or the primary button, while it holds no pointer. */
  function OnPointerDown(captured: bool, pointerType: PointerType, button: int): (accept: bool)
    ensures accept ==> !captured
    ensures !captured && pointerType == Touch ==> accept
    ensures pointerType != Touch ==> (accept <==> !captured && button == 1)
  {
    !captured && (pointerType == Touch || button == 1)
  }

  function CanNavigate(navigate: Navigate, hasClickHandler: bool): bool
  {
    navigate == Enter && hasClickHandler
  }

  /** Which ButtonBase subclass: only CheckBox reacts to OnClick. */
  datatype Kind = Plain | Check

  class ButtonBase {
    const kind: Kind
    var hasClickHandler: bool
    var checked: bool
    /** Calls of the click handler. */
    var clickEvents: nat

    constructor (kind: Kind, hasClickHandler: bool)
      ensures this.kind == kind && this.hasClickHandler == hasClickHandler
      ensures !checked && clickEvents == 0
    {
      this.kind := kind;
      this.hasClickHandler := hasClickHandler;
      checked := false;
      clickEvents := 0;
    }

    method DoClick()
      modifies this`checked, this`clickEvents
      ensures checked == (if kind == Check then !old(checked) else old(checked))
      ensures clickEvents == old(clickEvents) + (if hasClickHandler then 1 else 0)
    {
      if kind == Check {
        SetCheck(!checked);
      }
      if hasClickHandler {
        clickEvents := clickEvents + 1;
      }
    }

    /** OnPointerUp: a release clicks when it lands inside the button. */
    method OnPointerUp(releaseInRect: bool)
      modifies this`checked, this`clickEvents
      ensures !releaseInRect ==> checked == old(checked) && clickEvents == old(clickEvents)
      ensures releaseInRect ==> checked == (if kind == Check then !old(checked) else old(checked))
      ensures releaseInRect ==> clickEvents == old(clickEvents) + (if hasClickHandler then 1 else 0)
    {
      if releaseInRect {
        DoClick();
      }
    }

    /** OnTap: a tap clicks unless the button holds a pointer. */
    method OnTap(captured: bool)
      modifies this`checked, this`clickEvents
      ensures captured ==> checked == old(checked) && clickEvents == old(clickEvents)
      ensures !captured ==> checked == (if kind == Check then !old(checked) else old(checked))
      ensures !captured ==> clickEvents == old(clickEvents) + (if hasClickHandler then 1 else 0)
    {
      if !captured {
        DoClick();
      }
    }

    /** OnNavigate: the completed Enter navigation clicks; the click handler
        runs exactly when CanNavigate allowed the navigation. */
    method OnNavigate(navigate: Navigate, phase: NavigationPhase)
      modifies this`checked, this`clickEvents
      ensures clickEvents == old(clickEvents) +
        (if phase == Completed && CanNavigate(navigate, hasClickHandler) then 1 else 0)
      ensures checked == (if phase == Completed && navigate == Enter && kind == Check then !old(checked) else old(checked))
    {
      if phase == Completed && navigate == Enter {
        DoClick();
      }
    }

    /** CheckBox::SetCheck. */
    method SetCheck(c: bool)
      modifies this`checked
      ensures checked == c
    {
      checked := c;
    }

    /** The box sprite frame CheckBox::Draw uses for the state GetState derives. */
    function DrawFrame(o: Observed): (f: nat)
      reads this`checked
      ensures (f >= 4) == checked && FromIndex(f % 4) == GetState(o)
    {
      CheckFrame(GetState(o), checked)
    }
  }
}
