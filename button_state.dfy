/*
  The visual states shared by the buttons of both UI toolkits
  (game/src/libui/Button.cpp and engine/ui/Button.cpp), in the order of
  their `State` enumeration, and the sprite frame a check box draws: the
  unchecked frames are 0 to 3 and the checked ones 4 to 7.
*/
module ButtonStates {
  datatype State = Normal | Hottrack | Pushed | Disabled

  /** The enumerator's value. */
  function Index(s: State): nat
  {
    match s
    case Normal => 0
    case Hottrack => 1
    case Pushed => 2
    case Disabled => 3
  }

  function FromIndex(i: nat): State
  {
    if i == 0 then Normal else if i == 1 then Hottrack else if i == 2 then Pushed else Disabled
  }

  /** The check box frame: the state, shifted by four when checked. */
  function CheckFrame(s: State, checked: bool): (f: nat)
    ensures f < 8
  {
    if checked then Index(s) + 4 else Index(s)
  }

  /** The frame tells both the state and the check mark apart. */
  lemma CheckFrameDecodes(s: State, checked: bool)
    ensures checked == (CheckFrame(s, checked) >= 4)
    ensures FromIndex(CheckFrame(s, checked) % 4) == s
  {
  }
}
