/*
  The split-screen layout of game/src/tank/gc/Camera.cpp: GC_Camera's
  UpdateLayout gives each camera of the level a viewport on the screen and
  a zoom, and Shake accumulates the time a camera keeps shaking.

  The screen and level sizes are non-negative pixel counts, so the
  source's integer divisions, which truncate toward zero, agree with
  Dafny's.  Float zoom and shake times are taken as reals.
*/
module Camera {
  import opened Wrappers

  /** A screen rectangle, CRect(left, top, right, bottom). */
  datatype Rect = Rect(left: int, top: int, right: int, bottom: int)

  /** The level fits on the screen: every camera then shows it whole. */
  predicate Fits(w: nat, h: nat, levelW: nat, levelH: nat)
  {
    w >= levelW && h >= levelH
  }

  /** The level-sized viewport in the middle of the screen. */
  function Centred(w: nat, h: nat, levelW: nat, levelH: nat): Rect
  {
    Rect((w - levelW) / 2, (h - levelH) / 2, (w + levelW) / 2, (h + levelH) / 2)
  }

  /** The viewports for 1 to 4 cameras on a screen of w by h pixels: the
      whole screen, two halves, two top quarters over a bottom half, four
      quarters; neighbours are two pixels apart. */
  function Split(count: nat, w: nat, h: nat): seq<Rect>
    requires 1 <= count <= 4
  {
    if count == 1 then [Rect(0, 0, w, h)]
    else if count == 2 then [Rect(0, 0, w / 2 - 1, h), Rect(w / 2 + 1, 0, w, h)]
    else if count == 3 then
      [Rect(0, 0, w / 2 - 1, h / 2 - 1), Rect(w / 2 + 1, 0, w, h / 2 - 1), Rect(w / 4, h / 2 + 1, w * 3 / 4, h)]
    else
      [Rect(0, 0, w / 2 - 1, h / 2 - 1), Rect(w / 2 + 1, 0, w, h / 2 - 1),
       Rect(0, h / 2 + 1, w / 2 - 1, h), Rect(w / 2 + 1, h / 2 + 1, w, h)]
  }

  /** The viewports UpdateLayout hands out, in camera order; None for more
      than four cameras on a screen the level does not fit (the source's
      failed assertion). */
  function Viewports(count: nat, w: nat, h: nat, levelW: nat, levelH: nat): (r: Option<seq<Rect>>)
    ensures r.None? <==> !Fits(w, h, levelW, levelH) && count > 4
    ensures r.Some? ==> |r.value| == count
  {
    if Fits(w, h, levelW, levelH) then Some(seq(count, _ => Centred(w, h, levelW, levelH)))
    else if count == 0 then Some([])
    else if count > 4 then None
    else Some(Split(count, w, h))
  }

  /** The zoom of split-screen cameras: half size for three or four. */
  function Zoom(count: nat): real
  {
    if count > 2 then 0.5 else 1.0
  }

  /** The centred viewport is exactly the level's size, with the spare
      pixels shared between the two sides (the odd one goes right or down). */
  lemma CentredFitsLevel(w: nat, h: nat, levelW: nat, levelH: nat)
    requires Fits(w, h, levelW, levelH)
    ensures var r := Centred(w, h, levelW, levelH);
      && r.right - r.left == levelW && r.bottom - r.top == levelH
      && 0 <= r.left <= w - r.right <= r.left + 1
      && 0 <= r.top <= h - r.bottom <= r.top + 1
  {
  }

  predicate Inside(r: Rect, w: int, h: int)
  {
    0 <= r.left <= r.right <= w && 0 <= r.top <= r.bottom <= h
  }

  /** At least a two-pixel gap between a and b, side by side or one above
      the other. */
  predicate Apart(a: Rect, b: Rect)
  {
    a.right + 2 <= b.left || b.right + 2 <= a.left || a.bottom + 2 <= b.top || b.bottom + 2 <= a.top
  }

  /** On a screen of at least 2 by 2 pixels every split viewport lies on the
      screen, and any two of them are at least two pixels apart. */
  lemma SplitTiles(count: nat, w: nat, h: nat)
    requires 1 <= count <= 4 && w >= 2 && h >= 2
    ensures forall i :: 0 <= i < count ==> Inside(Split(count, w, h)[i], w, h)
    ensures forall i, j :: 0 <= i < count && 0 <= j < count && i != j ==>
      Apart(Split(count, w, h)[i], Split(count, w, h)[j])
  {
  }

  /** Cameras that share the screen together cover its full width and height:
      the leftmost viewport starts at 0 and the rightmost ends at w, and the
      same vertically. */
  lemma SplitSpansScreen(count: nat, w: nat, h: nat)
    requires 1 <= count <= 4
    ensures Split(count, w, h)[0].left == 0 && Split(count, w, h)[0].top == 0
    ensures Split(count, w, h)[count - 1].bottom == h
    ensures count != 3 ==> Split(count, w, h)[count - 1].right == w
    ensures count == 3 ==> Split(count, w, h)[1].right == w
  {
  }

  /** The time left to shake after Shake(level): half the level more, but
      never beyond half the respawn delay. */
  function ShakeTime(shake: real, level: real, respawnDelay: real): (r: real)
    ensures r <= respawnDelay / 2.0 && r <= shake + 0.5 * level
    ensures r == respawnDelay / 2.0 || r == shake + 0.5 * level
  {
    if shake + 0.5 * level < respawnDelay / 2.0 then shake + 0.5 * level else respawnDelay / 2.0
  }

  class Camera {
    var viewport: Rect
    var zoom: real
    var timeShake: real
    var timeSeed: real

    constructor (seed: real)
      ensures timeShake == 0.0 && timeSeed == seed && zoom == 1.0
    {
      viewport := Rect(0, 0, 0, 0);
      zoom := 1.0;
      timeShake := 0.0;
      timeSeed := seed;
    }

    /** Shake: a camera that was still gets a new random seed (`seed`);
        `respawnDelay` is PLAYER_RESPAWN_DELAY. */
    method Shake(level: real, respawnDelay: real, seed: real)
      modifies this`timeShake, this`timeSeed
      ensures timeShake == ShakeTime(old(timeShake), level, respawnDelay)
      ensures timeSeed == if old(timeShake) == 0.0 then seed else old(timeSeed)
    {
      if timeShake == 0.0 {
        timeSeed := seed;
      }
      timeShake := ShakeTime(timeShake, level, respawnDelay);
    }
  }

  /** UpdateLayout over the level's camera list `cams` on a w by h screen.
      The result is false when there are more cameras than split-screen
      layouts; the cameras are then left as they were. */
  method UpdateLayout(cams: seq<Camera>, w: nat, h: nat, levelW: nat, levelH: nat) returns (ok: bool)
    requires forall i, j :: 0 <= i < j < |cams| ==> cams[i] != cams[j]
    modifies cams
    ensures ok == Viewports(|cams|, w, h, levelW, levelH).Some?
    ensures ok ==> forall i :: 0 <= i < |cams| ==>
      cams[i].viewport == Viewports(|cams|, w, h, levelW, levelH).value[i]
    ensures Fits(w, h, levelW, levelH) ==> forall i :: 0 <= i < |cams| ==> cams[i].zoom == old(cams[i].zoom)
    ensures ok && !Fits(w, h, levelW, levelH) ==> forall i :: 0 <= i < |cams| ==> cams[i].zoom == Zoom(|cams|)
    ensures !ok ==> forall i :: 0 <= i < |cams| ==> cams[i].viewport == old(cams[i].viewport) && cams[i].zoom == old(cams[i].zoom)
    ensures forall i :: 0 <= i < |cams| ==>
      cams[i].timeShake == old(cams[i].timeShake) && cams[i].timeSeed == old(cams[i].timeSeed)
  {
    var camCount := 0;
    while camCount < |cams|
      invariant camCount <= |cams|
    {
      camCount := camCount + 1;
    }
    var layout := Viewports(camCount, w, h, levelW, levelH);
    if layout.None? {
      return false;
    }
    var viewports := layout.value;
    var fits := Fits(w, h, levelW, levelH);
    var count := 0;
    while count < |cams|
      invariant count <= |cams|
      invariant forall i :: 0 <= i < count ==> cams[i].viewport == viewports[i]
      invariant forall i :: 0 <= i < |cams| ==> cams[i].zoom == (if i < count && !fits then Zoom(camCount) else old(cams[i].zoom))
      invariant forall i :: count <= i < |cams| ==> cams[i].viewport == old(cams[i].viewport)
      invariant forall i :: 0 <= i < |cams| ==>
        cams[i].timeShake == old(cams[i].timeShake) && cams[i].timeSeed == old(cams[i].timeSeed)
    {
      cams[count].viewport := viewports[count];
      if !fits {
        cams[count].zoom := Zoom(camCount);
      }
      count := count + 1;
    }
    ok := true;
  }
}
