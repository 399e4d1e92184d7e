// The control state of the raycaster and how `Raycast_GetEvents` updates it
// from one input event. Movement keys and crouch are held flags; the jump
// flag is set by a key press and cleared only when the jump lands; a mouse
// motion is latched per axis until the camera update consumes it.

module Controls {
  import opened CArith

  /** `struct _Raycast_Ctrls`; `mouseDx` and `mouseDy` hold `int8_t` values. */
  datatype Ctrls = Ctrls(
    up: bool, down: bool, left: bool, right: bool,
    jump: bool, crouch: bool,
    mouseMx: bool, mouseMy: bool,
    mouseDx: int, mouseDy: int,
    mapDisplay: bool, fpsDisplay: bool)

  /** Every control is released and no motion is pending. */
  const Released: Ctrls := Ctrls(false, false, false, false, false, false,
                                 false, false, 0, 0, false, false)

  /** A key is its SDL scancode; these are the ones the handler reacts to. */
  type Key = int
  const KeyA: Key := 4
  const KeyD: Key := 7
  const KeyS: Key := 22
  const KeyW: Key := 26
  const Space: Key := 44
  const F1: Key := 58
  const F3: Key := 60
  const LShift: Key := 225

  /** The SDL events the handler distinguishes; `xrel` and `yrel` are the
      relative mouse motion. */
  datatype Event = KeyDown(key: Key) | KeyUp(key: Key) | MouseMotion(xrel: int, yrel: int) | OtherEvent

  /** The four movement keys and crouch, whose flags follow the key. */
  predicate HeldKey(k: Key) {
    k == KeyW || k == KeyS || k == KeyA || k == KeyD || k == LShift
  }

  /** The flag a held key controls. */
  function Held(c: Ctrls, k: Key): bool
    requires HeldKey(k)
  {
    if k == KeyW then c.up
    else if k == KeyS then c.down
    else if k == KeyA then c.left
    else if k == KeyD then c.right
    else c.crouch
  }

  /** A key press: a held key sets its flag, Space starts a jump unless one
      is under way, F1 and F3 toggle the map and frame-rate displays. */
  function OnKeyDown(c: Ctrls, k: Key): Ctrls {
    Ctrls(c.up || k == KeyW, c.down || k == KeyS, c.left || k == KeyA, c.right || k == KeyD,
          c.jump || k == Space, c.crouch || k == LShift,
          c.mouseMx, c.mouseMy, c.mouseDx, c.mouseDy,
          c.mapDisplay != (k == F1), c.fpsDisplay != (k == F3))
  }

  /** A key release clears the flag of a held key; other keys do nothing. */
  function OnKeyUp(c: Ctrls, k: Key): Ctrls {
    Ctrls(c.up && k != KeyW, c.down && k != KeyS, c.left && k != KeyA, c.right && k != KeyD,
          c.jump, c.crouch && k != LShift,
          c.mouseMx, c.mouseMy, c.mouseDx, c.mouseDy,
          c.mapDisplay, c.fpsDisplay)
  }

  /** A mouse motion, latched per axis while no motion is pending on it. */
  function OnMotion(c: Ctrls, xrel: int, yrel: int): Ctrls {
    var takeX := !c.mouseMx && xrel != 0;
    var takeY := !c.mouseMy && yrel != 0;
    Ctrls(c.up, c.down, c.left, c.right, c.jump, c.crouch,
          c.mouseMx || takeX, c.mouseMy || takeY,
          if takeX then ToInt8(xrel) else c.mouseDx,
          if takeY then ToInt8(yrel) else c.mouseDy,
          c.mapDisplay, c.fpsDisplay)
  }

  /** `Raycast_GetEvents` on one event. */
  function OnEvent(c: Ctrls, e: Event): (r: Ctrls)
    ensures c.mouseDx == r.mouseDx || -128 <= r.mouseDx < 128
    ensures c.mouseDy == r.mouseDy || -128 <= r.mouseDy < 128
  {
    match e
    case KeyDown(k) => OnKeyDown(c, k)
    case KeyUp(k) => OnKeyUp(c, k)
    case MouseMotion(xrel, yrel) => OnMotion(c, xrel, yrel)
    case OtherEvent => c
  }

  /** The handler applied to a sequence of events, first to last. */
  function OnEvents(c: Ctrls, es: seq<Event>): Ctrls
    decreases |es|
  {
    if es == [] then c else OnEvents(OnEvent(c, es[0]), es[1..])
  }

  /** Pressing a held key sets its flag, and no other control changes. */
  lemma PressSetsFlag(c: Ctrls, k: Key, k': Key)
    requires HeldKey(k) && HeldKey(k') && k != k'
    ensures var r := OnEvent(c, KeyDown(k));
      Held(r, k) && Held(r, k') == Held(c, k') &&
      r.jump == c.jump && r.mouseMx == c.mouseMx && r.mouseMy == c.mouseMy &&
      r.mouseDx == c.mouseDx && r.mouseDy == c.mouseDy &&
      r.mapDisplay == c.mapDisplay && r.fpsDisplay == c.fpsDisplay
  {
  }

  /** Releasing a held key clears its flag, and no other control changes. */
  lemma ReleaseClearsFlag(c: Ctrls, k: Key, k': Key)
    requires HeldKey(k) && HeldKey(k') && k != k'
    ensures var r := OnEvent(c, KeyUp(k));
      !Held(r, k) && Held(r, k') == Held(c, k') &&
      r.jump == c.jump && r.mouseMx == c.mouseMx && r.mouseMy == c.mouseMy &&
      r.mouseDx == c.mouseDx && r.mouseDy == c.mouseDy &&
      r.mapDisplay == c.mapDisplay && r.fpsDisplay == c.fpsDisplay
  {
  }

  /** Space starts a jump; releasing it does not end the jump. */
  lemma JumpLatches(c: Ctrls)
    ensures OnEvent(c, KeyDown(Space)).jump
    ensures OnEvent(c, KeyUp(Space)) == c
    ensures OnEvent(c, KeyDown(Space)) == Ctrls(c.up, c.down, c.left, c.right, true, c.crouch,
      c.mouseMx, c.mouseMy, c.mouseDx, c.mouseDy, c.mapDisplay, c.fpsDisplay)
  {
  }

  /** F1 and F3 toggle the map and frame-rate displays: pressing one twice
      restores the state. */
  lemma DisplayTogglesTwice(c: Ctrls)
    ensures OnEvent(c, KeyDown(F1)).mapDisplay != c.mapDisplay
    ensures OnEvent(c, KeyDown(F3)).fpsDisplay != c.fpsDisplay
    ensures OnEvent(OnEvent(c, KeyDown(F1)), KeyDown(F1)) == c
    ensures OnEvent(OnEvent(c, KeyDown(F3)), KeyDown(F3)) == c
  {
  }

  /** Only a key press of F1 changes whether the map is displayed, and only
      F3 the frame rate. */
  lemma DisplayOnlyByToggle(c: Ctrls, e: Event)
    ensures OnEvent(c, e).mapDisplay != c.mapDisplay ==> e == KeyDown(F1)
    ensures OnEvent(c, e).fpsDisplay != c.fpsDisplay ==> e == KeyDown(F3)
  {
    if e.KeyDown? {
      KeyDownDisplay(c, e.key);
    } else if e.MouseMotion? {
      MotionLatches(c, e.xrel, e.yrel);
    }
  }

  lemma KeyDownDisplay(c: Ctrls, k: Key)
    ensures OnEvent(c, KeyDown(k)).mapDisplay != c.mapDisplay ==> k == F1
    ensures OnEvent(c, KeyDown(k)).fpsDisplay != c.fpsDisplay ==> k == F3
  {
  }

  /** A mouse motion is recorded per axis only while no motion is pending on
      that axis: the first non-zero motion is kept, narrowed to `int8_t`. */
  lemma MotionLatches(c: Ctrls, xrel: int, yrel: int)
    ensures var r := OnEvent(c, MouseMotion(xrel, yrel));
      (c.mouseMx ==> r.mouseMx && r.mouseDx == c.mouseDx) &&
      (!c.mouseMx && xrel != 0 ==> r.mouseMx && r.mouseDx == ToInt8(xrel)) &&
      (!c.mouseMx && xrel == 0 ==> !r.mouseMx && r.mouseDx == c.mouseDx) &&
      (c.mouseMy ==> r.mouseMy && r.mouseDy == c.mouseDy) &&
      (!c.mouseMy && yrel != 0 ==> r.mouseMy && r.mouseDy == ToInt8(yrel)) &&
      (!c.mouseMy && yrel == 0 ==> !r.mouseMy && r.mouseDy == c.mouseDy) &&
      r.up == c.up && r.down == c.down && r.left == c.left && r.right == c.right &&
      r.jump == c.jump && r.crouch == c.crouch &&
      r.mapDisplay == c.mapDisplay && r.fpsDisplay == c.fpsDisplay
  {
  }

  /** Once a motion is pending on both axes, further motions change nothing. */
  lemma {:induction false} PendingMotionKept(c: Ctrls, es: seq<Event>)
    requires c.mouseMx && c.mouseMy
    requires forall i :: 0 <= i < |es| ==> es[i].MouseMotion?
    ensures OnEvents(c, es) == c
    decreases |es|
  {
    if es != [] {
      MotionLatches(c, es[0].xrel, es[0].yrel);
      PendingMotionKept(OnEvent(c, es[0]), es[1..]);
    }
  }

  /** A pending motion stays within `int8_t` whatever events follow. */
  lemma {:induction false} MotionStaysInt8(c: Ctrls, es: seq<Event>)
    requires -128 <= c.mouseDx < 128 && -128 <= c.mouseDy < 128
    ensures -128 <= OnEvents(c, es).mouseDx < 128 && -128 <= OnEvents(c, es).mouseDy < 128
    decreases |es|
  {
    if es != [] {
      MotionStaysInt8(OnEvent(c, es[0]), es[1..]);
    }
  }
}
