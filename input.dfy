/**
 * The keyboard half of `KeyEvent`: which keys move the pending movement
 * vector, and how.
 */
module Input {
  import opened Geometry

  /** The keys `KeyEvent` tells apart; every other key is `Other`. */
  datatype Key =
    | Up | NumpadUp
    | S | Down | NumpadDown
    | D | Right | NumpadRight
    | A | Left | NumpadLeft
    | Space | Esc | W | MouseLeft | Tab
    | Other

  datatype KeyState = Press | Repeat | Release

  /** Press and auto-repeat events drive the movement keys; releases do not. */
  predicate IsHeld(state: KeyState) {
    state == Press || state == Repeat
  }

  predicate IsUpKey(k: Key) { k == Up || k == NumpadUp }
  predicate IsDownKey(k: Key) { k == S || k == Down || k == NumpadDown }
  predicate IsRightKey(k: Key) { k == D || k == Right || k == NumpadRight }
  predicate IsLeftKey(k: Key) { k == A || k == Left || k == NumpadLeft }

  /** The pending movement vector after one key event. */
  function PendingAfterKey(pending: Vec2, flashLightDir: Vec2, key: Key, state: KeyState): (r: Vec2)
    ensures !IsHeld(state) ==> r == pending
    ensures IsHeld(state) && IsUpKey(key) ==> r == pending.(y := 1.0)
    ensures IsHeld(state) && IsDownKey(key) ==> r == pending.(y := pending.y - 1.0)
    ensures IsHeld(state) && IsRightKey(key) ==> r == pending.(x := pending.x + 1.0)
    ensures IsHeld(state) && IsLeftKey(key) ==> r == pending.(x := pending.x - 1.0)
    ensures IsHeld(state) && key == Space ==> r == flashLightDir
    ensures !IsUpKey(key) && !IsDownKey(key) && !IsRightKey(key) && !IsLeftKey(key) && key != Space ==> r == pending
  {
    if !IsHeld(state) then pending
    else match key
      case Up | NumpadUp => pending.(y := 1.0)
      case S | Down | NumpadDown => pending.(y := pending.y - 1.0)
      case D | Right | NumpadRight => pending.(x := pending.x + 1.0)
      case A | Left | NumpadLeft => pending.(x := pending.x - 1.0)
      case Space => flashLightDir
      case _ => pending
  }

  /** A right key and a left key held in the same frame cancel out, in either order. */
  lemma OppositeKeysCancel(p: Vec2, f: Vec2, right: Key, left: Key, s1: KeyState, s2: KeyState)
    requires IsRightKey(right) && IsLeftKey(left) && IsHeld(s1) && IsHeld(s2)
    ensures PendingAfterKey(PendingAfterKey(p, f, right, s1), f, left, s2) == p
    ensures PendingAfterKey(PendingAfterKey(p, f, left, s1), f, right, s2) == p
  {
  }

  /** Up sets the vertical component outright, so holding it again changes nothing. */
  lemma UpIsIdempotent(p: Vec2, f: Vec2, up: Key, s1: KeyState, s2: KeyState)
    requires IsUpKey(up) && IsHeld(s1) && IsHeld(s2)
    ensures PendingAfterKey(p, f, up, s1).y == 1.0
    ensures PendingAfterKey(PendingAfterKey(p, f, up, s1), f, up, s2) == PendingAfterKey(p, f, up, s1)
  {
  }

  datatype KeyEventArgs = KeyEventArgs(key: Key, state: KeyState)

  /** The pending vector after a run of key events. */
  function PendingAfterKeys(pending: Vec2, flashLightDir: Vec2, events: seq<KeyEventArgs>): Vec2
    decreases |events|
  {
    if events == [] then pending
    else PendingAfterKeys(PendingAfterKey(pending, flashLightDir, events[0].key, events[0].state),
                          flashLightDir, events[1..])
  }

  /** Held right keys minus held left keys in a run of events. */
  function NetHorizontal(events: seq<KeyEventArgs>): int
    decreases |events|
  {
    if events == [] then 0
    else
      var e := events[0];
      (if IsHeld(e.state) && IsRightKey(e.key) then 1
       else if IsHeld(e.state) && IsLeftKey(e.key) then -1
       else 0)
      + NetHorizontal(events[1..])
  }

  predicate NoHeldSpace(events: seq<KeyEventArgs>) {
    forall i :: 0 <= i < |events| ==> !(events[i].key == Space && IsHeld(events[i].state))
  }

  /**
   * Without Space (which replaces the whole vector), the horizontal input
   * of a frame is the number of held right keys minus held left keys.
   */
  lemma {:induction false} HorizontalInputCounts(pending: Vec2, f: Vec2, events: seq<KeyEventArgs>)
    requires NoHeldSpace(events)
    ensures PendingAfterKeys(pending, f, events).x == pending.x + NetHorizontal(events) as real
    decreases |events|
  {
    if events != [] {
      var e := events[0];
      assert !(e.key == Space && IsHeld(e.state));
      assert NoHeldSpace(events[1..]) by {
        forall i | 0 <= i < |events[1..]| ensures !(events[1..][i].key == Space && IsHeld(events[1..][i].state)) {
          assert events[1..][i] == events[i + 1];
        }
      }
      HorizontalInputCounts(PendingAfterKey(pending, f, e.key, e.state), f, events[1..]);
    }
  }
}
