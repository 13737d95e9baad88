/**
 * `InputMap` (src/input_map.rs): which keys and mouse buttons are held, how
 * far the mouse moved since the delta was last cleared, and where the mouse
 * was when the window started capturing it.
 *
 * Keys are numbered by their `VirtualKeyCode`; the number of key codes is
 * winit's and is given to the constructor. Only the left and the right
 * mouse button are tracked.
 */
module InputMaps {
  import opened Wrappers

  /** `NUM_MOUSE_BUTTONS`. */
  const NUM_MOUSE_BUTTONS: nat := 2

  /** winit's `MouseButton`. */
  datatype MouseButton = Left | Right | Middle | Other(code: nat)

  datatype Vec2 = Vec2(x: real, y: real)
  {
    function Add(other: Vec2): Vec2
    {
      Vec2(x + other.x, y + other.y)
    }
  }

  const ZERO: Vec2 := Vec2(0.0, 0.0)

  /** The slot of a tracked button: left is 0, right is 1, the others have none. */
  function MouseSlot(button: MouseButton): (slot: Option<nat>)
    ensures slot.Some? <==> button.Left? || button.Right?
    ensures slot.Some? ==> slot.value < NUM_MOUSE_BUTTONS
  {
    match button
    case Left => Some(0)
    case Right => Some(1)
    case _ => None
  }

  /** Two buttons never share a slot, so pressing one leaves the other alone. */
  lemma MouseSlotsDistinct(a: MouseButton, b: MouseButton)
    requires a != b && MouseSlot(a).Some?
    ensures MouseSlot(b) != MouseSlot(a)
  {
  }

  class InputMap {
    var state: array<bool>
    var mouseState: array<bool>
    var mouseDelta: Vec2
    /** Where the mouse was when capturing started. */
    var capturedMousePosition: Option<Vec2>

    ghost predicate Valid()
      reads this
    {
      mouseState.Length == NUM_MOUSE_BUTTONS && state != mouseState
    }

    /** `InputMap::new`: nothing held, no movement, no capture. */
    constructor (numKeys: nat)
      ensures Valid() && fresh(state) && fresh(mouseState)
      ensures state.Length == numKeys
      ensures forall k | 0 <= k < numKeys :: !IsPressed(k)
      ensures forall b :: !IsMousePressed(b)
      ensures MouseDelta() == ZERO && !IsCapturingMouse()
    {
      state := new bool[numKeys](_ => false);
      mouseState := new bool[NUM_MOUSE_BUTTONS](_ => false);
      mouseDelta := ZERO;
      capturedMousePosition := None;
    }

    /** `is_pressed`. */
    function IsPressed(key: nat): bool
      requires key < state.Length
      reads this, state
    {
      state[key]
    }

    /** `is_mouse_pressed`: the button's slot, and never for an untracked button. */
    function IsMousePressed(button: MouseButton): (pressed: bool)
      requires Valid()
      reads this, mouseState
      ensures pressed ==> button.Left? || button.Right?
    {
      match MouseSlot(button)
      case Some(slot) => mouseState[slot]
      case None => false
    }

    /** `is_capturing_mouse`. */
    function IsCapturingMouse(): (capturing: bool)
      reads this
      ensures capturing <==> capturedMousePosition.Some?
    {
      capturedMousePosition.Some?
    }

    /** `mouse_delta`. */
    function MouseDelta(): Vec2
      reads this
    {
      mouseDelta
    }

    /** `update_key_press`: the key is held; no other key changes. */
    method UpdateKeyPress(key: nat)
      requires Valid() && key < state.Length
      modifies state
      ensures IsPressed(key)
      ensures forall k | 0 <= k < state.Length && k != key :: IsPressed(k) == old(IsPressed(k))
    {
      state[key] := true;
    }

    /** `update_key_release`: the key is no longer held; no other key changes. */
    method UpdateKeyRelease(key: nat)
      requires Valid() && key < state.Length
      modifies state
      ensures !IsPressed(key)
      ensures forall k | 0 <= k < state.Length && k != key :: IsPressed(k) == old(IsPressed(k))
    {
      state[key] := false;
    }

    /** `update_mouse_press`: a tracked button is held; an untracked one changes nothing. */
    method UpdateMousePress(button: MouseButton)
      requires Valid()
      modifies mouseState
      ensures MouseSlot(button).Some? ==> IsMousePressed(button)
      ensures forall b | b != button :: IsMousePressed(b) == old(IsMousePressed(b))
      ensures MouseSlot(button).None? ==> mouseState[..] == old(mouseState[..])
    {
      match MouseSlot(button)
      case Some(slot) => mouseState[slot] := true;
      case None =>
    }

    /** `update_mouse_release`: a tracked button is no longer held; an untracked one changes nothing. */
    method UpdateMouseRelease(button: MouseButton)
      requires Valid()
      modifies mouseState
      ensures !IsMousePressed(button)
      ensures forall b | b != button :: IsMousePressed(b) == old(IsMousePressed(b))
      ensures MouseSlot(button).None? ==> mouseState[..] == old(mouseState[..])
    {
      match MouseSlot(button)
      case Some(slot) => mouseState[slot] := false;
      case None =>
    }

    /** `clear_mouse_delta`. */
    method ClearMouseDelta()
      modifies this
      ensures MouseDelta() == ZERO
      ensures state == old(state) && mouseState == old(mouseState)
      ensures capturedMousePosition == old(capturedMousePosition)
    {
      mouseDelta := ZERO;
    }

    /** `accumulate_mouse_delta`: movements add up. */
    method AccumulateMouseDelta(delta: Vec2)
      modifies this
      ensures MouseDelta() == old(MouseDelta()).Add(delta)
      ensures state == old(state) && mouseState == old(mouseState)
      ensures capturedMousePosition == old(capturedMousePosition)
    {
      mouseDelta := mouseDelta.Add(delta);
    }

    /** `start_capturing_mouse`: remembers where the mouse was. */
    method StartCapturingMouse(position: Vec2)
      modifies this
      ensures IsCapturingMouse() && capturedMousePosition == Some(position)
      ensures state == old(state) && mouseState == old(mouseState) && mouseDelta == old(mouseDelta)
    {
      capturedMousePosition := Some(position);
    }

    /** `stop_capturing_mouse`: hands back the remembered position, and capturing ends. */
    method StopCapturingMouse() returns (position: Option<Vec2>)
      modifies this
      ensures position == old(capturedMousePosition)
      ensures !IsCapturingMouse()
      ensures state == old(state) && mouseState == old(mouseState) && mouseDelta == old(mouseDelta)
    {
      position := capturedMousePosition;
      capturedMousePosition := None;
    }
  }

  /**
   * Capturing from `p` and stopping gives `p` back; stopping a second time
   * gives nothing.
   */
  method CaptureRoundTrip(input: InputMap, p: Vec2) returns (first: Option<Vec2>, second: Option<Vec2>)
    modifies input
    ensures first == Some(p) && second == None
    ensures !input.IsCapturingMouse()
  {
    input.StartCapturingMouse(p);
    first := input.StopCapturingMouse();
    second := input.StopCapturingMouse();
  }
}
