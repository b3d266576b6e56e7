/** The pointer tracker (src/ui/mouse_state.rs): a two-slot ping-pong buffer
    of pointer positions with a one-bit frame selector, a stale flag, and a
    pressed/released table for the buttons. */
module MouseStates {
  import opened Ui

  /** Number of remembered positions. */
  const FrameHistory: nat := 2

  /** The range of a Rust `i32`. */
  type I32 = x: int | -0x8000_0000 <= x < 0x8000_0000

  /** A pointer position in window pixels, as stored by the tracker. */
  type Point = (I32, I32)

  /** The buttons whose state decides whether "a button is held". */
  const MainButtons: set<MouseButton> := {Left, Middle, Right}

  class MouseState {
    /** The two remembered positions; `frame` selects the current one. */
    const position: array<Point>
    var frame: bv8
    var left: ElementState
    var right: ElementState
    var middle: ElementState
    /** States of the numbered extra buttons, recorded on first use. */
    var other: map<U8, ElementState>
    var isStale: bool

    /** The frame selector always picks one of the two slots. */
    ghost predicate Valid()
      reads this
    {
      position.Length == FrameHistory && frame < 2
    }

    /** `MouseState::new`: both slots at the origin, frame 0, every named
        button released, no extra button seen, not stale. */
    constructor ()
      ensures Valid() && fresh(position)
      ensures position[..] == [(0, 0), (0, 0)] && frame == 0
      ensures Position() == (0, 0)
      ensures left == Released && right == Released && middle == Released
      ensures other == map[]
      ensures !IsStale() && !AnyPressed()
    {
      position := new Point[FrameHistory](_ => (0, 0));
      frame := 0;
      left, right, middle := Released, Released, Released;
      other := map[];
      isStale := false;
    }

    /** `position`: the current slot. */
    function Position(): (p: Point)
      reads this, position
      requires Valid()
      ensures p == position[0] || p == position[1]
    {
      position[frame as int]
    }

    /** `update_position`: switch to the other slot and store the new
        position there. The slot that was current keeps the previous
        position, and the tracker is no longer stale. */
    method UpdatePosition(newPos: Point)
      requires Valid()
      modifies this`frame, this`isStale, position
      ensures Valid()
      ensures frame != old(frame)
      ensures Position() == newPos
      ensures position[old(frame) as int] == old(Position())
      ensures !IsStale()
    {
      frame := frame ^ 1;
      position[frame as int] := newPos;
      isStale := false;
    }

    /** Whether `Button(b)` may be asked: the extra buttons only once they
        have been recorded (reading an unrecorded one panics). */
    predicate Known(b: MouseButton)
      reads this
    {
      b.Other? ==> b.id in other
    }

    /** `button`: the recorded state of a button. */
    function Button(b: MouseButton): (st: ElementState)
      reads this
      requires Known(b)
      ensures b == Left ==> st == left
      ensures b == Right ==> st == right
      ensures b == Middle ==> st == middle
      ensures b.Other? ==> st == other[b.id]
    {
      match b
      case Left => left
      case Right => right
      case Middle => middle
      case Other(id) => other[id]
    }

    /** `set_button`: record the state of one button; every other button
        keeps its state, and the button is known from now on. */
    method SetButton(button: MouseButton, state: ElementState)
      modifies this`left, this`right, this`middle, this`other
      ensures Known(button) && Button(button) == state
      ensures forall b :: b != button && old(Known(b)) ==> Known(b) && Button(b) == old(Button(b))
      ensures other.Keys == old(other.Keys) + (if button.Other? then {button.id} else {})
      ensures button.Other? ==> (AnyPressed() <==> old(AnyPressed()))
    {
      match button
      case Left => left := state;
      case Right => right := state;
      case Middle => middle := state;
      case Other(id) =>
        other := other[id := state];
    }

    /** `set_stale`. */
    method SetStale()
      modifies this`isStale
      ensures IsStale()
    {
      isStale := true;
    }

    /** `is_stale`. */
    function IsStale(): (r: bool)
      reads this
      ensures r <==> isStale
    {
      isStale
    }

    /** `any_pressed`: one of left, middle and right is held down; the extra
        buttons never count. */
    predicate AnyPressed()
      reads this
      ensures AnyPressed() <==> exists b :: b in MainButtons && Button(b) == Pressed
    {
      assert Left in MainButtons && Middle in MainButtons && Right in MainButtons;
      left == Pressed || middle == Pressed || right == Pressed
    }
  }
}
