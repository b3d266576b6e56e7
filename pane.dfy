/** The pane (src/ui/pane.rs): the event-dispatch engine that owns the
    elements, decides which of them has mouse focus and which has keyboard
    focus, forwards input to the focused element's handler and hands back
    what the handler (or nobody) did not consume.

    Collaborators the pane only calls are parameters here: the remainder
    type's `event` constructor is the function `fromEvent`, each element's hit
    test is its `contains` predicate, the handler an event is dispatched to
    answers with `reply`, and `KeyboardState::update` answers with `kbAfter`.
    Regenerating the GPU geometry is counted by the ghost field `refreshes`. */
module Panes {
  import opened Wrappers
  import opened Ui
  import opened MouseStates
  import opened Focus

  /** The window-level events the pane tells apart; every other window event
      is `OtherWindowEvent`. Scroll deltas are not modelled. The cursor
      position arrives already converted to `i32` pixels. */
  datatype WinEvent =
    | Resized(width: nat, height: nat)
    | KeyboardInput(state: ElementState, scancode: nat, virtualKeycode: Option<VirtualKeyCode>)
    | MouseInput(state: ElementState, button: MouseButton)
    | CursorMoved(position: Point)
    | MouseWheel
    | OtherWindowEvent(kind: nat)

  /** A raw event from the windowing library. */
  datatype Event =
    | WindowEvent(windowId: nat, event: WinEvent)
    | DeviceEvent(deviceId: nat)
    | Awakened
    | Suspended(suspended: bool)

  /** What an element's handler returns: a request to the pane and a
      remainder for the pane's caller. */
  datatype Reply<R> = Reply(request: UiRequest, remainder: R)

  /** The configuration-order error `handle_event` can abort with: a
      geometry refresh before `init`. */
  datatype Fault = RefreshBeforeInit

  predicate IsMouseInput(ev: Event) {
    ev.WindowEvent? && ev.event.MouseInput?
  }

  /** Events that neither touch the pane's state nor reach an element. */
  predicate IsPassThrough(ev: Event) {
    !ev.WindowEvent? || ev.event.MouseWheel? || ev.event.OtherWindowEvent?
  }

  class Pane<R> {
    var elements: seq<Element>
    var mouseFocused: Option<nat>
    var keybdFocused: Option<nat>
    const mouseState: MouseState
    var keybdState: KeyboardState
    /** Stands for the vertex and index buffers being present. */
    var initialised: bool
    /** Number of geometry refreshes performed so far. */
    ghost var refreshes: nat
    /** The remainder type's `event` constructor. */
    const fromEvent: Event -> R

    /** The pointer tracker is well formed, and the elements' focus flags
        agree with the two focus indices. */
    ghost predicate Valid()
      reads this, mouseState
    {
      mouseState.Valid() &&
      MouseSynced(elements, mouseFocused) &&
      KeybdSynced(elements, keybdFocused)
    }

    /** `Pane::new`: no elements, no focus, a fresh pointer tracker, not yet
        initialised. The initial keyboard state is that of
        `KeyboardState::new`, which is not part of this model. */
    constructor (fromEvent: Event -> R, keybd: KeyboardState)
      ensures Valid() && fresh(mouseState) && fresh(mouseState.position)
      ensures elements == [] && mouseFocused.None? && keybdFocused.None?
      ensures !initialised && refreshes == 0 && keybdState == keybd
      ensures this.fromEvent == fromEvent
      ensures !mouseState.AnyPressed() && !mouseState.IsStale() && mouseState.Position() == (0, 0)
      ensures mouseState.other == map[] && mouseState.frame == 0 && mouseState.position[..] == [(0, 0), (0, 0)]
    {
      elements := [];
      mouseFocused := Option.None;
      keybdFocused := Option.None;
      mouseState := new MouseState();
      keybdState := keybd;
      initialised := false;
      refreshes := 0;
      this.fromEvent := fromEvent;
    }

    /** `element`: add an element, built with neither focus, at the end; fails
        once the pane is initialised. Earlier elements and their order stay. */
    method AddElement(contains: Point -> bool) returns (ok: bool)
      requires Valid()
      modifies this`elements
      ensures Valid()
      ensures ok == !initialised
      ensures ok ==> elements == old(elements) + [Element(contains, false, false)]
      ensures !ok ==> elements == old(elements)
    {
      if initialised {
        return false;
      }
      elements := elements + [Element(contains, false, false)];
      ok := true;
    }

    /** `init`: the buffers exist from now on. */
    method Init()
      requires Valid()
      modifies this`initialised
      ensures Valid() && initialised
    {
      initialised := true;
    }

    /** `refresh_vertices`: one geometry refresh, which fails before `init`. */
    method RefreshVertices() returns (ok: bool)
      modifies this`refreshes
      ensures ok == initialised
      ensures refreshes == old(refreshes) + (if ok then 1 else 0)
    {
      if !initialised {
        return false;
      }
      refreshes := refreshes + 1;
      ok := true;
    }

    /** `input_is_stale`. */
    function InputIsStale(): (r: bool)
      reads this, mouseState
      ensures r <==> mouseState.IsStale()
    {
      mouseState.IsStale()
    }

    /** `set_input_stale`: the pointer reads as stale until it next moves. */
    method SetInputStale()
      modifies mouseState`isStale
      ensures InputIsStale()
    {
      mouseState.SetStale();
    }

    /** `focused_element_idx`: scan the elements in order and stop at the
        first whose hit test holds at the current pointer position. */
    method FocusedElementIdx() returns (r: Option<nat>)
      requires Valid()
      ensures r.Some? ==> r.value < |elements| && elements[r.value].contains(mouseState.Position())
      ensures r.Some? ==> forall j :: 0 <= j < r.value ==> !elements[j].contains(mouseState.Position())
      ensures r.None? ==> forall j :: 0 <= j < |elements| ==> !elements[j].contains(mouseState.Position())
      ensures r == FirstHit(elements, mouseState.Position())
    {
      var pos := mouseState.Position();
      var idx := 0;
      while idx < |elements|
        invariant 0 <= idx <= |elements|
        invariant forall j :: 0 <= j < idx ==> !elements[j].contains(pos)
      {
        if elements[idx].contains(pos) {
          return Some(idx);
        }
        idx := idx + 1;
      }
      return Option.None;
    }

    /** `update_mouse_focus`: while a main button is held or the pointer is
        stale nothing happens. Otherwise the first element under the pointer
        becomes the mouse-focus holder; if that differs from the current
        holder, the flags move over and the geometry is refreshed once (which
        fails before `init`). */
    method UpdateMouseFocus() returns (ok: bool)
      requires Valid()
      modifies this`elements, this`mouseFocused, this`refreshes
      ensures Valid() && |elements| == |old(elements)|
      ensures mouseState.AnyPressed() || mouseState.IsStale() ==>
        elements == old(elements) && mouseFocused == old(mouseFocused) && refreshes == old(refreshes) && ok
      ensures !(mouseState.AnyPressed() || mouseState.IsStale()) ==>
        mouseFocused == FirstHit(old(elements), mouseState.Position())
      ensures mouseFocused == old(mouseFocused) ==>
        elements == old(elements) && refreshes == old(refreshes) && ok
      ensures mouseFocused != old(mouseFocused) ==>
        elements == MoveMouseFocus(old(elements), old(mouseFocused), mouseFocused) &&
        refreshes == old(refreshes) + (if initialised then 1 else 0) && ok == initialised
    {
      if mouseState.AnyPressed() {
        return true;
      }
      if !mouseState.IsStale() {
        var newlyFocused := FocusedElementIdx();
        if newlyFocused != mouseFocused {
          if mouseFocused.Some? {
            var i := mouseFocused.value;
            elements := elements[i := elements[i].(mouseFocus := false)];
          }
          if newlyFocused.Some? {
            var i := newlyFocused.value;
            elements := elements[i := elements[i].(mouseFocus := true)];
          }
          mouseFocused := newlyFocused;
          ok := RefreshVertices();
          return;
        }
      }
      ok := true;
    }

    /** `draw`, without the drawing: fails before `init`, otherwise resolves
        mouse focus as `UpdateMouseFocus` does (and cannot fail there). */
    method Draw() returns (ok: bool)
      requires Valid()
      modifies this`elements, this`mouseFocused, this`refreshes
      ensures Valid() && |elements| == |old(elements)|
      ensures ok == initialised
      ensures !ok || mouseState.AnyPressed() || mouseState.IsStale() ==>
        elements == old(elements) && mouseFocused == old(mouseFocused) && refreshes == old(refreshes)
      ensures ok && !(mouseState.AnyPressed() || mouseState.IsStale()) ==>
        mouseFocused == FirstHit(old(elements), mouseState.Position())
      ensures mouseFocused == old(mouseFocused) ==> elements == old(elements) && refreshes == old(refreshes)
      ensures mouseFocused != old(mouseFocused) ==>
        elements == MoveMouseFocus(old(elements), old(mouseFocused), mouseFocused) &&
        refreshes == old(refreshes) + 1
    {
      if !initialised {
        return false;
      }
      ok := UpdateMouseFocus();
    }

    /** `handle_mouse_input`. With a mouse-focused element, its handler's
        request is applied to keyboard focus, the geometry is refreshed once
        whatever the request, and the handler's remainder is returned. With
        none, keyboard focus is dropped (refreshing only if someone held it)
        and the event is handed back. Keyboard flags follow the corrected
        `KeybdFlags`, not the as-written update. */
    method HandleMouseInput(state: ElementState, button: MouseButton, ev: Event, reply: Reply<R>)
      returns (res: Result<R, Fault>)
      requires Valid()
      modifies this`elements, this`keybdFocused, this`refreshes
      ensures Valid() && |elements| == |old(elements)|
      ensures mouseFocused.Some? ==>
        keybdFocused == NextKeybdFocus(old(keybdFocused), mouseFocused.value, reply.request) &&
        elements == KeybdFlags(old(elements), old(keybdFocused), mouseFocused.value, reply.request) &&
        refreshes == old(refreshes) + (if initialised then 1 else 0) &&
        res == (if initialised then Success(reply.remainder) else Failure(RefreshBeforeInit))
      ensures mouseFocused.None? ==>
        keybdFocused.None? &&
        elements == ClearKeybdFocus(old(elements), old(keybdFocused)) &&
        refreshes == old(refreshes) + (if old(keybdFocused).Some? && initialised then 1 else 0) &&
        res == (if old(keybdFocused).Some? && !initialised then Failure(RefreshBeforeInit)
                else Success(fromEvent(ev)))
    {
      match mouseFocused
      case Some(idx) =>
        var request := reply.request;
        match request {
          case KeyboardFocus(on) =>
            elements := KeybdFlags(elements, keybdFocused, idx, request);
            keybdFocused := if on then Some(idx) else Option.None;
          case Refresh =>
          case None =>
        }
        var ok := RefreshVertices();
        res := if ok then Success(reply.remainder) else Failure(RefreshBeforeInit);
      case None =>
        res := Success(fromEvent(ev));
        if keybdFocused.Some? {
          elements := ClearKeybdFocus(elements, keybdFocused);
          keybdFocused := Option.None;
          var ok := RefreshVertices();
          if !ok {
            res := Failure(RefreshBeforeInit);
          }
        }
    }

    /** `handle_keyboard_input`: update the modifier state first; while
        control is held nothing reaches an element and the event is handed
        back (control+Q included). Otherwise the keyboard-focus holder's
        handler gets the event and its remainder is returned, its request
        ignored; with no holder the event is handed back. */
    method HandleKeyboardInput(keyState: ElementState, vkCode: Option<VirtualKeyCode>, ev: Event,
                               kbAfter: KeyboardState, reply: Reply<R>) returns (r: R)
      modifies this`keybdState
      ensures keybdState == kbAfter
      ensures kbAfter.control ==> r == fromEvent(ev)
      ensures !kbAfter.control && keybdFocused.Some? ==> r == reply.remainder
      ensures !kbAfter.control && keybdFocused.None? ==> r == fromEvent(ev)
    {
      keybdState := kbAfter;
      if keybdState.control {
        match keyState {
          case Pressed =>
            match vkCode {
              case Some(vkc) =>
                match vkc {
                  case Q => r := fromEvent(ev);
                  case _ => r := fromEvent(ev);
                }
              case None => r := fromEvent(ev);
            }
          case _ => r := fromEvent(ev);
        }
      } else {
        if keybdFocused.Some? {
          r := reply.remainder;
        } else {
          r := fromEvent(ev);
        }
      }
    }

    /** The mouse-button branch of `handle_event`: record the button, resolve
        mouse focus, then dispatch. */
    method HandleButtonEvent(ev: Event, reply: Reply<R>) returns (res: Result<R, Fault>)
      requires Valid() && IsMouseInput(ev)
      modifies this`elements, this`mouseFocused, this`keybdFocused, this`refreshes
      modifies mouseState`left, mouseState`right, mouseState`middle, mouseState`other
      ensures Valid() && SameShapes(old(elements), elements)
      ensures
        var b := ev.event.button;
        mouseState.Known(b) && mouseState.Button(b) == ev.event.state &&
        (forall b' :: b' != b && old(mouseState.Known(b')) ==>
           mouseState.Known(b') && mouseState.Button(b') == old(mouseState.Button(b'))) &&
        mouseState.other.Keys == old(mouseState.other.Keys) + (if b.Other? then {b.id} else {}) &&
        mouseState.frame == old(mouseState.frame) && mouseState.IsStale() == old(mouseState.IsStale()) &&
        unchanged(mouseState.position)
      ensures
        mouseFocused == (if mouseState.AnyPressed() || mouseState.IsStale() then old(mouseFocused)
                         else FirstHit(old(elements), mouseState.Position()))
      ensures
        var moved := mouseFocused != old(mouseFocused);
        var dispatchRefresh := mouseFocused.Some? || old(keybdFocused).Some?;
        (res.Failure? <==> !initialised && (moved || dispatchRefresh)) &&
        (res.Success? ==>
           refreshes == old(refreshes) + (if moved then 1 else 0) + (if dispatchRefresh then 1 else 0) &&
           keybdFocused == (if mouseFocused.Some?
                            then NextKeybdFocus(old(keybdFocused), mouseFocused.value, reply.request)
                            else Option.None) &&
           res.value == (if mouseFocused.Some? then reply.remainder else fromEvent(ev)))
    {
      var state, button := ev.event.state, ev.event.button;
      mouseState.SetButton(button, state);
      var ok := UpdateMouseFocus();
      if !ok {
        return Failure(RefreshBeforeInit);
      }
      res := HandleMouseInput(state, button, ev, reply);
    }

    /** `handle_event`: classify one event, update the pane and return the
        remainder (or the fault that aborts the program). */
    method HandleEvent(ev: Event, kbAfter: KeyboardState, reply: Reply<R>) returns (res: Result<R, Fault>)
      requires Valid()
      modifies this`elements, this`mouseFocused, this`keybdFocused, this`keybdState, this`refreshes
      modifies mouseState, mouseState.position
      ensures Valid() && SameShapes(old(elements), elements)
      // Only a key event touches the modifier state.
      ensures !(ev.WindowEvent? && ev.event.KeyboardInput?) ==> keybdState == old(keybdState)
      // Resize: one refresh, the event handed back.
      ensures ev.WindowEvent? && ev.event.Resized? ==>
        elements == old(elements) && mouseFocused == old(mouseFocused) && keybdFocused == old(keybdFocused) &&
        unchanged(mouseState, mouseState.position) &&
        refreshes == old(refreshes) + (if initialised then 1 else 0) &&
        res == (if initialised then Success(fromEvent(ev)) else Failure(RefreshBeforeInit))
      // Keyboard: only the modifier state changes.
      ensures ev.WindowEvent? && ev.event.KeyboardInput? ==>
        elements == old(elements) && mouseFocused == old(mouseFocused) && keybdFocused == old(keybdFocused) &&
        unchanged(mouseState, mouseState.position) && refreshes == old(refreshes) &&
        keybdState == kbAfter &&
        res == Success(if kbAfter.control || keybdFocused.None? then fromEvent(ev) else reply.remainder)
      // Pointer motion: only the pointer position changes.
      ensures ev.WindowEvent? && ev.event.CursorMoved? ==>
        elements == old(elements) && mouseFocused == old(mouseFocused) && keybdFocused == old(keybdFocused) &&
        refreshes == old(refreshes) &&
        mouseState.Position() == ev.event.position && !mouseState.IsStale() &&
        mouseState.frame != old(mouseState.frame) &&
        mouseState.position[old(mouseState.frame) as int] == old(mouseState.Position()) &&
        mouseState.left == old(mouseState.left) && mouseState.right == old(mouseState.right) &&
        mouseState.middle == old(mouseState.middle) && mouseState.other == old(mouseState.other) &&
        res == Success(fromEvent(ev))
      // Mouse button: record it, resolve focus, dispatch.
      ensures IsMouseInput(ev) ==>
        var b := ev.event.button;
        mouseState.Known(b) && mouseState.Button(b) == ev.event.state &&
        (forall b' :: b' != b && old(mouseState.Known(b')) ==>
           mouseState.Known(b') && mouseState.Button(b') == old(mouseState.Button(b'))) &&
        mouseState.other.Keys == old(mouseState.other.Keys) + (if b.Other? then {b.id} else {}) &&
        mouseState.frame == old(mouseState.frame) && mouseState.IsStale() == old(mouseState.IsStale()) &&
        unchanged(mouseState.position)
      ensures IsMouseInput(ev) ==>
        mouseFocused == (if mouseState.AnyPressed() || mouseState.IsStale() then old(mouseFocused)
                         else FirstHit(old(elements), mouseState.Position()))
      ensures IsMouseInput(ev) ==>
        var moved := mouseFocused != old(mouseFocused);
        var dispatchRefresh := mouseFocused.Some? || old(keybdFocused).Some?;
        (res.Failure? <==> !initialised && (moved || dispatchRefresh)) &&
        (res.Success? ==>
           refreshes == old(refreshes) + (if moved then 1 else 0) + (if dispatchRefresh then 1 else 0) &&
           keybdFocused == (if mouseFocused.Some?
                            then NextKeybdFocus(old(keybdFocused), mouseFocused.value, reply.request)
                            else Option.None) &&
           res.value == (if mouseFocused.Some? then reply.remainder else fromEvent(ev)))
      // Everything else: nothing changes, the event is handed back.
      ensures IsPassThrough(ev) ==>
        elements == old(elements) && mouseFocused == old(mouseFocused) && keybdFocused == old(keybdFocused) &&
        unchanged(mouseState, mouseState.position) && refreshes == old(refreshes) &&
        res == Success(fromEvent(ev))
    {
      match ev {
        case WindowEvent(_, winEvent) =>
        match winEvent {
        case Resized(_, _) =>
          var ok := RefreshVertices();
          res := if ok then Success(fromEvent(ev)) else Failure(RefreshBeforeInit);
        case KeyboardInput(keyState, _, vkCode) =>
          var r := HandleKeyboardInput(keyState, vkCode, ev, kbAfter, reply);
          res := Success(r);
        case MouseInput(_, _) =>
          res := HandleButtonEvent(ev, reply);
        case CursorMoved(position) =>
          mouseState.UpdatePosition(position);
          res := Success(fromEvent(ev));
        case MouseWheel =>
          res := Success(fromEvent(ev));
        case OtherWindowEvent(_) =>
          res := Success(fromEvent(ev));
        }
        case _ =>
          res := Success(fromEvent(ev));
      }
    }
  }
}
