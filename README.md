# enamel UI pane: focus coordination and event dispatch, in Dafny

This project models the core of the `enamel` widget layer: the `Pane`, which
receives raw window events one at a time and returns a caller-defined
"remainder". For each event it

- updates its pointer and button tracker (`MouseState`) and its modifier
  snapshot (`KeyboardState`);
- decides which element has mouse focus, by first-match hit testing, and
  which has keyboard focus;
- forwards the event to the handler of the focused element;
- applies the handler's `UiRequest` (`None`, `Refresh`, `KeyboardFocus(bool)`);
- returns the handler's remainder, or `R::event(event)` when no element took
  the event.

The small text-entry helpers `map_vkc` and `key_into_string` are modelled as well.

Files and modules:

- `wrappers.dfy` (`Wrappers`): `Option` and `Result`.
- `ui.dfy` (`Ui`): the enums of `src/ui/mod.rs`, `HandlerOption::is_some`,
  `map_vkc`, `key_into_string`, and reference key tables. Lemmas state
  `map_vkc` against those tables.
- `mouse_state.dfy` (`MouseStates`): the class `MouseState`. It holds a
  two-slot `array` of positions with a `bv8` frame selector flipped by `^ 1`,
  the stale flag, and the button table. The getters `position`, `button` and
  `is_stale` are the functions `Position`, `Button` and `IsStale`. The
  contracts below use them.
- `focus.dfy` (`Focus`): the pane's focus bookkeeping, on values. It covers:
  - the rule "element i shows mouse (keyboard) focus iff the mouse (keyboard)
    index is `Some(i)`";
  - the first-match hit test `FirstHit`;
  - the flag updates that move focus.
- `pane.dfy` (`Panes`): the class `Pane<R>`. Its fields are:
  - `elements: seq<Element>`;
  - the two focus indices;
  - the `MouseState` object and the `KeyboardState`;
  - an `initialised` bit, which stands for the vertex and index buffers;
  - a ghost `refreshes` counter, which counts geometry refreshes.

  Its invariant `Valid()` is the focus rule above. Every method keeps it.
- `scenarios.dfy` (`Scenarios`): two event sequences on a fresh pane, proved
  from the pane's contracts alone.

Collaborators the pane only calls become parameters:

- `R::event` is the pane's `fromEvent` function.
- An element's hit test (`has_mouse_focus` on the surface position) is the
  element's `contains` predicate on the pixel position.
- Whatever the dispatched element's handler returns is the `reply` argument
  of `HandleEvent` (a request and a remainder).
- The modifier state that `KeyboardState::update` leaves behind is the
  `kbAfter` argument.

The configuration-order panics are not aborts here:

- `element` after `init` returns `ok == false`.
- `draw` before `init` returns `ok == false`.
- `refresh_vertices` before `init` returns `ok == false`, and inside
  `HandleEvent` it becomes `Failure(RefreshBeforeInit)`.

Notes on the source's behaviour:

- In `handle_keyboard_input`, the `Q` arm's return of a synthetic
  `WindowEvent::Closed` event is commented out (src/ui/pane.rs:185-186), so
  Control+Q returns `R::event(event)` like every other key while control is
  held (src/ui/pane.rs:179-194). No key yields a dedicated "closed"
  remainder.
- Pointer motion always clears the stale flag (src/ui/mouse_state.rs:48),
  even when the pointer moves to the coordinate it already had.
- Reading an extra button that was never recorded panics
  (src/ui/mouse_state.rs:74). `Button(Other(k))` therefore requires `k` to
  have been recorded.
- A mouse button event records the button before resolving focus
  (src/ui/pane.rs:154-155). On a press of Left, Right or Middle,
  `any_pressed()` is therefore already true, and the focus resolution that
  precedes dispatch is skipped. `any_pressed()` looks only at those three
  buttons (src/ui/mouse_state.rs:78-81), so an extra-button event with no
  main button held does resolve focus before dispatch. Focus that only a
  pointer move changed is resolved at the first `draw` or mouse-button
  event after which no main button is held and the pointer is not stale.
  `Scenarios.PressBeforeDrawMissesElement` shows the effect: a left press
  right after moving onto an element reaches no element.
  `Scenarios.ClickClaimsKeyboardFocus` shows the same click after a `draw`
  reaching the element.

## Model

| member | source | states |
|---|---|---|
| `Ui.HandlerOption.IsSome` | src/ui/mod.rs:143-151 | true exactly for the `Fn` and `Sub` slots, false for `None` |
| `Ui.MapVkc` | src/ui/mod.rs:190-237 | no key gives no character; every character produced is a digit, a lower-case letter or a space |
| `Ui.DigitKeysTypeTheirDigit` | src/ui/mod.rs:195-204 | main-row key N types the digit N |
| `Ui.NumpadKeysTypeNextDigit` | src/ui/mod.rs:195-204 | keypad key N types the digit (N+1) mod 10 (Numpad0 types '1', Numpad9 types '0') |
| `Ui.LetterKeysTypeLowerCase` | src/ui/mod.rs:205-230 | the i-th letter key types the i-th lower-case letter |
| `Ui.MapVkcDomain` | src/ui/mod.rs:193-236 | a key types nothing iff it is Back, a modifier key or a key outside the table; space types ' ' (with the three row lemmas: exactly the digit, keypad, letter and space keys type something) |
| `Ui.ToUpper` | src/ui/mod.rs:180 | on typeable characters: letters go to the matching capital, digits and space are unchanged |
| `Ui.KeyIntoString` | src/ui/mod.rs:169-186 | a release changes nothing; pressed Back drops the last character (none on empty text); a pressed typing key appends exactly one character, upper-cased under shift, keeping the text before it; any other key changes nothing |
| `Ui.BackUndoesTyping` | src/ui/mod.rs:172-183 | typing a character and then pressing Back restores the text |
| `Ui.LetterKeyAppendsLetter` | src/ui/mod.rs:178-183 | a letter key appends that letter, capital exactly when shift is held |
| `MouseStates.MouseState.constructor` | src/ui/mouse_state.rs:20-30 | both slots (0,0), frame 0, left/right/middle released, no extra button recorded, not stale, nothing pressed |
| `MouseStates.MouseState.Position` | src/ui/mouse_state.rs:32-35 | defined only while the tracker is valid, so the frame selects one of the two slots (the `debug_assert` at line 33); the result is one of them (`UpdatePosition` states which) |
| `MouseStates.MouseState.Button` | src/ui/mouse_state.rs:69-76 | each button reads its own recorded state; defined for an extra button only once it has been recorded, the case in which the source panics (line 74) |
| `MouseStates.MouseState.IsStale` | src/ui/mouse_state.rs:65-67 | the stale flag, set by `SetStale` and cleared by `UpdatePosition` |
| `MouseStates.MouseState.UpdatePosition` | src/ui/mouse_state.rs:45-50 | the frame flips and stays 0 or 1; `Position()` is the new position; the other slot keeps the previous position; not stale |
| `MouseStates.MouseState.SetButton` | src/ui/mouse_state.rs:52-59 | `Button(b)` is the new state; every other recorded button keeps its state; an extra button becomes recorded; setting an extra button never changes `AnyPressed()` |
| `MouseStates.MouseState.SetStale` | src/ui/mouse_state.rs:61-63 | `IsStale()` holds afterwards |
| `MouseStates.MouseState.AnyPressed` | src/ui/mouse_state.rs:78-81 | true iff one of left, middle, right reads Pressed |
| `Focus.AtMostOneFocused` | src/ui/pane.rs:24-25 | while the flags agree with the indices, no two elements show mouse focus and no two show keyboard focus |
| `Focus.FirstHit` | src/ui/pane.rs:280-291 | the smallest index whose element contains the pointer, or None when no element does |
| `Focus.FirstMatchWins` | src/ui/pane.rs:283-287 | of two overlapping elements, the earlier one is found, never the later |
| `Focus.MoveMouseFocus` | src/ui/pane.rs:258-272 | flags agreeing with the old holder become flags agreeing with the new holder; shapes and keyboard flags stay |
| `Focus.NextKeybdFocus` | src/ui/pane.rs:216-228 | `KeyboardFocus(true)` makes the requester the holder, `KeyboardFocus(false)` leaves none, `Refresh` and `None` keep the holder |
| `Focus.KeybdFlagsAsWritten` | src/ui/pane.rs:216-225 | as written: on `KeyboardFocus(on)` the requester's keyboard flag becomes `on` and every other element is untouched; `Refresh` and `None` leave the elements unchanged |
| `Focus.KeybdFlagsAsWrittenDesync` | src/ui/pane.rs:216-225 | the as-written update keeps flags and index in agreement iff the request is not a keyboard request, or nobody held focus, or the requester held it |
| `Focus.KeybdClaimLeavesTwoFlags` | src/ui/pane.rs:217-220 | element 0 holds keyboard focus and element 1 claims it: afterwards both show keyboard focus |
| `Focus.ClearKeybdFocus` | src/ui/pane.rs:232-241 | clearing the holder's flag leaves flags agreeing with "no holder"; mouse flags stay |
| `Focus.KeybdFlags` | src/ui/pane.rs:216-225 | corrected: flags agreeing with the old holder become flags agreeing with `NextKeybdFocus`; the requester's flag is the requested value |
| `Focus.KeybdFlagsAgreeWhenNoOtherHolder` | src/ui/pane.rs:216-225 | when nobody else holds keyboard focus, the correction gives exactly the as-written flags |
| `Panes.Pane.constructor` | src/ui/pane.rs:30-75 | no elements, no focus, a fresh tracker as `MouseState::new` builds it (both slots and the pointer at the origin, frame 0, nothing pressed, no extra button recorded, not stale), not initialised, no refresh yet |
| `Panes.Pane.AddElement` | src/ui/pane.rs:77-84 | fails iff initialised; otherwise appends one unfocused element and leaves earlier elements and their order as they were |
| `Panes.Pane.Init` | src/ui/pane.rs:86-105 | the pane is initialised; focus rule kept |
| `Panes.Pane.RefreshVertices` | src/ui/pane.rs:296-314 | fails iff not initialised; otherwise exactly one refresh |
| `Panes.Pane.InputIsStale` | src/ui/pane.rs:324-326 | the pane's pointer is stale exactly when its tracker is |
| `Panes.Pane.SetInputStale` | src/ui/pane.rs:320-326 | `InputIsStale()` holds afterwards |
| `Panes.Pane.FocusedElementIdx` | src/ui/pane.rs:280-291 | the loop returns the smallest index whose element contains the pointer, or None when none does |
| `Panes.Pane.UpdateMouseFocus` | src/ui/pane.rs:249-278 | with a main button held or a stale pointer, nothing changes; otherwise the holder becomes `FirstHit`; if the holder changed, the flags move over and exactly one refresh happens (failing before init); if it did not, nothing changes |
| `Panes.Pane.Draw` | src/ui/pane.rs:107-124 | fails before init with nothing changed; otherwise resolves mouse focus as `UpdateMouseFocus` does |
| `Panes.Pane.HandleMouseInput` | src/ui/pane.rs:208-247 | with a mouse holder: the request sets keyboard focus per `NextKeybdFocus`, one refresh whatever the request, and the handler's remainder is returned. Without one: keyboard focus dropped, a refresh only if it was held, and `R::event(event)` returned |
| `Panes.Pane.HandleKeyboardInput` | src/ui/pane.rs:172-206 | modifiers updated first; with control held the result is `R::event(event)`; otherwise the keyboard holder's remainder, or `R::event(event)` without a holder |
| `Panes.Pane.HandleButtonEvent` | src/ui/pane.rs:153-157 | the button is recorded, other recorded buttons keep their state, and no other extra button becomes recorded; mouse focus is unchanged while a main button is held or the pointer is stale, else it is `FirstHit`; fails iff not initialised and a refresh was due; on success the refresh count is one per focus change plus one per dispatch to a holder or drop of keyboard focus, keyboard focus follows the request, and the remainder is the holder's or `R::event(event)` |
| `Panes.Pane.HandleEvent` | src/ui/pane.rs:142-170 | resize: one refresh. Keyboard: only the modifiers change. Cursor move: only the position changes (the frame flips, the new slot holds the pointer, the old slot keeps the previous position). Mouse button: recorded (no other extra button becomes recorded), then focus resolved unless a button is held or the pointer is stale, then dispatched, with refresh count, keyboard holder and remainder stated. Wheel and the rest: nothing changes. The modifier state changes only on a key event. Each returns `R::event(event)` unless an element answered |
| `Scenarios.ClickClaimsKeyboardFocus` | src/ui/pane.rs:153-157 | move, draw, click an element that claims keyboard focus, type a key: both the click and the key reach the element |
| `Scenarios.PressBeforeDrawMissesElement` | src/ui/pane.rs:153-157 | move then press with no draw between: the press is handed back as a raw event and nobody gets keyboard focus |

## Findings

| source | as written | input that shows it | evidently intended | confidence | as-written member | corrected member |
|---|---|---|---|---|---|---|
| src/ui/pane.rs:216-224 | `KeyboardFocus(true)` from element i sets i's flag and makes i the holder, but never clears the previous holder's flag. `KeyboardFocus(false)` from i clears only i's flag | two elements; element 0 holds keyboard focus; element 1 is clicked and its handler returns `KeyboardFocus(true)`. Afterwards both elements show keyboard focus, while `keybd_focused == Some(1)` | the previous holder's flag is cleared, so that at most one element shows keyboard focus and the flags agree with `keybd_focused` | medium; not executed | `Focus.KeybdFlagsAsWritten`, `Focus.KeybdClaimLeavesTwoFlags` | `Focus.KeybdFlags` |

`Panes.Pane.HandleMouseInput` uses the corrected `Focus.KeybdFlags`. That is
what lets `Pane.Valid()` include the keyboard half of the focus rule.

## Left out

- GPU and text rendering are not modelled. This covers the shader program,
  draw parameters, font texture and text system built by `Pane::new`; the
  vertex and index buffers built by `init`; the draw calls of `draw`; the
  vertices written by `refresh_vertices`; and the shader sources. These are
  calls into glium and rusttype. The `initialised` bit and the ghost
  `refreshes` counter stand for them.
- `surface_position`, `to_gl_dim` and the pane's `surface_dims` are not
  modelled. They are `f32` arithmetic, and the hit test that consumes them
  belongs to the element. An element's `contains` predicate on pixel
  positions stands for the whole chain.
- The `f64` to `i32` cast in `update_position` is not modelled. `CursorMoved`
  carries positions that are already `i32`.
- `KeyboardState::new` and `KeyboardState::update` are not modelled, because
  src/ui/keyboard_state.rs is not part of this model. Their results are
  parameters of the `Pane` constructor and of `HandleEvent`.
- The element type is not modelled, because src/ui/element.rs is not part of
  this model. This covers `Element::handle_mouse_input`,
  `handle_keyboard_input`, the handler closures and any state they keep,
  the element's own text buffer, `set_text_width`, and sub-elements. The
  handler's answer is the `reply` argument. `AddElement` takes a hit test and
  builds an element with neither focus flag set.
- `Pane::mouse_state` is not modelled as a separate member. It only returns
  a reference, and the model exposes the field `mouseState` directly.
- Scroll deltas, scancodes and window and device ids are carried or dropped
  but never interpreted, as in the source.
- The following are not modelled, because they hold no behaviour the pane
  uses: the `CustomEventRemainder` clone and debug plumbing,
  `EventRemainderOld`, `TextAlign`, `KeyCombo`, the `Debug` impl of
  `HandlerOption`, and the colour and anchor constants.
- src/ui/controls/text_box.rs, examples/basics.rs, examples/typical.rs and
  src/lib.rs are not modelled. They hold builder geometry, demo programs and
  re-exports.
- The configuration-order panics (`element` after `init`, `draw` and
  `refresh_vertices` before `init`) are not modelled as aborts. The model
  returns the failure and is left in the state the operation reached.
- MouseStates.MouseState.Button: reading an extra button that was never
  recorded (the panic at src/ui/mouse_state.rs:74) is excluded by the
  precondition `Known(b)`. It is not returned as a failure.
- MouseStates.MouseState.Position: the `debug_assert` on the frame
  (src/ui/mouse_state.rs:33) is excluded by the precondition `Valid()`,
  which every method keeps. It is not returned as a failure.
- Panes.Pane.HandleEvent: after a `Failure` the contract states only the
  invariant and the mouse tracker. It does not state the refresh count,
  keyboard focus or remainder, because the source has aborted by then.
- Panes.Pane.HandleMouseInput: after a failed refresh it sets the keyboard
  index to None before the refresh, where the source would leave it set.
  Only the state left behind by the panic differs.
- Ui.ToUpper: defined only on the characters `map_vkc` can produce. The
  source's Unicode `to_uppercase` is never applied to anything else there.
