/** Short event sequences on a fresh pane, checked against the pane's
    contracts alone: clicking an element that claims keyboard focus makes the
    next key reach that element, but only once focus has been resolved
    (by `draw`) after the pointer moved onto it. */
module Scenarios {
  import opened Wrappers
  import opened Ui
  import opened MouseStates
  import opened Focus
  import opened Panes

  /** Move onto an element, draw, click it (its handler claims keyboard
      focus), then type a letter without control: the click and the key both
      reach the element, and their remainders come back. */
  method ClickClaimsKeyboardFocus<Rem>(fromEvent: Event -> Rem, contains: Point -> bool, p: Point,
                                       clickRemainder: Rem, keyRemainder: Rem)
    returns (click: Result<Rem, Fault>, key: Result<Rem, Fault>)
    requires contains(p)
    ensures click == Success(clickRemainder)
    ensures key == Success(keyRemainder)
  {
    var noMods := KeyboardState(false, false);
    var pane := new Pane(fromEvent, noMods);
    var added := pane.AddElement(contains);
    pane.Init();
    var moved := pane.HandleEvent(WindowEvent(0, CursorMoved(p)), noMods, Reply(UiRequest.None, clickRemainder));
    var drawn := pane.Draw();
    assert pane.elements[0].contains(p);
    assert pane.mouseFocused == Some(0);
    click := pane.HandleEvent(WindowEvent(0, MouseInput(Pressed, Left)), noMods,
                              Reply(KeyboardFocus(true), clickRemainder));
    assert pane.keybdFocused == Some(0);
    key := pane.HandleEvent(WindowEvent(0, KeyboardInput(Pressed, 30, Some(A))), noMods,
                            Reply(UiRequest.None, keyRemainder));
  }

  /** The same move and click without a draw in between: the press is
      recorded before focus is resolved, so resolution is skipped, no element
      has mouse focus, and the click is handed back as a raw event. */
  method PressBeforeDrawMissesElement<Rem>(fromEvent: Event -> Rem, contains: Point -> bool, p: Point,
                                           clickRemainder: Rem)
    returns (click: Result<Rem, Fault>, keybdHolder: Option<nat>)
    requires contains(p)
    ensures click == Success(fromEvent(WindowEvent(0, MouseInput(Pressed, Left))))
    ensures keybdHolder.None?
  {
    var noMods := KeyboardState(false, false);
    var pane := new Pane(fromEvent, noMods);
    var added := pane.AddElement(contains);
    pane.Init();
    var moved := pane.HandleEvent(WindowEvent(0, CursorMoved(p)), noMods, Reply(UiRequest.None, clickRemainder));
    click := pane.HandleEvent(WindowEvent(0, MouseInput(Pressed, Left)), noMods,
                              Reply(KeyboardFocus(true), clickRemainder));
    keybdHolder := pane.keybdFocused;
  }
}
