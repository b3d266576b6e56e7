/** The shared vocabulary of the UI layer (src/ui/mod.rs): the windowing
    library's button, key and state enums as far as the pane looks at them,
    the request a handler returns to the pane, the handler slot enum, and the
    two text-entry helpers `map_vkc` and `key_into_string`. */
module Ui {
  import opened Wrappers

  /** Pressed or released, for a mouse button or a key. */
  datatype ElementState = Pressed | Released

  /** The range of a Rust `u8`. */
  type U8 = x: int | 0 <= x < 256

  /** A mouse button; `Other` carries the windowing library's u8 button id. */
  datatype MouseButton = Left | Right | Middle | Other(id: U8)

  /** The virtual key codes the UI layer names. Every other key of the
      windowing library is `Unlisted`, distinguished only by a number. */
  datatype VirtualKeyCode =
    | Key1 | Key2 | Key3 | Key4 | Key5 | Key6 | Key7 | Key8 | Key9 | Key0
    | A | B | C | D | E | F | G | H | I | J | K | L | M
    | N | O | P | Q | R | S | T | U | V | W | X | Y | Z
    | Numpad0 | Numpad1 | Numpad2 | Numpad3 | Numpad4
    | Numpad5 | Numpad6 | Numpad7 | Numpad8 | Numpad9
    | Space | Back
    | LControl | RControl | LShift | RShift
    | Unlisted(code: nat)

  /** The modifier snapshot the pane keeps. How a key event changes it
      (`KeyboardState::update`) is not part of this model: callers of the
      pane supply the state that update leaves behind. */
  datatype KeyboardState = KeyboardState(control: bool, shift: bool)

  /** What an element's handler asks of the pane. */
  datatype UiRequest = None | Refresh | KeyboardFocus(on: bool)

  /** A handler slot: empty, a handler of its own, or the index of a
      sub-element whose handler is used. */
  datatype HandlerOption<T> = None | Fn(handler: T) | Sub(index: nat) {

    /** `is_some`: the slot holds something, whether a handler or a
        sub-element reference. */
    predicate IsSome()
      ensures IsSome() <==> (Fn? || Sub?)
    {
      match this
      case None => false
      case _ => true
    }
  }

  // ---------------------------------------------------------------------
  // Reference tables, independent of `MapVkc`, used to state its contract.

  /** The digit keys of the main row, indexed by the digit they show. */
  const DigitRow: seq<VirtualKeyCode> :=
    [Key0, Key1, Key2, Key3, Key4, Key5, Key6, Key7, Key8, Key9]

  /** The numeric keypad keys, indexed by the digit they show. */
  const NumpadRow: seq<VirtualKeyCode> :=
    [Numpad0, Numpad1, Numpad2, Numpad3, Numpad4, Numpad5, Numpad6, Numpad7, Numpad8, Numpad9]

  /** The letter keys in alphabetical order. */
  const LetterRow: seq<VirtualKeyCode> :=
    [A, B, C, D, E, F, G, H, I, J, K, L, M, N, O, P, Q, R, S, T, U, V, W, X, Y, Z]

  function DigitChar(n: nat): char
    requires n < 10
  {
    (('0' as int) + n) as char
  }

  function LowerLetter(i: nat): char
    requires i < 26
  {
    (('a' as int) + i) as char
  }

  function UpperLetter(i: nat): char
    requires i < 26
  {
    (('A' as int) + i) as char
  }

  /** The characters a key can type: a digit, a lower-case letter or a space. */
  predicate Typeable(c: char) {
    ('0' <= c <= '9') || ('a' <= c <= 'z') || c == ' '
  }

  /** Upper-casing restricted to what `MapVkc` can produce: letters move to
      upper case, digits and the space stay as they are. */
  function ToUpper(c: char): (u: char)
    requires Typeable(c)
    ensures 'a' <= c <= 'z' ==> 'A' <= u <= 'Z' && u as int - 'A' as int == c as int - 'a' as int
    ensures !('a' <= c <= 'z') ==> u == c
  {
    if 'a' <= c <= 'z' then (c as int - 32) as char else c
  }

  // ---------------------------------------------------------------------
  // map_vkc

  /** `map_vkc`: the character a key types, if any. Note the keypad digits:
      `NumpadN` types the digit after N, wrapping 9 to 0. */
  function MapVkc(vkc: Option<VirtualKeyCode>): (r: Option<char>)
    ensures vkc.None? ==> r.None?
    ensures r.Some? ==> Typeable(r.value)
  {
    match vkc
    case None => Option.None
    case Some(k) =>
      match k
      case Key1 | Numpad0 => Some('1')
      case Key2 | Numpad1 => Some('2')
      case Key3 | Numpad2 => Some('3')
      case Key4 | Numpad3 => Some('4')
      case Key5 | Numpad4 => Some('5')
      case Key6 | Numpad5 => Some('6')
      case Key7 | Numpad6 => Some('7')
      case Key8 | Numpad7 => Some('8')
      case Key9 | Numpad8 => Some('9')
      case Key0 | Numpad9 => Some('0')
      case A => Some('a')
      case B => Some('b')
      case C => Some('c')
      case D => Some('d')
      case E => Some('e')
      case F => Some('f')
      case G => Some('g')
      case H => Some('h')
      case I => Some('i')
      case J => Some('j')
      case K => Some('k')
      case L => Some('l')
      case M => Some('m')
      case N => Some('n')
      case O => Some('o')
      case P => Some('p')
      case Q => Some('q')
      case R => Some('r')
      case S => Some('s')
      case T => Some('t')
      case U => Some('u')
      case V => Some('v')
      case W => Some('w')
      case X => Some('x')
      case Y => Some('y')
      case Z => Some('z')
      case Space => Some(' ')
      case _ => Option.None
  }

  /** Main-row digit key N types the digit N. */
  lemma DigitKeysTypeTheirDigit(n: nat)
    requires n < 10
    ensures MapVkc(Some(DigitRow[n])) == Some(DigitChar(n))
  {
  }

  /** Keypad key N types the digit N + 1 (mod 10): Numpad0 types '1' and
      Numpad9 types '0'. */
  lemma NumpadKeysTypeNextDigit(n: nat)
    requires n < 10
    ensures MapVkc(Some(NumpadRow[n])) == Some(DigitChar((n + 1) % 10))
  {
  }

  /** The i-th letter key types the i-th lower-case letter. */
  lemma LetterKeysTypeLowerCase(i: nat)
    requires i < 26
    ensures MapVkc(Some(LetterRow[i])) == Some(LowerLetter(i))
  {
  }

  /** The keys that type nothing: Back, the modifier keys and every key
      outside the table. With the three lemmas above and Space this covers
      every key. */
  lemma MapVkcDomain(k: VirtualKeyCode)
    ensures MapVkc(Some(k)).None? <==> k in {Back, LControl, RControl, LShift, RShift} || k.Unlisted?
    ensures k == Space ==> MapVkc(Some(k)) == Some(' ')
  {
  }

  // ---------------------------------------------------------------------
  // key_into_string

  /** `key_into_string`: the text after one key event. A release changes
      nothing; a pressed Back deletes the last character (if any); a pressed
      key that types a character appends it, upper-cased while shift is held;
      any other key changes nothing. */
  function KeyIntoString(keyState: ElementState, vkCode: Option<VirtualKeyCode>,
                         kbState: KeyboardState, s: string): (r: string)
    ensures keyState == Released ==> r == s
    ensures keyState == Pressed && vkCode == Some(Back) ==>
      (|s| == 0 ==> r == s) && (|s| > 0 ==> r + [s[|s| - 1]] == s)
    ensures keyState == Pressed && vkCode != Some(Back) && MapVkc(vkCode).None? ==> r == s
    ensures keyState == Pressed && vkCode != Some(Back) && MapVkc(vkCode).Some? ==>
      var c := MapVkc(vkCode).value;
      |r| == |s| + 1 && r[..|s|] == s &&
      r[|s|] == (if kbState.shift then ToUpper(c) else c)
  {
    if keyState == Pressed then
      if vkCode == Some(Back) then
        if |s| > 0 then s[..|s| - 1] else s
      else
        match MapVkc(vkCode)
        case Some(c) => s + [if kbState.shift then ToUpper(c) else c]
        case None => s
    else
      s
  }

  /** Typing a character and then pressing Back gives back the original text,
      whatever the modifiers were. */
  lemma BackUndoesTyping(k: VirtualKeyCode, kb: KeyboardState, kb': KeyboardState, s: string)
    requires MapVkc(Some(k)).Some?
    ensures KeyIntoString(Pressed, Some(Back), kb', KeyIntoString(Pressed, Some(k), kb, s)) == s
  {
    var t := KeyIntoString(Pressed, Some(k), kb, s);
    assert t[..|s|] == s;
  }

  /** Typing the i-th letter key appends the i-th letter, upper case exactly
      when shift is held. */
  lemma LetterKeyAppendsLetter(i: nat, kb: KeyboardState, s: string)
    requires i < 26
    ensures KeyIntoString(Pressed, Some(LetterRow[i]), kb, s) ==
      s + [if kb.shift then UpperLetter(i) else LowerLetter(i)]
  {
    LetterKeysTypeLowerCase(i);
    var r := KeyIntoString(Pressed, Some(LetterRow[i]), kb, s);
    assert r == r[..|s|] + [r[|s|]];
  }
}
