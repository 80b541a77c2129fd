/** `NiceKeyboard`: the input state the event handler keeps for the game and
    the UI — the set of held physical keys, the set of held letters (as the
    keyboard layout produces them), the mouse cell and the left mouse button.
    The event handler updates it in place on every keyboard and mouse-button
    event. */
module Input {
  import opened Bytes

  /** The few key codes the core names; every other code is told apart by
      its name. */
  datatype KeyCode = Enter | ArrowDown | ArrowUp | Escape | OtherCode(name: string)

  /** A key by its position on the keyboard, independent of the layout. */
  datatype PhysicalKey = Code(code: KeyCode) | Unidentified(native: nat)

  datatype MouseButton = Left | Right | Middle | Back | Forward | OtherButton(id: nat)

  /** The parts of a keyboard event the handler reads: the physical key,
      pressed or released, whether it is an auto-repeat, and the text the
      key produced, if any. */
  datatype KeyEvent = KeyEvent(physicalKey: PhysicalKey, pressed: bool, repeat: bool, text: Option<string>)

  /** The handler takes the first character of the event's text and unwraps
      it: text that is present but empty is a panic. */
  predicate TextOk(e: KeyEvent) {
    e.text.Some? ==> |e.text.value| > 0
  }

  /** A snapshot of the keyboard as the UI reads it. */
  datatype KeyState = KeyState(keys: set<PhysicalKey>, letters: set<char>, mousePosition: (int, int),
                               mousePressed: bool)

  /** The held keys after a keyboard event: a press adds the key, a release
      removes it, an auto-repeat changes nothing; no other key is touched. */
  function KeysAfter(keys: set<PhysicalKey>, e: KeyEvent): (r: set<PhysicalKey>)
    ensures e.repeat ==> r == keys
    ensures !e.repeat ==> (e.physicalKey in r <==> e.pressed)
    ensures forall k | k != e.physicalKey :: k in r <==> k in keys
  {
    if e.repeat then keys
    else if e.pressed then keys + {e.physicalKey}
    else keys - {e.physicalKey}
  }

  /** The held letters after a keyboard event: the first character of the
      event's text is added on a press and removed on a release; an
      auto-repeat, or an event without text, changes nothing. */
  function LettersAfter(letters: set<char>, e: KeyEvent): (r: set<char>)
    requires TextOk(e)
    ensures e.repeat || e.text.None? ==> r == letters
    ensures !e.repeat && e.text.Some? ==> (e.text.value[0] in r <==> e.pressed)
    ensures forall c | e.text.None? || c != e.text.value[0] :: c in r <==> c in letters
  {
    if e.repeat || e.text.None? then letters
    else if e.pressed then letters + {e.text.value[0]}
    else letters - {e.text.value[0]}
  }

  /** A press followed by the release of the same key leaves the key set as
      it was, less that key. */
  lemma PressThenRelease(keys: set<PhysicalKey>, k: PhysicalKey, text: Option<string>)
    ensures KeysAfter(KeysAfter(keys, KeyEvent(k, true, false, text)), KeyEvent(k, false, false, text)) ==
            keys - {k}
  {
  }

  /** Applying the same event twice is applying it once. */
  lemma KeysAfterIdempotent(keys: set<PhysicalKey>, e: KeyEvent)
    ensures KeysAfter(KeysAfter(keys, e), e) == KeysAfter(keys, e)
  {
  }

  /** The letters counterpart of `PressThenRelease`. */
  lemma LetterPressThenRelease(letters: set<char>, k: PhysicalKey, text: string)
    requires |text| > 0
    ensures LettersAfter(LettersAfter(letters, KeyEvent(k, true, false, Some(text))), KeyEvent(k, false, false, Some(text))) ==
            letters - {text[0]}
  {
  }

  /** The input state the event handler owns. */
  class Keyboard {
    var keys: set<PhysicalKey>
    var letters: set<char>
    var mousePosition: (int, int)
    var mousePressed: bool

    function State(): KeyState
      reads this
    {
      KeyState(keys, letters, mousePosition, mousePressed)
    }

    /** The keyboard the event loop starts with: nothing held, the mouse at
        cell `(0, 0)`. */
    constructor ()
      ensures State() == KeyState({}, {}, (0, 0), false)
    {
      keys := {};
      letters := {};
      mousePosition := (0, 0);
      mousePressed := false;
    }

    /** The `KeyboardInput` arm of the event handler. */
    method KeyboardInput(e: KeyEvent)
      requires TextOk(e)
      modifies this
      ensures keys == KeysAfter(old(keys), e) && letters == LettersAfter(old(letters), e)
      ensures mousePosition == old(mousePosition) && mousePressed == old(mousePressed)
    {
      if !e.repeat {
        if e.text.Some? {
          var data := e.text.value[0];
          if e.pressed {
            letters := letters + {data};
          } else {
            letters := letters - {data};
          }
        }
        if e.pressed {
          keys := keys + {e.physicalKey};
        } else {
          keys := keys - {e.physicalKey};
        }
      }
    }

    /** The `MouseInput` arm: only the left button is tracked, as pressed or
        released; the other buttons change nothing. */
    method MouseInput(button: MouseButton, pressed: bool)
      modifies this
      ensures mousePressed == if button == Left then pressed else old(mousePressed)
      ensures keys == old(keys) && letters == old(letters) && mousePosition == old(mousePosition)
    {
      if button == Left {
        mousePressed := pressed;
      }
    }
  }
}
