/** The keydown listener of src/script.js: Space starts or pauses, `r` or
    `R` resets, `1`/`2`/`3` select a mode, and nothing happens while a text
    field has the focus. */
module Keyboard {
  import opened Text
  import opened Timer

  datatype Command = NoCommand | StartOrPause | ResetTimer | SelectMode(mode: Mode)

  /** A text field has the focus: `["INPUT", "TEXTAREA"].includes(tagName)`. */
  predicate TypingFocus(tagName: string) {
    tagName == "INPUT" || tagName == "TEXTAREA"
  }

  /** The command a key event triggers, from the focused element's tag name,
      the event's `code` and its `key`. */
  function CommandFor(tagName: string, code: string, key: string): Command {
    if TypingFocus(tagName) then NoCommand
    else if code == "Space" then StartOrPause
    else if ToLowerAscii(key) == "r" then ResetTimer
    else if key == "1" then SelectMode(Pomodoro)
    else if key == "2" then SelectMode(Short)
    else if key == "3" then SelectMode(Long)
    else NoCommand
  }

  /** Each command is triggered by exactly the keys listed, and only when no
      text field has the focus. */
  lemma CommandsCharacterised(tagName: string, code: string, key: string)
    ensures var c := CommandFor(tagName, code, key);
      && (c == StartOrPause <==> !TypingFocus(tagName) && code == "Space")
      && (c == ResetTimer <==> !TypingFocus(tagName) && code != "Space" && (key == "r" || key == "R"))
      && (c == SelectMode(Pomodoro) <==> !TypingFocus(tagName) && code != "Space" && key == "1")
      && (c == SelectMode(Short) <==> !TypingFocus(tagName) && code != "Space" && key == "2")
      && (c == SelectMode(Long) <==> !TypingFocus(tagName) && code != "Space" && key == "3")
  {
    LowerIsLetter(key, 'r');
    assert (('r' as int - 32) as char) == 'R';
    assert ToLowerAscii("1") == "1" && ToLowerAscii("2") == "2" && ToLowerAscii("3") == "3";
  }

  /** The timer state a command leads to. */
  function Apply(st: TimerState, c: Command): TimerState {
    match c
    case NoCommand => st
    case StartOrPause => ToggleStep(st)
    case ResetTimer => ResetStep(st)
    case SelectMode(m) => SwitchStep(st, m)
  }

  /** Every key keeps the timer's invariant, and typing into a field leaves
      the timer exactly as it was. */
  lemma KeysPreserveInvariant(st: TimerState, tagName: string, code: string, key: string)
    requires Valid(st)
    ensures Valid(Apply(st, CommandFor(tagName, code, key)))
    ensures Bounded(st) ==> Bounded(Apply(st, CommandFor(tagName, code, key)))
    ensures TypingFocus(tagName) ==> Apply(st, CommandFor(tagName, code, key)) == st
  {
    match CommandFor(tagName, code, key)
    case NoCommand =>
    case StartOrPause => ToggleFlips(st);
    case ResetTimer => ResetRefills(st);
    case SelectMode(m) => SwitchRefills(st, m);
  }

  /** The keydown listener. */
  method HandleKeyDown(timer: PomodoroTimer, tagName: string, code: string, key: string)
    requires Valid(timer.State())
    modifies timer
    ensures timer.State() == Apply(old(timer.State()), CommandFor(tagName, code, key))
    ensures Valid(timer.State())
  {
    if TypingFocus(tagName) {
      return;
    }
    if code == "Space" {
      timer.StartOrPause();
    } else if ToLowerAscii(key) == "r" {
      timer.Reset();
    } else if key == "1" {
      timer.SwitchMode(Pomodoro);
    } else if key == "2" {
      timer.SwitchMode(Short);
    } else if key == "3" {
      timer.SwitchMode(Long);
    }
  }
}
