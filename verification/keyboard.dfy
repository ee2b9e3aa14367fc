/** The keyboard-state store: one flag, "the Alt (Option) key is held", kept
    from the window's `keydown` and `keyup` events. */
module Keyboard {
  datatype EventType = KeyDown | KeyUp

  datatype KeyEvent = KeyEvent(key: string, eventType: EventType)

  /** The flag before any event. */
  const Initial: bool := false

  /** `handleEvent`: the flag becomes "this event is a keydown of Alt",
      whatever it was before. */
  function HandleEvent(held: bool, e: KeyEvent): (r: bool)
    ensures e.eventType == KeyUp ==> !r
    ensures e.eventType == KeyDown ==> (r <==> e.key == "Alt")
  {
    e.key == "Alt" && e.eventType == KeyDown
  }

  /** The flag after a sequence of events, from `held`. */
  function Replay(held: bool, events: seq<KeyEvent>): bool
    decreases |events|
  {
    if |events| == 0 then held else Replay(HandleEvent(held, events[0]), events[1..])
  }

  /** The flag depends on the last event only: it is set exactly when the
      last event was an Alt keydown. A second key pressed while Alt is held
      clears it. */
  lemma {:induction false} ReplayIsLastEvent(held: bool, events: seq<KeyEvent>)
    requires |events| > 0
    ensures Replay(held, events) <==> events[|events| - 1] == KeyEvent("Alt", KeyDown)
    decreases |events|
  {
    if |events| > 1 {
      ReplayIsLastEvent(HandleEvent(held, events[0]), events[1..]);
      assert events[1..][|events[1..]| - 1] == events[|events| - 1];
    }
  }

  /** The flag starts off and stays off until some event is an Alt keydown. */
  lemma {:induction false} InitiallyReleased(events: seq<KeyEvent>)
    ensures KeyEvent("Alt", KeyDown) !in events ==> !Replay(Initial, events)
  {
    if |events| > 0 {
      ReplayIsLastEvent(Initial, events);
    }
  }
}
