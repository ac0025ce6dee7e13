/**
 * The input events the main loop polls each tick (booth.py:107-118) and the
 * serial listener's mapping of a line from the button board to an event
 * (booth.py:316-320).
 */
module Events {
  import opened Wrappers

  datatype Key = Escape | Return | OtherKey

  /** A window close, a key press, a user event posted by the serial listener, or anything else. */
  datatype Event = QuitEvent | KeyDown(key: Key) | UserEvent(action: string) | OtherEvent

  const ButtonPressed := "button_pressed"

  /** Closing the window or pressing Escape ends the main loop; no such event starts a session. */
  predicate IsStop(e: Event)
    ensures IsStop(e) ==> !IsStart(e)
  {
    e == QuitEvent || e == KeyDown(Escape)
  }

  /** Return or the big red button starts a session (when the booth is waiting); no other key does. */
  predicate IsStart(e: Event)
    ensures IsStart(e) && e.KeyDown? ==> e.key == Return
  {
    e == KeyDown(Return) || e == UserEvent(ButtonPressed)
  }

  predicate AnyStop(events: seq<Event>)
  {
    exists i :: 0 <= i < |events| && IsStop(events[i])
  }

  predicate AnyStart(events: seq<Event>)
  {
    exists i :: 0 <= i < |events| && IsStart(events[i])
  }

  /** The characters `str.rstrip()` removes: space, tab, newline, vertical tab, form feed, carriage return. */
  predicate IsSpace(c: char)
  {
    c == ' ' || 9 <= c as int <= 13
  }

  /** `line.rstrip()`: the longest prefix of `line` not ending in white space. */
  function RStrip(line: string): (r: string)
    ensures |r| <= |line| && r == line[..|r|]
    ensures forall i :: |r| <= i < |line| ==> IsSpace(line[i])
    ensures r == [] || !IsSpace(r[|r| - 1])
    decreases |line|
  {
    if line != [] && IsSpace(line[|line| - 1]) then RStrip(line[..|line| - 1]) else line
  }

  /**
   * serial_listener's handling of one line: `d` posts the button event, `r`
   * (the board saying it is ready) is only logged, anything else is ignored.
   */
  function SerialEvent(line: string): (e: Option<Event>)
    ensures e.Some? <==> RStrip(line) == "d"
    ensures e.Some? ==> e.value == UserEvent(ButtonPressed)
  {
    var command := RStrip(line);
    if command == "d" then Some(UserEvent(ButtonPressed))
    // `r` (the board reporting it is ready) is only logged; anything else is ignored
    else None
  }

  /** A `d` followed by any line ending or trailing blanks presses the button. */
  lemma {:induction false} ButtonLine(trailing: string)
    requires forall i :: 0 <= i < |trailing| ==> IsSpace(trailing[i])
    ensures SerialEvent("d" + trailing) == Some(UserEvent(ButtonPressed))
    ensures IsStart(SerialEvent("d" + trailing).value)
    decreases |trailing|
  {
    if trailing != [] {
      var shorter := trailing[..|trailing| - 1];
      assert ("d" + trailing)[..|"d" + trailing| - 1] == "d" + shorter;
      ButtonLine(shorter);
    }
  }

  /** Every event the serial listener posts starts a session and none stops the main loop. */
  lemma SerialOnlyStarts(line: string)
    ensures SerialEvent(line).Some? ==> IsStart(SerialEvent(line).value)
    ensures SerialEvent(line).Some? ==> !IsStop(SerialEvent(line).value)
  {
  }
}
