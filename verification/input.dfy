/** wave.c's only input handling: its key callback asks the window to close
    when Escape is pressed. GLFW delivers queued key events to the callback,
    in order, during each `glfwPollEvents`. */
module Input {

  /** GLFW's key code for Escape and its action code for a press. */
  const KeyEscape: int := 256
  const ActionPress: int := 1

  /** The arguments GLFW passes to a key callback (besides the window). */
  datatype KeyEvent = KeyEvent(key: int, scancode: int, action: int, mods: int)

  /** The part of the window state the callback touches. */
  datatype Window = Window(shouldClose: bool)

  /** An event on which the callback requests closing. */
  predicate RequestsClose(e: KeyEvent)
  {
    e.key == KeyEscape && e.action == ActionPress
  }

  /** The key callback: set the close flag on an Escape press, otherwise do
      nothing. */
  function KeyCallback(window: Window, e: KeyEvent): (w': Window)
    ensures w'.shouldClose <==> window.shouldClose || RequestsClose(e)
    ensures !RequestsClose(e) ==> w' == window
  {
    if RequestsClose(e) then Window(true) else window
  }

  /** Delivers `events` to the callback in order, as one poll does. Once
      the window is marked for closing, no later event clears the mark. */
  function Deliver(window: Window, events: seq<KeyEvent>): (w': Window)
    ensures window.shouldClose ==> w' == window
    decreases |events|
  {
    if |events| == 0 then window else Deliver(KeyCallback(window, events[0]), events[1..])
  }

  /** After a run of events the window is marked for closing exactly when
      it already was or one of the events was an Escape press; scan codes,
      modifiers, releases, repeats and other keys never change the flag. */
  lemma {:induction false} DeliverCloses(window: Window, events: seq<KeyEvent>)
    ensures Deliver(window, events).shouldClose
      <==> window.shouldClose || exists j :: 0 <= j < |events| && RequestsClose(events[j])
    decreases |events|
  {
    if |events| > 0 {
      var next := KeyCallback(window, events[0]);
      DeliverCloses(next, events[1..]);
      if exists j :: 0 <= j < |events[1..]| && RequestsClose(events[1..][j]) {
        var j :| 0 <= j < |events[1..]| && RequestsClose(events[1..][j]);
        assert RequestsClose(events[j + 1]);
      }
      if exists j :: 0 <= j < |events| && RequestsClose(events[j]) {
        var j :| 0 <= j < |events| && RequestsClose(events[j]);
        if j > 0 {
          assert RequestsClose(events[1..][j - 1]);
        }
      }
    }
  }

  /** A run of events without an Escape press leaves the window as it was. */
  lemma {:induction false} DeliverOthersUnchanged(window: Window, events: seq<KeyEvent>)
    requires forall j :: 0 <= j < |events| ==> !RequestsClose(events[j])
    ensures Deliver(window, events) == window
    decreases |events|
  {
    if |events| > 0 {
      DeliverOthersUnchanged(window, events[1..]);
    }
  }
}
