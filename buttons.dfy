/** What `updateButtons` shows: the visibility of the minutes field, of the
    Start/Pause button and of the Reset button, and the Start/Pause label. */
module Buttons {

  datatype Visibility = Visible | Invisible

  datatype Controls = Controls(input: Visibility, startPause: Visibility, reset: Visibility, caption: string)

  const START_LABEL: string := "Start"
  const PAUSE_LABEL: string := "Pause"

  /** A second is the least time left that can be started. */
  const MIN_STARTABLE_MILLIS: int := 1000

  /** The controls `updateButtons` leaves on screen, given the timer state and the
      controls shown before.  While the timer runs, entering minutes and resetting
      are hidden and the button offers to pause; the Start/Pause button's
      visibility is left as it was.  While it is stopped, minutes can be entered,
      Start is offered only with a second or more left, and Reset only when some
      of the configured duration has been used. */
  function ForState(running: bool, left: int, start: int, prev: Controls): (c: Controls)
    ensures Agrees(running, c)
    ensures running ==> c.startPause == prev.startPause
    ensures !running ==> (c.startPause == Visible <==> left >= MIN_STARTABLE_MILLIS)
    ensures !running ==> (c.reset == Visible <==> left < start)
  {
    if running then
      Controls(Invisible, prev.startPause, Invisible, PAUSE_LABEL)
    else
      Controls(
        Visible,
        if left < MIN_STARTABLE_MILLIS then Invisible else Visible,
        if left < start then Visible else Invisible,
        START_LABEL)
  }

  /** The controls match the running flag: the label names the action the button
      performs, minutes can be entered only while stopped, and Reset is never
      offered while running. */
  predicate Agrees(running: bool, c: Controls)
  {
    && c.caption == (if running then PAUSE_LABEL else START_LABEL)
    && (c.input == Visible <==> !running)
    && (running ==> c.reset == Invisible)
  }

  /** Showing the controls twice leaves what the second call shows, except that a
      running second call keeps the first call's Start/Pause visibility; the two
      agree unless a stopped state is followed by a running one. */
  lemma ForStateOverwrites(r1: bool, l1: int, s1: int, r2: bool, l2: int, s2: int, c: Controls)
    requires r1 || !r2
    ensures ForState(r2, l2, s2, ForState(r1, l1, s1, c)) == ForState(r2, l2, s2, c)
  {
  }
}
