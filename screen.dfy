/** The countdown screen (`MainActivity`) without its widgets: the four timer
    fields the handlers update in place, the countdown text on display and the
    controls on display.  The clock reading and the tick value the platform
    countdown delivers are parameters; the preference store is a map passed in
    and handed back. */
module Screen {
  import opened JavaArith
  import opened Wrappers
  import Clock
  import opened Buttons
  import opened Timer

  class CountdownScreen {
    var startTime: int   // mStartTimeInMillis
    var timeLeft: int    // mTimeLeftInMillis
    var running: bool    // mTimerRunning
    var endTime: int     // mEndTime
    var text: string     // the countdown TextView's text
    var controls: Controls

    /** Every timer field holds a Java `long`. */
    ghost predicate Valid()
      reads this
    {
      Timer.Valid(State())
    }

    ghost function State(): TimerState
      reads this
    {
      TimerState(startTime, timeLeft, running, endTime)
    }

    /** A new screen: Java's zero defaults for the fields, and the text and controls
        the layout starts with. */
    constructor (layoutText: string, layoutControls: Controls)
      ensures Valid() && State() == TimerState(0, 0, false, 0)
      ensures text == layoutText && controls == layoutControls
    {
      startTime, timeLeft, running, endTime := 0, 0, false, 0;
      text, controls := layoutText, layoutControls;
    }

    /** `updateCountDownText`, with its `(int)` cast of the whole seconds. */
    method UpdateCountDownText()
      modifies this`text
      ensures text == Clock.TextAsWritten(timeLeft)
    {
      text := Clock.TextAsWritten(timeLeft);
    }

    /** `updateButtons`. */
    method UpdateButtons()
      modifies this`controls
      ensures controls == ForState(running, timeLeft, startTime, old(controls))
    {
      var c := controls;
      if running {
        c := c.(input := Invisible, reset := Invisible, caption := PAUSE_LABEL);
      } else {
        c := c.(input := Visible, reset := Visible, caption := START_LABEL);
        if timeLeft < MIN_STARTABLE_MILLIS {
          c := c.(startPause := Invisible);
        } else {
          c := c.(startPause := Visible);
        }
        if timeLeft < startTime {
          c := c.(reset := Visible);
        } else {
          c := c.(reset := Invisible);
        }
      }
      controls := c;
    }

    /** `resetTimer`: the time left goes back to the configured duration. */
    method ResetTimer()
      requires Valid()
      modifies this`timeLeft, this`text, this`controls
      ensures Valid() && State() == Reset(old(State()))
      ensures text == Clock.TextAsWritten(startTime)
      ensures controls == ForState(running, timeLeft, startTime, old(controls))
    {
      timeLeft := startTime;
      UpdateCountDownText();
      UpdateButtons();
    }

    /** `setTime`: a new duration, and a reset to it. */
    method SetTime(ms: int)
      requires Valid() && IsLong(ms)
      modifies this`startTime, this`timeLeft, this`text, this`controls
      ensures Valid() && State() == Timer.SetTime(old(State()), ms)
      ensures text == Clock.TextAsWritten(ms)
      ensures controls == ForState(running, ms, ms, old(controls))
    {
      startTime := ms;
      ResetTimer();
    }

    /** The Set button: the entry is refused with a notice when empty or zero;
        otherwise it becomes the duration and the field is cleared. */
    method SetClick(e: Entry) returns (refusal: Option<Refusal>)
      requires Valid() && WellFormed(e)
      modifies this`startTime, this`timeLeft, this`text, this`controls
      ensures Valid() && State() == Timer.SetClick(old(State()), e)
      ensures refusal == (if Duration(e).Err? then Some(Duration(e).error) else None)
      ensures refusal.Some? ==> unchanged(this)
      ensures refusal.None? ==> text == Clock.TextAsWritten(startTime)
      ensures refusal.None? ==> controls == ForState(running, timeLeft, startTime, old(controls))
    {
      if e.Blank? {
        return Some(EmptyField);
      }
      var millisInput := Long(e.m * MINUTE_MILLIS);
      if millisInput == 0 {
        return Some(NotPositive);
      }
      SetTime(millisInput);
      refusal := None;
    }

    /** `startTimer`: the end is now plus the time left, and the timer runs. */
    method StartTimer(now: int)
      requires Valid()
      modifies this`endTime, this`running, this`controls
      ensures Valid() && State() == Start(old(State()), now)
      ensures controls == ForState(true, timeLeft, startTime, old(controls))
    {
      endTime := Long(now + timeLeft);
      running := true;
      UpdateButtons();
    }

    /** `pauseTimer`: the timer stops with its time left frozen. */
    method PauseTimer()
      requires Valid()
      modifies this`running, this`controls
      ensures Valid() && State() == Pause(old(State()))
      ensures controls == ForState(false, timeLeft, startTime, old(controls))
    {
      running := false;
      UpdateButtons();
    }

    /** The Start/Pause button. */
    method StartPauseClick(now: int)
      requires Valid()
      modifies this`endTime, this`running, this`controls
      ensures Valid() && State() == StartPause(old(State()), now)
      ensures controls == ForState(running, timeLeft, startTime, old(controls))
    {
      if running {
        PauseTimer();
      } else {
        StartTimer(now);
      }
    }

    /** `onTick(millisUntilFinished)`: the time left is what the platform reports. */
    method Tick(millisUntilFinished: int)
      requires Valid() && IsLong(millisUntilFinished)
      modifies this`timeLeft, this`text
      ensures Valid() && State() == Timer.Tick(old(State()), millisUntilFinished)
      ensures text == Clock.TextAsWritten(millisUntilFinished)
    {
      timeLeft := millisUntilFinished;
      UpdateCountDownText();
    }

    /** `onFinish`: the timer stops; the time left is not zeroed. */
    method Finish()
      requires Valid()
      modifies this`running, this`controls
      ensures Valid() && State() == Timer.Finish(old(State()))
      ensures controls == ForState(false, timeLeft, startTime, old(controls))
    {
      running := false;
      UpdateButtons();
    }

    /** `onStop`: the four fields saved to the preference store. */
    method OnStop(prefs: Prefs) returns (saved: Prefs)
      requires Valid()
      ensures saved == Snapshot(prefs, State())
      ensures Typed(saved)
    {
      saved := prefs[START_KEY := LongPref(startTime)];
      saved := saved[LEFT_KEY := LongPref(timeLeft)];
      saved := saved[RUNNING_KEY := BoolPref(running)];
      saved := saved[END_KEY := LongPref(endTime)];
    }

    /** `onStart`: the fields read back from the preference store.  The clock is
        read twice: `now` for the time left and `restartNow` inside `startTimer`.
        The text shows the saved time left (a resumed timer's recomputed time
        appears with the next tick), and the controls match the restored state. */
    method OnStart(prefs: Prefs, now: int, restartNow: int)
      requires Valid() && Typed(prefs)
      modifies this
      ensures Valid() && State() == Restored(prefs, now, restartNow, old(endTime))
      ensures text == Clock.TextAsWritten(if running then GetLong(prefs, LEFT_KEY, startTime) else timeLeft)
      ensures controls == ForState(running, timeLeft, startTime, old(controls))
    {
      startTime := GetLong(prefs, START_KEY, DEFAULT_START);
      timeLeft := GetLong(prefs, LEFT_KEY, startTime);
      running := GetBool(prefs, RUNNING_KEY, false);
      ghost var shown := controls;

      UpdateCountDownText();
      UpdateButtons();
      ghost var first := State();

      if running {
        ResumeTimer(GetLong(prefs, END_KEY, 0), now, restartNow);
        ForStateOverwrites(first.running, first.left, first.start, running, timeLeft, startTime, shown);
      }
    }

    /** The running branch of `onStart`: the saved end is taken back, the time
        left recomputed from it, and the timer either stopped at zero (with the
        text and controls updated) or started again. */
    method ResumeTimer(savedEnd: int, now: int, restartNow: int)
      requires Valid() && IsLong(savedEnd)
      modifies this`endTime, this`timeLeft, this`running, this`text, this`controls
      ensures Valid() && State() == Resume(startTime, savedEnd, now, restartNow)
      ensures running ==> text == old(text)
      ensures !running ==> text == Clock.TextAsWritten(0)
      ensures controls == ForState(running, timeLeft, startTime, old(controls))
    {
      endTime := savedEnd;
      timeLeft := Long(endTime - now);
      if timeLeft < 0 {
        timeLeft := 0;
        running := false;
        UpdateCountDownText();
        UpdateButtons();
      } else {
        StartTimer(restartNow);
      }
    }
  }
}
