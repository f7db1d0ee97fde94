/** The countdown timer's state machine, on values: the four fields of
    `MainActivity` (`mStartTimeInMillis`, `mTimeLeftInMillis`, `mTimerRunning`,
    `mEndTime`), the transitions the user actions and the platform countdown make
    on them, and the snapshot written to and read back from the preference store.
    The wall clock (`System.currentTimeMillis()`) is the parameter `now`. */
module Timer {
  import opened JavaArith
  import opened Wrappers

  datatype TimerState = TimerState(start: int, left: int, running: bool, end: int)

  /** Every field holds a Java `long`. */
  predicate Valid(s: TimerState)
  {
    IsLong(s.start) && IsLong(s.left) && IsLong(s.end)
  }

  // ---------------------------------------------------------------------------
  // Setting the duration

  const MINUTE_MILLIS: int := 60000

  /** The largest number of minutes whose milliseconds fit in a `long`. */
  const MAX_MINUTES: int := LONG_MAX / MINUTE_MILLIS

  /** The minutes field: empty, or holding the `long` that `Long.parseLong` reads. */
  datatype Entry = Blank | Minutes(m: int)

  predicate WellFormed(e: Entry)
  {
    e.Minutes? ==> IsLong(e.m)
  }

  /** Why the Set button refused the entry. */
  datatype Refusal = EmptyField | NotPositive

  function Notice(r: Refusal): string
  {
    match r
    case EmptyField => "Field can't be empty"
    case NotPositive => "Please enter a positive number"
  }

  /** The duration the Set button takes from the minutes field: the minutes times
      60000 in `long` arithmetic, refused when the field is empty or that product
      is zero. */
  function Duration(e: Entry): (r: Result<int, Refusal>)
    requires WellFormed(e)
    ensures r == Err(EmptyField) <==> e.Blank?
    ensures r.Ok? ==> IsLong(r.value) && r.value != 0
  {
    match e
    case Blank => Err(EmptyField)
    case Minutes(m) =>
      var ms := Long(m * MINUTE_MILLIS);
      if ms == 0 then Err(NotPositive) else Ok(ms)
  }

  /** Without overflow, only zero minutes is refused; negative minutes are taken. */
  lemma DurationOfMinutes(m: int)
    requires -MAX_MINUTES <= m <= MAX_MINUTES
    ensures Duration(Minutes(m)) == if m == 0 then Err(NotPositive) else Ok(m * MINUTE_MILLIS)
  {
  }

  /** 2^59 minutes wraps around to zero milliseconds and is refused as not positive. */
  lemma DurationWrapsToZero()
    ensures Duration(Minutes(0x800_0000_0000_0000)) == Err(NotPositive)
  {
  }

  // ---------------------------------------------------------------------------
  // Transitions

  /** `setTime` followed by its `resetTimer`: the duration and the time left both
      become `ms`; whether it runs and its end are untouched. */
  function SetTime(s: TimerState, ms: int): (r: TimerState)
    ensures r.start == ms && r.left == ms
    ensures r.running == s.running && r.end == s.end
    ensures Valid(s) && IsLong(ms) ==> Valid(r)
  {
    s.(start := ms, left := ms)
  }

  /** The Set button: the duration when accepted, otherwise nothing changes. */
  function SetClick(s: TimerState, e: Entry): (r: TimerState)
    requires WellFormed(e)
    ensures Duration(e).Err? ==> r == s
    ensures Duration(e).Ok? ==> r.start == r.left == Duration(e).value && r.start != 0
    ensures r.running == s.running && r.end == s.end
    ensures Valid(s) ==> Valid(r)
  {
    match Duration(e)
    case Ok(ms) => SetTime(s, ms)
    case Err(_) => s
  }

  /** `resetTimer`: the time left is the duration again; nothing else changes. */
  function Reset(s: TimerState): (r: TimerState)
    ensures r.left == r.start == s.start
    ensures r.running == s.running && r.end == s.end
    ensures Valid(s) ==> Valid(r)
  {
    s.(left := s.start)
  }

  /** `startTimer`: record when the countdown will end (now plus the time left, as
      a `long`) and mark it running; the duration and the time left are kept. */
  function Start(s: TimerState, now: int): (r: TimerState)
    ensures r.running && IsLong(r.end) && r.end == Long(now + s.left)
    ensures r.start == s.start && r.left == s.left
    ensures Valid(s) ==> Valid(r)
  {
    s.(end := Long(now + s.left), running := true)
  }

  /** `pauseTimer`: stopped, with everything else kept. */
  function Pause(s: TimerState): (r: TimerState)
    ensures !r.running
    ensures r.start == s.start && r.left == s.left && r.end == s.end
  {
    s.(running := false)
  }

  /** The Start/Pause button: flips whether the timer runs and never touches the
      duration or the time left. */
  function StartPause(s: TimerState, now: int): (r: TimerState)
    ensures r.running == !s.running
    ensures r.start == s.start && r.left == s.left
    ensures s.running ==> r.end == s.end
    ensures Valid(s) ==> Valid(r)
  {
    if s.running then Pause(s) else Start(s, now)
  }

  /** `onTick(millisUntilFinished)`: the time left is what the countdown reports. */
  function Tick(s: TimerState, millisUntilFinished: int): (r: TimerState)
    ensures r.left == millisUntilFinished
    ensures r.start == s.start && r.running == s.running && r.end == s.end
    ensures Valid(s) && IsLong(millisUntilFinished) ==> Valid(r)
  {
    s.(left := millisUntilFinished)
  }

  /** `onFinish`: stops, leaving the time left as the last tick set it. */
  function Finish(s: TimerState): (r: TimerState)
    ensures !r.running
    ensures r.start == s.start && r.left == s.left && r.end == s.end
  {
    s.(running := false)
  }

  /** Setting a duration and then resetting leaves that duration as the time left. */
  lemma ResetAfterSet(s: TimerState, e: Entry)
    requires WellFormed(e) && Duration(e).Ok?
    ensures Reset(SetClick(s, e)) == SetClick(s, e)
    ensures SetClick(s, e).left == SetClick(s, e).start == Duration(e).value
  {
  }

  /** Starting records the end as now plus the time left, when that fits a `long`. */
  lemma StartRecordsEnd(s: TimerState, now: int)
    requires IsLong(now + s.left)
    ensures Start(s, now).end == now + s.left
    ensures Start(s, now).running && Start(s, now).left == s.left && Start(s, now).start == s.start
  {
  }

  /** Pausing and starting again keeps the time left and moves the end to now plus it. */
  lemma PauseThenStart(s: TimerState, now: int)
    requires s.running
    ensures StartPause(StartPause(s, now), now) == Start(s, now)
    ensures StartPause(StartPause(s, now), now).left == s.left
  {
  }

  // ---------------------------------------------------------------------------
  // The preference store

  datatype Pref = LongPref(l: int) | BoolPref(b: bool)

  type Prefs = map<string, Pref>

  const START_KEY: string := "startTimeInMillis"
  const LEFT_KEY: string := "millisLeft"
  const RUNNING_KEY: string := "timerRunning"
  const END_KEY: string := "endTime"

  /** The duration used when nothing was saved: ten minutes. */
  const DEFAULT_START: int := 600000

  predicate HoldsLong(p: Prefs, k: string)
  {
    k in p ==> p[k].LongPref? && IsLong(p[k].l)
  }

  /** Each key this screen uses holds the kind of value it reads back. */
  predicate Typed(p: Prefs)
  {
    && HoldsLong(p, START_KEY)
    && HoldsLong(p, LEFT_KEY)
    && HoldsLong(p, END_KEY)
    && (RUNNING_KEY in p ==> p[RUNNING_KEY].BoolPref?)
  }

  /** `getLong(k, def)`. */
  function GetLong(p: Prefs, k: string, def: int): int
    requires HoldsLong(p, k)
  {
    if k in p then p[k].l else def
  }

  /** `getBoolean(k, def)`. */
  function GetBool(p: Prefs, k: string, def: bool): bool
    requires k in p ==> p[k].BoolPref?
  {
    if k in p then p[k].b else def
  }

  /** `onStop`: the four fields written under their keys; other keys are kept. */
  function Snapshot(p: Prefs, s: TimerState): (q: Prefs)
    ensures Valid(s) ==> Typed(q)
    ensures q.Keys == p.Keys + {START_KEY, LEFT_KEY, RUNNING_KEY, END_KEY}
    ensures q[START_KEY] == LongPref(s.start) && q[LEFT_KEY] == LongPref(s.left)
    ensures q[RUNNING_KEY] == BoolPref(s.running) && q[END_KEY] == LongPref(s.end)
    ensures forall k :: k in p && k !in {START_KEY, LEFT_KEY, RUNNING_KEY, END_KEY} ==> q[k] == p[k]
  {
    p[START_KEY := LongPref(s.start)]
     [LEFT_KEY := LongPref(s.left)]
     [RUNNING_KEY := BoolPref(s.running)]
     [END_KEY := LongPref(s.end)]
  }

  /** `onStart`: the fields read back with their defaults.  The end time is read
      only for a running timer, so a stopped one keeps the field's `end`; a running
      one is resumed from its saved end. */
  function Restored(p: Prefs, now: int, restartNow: int, end: int): (r: TimerState)
    requires Typed(p)
    ensures IsLong(end) ==> Valid(r)
  {
    var start := GetLong(p, START_KEY, DEFAULT_START);
    var left := GetLong(p, LEFT_KEY, start);
    var running := GetBool(p, RUNNING_KEY, false);
    if !running then TimerState(start, left, false, end)
    else Resume(start, GetLong(p, END_KEY, 0), now, restartNow)
  }

  /** The running branch of `onStart`: the time left is the saved end minus the
      clock reading `now`; when that is negative the timer stops at zero, otherwise
      `startTimer` starts it again with its own clock reading `restartNow`. */
  function Resume(start: int, savedEnd: int, now: int, restartNow: int): (r: TimerState)
    ensures r.start == start
    ensures r.running <==> Long(savedEnd - now) >= 0
    ensures IsLong(start) && IsLong(savedEnd) ==> Valid(r)
  {
    var left := Long(savedEnd - now);
    if left < 0 then TimerState(start, 0, false, savedEnd)
    else Start(TimerState(start, left, true, savedEnd), restartNow)
  }

  /** On first launch the timer is stopped with ten minutes set and left. */
  lemma RestoreDefaults(now: int, restartNow: int, end: int)
    ensures Restored(map[], now, restartNow, end) == TimerState(DEFAULT_START, DEFAULT_START, false, end)
  {
  }

  /** A stopped timer comes back exactly as it was saved. */
  lemma RestoreStopped(p: Prefs, s: TimerState, now: int, restartNow: int)
    requires Valid(s) && !s.running
    ensures Restored(Snapshot(p, s), now, restartNow, s.end) == s
  {
  }

  /** A running timer comes back with its duration.  Its time left is the saved
      end minus `now`; if that is negative it stops at zero with the saved end,
      otherwise it runs again and its end is the saved end moved by the time
      between the two clock readings (unmoved when they coincide). */
  lemma RestoreRunning(p: Prefs, s: TimerState, now: int, restartNow: int, end: int)
    requires Valid(s) && s.running
    ensures Restored(Snapshot(p, s), now, restartNow, end).start == s.start
    ensures var r := Restored(Snapshot(p, s), now, restartNow, end);
      Long(s.end - now) < 0 ==> r.left == 0 && !r.running && r.end == s.end
    ensures var r := Restored(Snapshot(p, s), now, restartNow, end);
      Long(s.end - now) >= 0 ==>
        r.left == Long(s.end - now) && r.running && r.end == Long(s.end + (restartNow - now))
    ensures var r := Restored(Snapshot(p, s), now, restartNow, end);
      Long(s.end - now) >= 0 && restartNow == now ==> r.end == s.end
  {
    LongAddWrapped(restartNow, s.end - now);
    assert restartNow + (s.end - now) == s.end + (restartNow - now);
  }

  /** Started at `t0` and saved, then resumed at `now` before the end: the time
      left is what was left at the start less the time elapsed, and the timer runs
      with an end later by the time between the two readings of the clock. */
  lemma ResumeBeforeEnd(p: Prefs, s: TimerState, t0: int, now: int, restartNow: int, end: int)
    requires Valid(s) && IsLong(t0) && IsLong(t0 + s.left)
    requires t0 <= now <= t0 + s.left && IsLong(t0 + s.left + (restartNow - now))
    ensures Restored(Snapshot(p, Start(s, t0)), now, restartNow, end)
         == TimerState(s.start, s.left - (now - t0), true, t0 + s.left + (restartNow - now))
  {
    RestoreRunning(p, Start(s, t0), now, restartNow, end);
  }

  /** Started at `t0` and saved, then resumed after the end: the timer is stopped
      with no time left. */
  lemma ResumeAfterEnd(p: Prefs, s: TimerState, t0: int, now: int, restartNow: int, end: int)
    requires Valid(s) && IsLong(t0) && IsLong(t0 + s.left)
    requires t0 + s.left < now && IsLong(t0 + s.left - now)
    ensures Restored(Snapshot(p, Start(s, t0)), now, restartNow, end)
         == TimerState(s.start, 0, false, t0 + s.left)
  {
    RestoreRunning(p, Start(s, t0), now, restartNow, end);
  }
}
