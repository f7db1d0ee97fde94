# Countdown timer state machine

A model of the single screen of the CountdownTimer Android app
(`MainActivity`): the user sets a duration in minutes, starts, pauses and
resets a countdown, and the timer survives the app being stopped and started
again through a snapshot in the preference store.

The state is the four fields of `MainActivity`: the configured duration
(`mStartTimeInMillis`), the time left (`mTimeLeftInMillis`), the running flag
(`mTimerRunning`) and the wall-clock time at which the countdown ends
(`mEndTime`). Besides those, the screen shows a countdown text and a set of
controls whose visibility and caption depend on the state.

Modules:

- `JavaArith` (java_arith.dfy): Java `long` and `int` arithmetic on Dafny's
  unbounded integers. It covers wrap-around modulo 2^64 and 2^32 and the
  truncating `/` and `%`.
- `Clock` (clock.dfy): `updateCountDownText`. It splits the milliseconds left
  into hours, minutes and seconds and renders `H:MM:SS` or `MM:SS`. A parser
  reads a label back as the partner of the renderer.
- `Buttons` (buttons.dfy): `updateButtons`, as a pure decision that maps the
  state and the controls shown before to the controls shown after.
- `Timer` (timer.dfy): the four fields as a value, and every transition as a
  function. It also holds the Set-button validation, the preference-store
  snapshot (`onStop`) and the restore (`onStart`), with the lemmas that relate
  them.
- `Screen` (screen.dfy): the class `CountdownScreen`. It has the four fields,
  the text and the controls, and one method per handler. Each method updates
  the fields in place and is proved against the matching `Timer` function.
- `Wrappers` (wrappers.dfy): `Option` and `Result`.

The wall clock (`System.currentTimeMillis()`) is a parameter. `onStart` reads
it twice, once to recompute the time left and once inside `startTimer`, so it
takes two readings, `now` and `restartNow`. The tick value `millisUntilFinished`
is a parameter of `Tick`, and no assumption is made about the values the
platform delivers or when it delivers them. The preference store is a
`map<string, Pref>` that is passed in and handed back.

The model follows the code where the code's own messages and comments say
something else:

- The refusal notice asks for "a positive number" (MainActivity.java:63), but
  Set refuses only a duration whose milliseconds are zero (MainActivity.java:61).
  A negative number of minutes is accepted.
- The comment in `updateButtons` calls the duration "our maximum time"
  (MainActivity.java:200), but nothing keeps the time left at or below it. A tick
  stores whatever the platform reports (MainActivity.java:116).
- Reset does not cancel the platform countdown (MainActivity.java:145-151). The
  minutes field is hidden while the timer runs (MainActivity.java:180), but the
  Set button is not, and a Set then does not stop the countdown.
- When `onStart` resumes a running timer, the text still shows the saved time
  left, because it is rendered before the time left is recomputed
  (MainActivity.java:255,261).
- When the saved timer was stopped, `onStart` does not read the end time back.
  `mEndTime` keeps whatever value the field held.
- The label is computed with the `(int)` cast of MainActivity.java:155-157. The
  screen shows that label, including its overflow (see Findings).

## Model

| member | source | states |
|---|---|---|
| `JavaArith.Long` | app/src/main/java/com/neilzbohr/countdowntimer/MainActivity.java:109 | the `long` Java stores for an exact result is in range, equals the result when the result fits, and differs from it by whole turns of 2^64 |
| `JavaArith.Int` | app/src/main/java/com/neilzbohr/countdowntimer/MainActivity.java:155-157 | the `(int)` cast gives an `int`, keeps a value that fits, and differs from the `long` by whole turns of 2^32 |
| `JavaArith.Quot` | app/src/main/java/com/neilzbohr/countdowntimer/MainActivity.java:155-157 | Java's `/` truncates toward zero: for a non-negative dividend the quotient is the largest multiple not above it, for a negative one the smallest multiple not below it, and the quotient has the dividend's sign |
| `JavaArith.Rem` | app/src/main/java/com/neilzbohr/countdowntimer/MainActivity.java:155-157 | Java's `%` is below the divisor in magnitude, has the dividend's sign, and is no larger in magnitude than the dividend |
| `JavaArith.QuotRem` | app/src/main/java/com/neilzbohr/countdowntimer/MainActivity.java:155-157 | Java's truncating division law: quotient times divisor plus remainder is the dividend, and the remainder is below the divisor and has the dividend's sign |
| `JavaArith.LongPeriodic` | app/src/main/java/com/neilzbohr/countdowntimer/MainActivity.java:261 | adding whole turns of 2^64 does not change the stored `long` |
| `JavaArith.LongAddWrapped` | app/src/main/java/com/neilzbohr/countdowntimer/MainActivity.java:261-272 | adding to a wrapped intermediate `long` stores the same value as adding to the exact result, so `restartNow + (end - now)` stores `end + (restartNow - now)` whatever wrapping happens |
| `Clock.Digits` | app/src/main/java/com/neilzbohr/countdowntimer/MainActivity.java:162-168 | the `%d` digits of a natural number are decimal digits; there is one for a number below 10 and two for a number from 10 to 99 |
| `Clock.Decimal` | app/src/main/java/com/neilzbohr/countdowntimer/MainActivity.java:162-163 | `%d` starts with a minus sign exactly for a negative number, and its digits read back as the number's magnitude |
| `Clock.Pad2` | app/src/main/java/com/neilzbohr/countdowntimer/MainActivity.java:162-168 | `%02d` is at least two characters, starts with a minus sign exactly for a negative number, reads back as a non-negative number, and is exactly two digits exactly for 0 to 99 |
| `Clock.ValueOfDigits` | app/src/main/java/com/neilzbohr/countdowntimer/MainActivity.java:162-163 | reading the rendered digits back gives the number |
| `Clock.Pad2Field` | app/src/main/java/com/neilzbohr/countdowntimer/MainActivity.java:162-168 | `%02d` of a field from 0 to 99 is exactly two digits that read back as the field |
| `Clock.QuotRemUnique` | app/src/main/java/com/neilzbohr/countdowntimer/MainActivity.java:156-157 | a quotient and remainder with the remainder below the divisor and of the dividend's sign are Java's quotient and remainder |
| `Clock.Split` | app/src/main/java/com/neilzbohr/countdowntimer/MainActivity.java:155-157 | hours*3600 + minutes*60 + seconds equals the whole seconds left; minutes and seconds are within (-60, 60) and take the sign of the time left; the hour count is positive exactly when one hour or more is left |
| `Clock.SplitAsWritten` | app/src/main/java/com/neilzbohr/countdowntimer/MainActivity.java:155-157 | the split with the `(int)` casts keeps minutes and seconds within (-60, 60), and equals the intended split while the whole seconds fit in an `int` |
| `Clock.Text` | app/src/main/java/com/neilzbohr/countdowntimer/MainActivity.java:159-170 | for a time left from 0 up, the intended label is the five-character `MM:SS` exactly below one hour |
| `Clock.TextAsWritten` | app/src/main/java/com/neilzbohr/countdowntimer/MainActivity.java:153-170 | the label as `updateCountDownText` computes it equals the intended label while the whole seconds fit in an `int` |
| `Clock.TextAsWrittenOverflows` | app/src/main/java/com/neilzbohr/countdowntimer/MainActivity.java:155-170 | for 35791395 minutes the label as written is "15:-16", while the intended one is "596523:15:00" |
| `Clock.OverflowSplits` | app/src/main/java/com/neilzbohr/countdowntimer/MainActivity.java:155-157 | for 35791395 minutes the narrowed split is -596523 h, 15 min, -16 s, while the intended split is 596523 h, 15 min, 0 s |
| `Clock.ParseShort` | app/src/main/java/com/neilzbohr/countdowntimer/MainActivity.java:167-168 | an `MM:SS` text reads back as minutes*60 + seconds |
| `Clock.ParseLong` | app/src/main/java/com/neilzbohr/countdowntimer/MainActivity.java:162-163 | an `H:MM:SS` text reads back as hours*3600 + minutes*60 + seconds |
| `Clock.ParseRender` | app/src/main/java/com/neilzbohr/countdowntimer/MainActivity.java:159-170 | a rendered non-negative split is 5 characters without hours and at least 7 with hours, and it reads back as its seconds |
| `Clock.ParseText_Text` | app/src/main/java/com/neilzbohr/countdowntimer/MainActivity.java:153-170 | for any time left from 0 up, the intended label reads back as the whole seconds left (ms / 1000) |
| `Buttons.ForState` | app/src/main/java/com/neilzbohr/countdowntimer/MainActivity.java:176-210 | the caption is "Pause" exactly when running; the minutes field is visible exactly when stopped; Reset is hidden while running; while running the Start/Pause visibility is left as it was; while stopped Start/Pause is visible iff at least 1000 ms are left and Reset is visible iff the time left is below the duration |
| `Buttons.ForStateOverwrites` | app/src/main/java/com/neilzbohr/countdowntimer/MainActivity.java:255-272 | a second `updateButtons` replaces the first one's effect unless a stopped state is followed by a running one |
| `Timer.Duration` | app/src/main/java/com/neilzbohr/countdowntimer/MainActivity.java:52-65 | an empty field is refused as empty and nothing else is; an accepted duration is a nonzero `long` |
| `Timer.DurationOfMinutes` | app/src/main/java/com/neilzbohr/countdowntimer/MainActivity.java:59-65 | without overflow, m minutes is accepted as m*60000 ms exactly when m is not zero, negative m included |
| `Timer.DurationWrapsToZero` | app/src/main/java/com/neilzbohr/countdowntimer/MainActivity.java:59-65 | 2^59 minutes wraps around to 0 ms and is refused as not positive |
| `Timer.SetTime` | app/src/main/java/com/neilzbohr/countdowntimer/MainActivity.java:100-103 | the duration and the time left both become the given milliseconds; running and the end are unchanged; a `long` input keeps the state valid |
| `Timer.SetClick` | app/src/main/java/com/neilzbohr/countdowntimer/MainActivity.java:48-71 | a refused entry leaves the state as it was; an accepted one makes the duration and the time left both the nonzero accepted value; running and the end never change |
| `Timer.Reset` | app/src/main/java/com/neilzbohr/countdowntimer/MainActivity.java:145-151 | the time left becomes the duration; nothing else changes |
| `Timer.Start` | app/src/main/java/com/neilzbohr/countdowntimer/MainActivity.java:107-136 | the timer runs and its end is the `long` of now plus the time left; the duration and the time left are unchanged |
| `Timer.Pause` | app/src/main/java/com/neilzbohr/countdowntimer/MainActivity.java:138-143 | the timer stops; the duration, the time left and the end are unchanged |
| `Timer.StartPause` | app/src/main/java/com/neilzbohr/countdowntimer/MainActivity.java:73-87 | the running flag flips; the duration and the time left never change, and pausing keeps the end |
| `Timer.Tick` | app/src/main/java/com/neilzbohr/countdowntimer/MainActivity.java:114-120 | the time left becomes the reported value; nothing else changes |
| `Timer.Finish` | app/src/main/java/com/neilzbohr/countdowntimer/MainActivity.java:122-129 | the timer stops and the time left is not zeroed; nothing else changes |
| `Timer.ResetAfterSet` | app/src/main/java/com/neilzbohr/countdowntimer/MainActivity.java:100-103 | after an accepted Set, both the duration and the time left are the new duration, and a Reset changes nothing |
| `Timer.StartRecordsEnd` | app/src/main/java/com/neilzbohr/countdowntimer/MainActivity.java:107-136 | Start sets the end to now plus the time left (without overflow) and sets running; the time left and the duration are unchanged |
| `Timer.PauseThenStart` | app/src/main/java/com/neilzbohr/countdowntimer/MainActivity.java:77-84 | pressing Start/Pause twice on a running timer keeps the time left and moves the end to now plus that time |
| `Timer.Snapshot` | app/src/main/java/com/neilzbohr/countdowntimer/MainActivity.java:230-235 | the four keys hold the four fields (longs for the duration, the time left and the end, a boolean for running), the result is well typed, and every other key is kept |
| `Timer.Restored` | app/src/main/java/com/neilzbohr/countdowntimer/MainActivity.java:249-273 | restoring from a well-typed store leaves every field a `long` |
| `Timer.Resume` | app/src/main/java/com/neilzbohr/countdowntimer/MainActivity.java:258-273 | the running branch keeps the duration, leaves the timer running exactly when the saved end minus `now` is not negative, and keeps every field a `long` |
| `Timer.RestoreDefaults` | app/src/main/java/com/neilzbohr/countdowntimer/MainActivity.java:249-252 | on an empty store, the duration and the time left are 600000 ms, the timer is stopped and the end field is unchanged |
| `Timer.RestoreStopped` | app/src/main/java/com/neilzbohr/countdowntimer/MainActivity.java:222-256 | a stopped timer snapshotted and then restored comes back equal |
| `Timer.RestoreRunning` | app/src/main/java/com/neilzbohr/countdowntimer/MainActivity.java:258-273 | a running timer comes back with its duration. Its time left is end - now. If that is negative it is 0, stopped, with the saved end; otherwise it runs with the end moved by `restartNow - now` (as a `long`), which is the saved end when the two readings coincide |
| `Timer.ResumeBeforeEnd` | app/src/main/java/com/neilzbohr/countdowntimer/MainActivity.java:258-273 | started at t0, saved, and resumed at now before the end: the time left is the time left at start minus (now - t0), and the timer runs with its end moved by the time between the two clock readings |
| `Timer.ResumeAfterEnd` | app/src/main/java/com/neilzbohr/countdowntimer/MainActivity.java:263-269 | started at t0, saved, and resumed after the end: the time left is 0 and the timer is stopped |
| `Screen.CountdownScreen.constructor` | app/src/main/java/com/neilzbohr/countdowntimer/MainActivity.java:30-34 | the fields start at Java's zero defaults; the text and controls are the layout's |
| `Screen.CountdownScreen.UpdateCountDownText` | app/src/main/java/com/neilzbohr/countdowntimer/MainActivity.java:153-174 | the text becomes the label for the time left as the code computes it, `(int)` cast included |
| `Screen.CountdownScreen.UpdateButtons` | app/src/main/java/com/neilzbohr/countdowntimer/MainActivity.java:176-210 | the controls become `ForState` of the fields and the previous controls |
| `Screen.CountdownScreen.ResetTimer` | app/src/main/java/com/neilzbohr/countdowntimer/MainActivity.java:145-151 | the time left becomes the duration; the duration, the running flag and the end are unchanged; the text shows the as-written label of the duration and the controls are refreshed (also the Reset button's handler) |
| `Screen.CountdownScreen.SetTime` | app/src/main/java/com/neilzbohr/countdowntimer/MainActivity.java:100-105 | the duration and the time left become the given milliseconds; the running flag and the end are unchanged; the text shows their as-written label |
| `Screen.CountdownScreen.SetClick` | app/src/main/java/com/neilzbohr/countdowntimer/MainActivity.java:48-71 | an empty or zero entry is refused with its notice and the object is unchanged; otherwise the duration is set as by `SetTime` |
| `Screen.CountdownScreen.StartTimer` | app/src/main/java/com/neilzbohr/countdowntimer/MainActivity.java:107-136 | the end becomes now + time left (as a `long`) and the timer runs; the time left and the duration are unchanged |
| `Screen.CountdownScreen.PauseTimer` | app/src/main/java/com/neilzbohr/countdowntimer/MainActivity.java:138-143 | the timer stops and the time left is frozen |
| `Screen.CountdownScreen.StartPauseClick` | app/src/main/java/com/neilzbohr/countdowntimer/MainActivity.java:73-87 | a running timer pauses; a stopped one starts |
| `Screen.CountdownScreen.Tick` | app/src/main/java/com/neilzbohr/countdowntimer/MainActivity.java:113-120 | the time left becomes the reported value and nothing else in the state changes; the text shows its as-written label |
| `Screen.CountdownScreen.Finish` | app/src/main/java/com/neilzbohr/countdowntimer/MainActivity.java:122-129 | the timer stops and the time left is not zeroed |
| `Screen.CountdownScreen.OnStop` | app/src/main/java/com/neilzbohr/countdowntimer/MainActivity.java:222-241 | the store handed back is the snapshot of the four fields, and it is well typed |
| `Screen.CountdownScreen.OnStart` | app/src/main/java/com/neilzbohr/countdowntimer/MainActivity.java:243-276 | the fields become `Restored` of the store, the two clock readings and the old end. The text shows the as-written label of the saved time left, or of the final one when the timer did not resume. The controls match the restored state |
| `Screen.CountdownScreen.ResumeTimer` | app/src/main/java/com/neilzbohr/countdowntimer/MainActivity.java:258-273 | the running branch of `onStart`: the fields become `Resume` of the saved end and the two clock readings; a timer past its end shows the label of 0, and the controls match the new state |

## Findings

| source | as written | input that shows it | evidently intended | confidence | as-written member | corrected member |
|---|---|---|---|---|---|---|
| app/src/main/java/com/neilzbohr/countdowntimer/MainActivity.java:155-157 | `(int)` narrows the whole seconds left before the hours and the seconds are taken | a duration of 35791395 minutes (2147483700000 ms) is shown as "15:-16" | "596523:15:00", with the split done in `long` arithmetic | not executed; follows from Java's narrowing conversion | `Clock.TextAsWrittenOverflows` | `Clock.ParseText_Text` |

`Clock.TextAsWritten` models the code as written, and it is the text
`CountdownScreen` shows. `Clock.Text` is the corrected label, with the split in
`long` arithmetic. `Clock.ParseText_Text` proves that it reads back as the whole
seconds left. The two labels agree whenever the whole seconds left fit in an
`int` (the contract of `Clock.TextAsWritten`).

## Left out

- Android widgets (`EditText`, `TextView`, `Button`), `Toast` and `closeKeyboard`. Visibility and captions are values in `Controls`. A Toast is the `Refusal` that `SetClick` returns, and `Timer.Notice` gives its message. Clearing the minutes field after an accepted Set is the `None` result.
- `android.os.CountDownTimer`: scheduling and cancellation are platform code. `pauseTimer` and `onStop` cancel a countdown; that effect is not modelled. `Tick` and `Finish` can be called at any time with any `long`.
- `Long.parseLong` throws on non-numeric or out-of-range text, and the app then crashes. The entry is an `Entry` (empty, or a `long` number of minutes), and `WellFormed` excludes the crash.
- `SharedPreferences`: the store is a map. A key holding a value of the wrong kind throws `ClassCastException` in `getLong`/`getBoolean`, and `Typed` excludes that. The asynchronous `apply()` is taken as immediate.
- `onCreate`: it only binds widgets. The layout's initial text and controls are constructor parameters, because the layout file is not part of this model.
- `Locale.getDefault()` digit localisation: the digits are ASCII.
- Timer.StartRecordsEnd: states `end == now + left` only when that sum fits a `long`. `Timer.Start` itself models the wrap-around.
- Timer.DurationOfMinutes: states the exact product only for minute counts whose milliseconds fit a `long`. `Timer.Duration` models the wrap-around, and `Timer.DurationWrapsToZero` shows one consequence.
- Timer.ResumeBeforeEnd: assumes the start, the end and the moved end fit a `long`.
- Timer.ResumeAfterEnd: assumes that `end - now` does not wrap around.
- Clock.ParseText_Text: is stated for a time left of 0 or more. The split of a negative time left, which a negative Set can produce, is covered only by `Clock.Split`.
