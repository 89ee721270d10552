# pico-explorer-clock in Dafny

This project models the Pimoroni Pico Explorer analog clock (`src/main.cpp`).
The firmware keeps one time value: the seconds since midnight. It draws a
clock face with three hands and an `HH:MM:SS` overlay. The four buttons
adjust the time and switch between 12- and 24-hour display. Three
cooperative timer callbacks share the state:

- `updateClock` adds one second.
- `checkButtons` polls the buttons.
- `drawClock` renders the face.

The model has five modules:

- `ClockArith` (`clock_arith.dfy`): arithmetic modulo one day
  (`SECONDS_IN_DAY = 86400`). It covers the tick, the four ±60 s / ±3600 s
  adjustments and the snap to the start of the minute. The tick and the
  four adjustments are each a shift by a fixed offset under the reference
  definition `Shift(s, d) = (s + d) mod 86400` (`StepsAreShifts`). The snap
  gives the largest multiple of 60 that is not above `s`.
- `Controls` (`controls.dfy`): the shared globals as a value (`ClockValue`)
  and the readings of one poll (`Buttons`: the debounced `read()` and the
  raw `raw()` of A, B, X and Y). `Poll` specifies one `checkButtons` call
  and `TickState` one `updateClock` call. Lemmas cover single polls, runs of
  polls (`Polls`) and arbitrary interleavings of the three callbacks
  (`Run` over `Event`s).
- `Display` (`display.dfy`): the integer work of `drawClock`. It gives the
  displayed hour, the minute, the three hand angles and the overlay text, as
  functions of `seconds` and the mode. It also has the tick-mark loop as a
  method.
- `TimeText` (`time_text.dfy`): `%02d:%02d:%02d` formatting, a parser it
  round-trips with, and `sprintf` into a fixed-size character buffer.
- `ClockApp` (`clock_app.dfy`): the class `Clock`. Its fields are the
  globals `seconds`, `twelve_hour_time`, `keep_running`, `left_combo_held`
  and `right_combo_held`, with the invariant `0 <= seconds < 86400`. Each
  callback is one method, proved against the matching function in `Controls`
  or `Display`.

In 12-hour mode the code maps raw hour 0 to 12 and every other hour `h` to
`h % 12` (src/main.cpp:89), so noon (raw hour 12) is shown as `00`
(`DisplayHour`, `DisplayHourExamples`).

The display functions take any non-negative `seconds`, which is why the
hands can be stated periodic with period one day. The source never stores
a negative value, so C's truncating `/` and `%` agree with Dafny's there.
With values below 86400, `seconds * 6 + 90` stays far inside a 32-bit
`int`, so no overflow occurs and none is modelled.

## Model

| member | source | states |
|---|---|---|
| `ClockArith.Tick` | src/main.cpp:52-55 | stays in [0,86400); the result is s+1, except that 86399 wraps to 0 |
| `ClockArith.MinuteBack` | src/main.cpp:135-137 | stays in range; s−60, or s−60+86400 when s < 60 (0 becomes 86340) |
| `ClockArith.HourForward` | src/main.cpp:139-141 | stays in range; s+3600, or s+3600−86400 past the end of the day (82800 becomes 0) |
| `ClockArith.HourBack` | src/main.cpp:143-145 | stays in range; s−3600, or s−3600+86400 when s < 3600 |
| `ClockArith.MinuteForward` | src/main.cpp:147-149 | stays in range; s+60, or s+60−86400 past the end of the day |
| `ClockArith.Snap` | src/main.cpp:162 | stays in range; the result is a multiple of 60, is at most s, and is within 60 below s (the largest such multiple) |
| `ClockArith.StepsAreShifts` | src/main.cpp:52-149 | the tick is a shift by +1, and the four adjustments are shifts by −60, +3600, −3600 and +60 |
| `ClockArith.TickNIsShift` | src/main.cpp:52-55 | n ticks equal (s+n) mod 86400 |
| `ClockArith.WholeDaysOfTicks` | src/main.cpp:52-55 | k·86400 ticks return to the starting time |
| `ClockArith.AdjustmentsInvert` | src/main.cpp:135-149 | the minute steps undo each other, and so do the hour steps |
| `ClockArith.SnapIdempotent` | src/main.cpp:162 | snapping twice is snapping once |
| `ClockArith.BoundaryExamples` | src/main.cpp:52-164 | 86399 ticks to 0, 0 minus a minute is 86340, 82800 plus an hour is 0, 3661 snaps to 3660 |
| `Controls.ChordsUseRawReadings` | src/main.cpp:152-158 | a chord is pressed exactly when both of its raw readings are down (A+B left, X+Y right), whatever the debounced readings are; shutdown needs all four raw readings |
| `Controls.AdjustSeconds` | src/main.cpp:135-149 | the four repeat adjustments, in order Y, A, B, X, keep the time in range |
| `Controls.AdjustIsNetShift` | src/main.cpp:135-149 | the four adjustments together are one shift by the net offset, so order is irrelevant and opposite buttons cancel |
| `Controls.AdjustExamples` | src/main.cpp:135-149 | Y alone at 0 gives 86340, A alone at 82800 gives 0, B alone at 0 gives 82800, X alone at 86340 gives 0 |
| `Controls.OpposedButtonsCancel` | src/main.cpp:135-149 | holding X and Y disables the ±60 pair, holding A and B disables the ±3600 pair, and all four leave the time unchanged |
| `Controls.ApplyCombos` | src/main.cpp:151-178 | the chord half of a poll keeps the time in range |
| `Controls.Poll` | src/main.cpp:128-181 | one poll keeps the time in range |
| `Controls.TickState` | src/main.cpp:52-55 | one tick keeps the state valid |
| `Controls.LatchesFollowChords` | src/main.cpp:160-178 | after a poll, each latch is true exactly when its chord was pressed in that poll |
| `Controls.RightComboSnaps` | src/main.cpp:153-168 | on a rising edge of X+Y raw, the adjusted time is snapped to a multiple of 60 at most 59 s earlier, and the latch is set |
| `Controls.NoSnapWhileHeld` | src/main.cpp:160-168 | while the right latch is set, a poll only applies the adjustments |
| `Controls.RightComboSnapsExactly` | src/main.cpp:160-168 | a poll's new time is the snap of the adjusted time exactly on a rising edge of the right chord, and the adjusted time otherwise (chord up, or latch set) |
| `Controls.SnapExample` | src/main.cpp:162 | pressing the right chord at 3661 gives 3660 |
| `Controls.LeftComboToggles` | src/main.cpp:170-178 | the mode flips exactly when A+B raw is pressed while its latch is released |
| `Controls.ChordsIndependent` | src/main.cpp:152-178 | the new time depends on neither the left chord, its latch nor the mode; the new mode depends on neither the time nor the right chord |
| `Controls.PollKeepsRunning` | src/main.cpp:156-158 | after a poll, keep_running is the old value and-not all four raw buttons |
| `Controls.ShutdownPollDoesEverything` | src/main.cpp:128-181 | the four-button poll clears keep_running and still adjusts, snaps on a rising edge, toggles on a rising edge and sets both latches |
| `Controls.Polls` | src/main.cpp:128-181 | any run of polls keeps the time in range |
| `Controls.PollsLatch` | src/main.cpp:160-178 | after a run, each latch records its chord in the last poll |
| `Controls.SnapCountIsPresses` | src/main.cpp:160-168 | over any run, the polls whose guard fires, which by `RightComboSnapsExactly` are exactly the polls that snap the time, number the presses (rising edges) of the right chord |
| `Controls.ModeParity` | src/main.cpp:170-178 | after any run, the mode is the start mode flipped once per press of the left chord |
| `Controls.HoldingRightComboSnapsOnce` | src/main.cpp:160-168 | holding the right chord across any number of polls, from released, snaps exactly once |
| `Controls.HoldingRightComboTime` | src/main.cpp:160-168 | holding the right chord, with repeat readings whose net offset is zero, leaves the time at Snap(start) if it started released, and unchanged if it started held |
| `Controls.HoldingLeftComboTogglesOnce` | src/main.cpp:170-178 | holding the left chord across any number of polls, from released, toggles the mode exactly once |
| `Controls.ReleasingLeftCombo` | src/main.cpp:176-178 | polls with the left chord up keep the mode and reset its latch |
| `Controls.TwoPressesRestoreMode` | src/main.cpp:170-178 | press, release, press of the left chord restores the original mode |
| `Controls.RunningUntilShutdown` | src/main.cpp:156-158 | keep_running survives a run exactly when it was true and no poll had all four raw buttons down |
| `Controls.Step` | src/main.cpp:189-196 | each of the three callbacks, run atomically, keeps the state valid |
| `Controls.Run` | src/main.cpp:189-200 | every interleaving of ticks, frames and polls keeps the time in range |
| `Controls.ShutdownIsFinal` | src/main.cpp:124-181 | once keep_running is false, no sequence of callbacks makes it true again |
| `Controls.ModeChangesOnlyOnLeftPress` | src/main.cpp:170-178 | a callback changes the mode exactly when it is a poll on a rising edge of the left chord |
| `Controls.TicksAdvance` | src/main.cpp:52-55 | n ticks shift the time by n mod 86400 and change nothing else |
| `Display.RawHour` | src/main.cpp:87 | h·3600 ≤ s < (h+1)·3600, so h < 24 within a day |
| `Display.DisplayHour` | src/main.cpp:87-90 | the same hour mod 12 as the raw hour; equal to it in 24-hour mode; in 12-hour mode at most 12, and 12 exactly at raw hour 0 |
| `Display.Minute` | src/main.cpp:94 | below 60; m·60 ≤ s mod 3600 < (m+1)·60 |
| `Display.Second` | src/main.cpp:105 | below 60; s minus it is a multiple of 60 |
| `Display.HourAngle` | src/main.cpp:91 | in [0,360), a multiple of 30, equal to (90 + 30·hour) mod 360 (the `% 12` is redundant) |
| `Display.MinuteAngle` | src/main.cpp:95 | in [0,360), a multiple of 6; at minute 5k the hand lies on hour k's tick mark (the hour hand's angle for k) |
| `Display.MinuteAngleInjective` | src/main.cpp:94-95 | distinct minutes of an hour give distinct minute-hand angles |
| `Display.SecondAngle` | src/main.cpp:99 | in [0,360); computed from the whole seconds of the day, and equal to the angle of s mod 60 |
| `Display.TimeString` | src/main.cpp:104-105 | the overlay is 8 characters and parses back to (displayed hour, minute, s mod 60) |
| `Display.TimeDecomposition` | src/main.cpp:87-105 | s = hour·3600 + minute·60 + second |
| `Display.DisplayHourRange` | src/main.cpp:87-90 | within a day, the 24-hour hour is below 24 and the 12-hour one is at most 12 |
| `Display.DisplayHourExamples` | src/main.cpp:87-90 | in 12-hour mode, hour 0 shows 12, hour 12 shows 0, hour 13 shows 1; in 24-hour mode 23 shows 23 |
| `Display.HourHandIgnoresMode` | src/main.cpp:87-91 | the hour hand angle is the same in both modes |
| `Display.HourHandPeriodic` | src/main.cpp:87-91 | the hour hand angle has period 86400 in seconds |
| `Display.MinuteHandPeriodic` | src/main.cpp:94-95 | the minute hand angle has period 86400 in seconds |
| `Display.SecondHandPeriodic` | src/main.cpp:99 | the second hand angle has period 86400 in seconds |
| `Display.ModeMovesNoHand` | src/main.cpp:86-100 | switching between 12- and 24-hour mode changes none of the three hand angles |
| `Display.ClockFace` | src/main.cpp:86-105 | the hour angle is in [0,360) and a multiple of 30; the minute and second angles are in [0,360) and multiples of 6; the text is 8 characters and parses back to (displayed hour, minute, second) |
| `Display.TickMarkAngles` | src/main.cpp:77-79 | the loop visits exactly the 12 angles 0, 30, …, 330, in order |
| `Display.HourHandOnTickMark` | src/main.cpp:77-91 | every hour hand position coincides with one of the 12 tick marks |
| `TimeText.Decimal` | src/main.cpp:105 | decimal digits, at least one, one exactly below 10, at most two below 100, no leading zero |
| `TimeText.DecimalRoundTrip` | src/main.cpp:105 | the printed digits denote the number |
| `TimeText.ZeroPad2` | src/main.cpp:105 | `%02d` gives at least two digits, exactly two below 100 |
| `TimeText.ZeroPad2Value` | src/main.cpp:105 | zero padding keeps the printed value |
| `TimeText.Format` | src/main.cpp:105 | at least 8 characters, no NUL, and exactly 8 when every field is below 100 |
| `TimeText.FormatThenParse` | src/main.cpp:104-105 | fields below 100 survive format-then-parse |
| `TimeText.ParseThenFormat` | src/main.cpp:104-105 | every text that parses is the format of what it parses to |
| `TimeText.SprintfInto` | src/main.cpp:104-105 | sprintf fits exactly when the text is shorter than the buffer; it then writes the text followed by NUL |
| `TimeText.ReadCString` | src/main.cpp:106-117 | the C string read by measure_text and text is a NUL-free prefix of the buffer that ends at the first NUL, or at the end of the buffer when it has none |
| `TimeText.ReadBackWritten` | src/main.cpp:105-117 | a NUL-free text written with its terminator reads back unchanged |
| `TimeText.TimeStringOverflowsAsWritten` | src/main.cpp:104-105 | with `char[8]`, every time text overflows the buffer |
| `TimeText.TimeStringFits` | src/main.cpp:104-105 | with nine characters, the text fits and reads back as the formatted time |
| `ClockApp.Clock.constructor` | src/main.cpp:49-126 | initial state: seconds 43200, 24-hour mode, running, both latches released |
| `ClockApp.InitialFace` | src/main.cpp:49-126 | the initial globals form a valid state that is running with both latches released, and its first frame shows "12:00:00" with all three hands at angle 90 (straight up) |
| `ClockApp.Clock.UpdateClock` | src/main.cpp:52-55 | the new state is TickState of the old one, the invariant is kept, and it returns true |
| `ClockApp.Clock.CheckButtons` | src/main.cpp:128-181 | the new state is Poll of the old state and the readings; the invariant is kept, keep_running never returns to true, and it returns true |
| `ClockApp.Clock.RepeatButtons` | src/main.cpp:129-149 | the four in-place reassignments of seconds equal AdjustSeconds |
| `ClockApp.Clock.ComboButtons` | src/main.cpp:151-178 | the shutdown, snap and toggle branches and the latch updates equal ApplyCombos |
| `ClockApp.Clock.DrawClock` | src/main.cpp:65-122 | returns the 12 tick-mark angles and the face (hands and overlay text) of the current state, changes no field, and returns true |

## Findings

| source | as written | input that shows it | evidently intended | confidence | as-written member | corrected member |
|---|---|---|---|---|---|---|
| src/main.cpp:104-105 | `char time_string [8]` receives `sprintf("%02d:%02d:%02d", …)`: eight characters plus the terminating NUL, nine bytes in all | any time, e.g. seconds = 43200 gives "12:00:00" and its NUL, one byte past the buffer | a buffer of at least nine characters, so that the text and its terminator fit | high; not executed | `TimeText.TimeStringOverflowsAsWritten` | `TimeText.TimeStringFits` (used by `Display.TimeString` and `ClockApp.Clock.DrawClock`) |

## Left out

- Display driver and graphics calls (`clear`, `circle`, `line`, `rectangle`, `text`, `measure_text`, `set_pen`, `set_font`, `update`, `set_backlight`): these are foreign library calls. `DrawClock` returns the values it would pass to them.
- `drawFromCentre` and its floating-point trigonometry (`cos`, `sin`, `round`, `PI`): floating point. The model stops at the integer angle handed to it.
- The geometry constants derived with `round` (centre, radii, hand lengths) and the text box placement: they depend on the display size and on `measure_text`.
- The `Button` class (debouncing, and `read()` against `raw()`): each poll takes the eight readings as opaque booleans.
- Timer registration, the periods (1000, 100 and 50 ms), the sleep loop and the cancellation on exit (`main`): firmware scheduling. `Controls.Run` covers every order of atomic callbacks instead, and says nothing about timing.
- The out-of-bounds write itself: the model reports that `sprintf` into `char[8]` does not fit and does not model what the stray byte overwrites. The rest of the model uses a buffer with room for the terminator.
