/** The application's global state and its three timer callbacks, as one
    object.  Each callback runs to completion before the next one starts,
    so each method is one atomic step on the fields; Controls and Display
    give the specification each method is proved against. */
module ClockApp {
  import opened ClockArith
  import Controls
  import Display
  import TimeText

  class Clock {
    var seconds: int
    var twelveHourTime: bool
    var keepRunning: bool
    var leftComboHeld: bool
    var rightComboHeld: bool

    ghost predicate Valid()
      reads this
    {
      Controls.Valid(State())
    }

    /** The fields as one value. */
    function State(): Controls.ClockValue
      reads this
    {
      Controls.ClockValue(seconds, twelveHourTime, keepRunning, leftComboHeld, rightComboHeld)
    }

    /** The initial values of the globals. */
    constructor ()
      ensures Valid() && State() == Controls.Initial
    {
      seconds := 12 * 60 * 60;
      twelveHourTime := false;
      keepRunning := true;
      leftComboHeld := false;
      rightComboHeld := false;
    }

    /** `updateClock`: one second later; always asks to be rescheduled. */
    method UpdateClock() returns (reschedule: bool)
      requires Valid()
      modifies this
      ensures Valid()
      ensures State() == Controls.TickState(old(State()))
      ensures reschedule
    {
      seconds := (seconds + 1) % SECONDS_IN_DAY;
      reschedule := true;
    }

    /** `checkButtons`: one poll of the buttons, whose readings are `b`. */
    method CheckButtons(b: Controls.Buttons) returns (reschedule: bool)
      requires Valid()
      modifies this
      ensures Valid()
      ensures State() == Controls.Poll(old(State()), b)
      ensures old(!keepRunning) ==> !keepRunning
      ensures reschedule
    {
      RepeatButtons(b);
      ComboButtons(b);
      reschedule := true;
    }

    /** The first half of a poll: the auto-repeat adjustments, in source order. */
    method RepeatButtons(b: Controls.Buttons)
      requires Valid()
      modifies this`seconds
      ensures Valid()
      ensures seconds == Controls.AdjustSeconds(old(seconds), b)
    {
      var xState, yState, aState, bState := b.xRead, b.yRead, b.aRead, b.bRead;
      if yState && !xState {
        seconds := (seconds - SECONDS_IN_MINUTE + SECONDS_IN_DAY) % SECONDS_IN_DAY;
      }
      if aState && !bState {
        seconds := (seconds + SECONDS_IN_HOUR) % SECONDS_IN_DAY;
      }
      if bState && !aState {
        seconds := (seconds - SECONDS_IN_HOUR + SECONDS_IN_DAY) % SECONDS_IN_DAY;
      }
      if xState && !yState {
        seconds := (seconds + SECONDS_IN_MINUTE) % SECONDS_IN_DAY;
      }
    }

    /** The second half of a poll: shutdown, then the right and left chords. */
    method ComboButtons(b: Controls.Buttons)
      requires Valid()
      modifies this
      ensures Valid()
      ensures State() == Controls.ApplyCombos(old(State()), b)
    {
      var leftComboPressed := b.aRaw && b.bRaw;
      var rightComboPressed := b.xRaw && b.yRaw;
      if leftComboPressed && rightComboPressed {
        keepRunning := false;
      }
      if rightComboPressed {
        if !rightComboHeld {
          seconds := seconds - seconds % SECONDS_IN_MINUTE;
          rightComboHeld := true;
        }
      } else {
        rightComboHeld := false;
      }
      if leftComboPressed {
        if !leftComboHeld {
          twelveHourTime := !twelveHourTime;
          leftComboHeld := true;
        }
      } else {
        leftComboHeld := false;
      }
    }

    /** The integer work of `drawClock`: the tick-mark angles and the face
        (hand angles and overlay text) handed to the drawing routines.  It
        changes no field. */
    method DrawClock() returns (ticks: seq<nat>, face: Display.Face, reschedule: bool)
      requires Valid()
      ensures |ticks| == 12 && forall i :: 0 <= i < 12 ==> ticks[i] == 30 * i
      ensures face == Display.ClockFace(seconds, twelveHourTime)
      ensures reschedule
    {
      ticks := Display.TickMarkAngles();

      var hour := seconds / SECONDS_IN_HOUR;
      if twelveHourTime {
        hour := if hour == 0 then 12 else hour % 12;
      }
      assert hour == Display.DisplayHour(seconds, twelveHourTime);
      var hourAngle := (90 + (hour % 12) * 30) % 360;
      assert hourAngle == Display.HourHandAngle(seconds, twelveHourTime);
      var minute := (seconds % SECONDS_IN_HOUR) / SECONDS_IN_MINUTE;
      assert minute == Display.Minute(seconds);
      var minuteAngle := (90 + minute * 6) % 360;
      assert minuteAngle == Display.MinuteHandAngle(seconds);
      var secondAngle := (90 + seconds * 6) % 360;
      assert secondAngle == Display.SecondAngle(seconds);

      var fields := TimeText.Fields(hour, minute, seconds % SECONDS_IN_MINUTE);
      assert fields == Display.TimeFields(seconds, twelveHourTime);
      var text := TimeText.Format(fields);
      TimeText.TimeStringFits(fields);
      var buffer := TimeText.SprintfInto(TimeText.TIME_STRING_CAPACITY, text);
      var timeString := TimeText.ReadCString(buffer.value);
      assert timeString == Display.TimeString(seconds, twelveHourTime);

      face := Display.Face(hourAngle, minuteAngle, secondAngle, timeString);
      reschedule := true;
    }
  }

  /** At start-up the program runs with both chords released, and the first
      frame shows 12:00:00 with all three hands pointing straight up. */
  lemma InitialFace()
    ensures Controls.Valid(Controls.Initial)
    ensures Controls.Initial.keepRunning
    ensures !Controls.Initial.leftComboHeld && !Controls.Initial.rightComboHeld
    ensures Display.ClockFace(Controls.Initial.seconds, Controls.Initial.twelveHourTime).hourAngle == 90
    ensures Display.ClockFace(Controls.Initial.seconds, Controls.Initial.twelveHourTime).minuteAngle == 90
    ensures Display.ClockFace(Controls.Initial.seconds, Controls.Initial.twelveHourTime).secondAngle == 90
    ensures Display.ClockFace(Controls.Initial.seconds, Controls.Initial.twelveHourTime).text == "12:00:00"
  {
    var s := 12 * SECONDS_IN_HOUR;
    assert Display.RawHour(s) == 12 && Display.Minute(s) == 0 && Display.Second(s) == 0;
    assert Display.SecondAngle(s) == 90;
    var text := Display.ClockFace(s, false).text;
    TimeText.ParseThenFormat(text);
    TimeText.TwoDigits(12);
    TimeText.TwoDigits(0);
  }
}
