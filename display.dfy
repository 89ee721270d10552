/** The integer part of one frame of the clock face: the tick-mark angles,
    the displayed hour (24- or 12-hour), the minute, the three hand angles
    and the digital time text.  Angles are in degrees; the +90 offset turns
    the zero direction of the drawing helper so that 12 o'clock points up. */
module Display {
  import opened ClockArith
  import opened TimeText

  /** `seconds / SECONDS_IN_HOUR`: the hour of day, rounded down. */
  function RawHour(s: nat): (h: nat)
    ensures h * SECONDS_IN_HOUR <= s < (h + 1) * SECONDS_IN_HOUR
    ensures InDay(s) ==> h < 24
  {
    s / SECONDS_IN_HOUR
  }

  /** The hour that is drawn and printed.  In 12-hour mode hour 0 shows as
      12 and every other hour as its remainder modulo 12, so noon shows as 0. */
  function DisplayHour(s: nat, twelveHourTime: bool): (h: nat)
    ensures h % 12 == RawHour(s) % 12
    ensures !twelveHourTime ==> h == RawHour(s)
    ensures twelveHourTime ==> h <= 12 && (h == 12 <==> RawHour(s) == 0)
  {
    var hour := RawHour(s);
    if twelveHourTime then (if hour == 0 then 12 else hour % 12) else hour
  }

  /** `(seconds % SECONDS_IN_HOUR) / 60`: the minute within the hour. */
  function Minute(s: nat): (m: nat)
    ensures m < 60
    ensures m * SECONDS_IN_MINUTE <= s % SECONDS_IN_HOUR < (m + 1) * SECONDS_IN_MINUTE
  {
    (s % SECONDS_IN_HOUR) / SECONDS_IN_MINUTE
  }

  /** `seconds % 60`: the second within the minute. */
  function Second(s: nat): (sec: nat)
    ensures sec < 60
    ensures (s - sec) % SECONDS_IN_MINUTE == 0
  {
    s % SECONDS_IN_MINUTE
  }

  /** Hour hand angle for a displayed hour.  The `% 12` in it is redundant:
      30 degrees per hour turns a full circle every 12 hours. */
  function HourAngle(hour: nat): (a: nat)
    ensures a < 360 && a % 30 == 0
    ensures a == (90 + 30 * hour) % 360
  {
    (90 + (hour % 12) * 30) % 360
  }

  /** Minute hand angle: 6 degrees per minute. */
  function MinuteAngle(minute: nat): (a: nat)
    ensures a < 360 && a % 6 == 0
    ensures minute % 5 == 0 ==> a == HourAngle(minute / 5)
  {
    (90 + minute * 6) % 360
  }

  /** Second hand angle, computed from the whole seconds of the day: the
      same as from the second within the minute, since 60 * 6 == 360. */
  function SecondAngle(s: nat): (a: nat)
    ensures a < 360 && a % 6 == 0
    ensures a == (90 + Second(s) * 6) % 360
  {
    SecondAngleReduces(s);
    (90 + s * 6) % 360
  }

  lemma SecondAngleReduces(s: nat)
    ensures (90 + s * 6) % 360 == (90 + (s % 60) * 6) % 360
  {
    var q := s / 60;
    assert s == q * 60 + s % 60;
    assert 90 + s * 6 == (90 + (s % 60) * 6) + q * 360;
    ModAddMultiple(90 + (s % 60) * 6, q, 360);
  }

  function HourHandAngle(s: nat, twelveHourTime: bool): nat {
    HourAngle(DisplayHour(s, twelveHourTime))
  }

  function MinuteHandAngle(s: nat): nat {
    MinuteAngle(Minute(s))
  }

  /** The numbers printed in the digital overlay. */
  function TimeFields(s: nat, twelveHourTime: bool): Fields {
    Fields(DisplayHour(s, twelveHourTime), Minute(s), Second(s))
  }

  /** The overlay text: the three fields printed with `%02d:%02d:%02d` into
      a buffer with room for the terminator, read back as a C string. */
  function TimeString(s: nat, twelveHourTime: bool): (text: seq<char>)
    requires InDay(s)
    ensures |text| == 8
    ensures Parse(text) == Some(TimeFields(s, twelveHourTime))
  {
    var f := TimeFields(s, twelveHourTime);
    TimeStringFits(f);
    FormatThenParse(f);
    ReadCString(SprintfInto(TIME_STRING_CAPACITY, Format(f)).value)
  }

  /** Everything `drawClock` computes from the clock state before drawing. */
  datatype Face = Face(hourAngle: nat, minuteAngle: nat, secondAngle: nat, text: seq<char>)

  function ClockFace(s: nat, twelveHourTime: bool): (face: Face)
    requires InDay(s)
    ensures face.hourAngle < 360 && face.minuteAngle < 360 && face.secondAngle < 360
    ensures face.hourAngle % 30 == 0 && face.minuteAngle % 6 == 0 && face.secondAngle % 6 == 0
    ensures |face.text| == 8 && Parse(face.text) == Some(TimeFields(s, twelveHourTime))
  {
    Face(HourHandAngle(s, twelveHourTime), MinuteHandAngle(s),
         SecondAngle(s), TimeString(s, twelveHourTime))
  }

  /** The seconds of the day decompose into the hour, minute and second shown
      in 24-hour mode. */
  lemma TimeDecomposition(s: nat)
    ensures s == RawHour(s) * SECONDS_IN_HOUR + Minute(s) * SECONDS_IN_MINUTE + Second(s)
  {
    var h, r := s / SECONDS_IN_HOUR, s % SECONDS_IN_HOUR;
    assert s == h * SECONDS_IN_HOUR + r;
    assert r == Minute(s) * SECONDS_IN_MINUTE + r % SECONDS_IN_MINUTE;
    assert s - r % SECONDS_IN_MINUTE == (h * 60 + Minute(s)) * SECONDS_IN_MINUTE;
    assert Second(s) == r % SECONDS_IN_MINUTE by {
      ModAddMultiple(r % SECONDS_IN_MINUTE, h * 60 + Minute(s), SECONDS_IN_MINUTE);
    }
  }

  /** Within a day the 24-hour hour is below 24 and the 12-hour one at most 12. */
  lemma DisplayHourRange(s: nat, twelveHourTime: bool)
    requires InDay(s)
    ensures DisplayHour(s, twelveHourTime) < (if twelveHourTime then 13 else 24)
  {
  }

  /** The 12-hour mapping at its edges: midnight shows 12, noon shows 0 and
      one in the afternoon shows 1; 24-hour mode shows the raw hour. */
  lemma DisplayHourExamples()
    ensures DisplayHour(0, true) == 12
    ensures DisplayHour(12 * SECONDS_IN_HOUR, true) == 0
    ensures DisplayHour(13 * SECONDS_IN_HOUR, true) == 1
    ensures DisplayHour(23 * SECONDS_IN_HOUR + 3599, false) == 23
  {
  }

  /** The hour hand does not depend on the display mode. */
  lemma HourHandIgnoresMode(s: nat)
    ensures HourHandAngle(s, true) == HourHandAngle(s, false)
  {
  }

  /** The hour hand is periodic in the seconds of the day, with period one day. */
  lemma HourHandPeriodic(s: nat, twelveHourTime: bool)
    ensures HourHandAngle(s + SECONDS_IN_DAY, twelveHourTime) == HourHandAngle(s, twelveHourTime)
  {
    var h, h' := RawHour(s), RawHour(s + SECONDS_IN_DAY);
    assert h' == h + 24;
    assert h' % 12 == h % 12;
  }

  /** The minute hand is periodic in the seconds of the day, with period one day. */
  lemma MinuteHandPeriodic(s: nat)
    ensures MinuteHandAngle(s + SECONDS_IN_DAY) == MinuteHandAngle(s)
  {
    var q := s / SECONDS_IN_HOUR;
    assert s == q * SECONDS_IN_HOUR + s % SECONDS_IN_HOUR;
    assert s + SECONDS_IN_DAY == (q + 24) * SECONDS_IN_HOUR + s % SECONDS_IN_HOUR;
    assert (s + SECONDS_IN_DAY) % SECONDS_IN_HOUR == s % SECONDS_IN_HOUR;
  }

  /** The second hand is periodic in the seconds of the day, with period one day. */
  lemma SecondHandPeriodic(s: nat)
    ensures SecondAngle(s + SECONDS_IN_DAY) == SecondAngle(s)
  {
    ModAddMultiple(s, 24 * 60, SECONDS_IN_MINUTE);
    assert Second(s + SECONDS_IN_DAY) == Second(s);
  }

  /** Switching the display mode moves no hand: only the text changes. */
  lemma ModeMovesNoHand(s: nat, twelveHourTime: bool)
    requires InDay(s)
    ensures ClockFace(s, twelveHourTime).hourAngle == ClockFace(s, !twelveHourTime).hourAngle
    ensures ClockFace(s, twelveHourTime).minuteAngle == ClockFace(s, !twelveHourTime).minuteAngle
    ensures ClockFace(s, twelveHourTime).secondAngle == ClockFace(s, !twelveHourTime).secondAngle
  {
    HourHandIgnoresMode(s);
  }

  /** Distinct minutes of an hour put the minute hand at distinct angles. */
  lemma MinuteAngleInjective(m1: nat, m2: nat)
    requires m1 < 60 && m2 < 60
    ensures MinuteAngle(m1) == MinuteAngle(m2) ==> m1 == m2
  {
  }

  /** The tick-mark loop of `drawClock`: the angles it draws, in order. */
  method TickMarkAngles() returns (angles: seq<nat>)
    ensures |angles| == 12
    ensures forall i :: 0 <= i < |angles| ==> angles[i] == 30 * i
  {
    angles := [];
    var angle := 0;
    while angle < 360
      invariant 0 <= angle <= 360 && angle % 30 == 0
      invariant |angles| == angle / 30
      invariant forall i :: 0 <= i < |angles| ==> angles[i] == 30 * i
    {
      angles := angles + [angle];
      angle := angle + 30;
    }
  }

  /** Every hour hand position lies on one of the twelve tick marks. */
  lemma HourHandOnTickMark(hour: nat)
    ensures exists i :: 0 <= i < 12 && HourAngle(hour) == 30 * i
  {
    var a := HourAngle(hour);
    assert a == 30 * (a / 30);
  }
}
