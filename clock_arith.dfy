/** Seconds-since-midnight arithmetic of the clock: the day length, the
    one-second tick, the four repeat adjustments and the snap to the start
    of the minute.  Every stored time value lies in [0, SECONDS_IN_DAY). */
module ClockArith {

  const SECONDS_IN_MINUTE: nat := 60
  const SECONDS_IN_HOUR: nat := 60 * 60
  const SECONDS_IN_DAY: nat := 24 * SECONDS_IN_HOUR

  /** The range every stored time of day is kept in. */
  predicate InDay(s: int) {
    0 <= s < SECONDS_IN_DAY
  }

  /** Reference definition: the time of day `d` seconds after `s`
      (`d` may be negative), taken modulo one day. */
  function Shift(s: int, d: int): (r: int)
    ensures InDay(r)
  {
    (s + d) % SECONDS_IN_DAY
  }

  /** One timer tick: one second later, wrapping at midnight. */
  function Tick(s: int): (r: int)
    requires InDay(s)
    ensures InDay(r)
    ensures r == if s == SECONDS_IN_DAY - 1 then 0 else s + 1
  {
    (s + 1) % SECONDS_IN_DAY
  }

  /** Button Y: one minute earlier.  The day is added before the remainder,
      so the C remainder never sees a negative operand. */
  function MinuteBack(s: int): (r: int)
    requires InDay(s)
    ensures InDay(r)
    ensures r == if s >= SECONDS_IN_MINUTE then s - SECONDS_IN_MINUTE
                 else s - SECONDS_IN_MINUTE + SECONDS_IN_DAY
  {
    (s - SECONDS_IN_MINUTE + SECONDS_IN_DAY) % SECONDS_IN_DAY
  }

  /** Button X: one minute later. */
  function MinuteForward(s: int): (r: int)
    requires InDay(s)
    ensures InDay(r)
    ensures r == if s + SECONDS_IN_MINUTE < SECONDS_IN_DAY then s + SECONDS_IN_MINUTE
                 else s + SECONDS_IN_MINUTE - SECONDS_IN_DAY
  {
    (s + SECONDS_IN_MINUTE) % SECONDS_IN_DAY
  }

  /** Button A: one hour later. */
  function HourForward(s: int): (r: int)
    requires InDay(s)
    ensures InDay(r)
    ensures r == if s + SECONDS_IN_HOUR < SECONDS_IN_DAY then s + SECONDS_IN_HOUR
                 else s + SECONDS_IN_HOUR - SECONDS_IN_DAY
  {
    (s + SECONDS_IN_HOUR) % SECONDS_IN_DAY
  }

  /** Button B: one hour earlier. */
  function HourBack(s: int): (r: int)
    requires InDay(s)
    ensures InDay(r)
    ensures r == if s >= SECONDS_IN_HOUR then s - SECONDS_IN_HOUR
                 else s - SECONDS_IN_HOUR + SECONDS_IN_DAY
  {
    (s - SECONDS_IN_HOUR + SECONDS_IN_DAY) % SECONDS_IN_DAY
  }

  /** Right chord: back to the start of the current minute.  The result is
      the largest multiple of a minute that is not later than `s`. */
  function Snap(s: int): (r: int)
    requires InDay(s)
    ensures InDay(r)
    ensures r % SECONDS_IN_MINUTE == 0
    ensures r <= s < r + SECONDS_IN_MINUTE
  {
    s - s % SECONDS_IN_MINUTE
  }

  /** `n` consecutive ticks. */
  function TickN(s: int, n: nat): (r: int)
    requires InDay(s)
    ensures InDay(r)
    decreases n
  {
    if n == 0 then s else Tick(TickN(s, n - 1))
  }

  /** Shifting twice is shifting by the sum. */
  lemma ShiftCompose(s: int, a: int, b: int)
    ensures Shift(Shift(s, a), b) == Shift(s, a + b)
  {
    var q := (s + a) / SECONDS_IN_DAY;
    assert Shift(s, a) == s + a - q * SECONDS_IN_DAY;
    ModAddMultiple(s + a + b, -q, SECONDS_IN_DAY);
  }

  /** Adding a whole number of periods `m` does not change a remainder modulo `m`. */
  lemma ModAddMultiple(x: int, k: int, m: int)
    requires m > 0
    ensures (x + k * m) % m == x % m
  {
    var q := x / m;
    assert x == q * m + x % m;
    assert x + k * m == (q + k) * m + x % m;
    DivModUnique(x + k * m, q + k, x % m, m);
  }

  /** Euclidean division has one quotient and one remainder. */
  lemma DivModUnique(y: int, q: int, r: int, m: int)
    requires m > 0 && 0 <= r < m && y == q * m + r
    ensures y % m == r
  {
    var q0, r0 := y / m, y % m;
    assert y == q0 * m + r0;
    assert (q0 - q) * m == r - r0;
    if q0 > q {
      MulAtLeast(q0 - q, m);
    } else if q0 < q {
      MulAtLeast(q - q0, m);
    }
  }

  lemma {:induction false} MulAtLeast(d: int, m: int)
    requires d >= 1 && m > 0
    ensures d * m >= m
    decreases d
  {
    if d > 1 {
      MulAtLeast(d - 1, m);
      assert d * m == (d - 1) * m + m;
    }
  }

  /** Each one-step operation is a shift by a fixed offset. */
  lemma StepsAreShifts(s: int)
    requires InDay(s)
    ensures Tick(s) == Shift(s, 1)
    ensures MinuteBack(s) == Shift(s, -(SECONDS_IN_MINUTE as int))
    ensures MinuteForward(s) == Shift(s, SECONDS_IN_MINUTE)
    ensures HourForward(s) == Shift(s, SECONDS_IN_HOUR)
    ensures HourBack(s) == Shift(s, -(SECONDS_IN_HOUR as int))
  {
  }

  /** The minute and hour adjustments undo each other. */
  lemma AdjustmentsInvert(s: int)
    requires InDay(s)
    ensures MinuteBack(MinuteForward(s)) == s && MinuteForward(MinuteBack(s)) == s
    ensures HourBack(HourForward(s)) == s && HourForward(HourBack(s)) == s
  {
  }

  /** `n` ticks move the time of day `n` seconds forward, modulo the day. */
  lemma {:induction false} TickNIsShift(s: int, n: nat)
    requires InDay(s)
    ensures TickN(s, n) == Shift(s, n)
    decreases n
  {
    if n == 0 {
      assert Shift(s, 0) == s;
    } else {
      TickNIsShift(s, n - 1);
      StepsAreShifts(TickN(s, n - 1));
      ShiftCompose(s, n - 1, 1);
    }
  }

  /** Any whole number of days of ticks returns to the starting time. */
  lemma WholeDaysOfTicks(s: int, days: nat)
    requires InDay(s)
    ensures TickN(s, days * SECONDS_IN_DAY) == s
  {
    TickNIsShift(s, days * SECONDS_IN_DAY);
    ModAddMultiple(s, days, SECONDS_IN_DAY);
  }

  /** Snapping an already snapped time changes nothing. */
  lemma SnapIdempotent(s: int)
    requires InDay(s)
    ensures Snap(Snap(s)) == Snap(s)
  {
  }

  /** The boundary cases of each operation. */
  lemma BoundaryExamples()
    ensures Tick(86399) == 0
    ensures MinuteBack(0) == 86340
    ensures HourForward(82800) == 0
    ensures HourBack(0) == 82800
    ensures MinuteForward(86399) == 59
    ensures Snap(3661) == 3660
  {
  }
}
