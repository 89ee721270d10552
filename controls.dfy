/** The shared clock state as a value, and what each timer callback does to
    it: the one-second tick and one poll of the four buttons (repeat
    adjustments, the four-button shutdown, and the two edge-triggered chords
    with their held-latches).  The callbacks never interleave, so a run of
    the program is a sequence of these steps. */
module Controls {
  import opened ClockArith

  /** One poll's readings: the debounced `read()` and the instantaneous
      `raw()` of buttons A, B, X and Y. */
  datatype Buttons = Buttons(aRead: bool, bRead: bool, xRead: bool, yRead: bool,
                             aRaw: bool, bRaw: bool, xRaw: bool, yRaw: bool)

  /** The process-wide state: `seconds`, `twelve_hour_time`, `keep_running`,
      `left_combo_held` and `right_combo_held`. */
  datatype ClockValue = ClockValue(seconds: int, twelveHourTime: bool, keepRunning: bool,
                                   leftComboHeld: bool, rightComboHeld: bool)

  predicate Valid(c: ClockValue) {
    InDay(c.seconds)
  }

  /** The state at start-up: noon, 24-hour mode, running, both chords released. */
  const Initial: ClockValue := ClockValue(12 * SECONDS_IN_HOUR, false, true, false, false)

  /** The two chords: A with B on the left, X with Y on the right, raw readings. */
  datatype Chord = LeftCombo | RightCombo

  predicate ChordPressed(ch: Chord, b: Buttons) {
    match ch
    case LeftCombo => b.aRaw && b.bRaw
    case RightCombo => b.xRaw && b.yRaw
  }

  function ChordHeld(ch: Chord, c: ClockValue): bool {
    match ch
    case LeftCombo => c.leftComboHeld
    case RightCombo => c.rightComboHeld
  }

  /** All four raw buttons down: both chords at once. */
  predicate ShutdownPressed(b: Buttons) {
    ChordPressed(LeftCombo, b) && ChordPressed(RightCombo, b)
  }

  /** The chords and the shutdown read only the raw states: the debounced
      readings never press or release a chord, and all four raw buttons
      down is exactly both chords at once. */
  lemma ChordsUseRawReadings(ch: Chord, b: Buttons, aRead: bool, bRead: bool, xRead: bool, yRead: bool)
    ensures ChordPressed(ch, b)
            == ChordPressed(ch, b.(aRead := aRead, bRead := bRead, xRead := xRead, yRead := yRead))
    ensures ChordPressed(LeftCombo, b) <==> b.aRaw && b.bRaw
    ensures ChordPressed(RightCombo, b) <==> b.xRaw && b.yRaw
    ensures ShutdownPressed(b) <==> b.aRaw && b.bRaw && b.xRaw && b.yRaw
  {
  }

  /** A chord's action fires when it is pressed while its latch is released. */
  predicate Fires(held: bool, pressed: bool) {
    pressed && !held
  }

  /** The four auto-repeat adjustments, in source order Y, A, B, X; each is
      suppressed while its opposite button is also held. */
  function AdjustSeconds(s: int, b: Buttons): (r: int)
    requires InDay(s)
    ensures InDay(r)
  {
    var s1 := if b.yRead && !b.xRead then MinuteBack(s) else s;
    var s2 := if b.aRead && !b.bRead then HourForward(s1) else s1;
    var s3 := if b.bRead && !b.aRead then HourBack(s2) else s2;
    if b.xRead && !b.yRead then MinuteForward(s3) else s3
  }

  /** Independent reference for the adjustments: the net offset in seconds. */
  function NetOffset(b: Buttons): (d: int)
    ensures -((SECONDS_IN_HOUR + SECONDS_IN_MINUTE) as int) <= d <= SECONDS_IN_HOUR + SECONDS_IN_MINUTE
    ensures b.xRead == b.yRead ==> d % SECONDS_IN_HOUR == 0
    ensures b.aRead == b.bRead ==> -(SECONDS_IN_MINUTE as int) <= d <= SECONDS_IN_MINUTE
  {
    (if b.yRead && !b.xRead then -(SECONDS_IN_MINUTE as int) else 0)
    + (if b.aRead && !b.bRead then SECONDS_IN_HOUR else 0)
    - (if b.bRead && !b.aRead then SECONDS_IN_HOUR else 0)
    + (if b.xRead && !b.yRead then SECONDS_IN_MINUTE else 0)
  }

  /** The raw-chord half of a poll: shutdown on all four buttons, the snap on
      a rising edge of the right chord, the mode toggle on a rising edge of
      the left chord; each latch then records whether its chord is down. */
  function ApplyCombos(c: ClockValue, b: Buttons): (r: ClockValue)
    requires Valid(c)
    ensures Valid(r)
  {
    var left := ChordPressed(LeftCombo, b);
    var right := ChordPressed(RightCombo, b);
    ClockValue(
      seconds := if Fires(c.rightComboHeld, right) then Snap(c.seconds) else c.seconds,
      twelveHourTime := if Fires(c.leftComboHeld, left) then !c.twelveHourTime else c.twelveHourTime,
      keepRunning := c.keepRunning && !(left && right),
      leftComboHeld := left,
      rightComboHeld := right)
  }

  /** One `checkButtons` poll: the repeat adjustments, then the chords. */
  function Poll(c: ClockValue, b: Buttons): (r: ClockValue)
    requires Valid(c)
    ensures Valid(r)
  {
    ApplyCombos(c.(seconds := AdjustSeconds(c.seconds, b)), b)
  }

  /** One `updateClock` tick. */
  function TickState(c: ClockValue): (r: ClockValue)
    requires Valid(c)
    ensures Valid(r)
  {
    c.(seconds := Tick(c.seconds))
  }

  /** The adjustments applied in any order amount to one shift by the net
      offset; opposite buttons held together cancel. */
  lemma AdjustIsNetShift(s: int, b: Buttons)
    requires InDay(s)
    ensures AdjustSeconds(s, b) == Shift(s, NetOffset(b))
  {
    var s1 := if b.yRead && !b.xRead then MinuteBack(s) else s;
    var d1 := if b.yRead && !b.xRead then -(SECONDS_IN_MINUTE as int) else 0;
    var s2 := if b.aRead && !b.bRead then HourForward(s1) else s1;
    var d2 := if b.aRead && !b.bRead then SECONDS_IN_HOUR else 0;
    var s3 := if b.bRead && !b.aRead then HourBack(s2) else s2;
    var d3 := if b.bRead && !b.aRead then -(SECONDS_IN_HOUR as int) else 0;
    var d4 := if b.xRead && !b.yRead then SECONDS_IN_MINUTE else 0;
    StepsAreShifts(s); StepsAreShifts(s1); StepsAreShifts(s2); StepsAreShifts(s3);
    assert s == Shift(s, 0);
    assert s1 == Shift(s, d1);
    ShiftCompose(s, d1, d2);
    assert s2 == Shift(s, d1 + d2);
    ShiftCompose(s, d1 + d2, d3);
    assert s3 == Shift(s, d1 + d2 + d3);
    ShiftCompose(s, d1 + d2 + d3, d4);
  }

  /** Single-button examples at the wrap-around points. */
  lemma AdjustExamples()
    ensures AdjustSeconds(0, Buttons(false, false, false, true, false, false, false, false)) == 86340
    ensures AdjustSeconds(82800, Buttons(true, false, false, false, false, false, false, false)) == 0
    ensures AdjustSeconds(0, Buttons(false, true, false, false, false, false, false, false)) == 82800
    ensures AdjustSeconds(86340, Buttons(false, false, true, false, false, false, false, false)) == 0
  {
  }

  /** Holding X and Y leaves only the hour adjustments; holding A and B
      leaves only the minute adjustments; all four change nothing. */
  lemma OpposedButtonsCancel(s: int, b: Buttons)
    requires InDay(s)
    ensures b.xRead && b.yRead ==>
      AdjustSeconds(s, b) == AdjustSeconds(s, b.(xRead := false, yRead := false))
    ensures b.aRead && b.bRead ==>
      AdjustSeconds(s, b) == AdjustSeconds(s, b.(aRead := false, bRead := false))
    ensures b.aRead && b.bRead && b.xRead && b.yRead ==> AdjustSeconds(s, b) == s
  {
  }

  /** After a poll each latch records whether its chord was pressed in it. */
  lemma LatchesFollowChords(c: ClockValue, b: Buttons)
    requires Valid(c)
    ensures Poll(c, b).leftComboHeld == ChordPressed(LeftCombo, b)
    ensures Poll(c, b).rightComboHeld == ChordPressed(RightCombo, b)
  {
  }

  /** Rising edge of the right chord: the adjusted time is snapped to the
      start of its minute. */
  lemma RightComboSnaps(c: ClockValue, b: Buttons)
    requires Valid(c)
    requires ChordPressed(RightCombo, b) && !c.rightComboHeld
    ensures Poll(c, b).seconds % SECONDS_IN_MINUTE == 0
    ensures Poll(c, b).seconds <= AdjustSeconds(c.seconds, b) < Poll(c, b).seconds + SECONDS_IN_MINUTE
    ensures Poll(c, b).rightComboHeld
  {
  }

  /** While the right latch is set, a poll never snaps. */
  lemma NoSnapWhileHeld(c: ClockValue, b: Buttons)
    requires Valid(c) && c.rightComboHeld
    ensures Poll(c, b).seconds == AdjustSeconds(c.seconds, b)
  {
  }

  /** The right chord snaps the adjusted time exactly on its rising edge;
      otherwise a poll leaves the time as the adjustments made it. */
  lemma RightComboSnapsExactly(c: ClockValue, b: Buttons)
    requires Valid(c)
    ensures Poll(c, b).seconds
            == if Fires(c.rightComboHeld, ChordPressed(RightCombo, b))
               then Snap(AdjustSeconds(c.seconds, b))
               else AdjustSeconds(c.seconds, b)
  {
  }

  /** The snap example: 01:01:01 becomes 01:01:00. */
  lemma SnapExample()
    ensures Poll(ClockValue(3661, false, true, false, false),
                 Buttons(false, false, false, false, false, false, true, true)).seconds == 3660
  {
  }

  /** The left chord toggles the mode exactly on its rising edge. */
  lemma LeftComboToggles(c: ClockValue, b: Buttons)
    requires Valid(c)
    ensures Poll(c, b).twelveHourTime
            == (c.twelveHourTime != Fires(c.leftComboHeld, ChordPressed(LeftCombo, b)))
  {
  }

  /** The new time depends neither on the left chord nor on the mode, and the
      new mode depends neither on the time nor on the right chord. */
  lemma ChordsIndependent(c: ClockValue, b: Buttons, mode: bool, leftHeld: bool, aRaw: bool, bRaw: bool,
                          s: int, rightHeld: bool, xRaw: bool, yRaw: bool)
    requires Valid(c) && InDay(s)
    ensures Poll(c, b).seconds
            == Poll(c.(twelveHourTime := mode, leftComboHeld := leftHeld), b.(aRaw := aRaw, bRaw := bRaw)).seconds
    ensures Poll(c, b).twelveHourTime
            == Poll(c.(seconds := s, rightComboHeld := rightHeld), b.(xRaw := xRaw, yRaw := yRaw)).twelveHourTime
  {
  }

  /** A poll stops the program exactly when all four raw buttons are down. */
  lemma PollKeepsRunning(c: ClockValue, b: Buttons)
    requires Valid(c)
    ensures Poll(c, b).keepRunning == (c.keepRunning && !ShutdownPressed(b))
  {
  }

  /** The shutdown poll still adjusts, snaps and toggles: there is no early
      return. */
  lemma ShutdownPollDoesEverything(c: ClockValue, b: Buttons)
    requires Valid(c) && ShutdownPressed(b)
    ensures !Poll(c, b).keepRunning
    ensures Poll(c, b).seconds
            == if c.rightComboHeld then AdjustSeconds(c.seconds, b) else Snap(AdjustSeconds(c.seconds, b))
    ensures Poll(c, b).twelveHourTime == (c.twelveHourTime == c.leftComboHeld)
    ensures Poll(c, b).leftComboHeld && Poll(c, b).rightComboHeld
  {
  }

  // ---------------------------------------------------------------------------
  // Runs of several polls

  /** Consecutive polls with the given readings. */
  function Polls(c: ClockValue, bs: seq<Buttons>): (r: ClockValue)
    requires Valid(c)
    ensures Valid(r)
    decreases |bs|
  {
    if bs == [] then c else Polls(Poll(c, bs[0]), bs[1..])
  }

  /** Number of presses of a chord in a run: polls where it is down after a
      poll (or a starting latch) where it was not. */
  function RisingEdges(ch: Chord, wasPressed: bool, bs: seq<Buttons>): nat
    decreases |bs|
  {
    if bs == [] then 0
    else (if Fires(wasPressed, ChordPressed(ch, bs[0])) then 1 else 0)
         + RisingEdges(ch, ChordPressed(ch, bs[0]), bs[1..])
  }

  /** Number of polls in a run on which the snap fires: by
      `RightComboSnapsExactly`, the polls that snap the adjusted time. */
  function SnapCount(c: ClockValue, bs: seq<Buttons>): nat
    requires Valid(c)
    decreases |bs|
  {
    if bs == [] then 0
    else (if Fires(c.rightComboHeld, ChordPressed(RightCombo, bs[0])) then 1 else 0)
         + SnapCount(Poll(c, bs[0]), bs[1..])
  }

  /** Running polls one run after another is one run of both. */
  lemma {:induction false} PollsAppend(c: ClockValue, xs: seq<Buttons>, ys: seq<Buttons>)
    requires Valid(c)
    ensures Polls(c, xs + ys) == Polls(Polls(c, xs), ys)
    decreases |xs|
  {
    if xs != [] {
      assert (xs + ys)[1..] == xs[1..] + ys;
      PollsAppend(Poll(c, xs[0]), xs[1..], ys);
    } else {
      assert xs + ys == ys;
    }
  }

  /** After a non-empty run each latch records its chord in the last poll. */
  lemma {:induction false} PollsLatch(c: ClockValue, bs: seq<Buttons>, ch: Chord)
    requires Valid(c) && bs != []
    ensures ChordHeld(ch, Polls(c, bs)) == ChordPressed(ch, bs[|bs| - 1])
    decreases |bs|
  {
    if |bs| > 1 {
      PollsLatch(Poll(c, bs[0]), bs[1..], ch);
    }
  }

  /** The snap fires once per press of the right chord. */
  lemma {:induction false} SnapCountIsPresses(c: ClockValue, bs: seq<Buttons>)
    requires Valid(c)
    ensures SnapCount(c, bs) == RisingEdges(RightCombo, c.rightComboHeld, bs)
    decreases |bs|
  {
    if bs != [] {
      SnapCountIsPresses(Poll(c, bs[0]), bs[1..]);
    }
  }

  /** The mode after a run is the starting mode toggled once per press of
      the left chord. */
  lemma {:induction false} ModeParity(c: ClockValue, bs: seq<Buttons>)
    requires Valid(c)
    ensures Polls(c, bs).twelveHourTime
            == (c.twelveHourTime != (RisingEdges(LeftCombo, c.leftComboHeld, bs) % 2 == 1))
    decreases |bs|
  {
    if bs != [] {
      ModeParity(Poll(c, bs[0]), bs[1..]);
    }
  }

  /** A chord held down through a whole run is pressed once if it started
      released and never if it started held. */
  lemma {:induction false} HeldChordPressesOnce(ch: Chord, wasPressed: bool, bs: seq<Buttons>)
    requires forall i :: 0 <= i < |bs| ==> ChordPressed(ch, bs[i])
    ensures RisingEdges(ch, wasPressed, bs) == if wasPressed || bs == [] then 0 else 1
    decreases |bs|
  {
    if bs != [] {
      HeldChordPressesOnce(ch, true, bs[1..]);
    }
  }

  /** A chord released through a whole run is never pressed in it. */
  lemma {:induction false} ReleasedChordNoPresses(ch: Chord, wasPressed: bool, bs: seq<Buttons>)
    requires forall i :: 0 <= i < |bs| ==> !ChordPressed(ch, bs[i])
    ensures RisingEdges(ch, wasPressed, bs) == 0
    decreases |bs|
  {
    if bs != [] {
      ReleasedChordNoPresses(ch, false, bs[1..]);
    }
  }

  /** Holding the right chord across many polls snaps exactly once. */
  lemma HoldingRightComboSnapsOnce(c: ClockValue, bs: seq<Buttons>)
    requires Valid(c) && !c.rightComboHeld && bs != []
    requires forall i :: 0 <= i < |bs| ==> ChordPressed(RightCombo, bs[i])
    ensures SnapCount(c, bs) == 1
  {
    SnapCountIsPresses(c, bs);
    HeldChordPressesOnce(RightCombo, false, bs);
  }

  /** With adjustment buttons that cancel out (none held, or X with Y, or A
      with B), holding the right chord leaves the time at the start of the
      minute it was pressed in. */
  lemma {:induction false} HoldingRightComboTime(c: ClockValue, bs: seq<Buttons>)
    requires Valid(c)
    requires forall i :: 0 <= i < |bs| ==> ChordPressed(RightCombo, bs[i])
    requires forall i :: 0 <= i < |bs| ==> NetOffset(bs[i]) == 0
    ensures Polls(c, bs).seconds
            == if c.rightComboHeld || bs == [] then c.seconds else Snap(c.seconds)
    decreases |bs|
  {
    if bs != [] {
      AdjustIsNetShift(c.seconds, bs[0]);
      assert Shift(c.seconds, 0) == c.seconds;
      var c' := Poll(c, bs[0]);
      HoldingRightComboTime(c', bs[1..]);
      if !c.rightComboHeld && |bs| > 1 {
        SnapIdempotent(c.seconds);
      }
    }
  }

  /** Holding the left chord across many polls toggles the mode exactly once. */
  lemma HoldingLeftComboTogglesOnce(c: ClockValue, bs: seq<Buttons>)
    requires Valid(c) && !c.leftComboHeld && bs != []
    requires forall i :: 0 <= i < |bs| ==> ChordPressed(LeftCombo, bs[i])
    ensures Polls(c, bs).twelveHourTime == !c.twelveHourTime
    ensures Polls(c, bs).leftComboHeld
  {
    ModeParity(c, bs);
    HeldChordPressesOnce(LeftCombo, false, bs);
    PollsLatch(c, bs, LeftCombo);
  }

  /** Releasing the left chord for a while keeps the mode and clears its latch. */
  lemma ReleasingLeftCombo(c: ClockValue, bs: seq<Buttons>)
    requires Valid(c) && bs != []
    requires forall i :: 0 <= i < |bs| ==> !ChordPressed(LeftCombo, bs[i])
    ensures Polls(c, bs).twelveHourTime == c.twelveHourTime
    ensures !Polls(c, bs).leftComboHeld
  {
    ModeParity(c, bs);
    ReleasedChordNoPresses(LeftCombo, c.leftComboHeld, bs);
    PollsLatch(c, bs, LeftCombo);
  }

  /** Two separate presses of the left chord, with a release between them,
      restore the original mode. */
  lemma TwoPressesRestoreMode(c: ClockValue, press1: seq<Buttons>, release: seq<Buttons>, press2: seq<Buttons>)
    requires Valid(c) && !c.leftComboHeld
    requires press1 != [] && release != [] && press2 != []
    requires forall i :: 0 <= i < |press1| ==> ChordPressed(LeftCombo, press1[i])
    requires forall i :: 0 <= i < |release| ==> !ChordPressed(LeftCombo, release[i])
    requires forall i :: 0 <= i < |press2| ==> ChordPressed(LeftCombo, press2[i])
    ensures Polls(c, press1 + release + press2).twelveHourTime == c.twelveHourTime
  {
    var c1 := Polls(c, press1);
    HoldingLeftComboTogglesOnce(c, press1);
    var c2 := Polls(c1, release);
    ReleasingLeftCombo(c1, release);
    HoldingLeftComboTogglesOnce(c2, press2);
    PollsAppend(c, press1, release);
    PollsAppend(c, press1 + release, press2);
  }

  /** The program keeps running through a run exactly when it was running
      and no poll of the run had all four buttons down. */
  lemma {:induction false} RunningUntilShutdown(c: ClockValue, bs: seq<Buttons>)
    requires Valid(c)
    ensures Polls(c, bs).keepRunning
            == (c.keepRunning && forall i :: 0 <= i < |bs| ==> !ShutdownPressed(bs[i]))
    decreases |bs|
  {
    if bs != [] {
      RunningUntilShutdown(Poll(c, bs[0]), bs[1..]);
      assert forall i :: 1 <= i < |bs| ==> bs[i] == bs[1..][i - 1];
    }
  }

  // ---------------------------------------------------------------------------
  // Runs of the whole program: ticks, polls and frames in any order

  /** One callback of the cooperative timer facility.  Drawing reads the
      state and changes none of it. */
  datatype Event = TickEvent | DrawEvent | PollEvent(buttons: Buttons)

  function Step(c: ClockValue, e: Event): (r: ClockValue)
    requires Valid(c)
    ensures Valid(r)
  {
    match e
    case TickEvent => TickState(c)
    case DrawEvent => c
    case PollEvent(b) => Poll(c, b)
  }

  function Run(c: ClockValue, es: seq<Event>): (r: ClockValue)
    requires Valid(c)
    ensures Valid(r)
    decreases |es|
  {
    if es == [] then c else Run(Step(c, es[0]), es[1..])
  }

  /** Once stopped, no interleaving of callbacks sets `keep_running` again. */
  lemma {:induction false} ShutdownIsFinal(c: ClockValue, es: seq<Event>)
    requires Valid(c) && !c.keepRunning
    ensures !Run(c, es).keepRunning
    decreases |es|
  {
    if es != [] {
      ShutdownIsFinal(Step(c, es[0]), es[1..]);
    }
  }

  /** Only polls change the mode, and only on a rising edge of the left chord. */
  lemma ModeChangesOnlyOnLeftPress(c: ClockValue, e: Event)
    requires Valid(c)
    ensures Step(c, e).twelveHourTime != c.twelveHourTime
            <==> e.PollEvent? && Fires(c.leftComboHeld, ChordPressed(LeftCombo, e.buttons))
  {
  }

  /** Ticking `n` times with nothing in between is `n` seconds modulo the day. */
  lemma {:induction false} TicksAdvance(c: ClockValue, n: nat)
    requires Valid(c)
    ensures Run(c, seq(n, _ => TickEvent)).seconds == Shift(c.seconds, n)
    ensures Run(c, seq(n, _ => TickEvent)).(seconds := c.seconds) == c
    decreases n
  {
    var es := seq(n, _ => TickEvent);
    if n == 0 {
      assert Shift(c.seconds, 0) == c.seconds;
    } else {
      var c' := TickState(c);
      assert es[1..] == seq(n - 1, _ => TickEvent);
      TicksAdvance(c', n - 1);
      StepsAreShifts(c.seconds);
      ShiftCompose(c.seconds, 1, n - 1);
    }
  }
}
