/**
 The external clock of the player, in real arithmetic; an absent value is NaN. Each operation
 that both reads and sets the clock asks for the time twice, `t1` and then `t2`.
 */
module ExternalClock {

  import opened Wrappers

  const EXTERNAL_CLOCK_MIN_FRAMES := 2
  const EXTERNAL_CLOCK_MAX_FRAMES := 10
  const EXTERNAL_CLOCK_SPEED_MIN: real := 0.900
  const EXTERNAL_CLOCK_SPEED_MAX: real := 1.010
  const EXTERNAL_CLOCK_SPEED_STEP: real := 0.001

  function Max(a: real, b: real): real {
    if a > b then a else b
  }

  function Min(a: real, b: real): real {
    if a > b then b else a
  }

  function Abs(a: real): real {
    if a < 0.0 then -a else a
  }

  /** A stream that is open has a queue of some length. */
  datatype Streams = Streams(video: Option<nat>, audio: Option<nat>)

  predicate SomeQueueShort(s: Streams) {
    (s.video.Some? && s.video.value <= EXTERNAL_CLOCK_MIN_FRAMES) ||
    (s.audio.Some? && s.audio.value <= EXTERNAL_CLOCK_MIN_FRAMES)
  }

  predicate AllQueuesLong(s: Streams) {
    (s.video.Some? ==> s.video.value > EXTERNAL_CLOCK_MAX_FRAMES) &&
    (s.audio.Some? ==> s.audio.value > EXTERNAL_CLOCK_MAX_FRAMES)
  }

  /** The speed after a look at the queues. */
  function Adjusted(speed: real, s: Streams): real {
    if SomeQueueShort(s) then Max(EXTERNAL_CLOCK_SPEED_MIN, speed - EXTERNAL_CLOCK_SPEED_STEP)
    else if AllQueuesLong(s) then Min(EXTERNAL_CLOCK_SPEED_MAX, speed + EXTERNAL_CLOCK_SPEED_STEP)
    else if speed != 1.0 then
      NotZero(speed);
      speed + EXTERNAL_CLOCK_SPEED_STEP * (1.0 - speed) / Abs(1.0 - speed)
    else speed
  }

  lemma NotZero(speed: real)
    requires speed != 1.0
    ensures Abs(1.0 - speed) > 0.0
  {
  }

  // ---------------------------------------------------------------- the clock's value

  datatype State = State(
    pts: Option<real>,
    ptsDrift: Option<real>,
    lastUpdated: real,
    speed: real,
    serial: int,
    paused: bool)

  function Shown(drift: real, lastUpdated: real, speed: real, time: real): real {
    drift + time - (time - lastUpdated) * (1.0 - speed)
  }

  /** What the clock shows at a time, if it is not of an old serial. */
  function Reading(s: State, queueSerial: int, time: real): Option<real> {
    if queueSerial != s.serial then None
    else if s.paused then s.pts
    else if s.ptsDrift.None? then None
    else Some(Shown(s.ptsDrift.value, s.lastUpdated, s.speed, time))
  }

  function Updated(s: State, pts: Option<real>, serial: int, time: real): State {
    s.(pts := pts,
       ptsDrift := if pts.None? then None else Some(pts.value - time),
       lastUpdated := time,
       serial := serial)
  }

  /** Sets the clock to what it shows: what every operation but an explicit set does first. */
  function Resynced(s: State, t1: real, t2: real): State {
    Updated(s, Reading(s, s.serial, t1), s.serial, t2)
  }

  datatype Step = Check(streams: Streams, t1: real, t2: real) | Toggle(t1: real, t2: real)

  function After(s: State, step: Step): State {
    match step
    case Check(streams, t1, t2) =>
      if !SomeQueueShort(streams) && !AllQueuesLong(streams) && s.speed == 1.0 then s
      else Resynced(s, t1, t2).(speed := Adjusted(s.speed, streams))
    case Toggle(t1, t2) => Resynced(s, t1, t2).(paused := !s.paused)
  }

  class Clock {
    var pts: Option<real>
    var ptsDrift: Option<real>
    var lastUpdated: real
    var speed: real
    var serial: int
    var paused: bool

    function Value(): State
      reads this
    {
      State(pts, ptsDrift, lastUpdated, speed, serial, paused)
    }

    /** A new clock shows nothing until it is set. */
    constructor (time: real)
      ensures Value() == State(None, None, time, 1.0, -1, false)
    {
      speed, paused := 1.0, false;
      pts, ptsDrift, lastUpdated, serial := None, None, time, -1;
    }

    method GetClock(queueSerial: int, time: real) returns (r: Option<real>)
      ensures r == Reading(Value(), queueSerial, time)
    {
      if queueSerial != serial {
        return None;
      }
      if paused {
        return pts;
      }
      if ptsDrift.None? {
        return None;
      }
      r := Some(Shown(ptsDrift.value, lastUpdated, speed, time));
    }

    method SetClockAt(newPts: Option<real>, newSerial: int, time: real)
      modifies this
      ensures Value() == Updated(old(Value()), newPts, newSerial, time)
    {
      pts := newPts;
      lastUpdated := time;
      ptsDrift := if pts.None? then None else Some(pts.value - time);
      serial := newSerial;
    }

    method SetClockSpeed(newSpeed: real, t1: real, t2: real)
      modifies this
      ensures Value() == Resynced(old(Value()), t1, t2).(speed := newSpeed)
    {
      var shown := GetClock(serial, t1);
      SetClockAt(shown, serial, t2);
      speed := newSpeed;
    }

    method CheckExternalClockSpeed(s: Streams, t1: real, t2: real)
      modifies this
      ensures Value() == After(old(Value()), Check(s, t1, t2))
    {
      if (s.video.Some? && s.video.value <= EXTERNAL_CLOCK_MIN_FRAMES)
         || (s.audio.Some? && s.audio.value <= EXTERNAL_CLOCK_MIN_FRAMES) {
        SetClockSpeed(Max(EXTERNAL_CLOCK_SPEED_MIN, speed - EXTERNAL_CLOCK_SPEED_STEP), t1, t2);
      } else if (s.video.None? || s.video.value > EXTERNAL_CLOCK_MAX_FRAMES)
                && (s.audio.None? || s.audio.value > EXTERNAL_CLOCK_MAX_FRAMES) {
        SetClockSpeed(Min(EXTERNAL_CLOCK_SPEED_MAX, speed + EXTERNAL_CLOCK_SPEED_STEP), t1, t2);
      } else if speed != 1.0 {
        NotZero(speed);
        SetClockSpeed(speed + EXTERNAL_CLOCK_SPEED_STEP * (1.0 - speed) / Abs(1.0 - speed), t1, t2);
      }
    }

    method TogglePause(t1: real, t2: real)
      modifies this
      ensures Value() == After(old(Value()), Toggle(t1, t2))
    {
      var shown := GetClock(serial, t1);
      SetClockAt(shown, serial, t2);
      paused := !paused;
    }
  }

  // ---------------------------------------------------------------- whole runs

  function AfterAll(s: State, steps: seq<Step>): State
    decreases |steps|
  {
    if steps == [] then s else AfterAll(After(s, steps[0]), steps[1..])
  }

  function Covered(speed: real, from: real, to: real): real {
    speed * (to - from)
  }

  /** How far the clock gets from `from` to `to` at its present speed. */
  function Progress(s: State, from: real, to: real): real {
    if s.paused then 0.0 else Covered(s.speed, from, to)
  }

  /** Whether a step sets the clock. */
  predicate Touches(s: State, step: Step) {
    match step
    case Check(streams, _, _) => SomeQueueShort(streams) || AllQueuesLong(streams) || s.speed != 1.0
    case Toggle(_, _) => true
  }

  /** The sum of speed times unpaused time over a run. Between the two times an operation asks
      for, the clock stands still. */
  function Total(s: State, steps: seq<Step>, from: real, now: real): real
    decreases |steps|
  {
    if steps == [] then Progress(s, from, now)
    else if !Touches(s, steps[0]) then Total(After(s, steps[0]), steps[1..], from, now)
    else Progress(s, from, steps[0].t1) + Total(After(s, steps[0]), steps[1..], steps[0].t2, now)
  }

  /** The clock was set to `start` at its last update. */
  predicate Anchored(s: State, start: real) {
    s.pts == Some(start) && s.ptsDrift == Some(start - s.lastUpdated)
  }

  lemma Distribute(elapsed: real, speed: real)
    ensures elapsed * (1.0 - speed) == elapsed - speed * elapsed
  {
  }

  lemma ShownAt(start: real, lastUpdated: real, speed: real, time: real)
    ensures Shown(start - lastUpdated, lastUpdated, speed, time) == start + Covered(speed, lastUpdated, time)
  {
    var elapsed := time - lastUpdated;
    Distribute(elapsed, speed);
    var slowed, run := elapsed * (1.0 - speed), speed * elapsed;
    assert slowed == elapsed - run;
    assert Shown(start - lastUpdated, lastUpdated, speed, time) == start - lastUpdated + time - slowed;
  }

  lemma AnchoredReading(s: State, start: real, time: real)
    requires Anchored(s, start)
    ensures Reading(s, s.serial, time) == Some(start + Progress(s, s.lastUpdated, time))
  {
    if !s.paused {
      ShownAt(start, s.lastUpdated, s.speed, time);
    }
  }

  /** A step that touches the clock anchors it where it stood. */
  lemma StepAnchors(s: State, start: real, step: Step)
    requires Anchored(s, start)
    ensures Touches(s, step) ==>
      Anchored(After(s, step), start + Progress(s, s.lastUpdated, step.t1)) && After(s, step).lastUpdated == step.t2
    ensures !Touches(s, step) ==> After(s, step) == s
    ensures After(s, step).serial == s.serial
  {
    AnchoredReading(s, start, step.t1);
  }

  /** Over any run of speed checks and pause toggles the clock shows where it started plus the
      sum of speed times unpaused time. */
  lemma {:induction false} ReadingIsTotal(s: State, start: real, steps: seq<Step>, now: real)
    requires Anchored(s, start)
    ensures var end := AfterAll(s, steps);
      Reading(end, end.serial, now) == Some(start + Total(s, steps, s.lastUpdated, now))
    decreases |steps|
  {
    if steps == [] {
      AnchoredReading(s, start, now);
    } else {
      var step := steps[0];
      StepAnchors(s, start, step);
      var reached := if Touches(s, step) then start + Progress(s, s.lastUpdated, step.t1) else start;
      ReadingIsTotal(After(s, step), reached, steps[1..], now);
    }
  }

  /** No operation makes the clock jump: right after it, the clock shows what it showed right
      before. */
  lemma NeverJumps(s: State, start: real, step: Step)
    requires Anchored(s, start) && Touches(s, step)
    ensures Reading(After(s, step), s.serial, step.t2) == Reading(s, s.serial, step.t1)
  {
    AnchoredReading(s, start, step.t1);
    StepAnchors(s, start, step);
    AnchoredReading(After(s, step), start + Progress(s, s.lastUpdated, step.t1), step.t2);
  }

  // ---------------------------------------------------------------- the speed

  /** A speed reached from 1 in steps of one thousandth: `k` of them. */
  predicate Whole(speed: real, k: int) {
    -100 <= k <= 10 && speed == 1.0 + k as real * EXTERNAL_CLOCK_SPEED_STEP
  }

  /** Each check moves the speed by at most one whole step, within the bounds, and by none past
      the normal speed on the way back to it. */
  lemma AdjustedWhole(speed: real, k: int, s: Streams) returns (j: int)
    requires Whole(speed, k)
    ensures Whole(Adjusted(speed, s), j)
    ensures SomeQueueShort(s) ==> j == if k == -100 then k else k - 1
    ensures !SomeQueueShort(s) && AllQueuesLong(s) ==> j == if k == 10 then k else k + 1
    ensures !SomeQueueShort(s) && !AllQueuesLong(s) ==> j == if k < 0 then k + 1 else if k > 0 then k - 1 else 0
  {
    if SomeQueueShort(s) {
      j := if k == -100 then k else k - 1;
    } else if AllQueuesLong(s) {
      j := if k == 10 then k else k + 1;
    } else if k == 0 {
      j := 0;
    } else {
      var gap := 1.0 - speed;
      assert k < 0 ==> gap > 0.0;
      assert k > 0 ==> gap < 0.0;
      TowardsOne(gap);
      j := if k < 0 then k + 1 else k - 1;
    }
  }

  lemma TowardsOne(gap: real)
    requires gap != 0.0
    ensures Abs(gap) > 0.0
    ensures EXTERNAL_CLOCK_SPEED_STEP * gap / Abs(gap) ==
      if gap > 0.0 then EXTERNAL_CLOCK_SPEED_STEP else -EXTERNAL_CLOCK_SPEED_STEP
  {
    if gap > 0.0 {
      assert EXTERNAL_CLOCK_SPEED_STEP * gap / gap == EXTERNAL_CLOCK_SPEED_STEP;
    } else {
      var size := -gap;
      assert EXTERNAL_CLOCK_SPEED_STEP * gap == -(EXTERNAL_CLOCK_SPEED_STEP * size);
      assert EXTERNAL_CLOCK_SPEED_STEP * size / size == EXTERNAL_CLOCK_SPEED_STEP;
    }
  }

  lemma {:induction false} SpeedStaysWhole(s: State, k: int, steps: seq<Step>) returns (j: int)
    requires Whole(s.speed, k)
    ensures Whole(AfterAll(s, steps).speed, j)
    decreases |steps|
  {
    j := k;
    if steps != [] {
      if steps[0].Check? {
        j := AdjustedWhole(s.speed, k, steps[0].streams);
      }
      j := SpeedStaysWhole(After(s, steps[0]), j, steps[1..]);
    }
  }

  /** Over any run from the normal speed, the speed stays within its bounds. */
  lemma SpeedBounds(s: State, steps: seq<Step>)
    requires s.speed == 1.0
    ensures EXTERNAL_CLOCK_SPEED_MIN <= AfterAll(s, steps).speed <= EXTERNAL_CLOCK_SPEED_MAX
  {
    var k := SpeedStaysWhole(s, 0, steps);
  }

  /** The times of a run, in order. */
  predicate Ordered(from: real, steps: seq<Step>, now: real)
    decreases |steps|
  {
    if steps == [] then from <= now
    else from <= steps[0].t1 <= steps[0].t2 && Ordered(steps[0].t2, steps[1..], now)
  }

  lemma ProgressForward(s: State, k: int, from: real, to: real)
    requires Whole(s.speed, k) && from <= to
    ensures Progress(s, from, to) >= 0.0
  {
    assert s.speed >= 0.9;
    Forward(s.speed, to - from);
  }

  lemma Forward(speed: real, elapsed: real)
    requires speed >= 0.0 && elapsed >= 0.0
    ensures speed * elapsed >= 0.0
  {
  }

  lemma {:induction false} OrderedEarlier(from: real, from': real, steps: seq<Step>, now: real)
    requires Ordered(from, steps, now) && from' <= from
    ensures Ordered(from', steps, now)
  {
  }

  /** As long as time does not run backwards, neither does the clock. */
  lemma {:induction false} NeverBackwards(s: State, k: int, steps: seq<Step>, from: real, now: real)
    requires Whole(s.speed, k) && Ordered(from, steps, now)
    ensures Total(s, steps, from, now) >= 0.0
    decreases |steps|
  {
    if steps == [] {
      ProgressForward(s, k, from, now);
    } else {
      var step := steps[0];
      ProgressForward(s, k, from, step.t1);
      var j := SpeedStaysWhole(s, k, [step]);
      assert AfterAll(After(s, step), [step][1..]) == After(s, step);
      OrderedEarlier(step.t2, from, steps[1..], now);
      NeverBackwards(After(s, step), j, steps[1..], if Touches(s, step) then step.t2 else from, now);
    }
  }

  // ---------------------------------------------------------------- when the clock shows something

  /** A clock that has been set shows something to the queue of its serial and to no other. */
  lemma ShowsExactly(s: State, start: real, queueSerial: int, time: real)
    requires Anchored(s, start)
    ensures Reading(s, queueSerial, time).Some? <==> queueSerial == s.serial
  {
    AnchoredReading(s, start, time);
  }

  /** Setting the clock anchors it: from then on it shows that value and what time adds to it. */
  lemma SetShows(s: State, value: real, serial: int, time: real, now: real)
    ensures var next := Updated(s, Some(value), serial, time);
      && Anchored(next, value) && next.serial == serial && next.speed == s.speed && next.paused == s.paused
      && Reading(next, serial, now) == Some(value + if s.paused then 0.0 else Covered(s.speed, time, now))
  {
    AnchoredReading(Updated(s, Some(value), serial, time), value, now);
  }

  predicate NeverSet(s: State) {
    s.pts == None && s.ptsDrift == None
  }

  /** A clock that was never set shows nothing, whatever is done to it in the meantime. */
  lemma {:induction false} UnsetShowsNothing(s: State, steps: seq<Step>, queueSerial: int, now: real)
    requires NeverSet(s)
    ensures Reading(AfterAll(s, steps), queueSerial, now) == None
    decreases |steps|
  {
    if steps != [] {
      assert NeverSet(After(s, steps[0]));
      UnsetShowsNothing(After(s, steps[0]), steps[1..], queueSerial, now);
    }
  }

  // ---------------------------------------------------------------- which way the speed goes

  /** The speed falls by a thousandth, down to 0.900, when an open stream has two packets or fewer;
      otherwise it rises by a thousandth, up to 1.010, when no open stream has ten or fewer;
      otherwise it goes a thousandth towards 1, where it stays. */
  lemma SpeedMoves(k: int, video: Option<nat>, audio: Option<nat>)
    requires -100 <= k <= 10
    ensures var speed := 1.0 + k as real * 0.001;
      var next := Adjusted(speed, Streams(video, audio));
      if (video.Some? && video.value <= 2) || (audio.Some? && audio.value <= 2) then
        next == if k > -100 then speed - 0.001 else 0.900
      else if (video.None? || video.value > 10) && (audio.None? || audio.value > 10) then
        next == if k < 10 then speed + 0.001 else 1.010
      else next == if k > 0 then speed - 0.001 else if k < 0 then speed + 0.001 else 1.0
  {
    var j := AdjustedWhole(1.0 + k as real * 0.001, k, Streams(video, audio));
  }

  /** A toggle turns the pause around and keeps the speed; a check sets the speed, and at the normal
      speed does nothing else if the speed stays; neither changes the serial. */
  lemma StepChanges(s: State, step: Step)
    ensures After(s, step).serial == s.serial
    ensures After(s, step).paused == (if step.Toggle? then !s.paused else s.paused)
    ensures step.Toggle? ==> After(s, step).speed == s.speed
    ensures step.Check? ==> After(s, step).speed == Adjusted(s.speed, step.streams)
    ensures step.Check? && s.speed == 1.0 == Adjusted(s.speed, step.streams) ==> After(s, step) == s
  {
  }
}
