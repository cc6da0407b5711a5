/** The stopwatch the POSIX client times a transfer with. Times are
    (seconds, milliseconds) pairs sampled from the wall clock; the clock
    reading is passed in wherever the timer would consult the clock.
    Only the POSIX representation is modelled. */
module Stopwatch {

  /** A clock reading or a duration. The POSIX arithmetic below can leave
      the milliseconds outside 0..999 (see Add), so a value means its
      adjusted time, not its fields. */
  datatype TimeVal = TimeVal(seconds: int, milliseconds: int)

  datatype TimerState = Reset | Running | Stopped

  /** A timer: the instant it was last started, the time accumulated over
      its completed intervals, and its state. */
  datatype Timer = Timer(startTime: TimeVal, accumulated: TimeVal, state: TimerState)

  const Zero: TimeVal := TimeVal(0, 0)

  /** The milliseconds a time value stands for. A normalised value is
      recovered from them, so normalised values are equal exactly when
      they stand for the same time. */
  function Adjusted(t: TimeVal): (ms: int)
    ensures Normal(t) ==> TimeVal(ms / 1000, ms % 1000) == t
  {
    t.seconds * 1000 + t.milliseconds
  }

  /** Milliseconds in their usual range. */
  predicate Normal(t: TimeVal) {
    0 <= t.milliseconds <= 999
  }

  /** A clock sample from gettimeofday's seconds and microseconds, the
      microseconds truncated to milliseconds. */
  function Sample(tvSec: int, tvUsec: int): (t: TimeVal)
    requires 0 <= tvUsec < 1_000_000
    ensures Normal(t)
    ensures Adjusted(t) * 1000 <= tvSec * 1_000_000 + tvUsec < (Adjusted(t) + 1) * 1000
  {
    TimeVal(tvSec, tvUsec / 1000)
  }

  /** Sum of two time values with the POSIX carry, which moves 1000
      milliseconds into the seconds only when the milliseconds exceed 1000. */
  function Add(left: TimeVal, right: TimeVal): (r: TimeVal)
    ensures Adjusted(r) == Adjusted(left) + Adjusted(right)
    ensures Normal(left) && Normal(right) ==> 0 <= r.milliseconds <= 1000
  {
    var seconds := left.seconds + right.seconds;
    var millis := left.milliseconds + right.milliseconds;
    if millis > 1000 then TimeVal(seconds + 1, millis - 1000)
    else TimeVal(seconds, millis)
  }

  /** The carry's strict test leaves exactly 1000 milliseconds in place;
      the adjusted value is still right. */
  lemma AddLeavesThousandMilliseconds()
    ensures Add(TimeVal(0, 500), TimeVal(0, 500)) == TimeVal(0, 1000)
    ensures Adjusted(Add(TimeVal(0, 500), TimeVal(0, 500))) == 1000
  {
    var half := TimeVal(0, 500);
    assert half.milliseconds + half.milliseconds == 1000;
  }

  /** Difference of two time values with the POSIX borrow, which keeps
      the seconds and the milliseconds from having opposite signs. */
  function Subtract(left: TimeVal, right: TimeVal): (r: TimeVal)
    ensures Adjusted(r) == Adjusted(left) - Adjusted(right)
    ensures Normal(left) && Normal(right) ==>
      && -999 <= r.milliseconds <= 999
      && (r.seconds > 0 ==> r.milliseconds >= 0)
      && (r.seconds < 0 ==> r.milliseconds <= 0)
  {
    var seconds := left.seconds - right.seconds;
    var millis := left.milliseconds - right.milliseconds;
    var borrowed :=
      if seconds > 0 && millis < 0 then TimeVal(seconds - 1, millis + 1000)
      else TimeVal(seconds, millis);
    if borrowed.seconds < 0 && borrowed.milliseconds > 0 then
      TimeVal(borrowed.seconds + 1, borrowed.milliseconds - 1000)
    else borrowed
  }

  // ---------------------------------------------------------------------
  // Timer operations. The start time is a field the C code leaves
  // unwritten until the timer is first started, so Initialize and Reset
  // take the timer's previous contents and keep that field.

  /** Constructs a timer: nothing accumulated, in the reset state. */
  function Initialize(t: Timer): (r: Timer)
    ensures r.state == Reset && r.accumulated == Zero && r.startTime == t.startTime
  {
    Timer(t.startTime, Zero, Reset)
  }

  /** Resets a timer, erasing the accumulated time: the timer is then as
      after construction. */
  function ResetTimer(t: Timer): (r: Timer)
    ensures r == Initialize(t)
  {
    t.(state := Reset, accumulated := Zero)
  }

  /** Starts (or retriggers) the timer at clock reading `now`. */
  function Start(t: Timer, now: TimeVal): (r: Timer)
    ensures r.state == Running && r.startTime == now
    ensures r.accumulated == t.accumulated
  {
    t.(state := Running, startTime := now)
  }

  /** Stops the timer at clock reading `now`, adding the interval since the
      last start to the accumulated time. */
  function Stop(t: Timer, now: TimeVal): (r: Timer)
    ensures r.state == Stopped && r.startTime == t.startTime
    ensures Adjusted(r.accumulated) == Adjusted(t.accumulated) + Adjusted(now) - Adjusted(t.startTime)
  {
    t.(state := Stopped, accumulated := Add(t.accumulated, Subtract(now, t.startTime)))
  }

  /** What the interface promises a reading to be: the accumulated time,
      plus the time since the last start while the timer runs. */
  function Elapsed(t: Timer, now: TimeVal): int
  {
    if t.state == Running then Adjusted(t.accumulated) + Adjusted(now) - Adjusted(t.startTime)
    else Adjusted(t.accumulated)
  }

  /** Reads the timer, in milliseconds, at clock reading `now`. Being a
      function of the timer, it leaves the timer as it is. */
  function Time(t: Timer, now: TimeVal): (ms: int)
    ensures ms == Elapsed(t, now)
  {
    if t.state != Running then Adjusted(t.accumulated)
    else Adjusted(Add(t.accumulated, Subtract(now, t.startTime)))
  }

  /** After a stop the timer reads what it had accumulated before, plus
      the interval from its last start to the stop. */
  lemma StoppedReading(t: Timer, stoppedAt: TimeVal, now: TimeVal)
    ensures Elapsed(Stop(t, stoppedAt), now) == Adjusted(t.accumulated) + Adjusted(stoppedAt) - Adjusted(t.startTime)
  {
  }

  /** Retriggering a running timer drops the unfinished interval: only
      the last start counts, and the accumulated time is untouched. */
  lemma RestartLosesPartialInterval(t: Timer, first: TimeVal, second: TimeVal)
    ensures Start(Start(t, first), second) == Start(t, second)
    ensures Time(Start(Start(t, first), second), second) == Adjusted(t.accumulated)
  {
  }

  /** Reading a running timer gives what stopping it at that instant
      would leave accumulated. */
  lemma ReadingWhileRunningIsCorrect(t: Timer, now: TimeVal, later: TimeVal)
    requires t.state == Running
    ensures Time(t, now) == Time(Stop(t, now), later)
  {
  }

  // ---------------------------------------------------------------------
  // Several start/stop pairs

  /** One timed interval: the clock readings at a start and at the
      following stop. */
  datatype Interval = Interval(started: TimeVal, stopped: TimeVal)

  /** Starts and stops the timer once per interval, in order. */
  function Cycle(t: Timer, intervals: seq<Interval>): Timer
    decreases |intervals|
  {
    if |intervals| == 0 then t
    else Cycle(Stop(Start(t, intervals[0].started), intervals[0].stopped), intervals[1..])
  }

  /** Total length of the intervals, in milliseconds. */
  function Durations(intervals: seq<Interval>): int
  {
    if |intervals| == 0 then 0
    else Adjusted(intervals[0].stopped) - Adjusted(intervals[0].started) + Durations(intervals[1..])
  }

  /** Start/stop pairs accumulate: after them the timer holds what it held
      before plus every completed interval. */
  lemma {:induction false} CycleAccumulates(t: Timer, intervals: seq<Interval>)
    ensures Adjusted(Cycle(t, intervals).accumulated) == Adjusted(t.accumulated) + Durations(intervals)
    ensures |intervals| > 0 ==> Cycle(t, intervals).state == Stopped
    decreases |intervals|
  {
    if |intervals| > 0 {
      CycleAccumulates(Stop(Start(t, intervals[0].started), intervals[0].stopped), intervals[1..]);
    }
  }

  /** A freshly constructed timer, after any start/stop pairs, reads the sum
      of the completed intervals, whenever it is read. */
  lemma {:induction false} ConstructedTimerReadsIntervals(t: Timer, intervals: seq<Interval>, now: TimeVal)
    ensures Time(Cycle(Initialize(t), intervals), now) == Durations(intervals)
  {
    CycleAccumulates(Initialize(t), intervals);
    var final := Cycle(Initialize(t), intervals);
    assert final.state != Running by {
      if |intervals| == 0 {
        assert final == Initialize(t);
      }
    }
  }

  // ---------------------------------------------------------------------
  // Monotonic readings

  /** What a client does with a timer, each at a clock reading. */
  datatype Command = StartAt(at: TimeVal) | StopAt(at: TimeVal) | ResetAt(at: TimeVal) | ReadAt(at: TimeVal)

  function Apply(t: Timer, c: Command): Timer
  {
    match c
    case StartAt(now) => Start(t, now)
    case StopAt(now) => Stop(t, now)
    case ResetAt(_) => ResetTimer(t)
    case ReadAt(_) => t
  }

  /** The values the reads among `cs` return. */
  function Readings(t: Timer, cs: seq<Command>): seq<int>
    decreases |cs|
  {
    if |cs| == 0 then []
    else
      (if cs[0].ReadAt? then [Time(t, cs[0].at)] else []) + Readings(Apply(t, cs[0]), cs[1..])
  }

  /** What the interface promises about a timer, in milliseconds of the
      clock: `done`, the length of the intervals completed since the last
      reset; `from`, the clock reading at the last start; and whether that
      start is still unmatched. */
  datatype Promise = Promise(done: int, from: int, running: bool)

  /** What a read is promised to return: the completed intervals, plus the
      time since the last start while running. */
  function PromisedReading(p: Promise, at: TimeVal): int
  {
    if p.running then p.done + Adjusted(at) - p.from else p.done
  }

  /** How a command changes the promise. A start while running begins a new
      interval and drops the unfinished one; a stop completes the interval
      from the last start, even when the timer was not running, as the code
      does; a reset forgets every completed interval. */
  function PromiseAfter(p: Promise, c: Command): Promise
  {
    match c
    case StartAt(at) => Promise(p.done, Adjusted(at), true)
    case StopAt(at) => Promise(p.done + Adjusted(at) - p.from, p.from, false)
    case ResetAt(_) => Promise(0, p.from, false)
    case ReadAt(_) => p
  }

  /** The readings the timer gives for the reads among `cs`, worked out from
      the clock readings of the commands alone. Each stop adds the time since
      the last start, also when the timer is already stopped. */
  function Promised(p: Promise, cs: seq<Command>): seq<int>
    decreases |cs|
  {
    if |cs| == 0 then []
    else
      (if cs[0].ReadAt? then [PromisedReading(p, cs[0].at)] else []) + Promised(PromiseAfter(p, cs[0]), cs[1..])
  }

  /** The promise a timer stands for. */
  function PromiseOf(t: Timer): Promise
  {
    Promise(Adjusted(t.accumulated), Adjusted(t.startTime), t.state == Running)
  }

  /** After any sequence of starts, stops, resets and reads, every reading
      is the promised one. */
  lemma {:induction false} ReadingsArePromised(t: Timer, cs: seq<Command>)
    ensures Readings(t, cs) == Promised(PromiseOf(t), cs)
    decreases |cs|
  {
    if |cs| > 0 {
      ReadingsArePromised(Apply(t, cs[0]), cs[1..]);
      ApplyKeepsPromise(t, cs[0]);
      ReadingsUnfold(t, cs);
    }
  }

  /** One command moves the timer and its promise alike, and the timer
      reads what is promised. */
  lemma ApplyKeepsPromise(t: Timer, c: Command)
    ensures PromiseOf(Apply(t, c)) == PromiseAfter(PromiseOf(t), c)
    ensures Elapsed(t, c.at) == PromisedReading(PromiseOf(t), c.at)
  {
  }

  /** The clock never goes back: each command's reading is at least the
      previous one, the first at least `now`. */
  predicate ClockFrom(now: TimeVal, cs: seq<Command>)
    decreases |cs|
  {
    |cs| > 0 ==> Adjusted(now) <= Adjusted(cs[0].at) && ClockFrom(cs[0].at, cs[1..])
  }

  /** Starts only a timer that is not running, stops only one that is, and
      never resets: a reset erases the accumulated time. */
  predicate Paired(t: Timer, cs: seq<Command>)
    decreases |cs|
  {
    |cs| > 0 ==>
      && (cs[0].StartAt? ==> t.state != Running)
      && (cs[0].StopAt? ==> t.state == Running)
      && !cs[0].ResetAt?
      && Paired(Apply(t, cs[0]), cs[1..])
  }

  predicate NonDecreasing(xs: seq<int>) {
    forall i, j :: 0 <= i < j < |xs| ==> xs[i] <= xs[j]
  }

  /** One command at a later clock reading never lowers the reading. */
  lemma CommandKeepsReading(t: Timer, now: TimeVal, c: Command)
    requires Adjusted(now) <= Adjusted(c.at)
    requires c.StartAt? ==> t.state != Running
    requires c.StopAt? ==> t.state == Running
    requires !c.ResetAt?
    ensures Elapsed(t, now) <= Elapsed(t, c.at) <= Elapsed(Apply(t, c), c.at)
  {
  }

  /** With a clock that never goes back and starts and stops that pair up,
      successive readings never decrease, and none is below a reading taken
      before them. */
  lemma ReadingsNonDecreasing(t: Timer, now: TimeVal, cs: seq<Command>)
    requires ClockFrom(now, cs)
    requires Paired(t, cs)
    ensures NonDecreasing(Readings(t, cs))
    ensures Readings(t, cs) != [] ==> Time(t, now) <= Readings(t, cs)[0]
  {
    ReadingsNotBelow(t, now, cs);
  }

  lemma {:induction false} ReadingsNotBelow(t: Timer, now: TimeVal, cs: seq<Command>)
    requires ClockFrom(now, cs)
    requires Paired(t, cs)
    ensures NonDecreasing(Readings(t, cs))
    ensures Readings(t, cs) != [] ==> Elapsed(t, now) <= Readings(t, cs)[0]
    decreases |cs|
  {
    if |cs| > 0 {
      var c := cs[0];
      var t' := Apply(t, c);
      CommandKeepsReading(t, now, c);
      ReadingsNotBelow(t', c.at, cs[1..]);
      var rest := Readings(t', cs[1..]);
      var head := if c.ReadAt? then [Elapsed(t, c.at)] else [];
      ReadingsUnfold(t, cs);
      PrependKeepsOrder(head, rest, Elapsed(t, now), Elapsed(t', c.at));
    }
  }

  /** The first command's contribution to the readings. */
  lemma ReadingsUnfold(t: Timer, cs: seq<Command>)
    requires |cs| > 0
    ensures Readings(t, cs) == (if cs[0].ReadAt? then [Elapsed(t, cs[0].at)] else []) + Readings(Apply(t, cs[0]), cs[1..])
  {
  }

  lemma PrependKeepsOrder(head: seq<int>, rest: seq<int>, low: int, mid: int)
    requires |head| <= 1 && low <= mid
    requires forall i :: 0 <= i < |head| ==> low <= head[i] <= mid
    requires rest != [] ==> mid <= rest[0]
    requires NonDecreasing(rest)
    ensures NonDecreasing(head + rest)
    ensures head + rest != [] ==> low <= (head + rest)[0]
  {
  }

  /** The warning of the interface: a clock set back while the timer runs
      makes a later reading smaller than an earlier one. */
  lemma ClockSetBackBreaksReadings()
    ensures
      var t := Start(Initialize(Timer(Zero, Zero, Reset)), TimeVal(100, 0));
      Time(t, TimeVal(50, 0)) < Time(t, TimeVal(101, 0))
  {
  }
}
