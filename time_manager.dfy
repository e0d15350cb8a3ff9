// The virtual clock of a run: in live mode it is the wall clock, in backtest
// mode a time that the run advances by whole steps until an end time.
//
// A `datetime` is an instant in microseconds on the Unix epoch's scale, limited
// to the years 1 to 9999 as Python's `datetime` is.  The wall clock is a
// parameter of every operation that reads it.
module TimeManagement {
  import opened Wrappers
  import opened Calendar

  datatype TimeMode = Backtest | Live

  /** The integer nearest to `x`, halves going to the even neighbour. */
  function RoundHalfEvenReal(x: real): (n: int)
    ensures -0.5 <= x - n as real <= 0.5
    ensures x - n as real == 0.5 || n as real - x == 0.5 ==> n % 2 == 0
  {
    var f := x.Floor;
    var frac := x - f as real;
    if frac < 0.5 then f
    else if frac > 0.5 then f + 1
    else if f % 2 == 0 then f else f + 1
  }

  /** `timedelta(hours=h)` in microseconds, rounded to the nearest one. */
  function HoursDelta(hours: real): int {
    RoundHalfEvenReal(hours * 3600000000.0)
  }

  /** A non-negative step never moves the clock back, and the default step is
      four hours. */
  lemma HoursDeltaProperties(hours: real)
    ensures hours >= 0.0 ==> HoursDelta(hours) >= 0
    ensures hours <= 0.0 ==> HoursDelta(hours) <= 0
    ensures HoursDelta(4.0) == 4 * MICROS_PER_HOUR
  {
    assert (14400000000.0).Floor == 14400000000;
  }

  /** A whole number of hours is exact. */
  lemma WholeHoursExact(k: int)
    ensures HoursDelta(k as real) == k * MICROS_PER_HOUR
  {
    var x := k as real * 3600000000.0;
    assert x == (k * MICROS_PER_HOUR) as real;
    assert x.Floor == k * MICROS_PER_HOUR;
  }

  /** `t + timedelta(hours=h)`: the `timedelta` itself overflows beyond
      999999999 days, and the sum beyond the `datetime` range. */
  function Advanced(t: DateTime, hours: real): (r: Result<DateTime>)
    ensures r.Ok? ==> r.value == t + HoursDelta(hours)
  {
    var d := HoursDelta(hours);
    if d / MICROS_PER_DAY > MAX_DELTA_DAYS || d / MICROS_PER_DAY < -MAX_DELTA_DAYS then
      Err(OverflowError("days must have magnitude <= 999999999"))
    else if !InRange(t + d) then Err(OverflowError("date value out of range"))
    else Ok(t + d)
  }

  /** Advancing fails exactly when the sum leaves the `datetime` range: a step
      too large for a `timedelta` is too large for any `datetime`. */
  lemma AdvancedFailsIffOutOfRange(t: DateTime, hours: real)
    ensures Advanced(t, hours).Err? <==> !InRange(t + HoursDelta(hours))
  {
    var d := HoursDelta(hours);
    if d / MICROS_PER_DAY > MAX_DELTA_DAYS {
      assert d >= (MAX_DELTA_DAYS + 1) * MICROS_PER_DAY;
    } else if d / MICROS_PER_DAY < -MAX_DELTA_DAYS {
      assert d < -MAX_DELTA_DAYS * MICROS_PER_DAY;
    }
  }

  /** A non-negative step that succeeds never moves the clock back. */
  lemma AdvancedForward(t: DateTime, hours: real)
    requires hours >= 0.0 && Advanced(t, hours).Ok?
    ensures Advanced(t, hours).value >= t
  {
    HoursDeltaProperties(hours);
  }

  /** `should_continue` over the clock's state: live runs go on; a backtest stops
      without an end time or once it reaches the end; at midnight the progress
      report divides by the length of the run, which fails for an empty run. */
  function Continue(mode: TimeMode, virtualTime: DateTime, startTime: DateTime,
                    endTime: Option<DateTime>): (r: Result<bool>)
    ensures mode == Live ==> r == Ok(true)
    ensures mode == Backtest && endTime.Some? && virtualTime < endTime.value && r.Ok? ==> r.value
    ensures r == Ok(false) <==> mode == Backtest && (endTime.None? || virtualTime >= endTime.value)
    ensures r.Err? <==> mode == Backtest && endTime.Some? && virtualTime < endTime.value &&
                        virtualTime % MICROS_PER_DAY < MICROS_PER_MINUTE && endTime.value == startTime
  {
    match mode
    case Live => Ok(true)
    case Backtest =>
      if endTime.None? then Ok(false)
      else if virtualTime >= endTime.value then Ok(false)
      else if virtualTime % MICROS_PER_DAY < MICROS_PER_MINUTE && endTime.value - startTime == 0 then
        Err(ZeroDivisionError("float division by zero"))
      else Ok(true)
  }

  /** A clock that never went back behind its start never fails to answer. */
  lemma ContinueForwardNeverFails(mode: TimeMode, virtualTime: DateTime, startTime: DateTime,
                                  endTime: Option<DateTime>)
    requires startTime <= virtualTime
    ensures Continue(mode, virtualTime, startTime, endTime).Ok?
  {
  }

  /** A backtest from `start` to `end`, advanced only by successful steps, keeps
      answering true until the first step that reaches `end`. */
  lemma ContinueUntilEnd(virtualTime: DateTime, startTime: DateTime, endTime: DateTime)
    requires startTime <= virtualTime
    ensures Continue(Backtest, virtualTime, startTime, Some(endTime)) == Ok(virtualTime < endTime)
  {
  }

  /** `TimeManager`. */
  class TimeManager {
    const mode: TimeMode
    var virtualTime: DateTime
    const realStartTime: DateTime
    var isRunning: bool
    var startTime: DateTime
    var backtestEndTime: Option<DateTime>

    /** A backtest always has an end time and a live run never has one. */
    predicate Valid()
      reads this
    {
      mode == Backtest <==> backtestEndTime.Some?
    }

    /** `__init__`, which reads the wall clock three times: `startNow` when no
        start is given, `realNow` for the real start time and `endNow` for a
        backtest without an end time.  The run starts at `runFrom` or
        `startNow`; a backtest without an end time runs until `endNow`. */
    constructor (runFrom: Option<DateTime>, mode: TimeMode, backtestEnd: Option<DateTime>,
                 startNow: DateTime, realNow: DateTime, endNow: DateTime)
      ensures Valid()
      ensures this.mode == mode && virtualTime == runFrom.GetOr(startNow)
      ensures realStartTime == realNow && !isRunning && startTime == virtualTime
      ensures backtestEndTime == if mode == Backtest then Some(backtestEnd.GetOr(endNow)) else None
    {
      this.mode := mode;
      virtualTime := runFrom.GetOr(startNow);
      realStartTime := realNow;
      isRunning := false;
      startTime := runFrom.GetOr(startNow);
      if mode == Backtest {
        backtestEndTime := Some(backtestEnd.GetOr(endNow));
      } else {
        backtestEndTime := None;
      }
    }

    /** `now`: the wall clock in a live run, the virtual time in a backtest. */
    function Now(wallNow: DateTime): (t: DateTime)
      reads this
      ensures IsLive() ==> t == wallNow
      ensures IsBacktest() ==> t == virtualTime
    {
      if mode == Live then wallNow else virtualTime
    }

    /** `advance_time`: moves a backtest's clock by `hours` (4 by default); the
        `OverflowError` of the addition leaves the clock where it was; a live
        run's clock does not move. */
    method AdvanceTime(hours: real) returns (r: Result<DateTime>)
      requires Valid()
      modifies this
      ensures Valid()
      ensures mode == Live ==> r == Ok(virtualTime) && virtualTime == old(virtualTime)
      ensures mode == Backtest ==> r == Advanced(old(virtualTime), hours)
      ensures virtualTime == if r.Ok? then r.value else old(virtualTime)
      ensures startTime == old(startTime) && backtestEndTime == old(backtestEndTime) && isRunning == old(isRunning)
      ensures hours >= 0.0 && old(startTime <= virtualTime) ==> startTime <= virtualTime
    {
      if mode == Live {
        return Ok(virtualTime);
      }
      r := Advanced(virtualTime, hours);
      if r.Ok? {
        if hours >= 0.0 {
          AdvancedForward(virtualTime, hours);
        }
        virtualTime := r.value;
      }
    }

    /** `is_backtest`: exactly the runs that have an end time. */
    predicate IsBacktest()
      reads this
      ensures IsBacktest() != IsLive()
      ensures Valid() ==> (IsBacktest() <==> backtestEndTime.Some?)
    {
      mode == Backtest
    }

    /** `is_live`: exactly the runs without an end time. */
    predicate IsLive()
      reads this
      ensures Valid() ==> (IsLive() <==> backtestEndTime.None?)
    {
      mode == Live
    }

    /** `time_until_now`: how far the virtual clock is behind the wall clock. */
    function TimeUntilNow(wallNow: DateTime): (d: int)
      reads this
      ensures d == wallNow - Now(wallNow)
      ensures IsLive() ==> d == 0
    {
      if mode == Live then 0 else wallNow - virtualTime
    }

    /** `should_continue`: a live run goes on; a backtest stops without an end
        time or at it, and never fails while its clock is not behind its start. */
    function ShouldContinue(): (r: Result<bool>)
      reads this
      ensures IsLive() ==> r == Ok(true)
      ensures r == Ok(false) <==> IsBacktest() && (backtestEndTime.None? || virtualTime >= backtestEndTime.value)
      ensures GetStartTime() <= virtualTime ==> r.Ok?
    {
      var r := Continue(mode, virtualTime, GetStartTime(), backtestEndTime);
      if GetStartTime() <= virtualTime then
        ContinueForwardNeverFails(mode, virtualTime, GetStartTime(), backtestEndTime);
        r
      else r
    }

    /** `get_start_time`: the initial virtual time, which `__init__` records. */
    function GetStartTime(): (t: DateTime)
      reads this
      ensures t == startTime
    {
      startTime
    }
  }
}
