// Query value types: TimeRange, the interval and data-type vocabularies, the
// validating DataQuery constructor, and DataResponse lookups.
//
// The factories and the threshold tests read `datetime.now()`, a naive local
// `datetime`; it is the parameter `now`, on the same microsecond scale and
// limited to the same years 1 to 9999.
module DataQuery {
  import opened Wrappers
  import opened Calendar

  /** A time window; the constructor does not check that start <= end. */
  datatype TimeRange = TimeRange(start: Instant, end: Instant)

  /** `now - timedelta(microseconds=span)`, with `now` a `datetime`: the
      `timedelta` overflows beyond 999999999 days either way, and the difference
      outside the `datetime` range. */
  function Before(now: DateTime, span: int): (r: Result<DateTime>)
    ensures r.Ok? ==> r.value == now - span
    ensures r.Err? ==> r.error.OverflowError?
  {
    if span / MICROS_PER_DAY > MAX_DELTA_DAYS || span / MICROS_PER_DAY < -MAX_DELTA_DAYS then
      Err(OverflowError("days must have magnitude <= 999999999"))
    else if !InRange(now - span) then Err(OverflowError("date value out of range"))
    else Ok(now - span)
  }

  /** The subtraction fails exactly when the difference leaves the `datetime`
      range: a span too large for a `timedelta` is too large for any `datetime`. */
  lemma BeforeFailsIffOutOfRange(now: DateTime, span: int)
    ensures Before(now, span).Ok? <==> InRange(now - span)
  {
    if span / MICROS_PER_DAY > MAX_DELTA_DAYS {
      assert span >= (MAX_DELTA_DAYS + 1) * MICROS_PER_DAY;
    } else if span / MICROS_PER_DAY < -MAX_DELTA_DAYS {
      assert span < -MAX_DELTA_DAYS * MICROS_PER_DAY;
    }
  }

  /** The range of the `span` microseconds up to `now`, as the factories build
      it. */
  function Ending(now: DateTime, span: int): (r: Result<TimeRange>)
    ensures r.Ok? <==> InRange(now - span)
    ensures r.Ok? ==> r.value.end == now && r.value.end - r.value.start == span
    ensures r.Err? ==> r.error.OverflowError?
  {
    BeforeFailsIffOutOfRange(now, span);
    match Before(now, span)
    case Ok(start) => Ok(TimeRange(start, now))
    case Err(e) => Err(e)
  }

  /** `last_minutes`: the `minutes` minutes up to `now`, the wall clock the
      factory reads; an `OverflowError` when the start falls outside the
      `datetime` range. */
  function LastMinutes(now: DateTime, minutes: int): (r: Result<TimeRange>)
    ensures r.Ok? <==> InRange(now - minutes * MICROS_PER_MINUTE)
    ensures r.Ok? ==> r.value.end == now && r.value.end - r.value.start == minutes * MICROS_PER_MINUTE
    ensures r.Err? ==> r.error.OverflowError?
  {
    Ending(now, minutes * MICROS_PER_MINUTE)
  }

  /** `last_hours`. */
  function LastHours(now: DateTime, hours: int): (r: Result<TimeRange>)
    ensures r.Ok? <==> InRange(now - hours * MICROS_PER_HOUR)
    ensures r.Ok? ==> r.value.end == now && r.value.end - r.value.start == hours * MICROS_PER_HOUR
    ensures r.Err? ==> r.error.OverflowError?
  {
    Ending(now, hours * MICROS_PER_HOUR)
  }

  /** `last_days`. */
  function LastDays(now: DateTime, days: int): (r: Result<TimeRange>)
    ensures r.Ok? <==> InRange(now - days * MICROS_PER_DAY)
    ensures r.Ok? ==> r.value.end == now && r.value.end - r.value.start == days * MICROS_PER_DAY
    ensures r.Err? ==> r.error.OverflowError?
  {
    Ending(now, days * MICROS_PER_DAY)
  }

  /** `last_months`: a month counts as 30 days. */
  function LastMonths(now: DateTime, months: int): (r: Result<TimeRange>)
    ensures r.Ok? <==> InRange(now - months * 30 * MICROS_PER_DAY)
    ensures r.Ok? ==> r.value.end == now && r.value.end - r.value.start == months * 30 * MICROS_PER_DAY
    ensures r.Err? ==> r.error.OverflowError?
  {
    Ending(now, months * 30 * MICROS_PER_DAY)
  }

  /** The factories agree on their units, failures included: an hour is 60
      minutes, a day 24 hours and a month 30 days. */
  lemma LastRangesAgree(now: DateTime, n: int)
    ensures LastHours(now, n) == LastMinutes(now, 60 * n)
    ensures LastDays(now, n) == LastHours(now, 24 * n)
    ensures LastMonths(now, n) == LastDays(now, 30 * n)
  {
    assert n * MICROS_PER_HOUR == 60 * n * MICROS_PER_MINUTE;
    assert n * MICROS_PER_DAY == 24 * n * MICROS_PER_HOUR;
    assert n * 30 * MICROS_PER_DAY == 30 * n * MICROS_PER_DAY;
  }

  /** The `datetime` range is 3652059 days long, so a span of that many days
      fails whatever the clock reads. */
  lemma LastDaysBeyondRange(now: DateTime, days: int)
    requires days >= 3652059
    ensures LastDays(now, days).Err?
  {
    assert days * MICROS_PER_DAY >= 3652059 * MICROS_PER_DAY;
  }

  /** At midnight of 1 January 2025, the last week is a range and the last
      800000 days are an `OverflowError`. */
  lemma LastDaysExample()
    ensures 20089 == DayOfDate(Date(2025, 1, 1))
    ensures LastDays(Midnight(20089), 7) == Ok(TimeRange(Midnight(20082), Midnight(20089)))
    ensures LastDays(Midnight(20089), 800000).Err?
  {
  }

  /** `is_historical`: the range ended more than `thresholdHours` before `now`;
      the threshold's subtraction can overflow as the factories' does. */
  function IsHistorical(r: TimeRange, now: DateTime, thresholdHours: int): (b: Result<bool>)
    ensures b.Ok? <==> InRange(now - thresholdHours * MICROS_PER_HOUR)
    ensures b.Ok? ==> (b.value <==> r.end < now - thresholdHours * MICROS_PER_HOUR)
    ensures b.Err? ==> b.error.OverflowError?
  {
    BeforeFailsIffOutOfRange(now, thresholdHours * MICROS_PER_HOUR);
    match Before(now, thresholdHours * MICROS_PER_HOUR)
    case Ok(limit) => Ok(r.end < limit)
    case Err(e) => Err(e)
  }

  /** `is_realtime`: the range starts within `thresholdHours` of `now`. */
  function IsRealtime(r: TimeRange, now: DateTime, thresholdHours: int): (b: Result<bool>)
    ensures b.Ok? <==> InRange(now - thresholdHours * MICROS_PER_HOUR)
    ensures b.Ok? ==> (b.value <==> r.start > now - thresholdHours * MICROS_PER_HOUR)
    ensures b.Err? ==> b.error.OverflowError?
  {
    BeforeFailsIffOutOfRange(now, thresholdHours * MICROS_PER_HOUR);
    match Before(now, thresholdHours * MICROS_PER_HOUR)
    case Ok(limit) => Ok(r.start > limit)
    case Err(e) => Err(e)
  }

  /** A range that starts no later than it ends is never both historical and
      real-time, and the two tests fail together. */
  lemma HistoricalExcludesRealtime(r: TimeRange, now: DateTime, thresholdHours: int)
    requires r.start <= r.end
    ensures !(IsHistorical(r, now, thresholdHours) == Ok(true) && IsRealtime(r, now, thresholdHours) == Ok(true))
    ensures IsHistorical(r, now, thresholdHours).Err? <==> IsRealtime(r, now, thresholdHours).Err?
  {
  }

  /** A range of the last `minutes` minutes, read against the same clock, is
      never historical for a non-negative threshold, and it is real-time exactly
      when the threshold's subtraction succeeds and the range is shorter than
      the threshold. */
  lemma RecentRangeClassified(now: DateTime, minutes: int, thresholdHours: int)
    requires thresholdHours >= 0 && LastMinutes(now, minutes).Ok?
    ensures IsHistorical(LastMinutes(now, minutes).value, now, thresholdHours) != Ok(true)
    ensures IsRealtime(LastMinutes(now, minutes).value, now, thresholdHours) == Ok(true)
            <==> InRange(now - thresholdHours * MICROS_PER_HOUR)
                 && minutes * MICROS_PER_MINUTE < thresholdHours * MICROS_PER_HOUR
  {
  }

  /** One kline row of the local store or the exchange API: open and close time in
      milliseconds since the epoch, and the remaining columns left opaque. */
  datatype Record = Record(openTime: int, closeTime: int, payload: string)

  /** The values of the IntervalType enumeration. */
  const INTERVAL_TYPES: seq<string> := ["1m", "5m", "15m", "30m", "1h", "4h", "1d", "1w"]

  /** The values of the DataType enumeration. */
  const DATA_TYPES: seq<string> :=
    ["klines", "indexPriceKlines", "markPriceKlines", "premiumIndexKlines",
     "bookDepth", "bookTicker", "trades", "aggTrades", "metrics"]

  /** The four kinds of candle data, which are the ones that need an interval. */
  const KLINE_TYPES: set<string> :=
    {"klines", "indexPriceKlines", "markPriceKlines", "premiumIndexKlines"}

  datatype DataQuery = DataQuery(
    symbols: seq<string>,
    timeRange: TimeRange,
    intervals: seq<string>,
    indicators: seq<string>,
    dataTypes: seq<string>)

  /** The first element of `s` that is not in `valid`, scanning left to right. */
  function FirstInvalid(s: seq<string>, valid: seq<string>): (r: Option<nat>)
    ensures r.None? <==> forall i :: 0 <= i < |s| ==> s[i] in valid
    ensures r.Some? ==> r.value < |s| && s[r.value] !in valid
                        && forall i :: 0 <= i < r.value ==> s[i] in valid
  {
    if |s| == 0 then None
    else if s[0] !in valid then Some(0)
    else match FirstInvalid(s[1..], valid)
      case None => None
      case Some(k) => Some(k + 1)
  }

  /** The dataclass constructor followed by its validation: empty symbols, then
      empty intervals, then the first unknown interval, then the first unknown data
      type raise ValueError; an omitted data-type list becomes ["klines"]. */
  function NewDataQuery(symbols: seq<string>, timeRange: TimeRange, intervals: seq<string>,
                        indicators: seq<string>, dataTypes: Option<seq<string>>): (r: Result<DataQuery>)
    ensures |symbols| == 0 ==> r == Err(ValueError("symbols must not be empty"))
    ensures |symbols| > 0 && |intervals| == 0 ==> r == Err(ValueError("intervals must not be empty"))
    ensures r.Ok? <==>
      |symbols| > 0 && |intervals| > 0
      && (forall i :: 0 <= i < |intervals| ==> intervals[i] in INTERVAL_TYPES)
      && (forall i :: 0 <= i < |dataTypes.GetOr(["klines"])| ==> dataTypes.GetOr(["klines"])[i] in DATA_TYPES)
    ensures r.Ok? ==> r.value == DataQuery(symbols, timeRange, intervals, indicators, dataTypes.GetOr(["klines"]))
  {
    if |symbols| == 0 then Err(ValueError("symbols must not be empty"))
    else if |intervals| == 0 then Err(ValueError("intervals must not be empty"))
    else
      var types := if dataTypes.None? then ["klines"] else dataTypes.value;
      assert types == dataTypes.GetOr(["klines"]);
      match FirstInvalid(intervals, INTERVAL_TYPES)
      case Some(i) => Err(ValueError("invalid interval: " + intervals[i]))
      case None =>
        match FirstInvalid(types, DATA_TYPES)
        case Some(i) => Err(ValueError("invalid data type: " + types[i]))
        case None => Ok(DataQuery(symbols, timeRange, intervals, indicators, types))
  }

  /** The query asks for the whole market: exactly when dropping the wildcard
      shortens the symbol list. */
  predicate IsAllSymbols(q: DataQuery)
    ensures IsAllSymbols(q) <==> |GetSpecificSymbols(q)| < |q.symbols|
  {
    SpecificSymbolsShorter(q.symbols);
    "*" in q.symbols
  }

  /** Dropping the wildcard shortens a list exactly when it holds one. */
  lemma {:induction false} SpecificSymbolsShorter(symbols: seq<string>)
    ensures |SpecificSymbols(symbols)| < |symbols| <==> "*" in symbols
    ensures |SpecificSymbols(symbols)| <= |symbols|
  {
    if |symbols| > 0 {
      SpecificSymbolsShorter(symbols[1..]);
      assert symbols == [symbols[0]] + symbols[1..];
      assert "*" in symbols <==> symbols[0] == "*" || "*" in symbols[1..];
    }
  }

  /** `symbols` without the wildcard, order kept. */
  function SpecificSymbols(symbols: seq<string>): (r: seq<string>)
    ensures "*" !in r
    ensures forall s :: s in r <==> s in symbols && s != "*"
    ensures multiset(r) == multiset(symbols)["*" := 0]
  {
    if |symbols| == 0 then []
    else
      assert symbols == [symbols[0]] + symbols[1..];
      (if symbols[0] == "*" then [] else [symbols[0]]) + SpecificSymbols(symbols[1..])
  }

  function GetSpecificSymbols(q: DataQuery): (r: seq<string>)
    ensures forall s :: s in r <==> s in q.symbols && s != "*"
  {
    SpecificSymbols(q.symbols)
  }

  /** Removing the wildcard distributes over concatenation, so the relative order of
      the remaining symbols is that of the input. */
  lemma {:induction false} SpecificSymbolsAppend(a: seq<string>, b: seq<string>)
    ensures SpecificSymbols(a + b) == SpecificSymbols(a) + SpecificSymbols(b)
  {
    if |a| > 0 {
      var head := if a[0] == "*" then [] else [a[0]];
      assert (a + b)[0] == a[0] && (a + b)[1..] == a[1..] + b;
      assert SpecificSymbols(a + b) == head + SpecificSymbols(a[1..] + b);
      assert SpecificSymbols(a) == head + SpecificSymbols(a[1..]);
      SpecificSymbolsAppend(a[1..], b);
      assert head + (SpecificSymbols(a[1..]) + SpecificSymbols(b))
          == (head + SpecificSymbols(a[1..])) + SpecificSymbols(b);
    } else {
      assert a + b == b;
    }
  }

  /** Whether some requested data type is a kline kind (Python's `any`). */
  function AnyKlineType(types: seq<string>): (r: bool)
    ensures r <==> exists i :: 0 <= i < |types| && types[i] in KLINE_TYPES
  {
    if |types| == 0 then false
    else if types[0] in KLINE_TYPES then true
    else
      assert forall i :: 1 <= i < |types| ==> types[i] == types[1..][i - 1];
      AnyKlineType(types[1..])
  }

  /** `needs_intervals`: some requested data type is a kline kind, as the
      default ["klines"] is. */
  predicate NeedsIntervals(q: DataQuery)
    ensures NeedsIntervals(q) <==> exists i :: 0 <= i < |q.dataTypes| && q.dataTypes[i] in KLINE_TYPES
    ensures q.dataTypes == ["klines"] ==> NeedsIntervals(q)
  {
    AnyKlineType(q.dataTypes)
  }

  /** The "SYMBOL_SUFFIX" key of the response dictionaries. */
  function Key(symbol: string, suffix: string): (k: string)
    ensures |k| == |symbol| + 1 + |suffix| && k[|symbol|] == '_'
    ensures k[..|symbol|] == symbol && k[|symbol| + 1..] == suffix
  {
    symbol + "_" + suffix
  }

  /** Two keys built from underscore-free symbols agree only for the same symbol and
      suffix. */
  lemma KeyInjective(s1: string, x1: string, s2: string, x2: string)
    requires '_' !in s1 && '_' !in s2
    requires Key(s1, x1) == Key(s2, x2)
    ensures s1 == s2 && x1 == x2
  {
  }

  datatype DataResponse = DataResponse(
    query: DataQuery,
    rawData: map<string, seq<Record>>,
    indicators: map<string, real>,
    timestamp: real,
    dataSources: seq<string>)

  function GetIndicator(r: DataResponse, symbol: string, indicator: string): (v: Option<real>)
    ensures v.Some? <==> Key(symbol, indicator) in r.indicators
    ensures v.Some? ==> v.value == r.indicators[Key(symbol, indicator)]
  {
    var key := Key(symbol, indicator);
    if key in r.indicators then Some(r.indicators[key]) else None
  }

  function GetSymbolData(r: DataResponse, symbol: string, interval: string): (v: Option<seq<Record>>)
    ensures v.Some? <==> Key(symbol, interval) in r.rawData
    ensures v.Some? ==> v.value == r.rawData[Key(symbol, interval)]
  {
    var key := Key(symbol, interval);
    if key in r.rawData then Some(r.rawData[key]) else None
  }
}
