// DataIntegrityChecker: clips a query window to "now", lists the bucket starts
// that should hold a candle, subtracts the buckets present in the local data,
// groups the missing buckets into gaps, coalesces gaps into repair ranges and
// rates the window's health.
module IntegrityChecker {
  import opened Wrappers
  import opened Calendar
  import opened DataQuery
  import Sorting

  // ---- interval widths ---------------------------------------------------------

  /** The widths, in minutes, that `IntervalMinutes` can return. */
  predicate ValidWidth(w: int) {
    w == 1 || w == 5 || w == 15 || w == 30 || w == 60 || w == 240 || w == 1440
  }

  const INTERVAL_MINUTES: map<string, int> :=
    map["1m" := 1, "5m" := 5, "15m" := 15, "30m" := 30, "1h" := 60, "4h" := 240, "1d" := 1440]

  /** The width of an interval name in minutes; any other name, "1w" included,
      counts as 15 minutes. */
  function IntervalMinutes(interval: string): (w: int)
    ensures ValidWidth(w)
    ensures interval !in INTERVAL_MINUTES ==> w == 15
  {
    if interval in INTERVAL_MINUTES then INTERVAL_MINUTES[interval] else 15
  }

  lemma WeekFallsBackToQuarterHour()
    ensures IntervalMinutes("1w") == 15 && IntervalMinutes("15m") == 15
    ensures IntervalMinutes("1h") == 60 && IntervalMinutes("4h") == 240 && IntervalMinutes("1d") == 1440
  {
  }

  const RECORDS_PER_DAY: map<string, int> :=
    map["1m" := 1440, "5m" := 288, "15m" := 96, "1h" := 24, "4h" := 6, "1d" := 1]

  /** `get_expected_records_per_day`: the table's count, 96 for any other name. */
  function ExpectedRecordsPerDay(interval: string): (n: int)
    ensures n > 0
    ensures interval !in RECORDS_PER_DAY ==> n == 96
  {
    if interval in RECORDS_PER_DAY then RECORDS_PER_DAY[interval] else 96
  }

  /** The table agrees with the widths for every name it lists: a day holds that
      many buckets.  "30m" is not listed, so it gets 96 a day although its
      buckets fit 48 times into one. */
  lemma RecordsPerDayMatchesWidths(interval: string)
    ensures interval in RECORDS_PER_DAY ==> ExpectedRecordsPerDay(interval) * IntervalMinutes(interval) == 1440
    ensures ExpectedRecordsPerDay("30m") == 96 && 1440 / IntervalMinutes("30m") == 48
  {
  }

  /** A bucket width in microseconds. */
  function Width(w: int): (d: int)
    requires ValidWidth(w)
    ensures d > 0 && d % MICROS_PER_MINUTE == 0 && MICROS_PER_DAY % d == 0
  {
    w * MICROS_PER_MINUTE
  }

  // ---- arithmetic helpers --------------------------------------------------------

  lemma MulAtLeast(k: int, m: int)
    requires k >= 1 && m > 0
    ensures k * m >= m
  {
    var j := k - 1;
    assert k * m == j * m + m;
    assert j * m >= 0;
  }

  /** Euclidean division is determined by its quotient-remainder decomposition. */
  lemma DivModUnique(x: int, m: int, q: int, r: int)
    requires m > 0 && 0 <= r < m && x == q * m + r
    ensures x / m == q && x % m == r
  {
    var q' := x / m;
    var r' := x % m;
    assert x == q' * m + r';
    if q' > q {
      var d := q' - q;
      assert d * m == q' * m - q * m;
      MulAtLeast(d, m);
      assert false;
    } else if q' < q {
      var d := q - q';
      assert d * m == q * m - q' * m;
      MulAtLeast(d, m);
      assert false;
    }
  }

  lemma MultipleSum(a: int, b: int, m: int)
    requires m > 0 && a % m == 0 && b % m == 0
    ensures (a + b) % m == 0 && (a - b) % m == 0
  {
    DivModUnique(a + b, m, a / m + b / m, 0);
    DivModUnique(a - b, m, a / m - b / m, 0);
  }

  /** Two distinct multiples of m are at least m apart. */
  lemma MultiplesApart(a: int, b: int, m: int)
    requires m > 0 && a % m == 0 && b % m == 0 && a < b
    ensures a + m <= b
  {
    var qa, qb := a / m, b / m;
    assert a == qa * m && b == qb * m;
    if qb > qa {
      var d := qb - qa;
      assert d * m == qb * m - qa * m;
      MulAtLeast(d, m);
    }
  }

  // ---- alignment -----------------------------------------------------------------

  /** `_align_to_interval_boundary` on a UTC instant: the instant is split into its
      day, hour and minute fields, and the fields below the bucket are zeroed. */
  function Align(t: Instant, w: int): (a: Instant)
    requires w > 0
  {
    var midnight := t / MICROS_PER_DAY * MICROS_PER_DAY;
    var inDay := t % MICROS_PER_DAY;
    var hour := inDay / MICROS_PER_HOUR;
    var minute := inDay % MICROS_PER_HOUR / MICROS_PER_MINUTE;
    if w >= 60 then
      if w == 60 then midnight + hour * MICROS_PER_HOUR
      else if w == 240 then midnight + hour / 4 * 4 * MICROS_PER_HOUR
      else if w == 1440 then midnight
      else midnight + hour * MICROS_PER_HOUR + minute * MICROS_PER_MINUTE
    else midnight + hour * MICROS_PER_HOUR + minute / w * w * MICROS_PER_MINUTE
  }

  /** For every width the checker uses, field-wise alignment is the floor to a
      multiple of the bucket width. */
  lemma AlignIsFloor(t: Instant, w: int)
    requires ValidWidth(w)
    ensures Align(t, w) == t - t % Width(w)
  {
    var day := t / MICROS_PER_DAY;
    var inDay := t % MICROS_PER_DAY;
    var hour := inDay / MICROS_PER_HOUR;
    var inHour := inDay % MICROS_PER_HOUR;
    var minute := inHour / MICROS_PER_MINUTE;
    var inMinute := inHour % MICROS_PER_MINUTE;
    assert t == day * MICROS_PER_DAY + hour * MICROS_PER_HOUR + minute * MICROS_PER_MINUTE + inMinute;
    assert 0 <= hour < 24 && 0 <= minute < 60 && 0 <= inMinute < MICROS_PER_MINUTE;
    var W := Width(w);
    if w == 1 {
      DivModUnique(t, W, day * 1440 + hour * 60 + minute, inMinute);
    } else if w == 5 {
      DivModUnique(t, W, day * 288 + hour * 12 + minute / 5, minute % 5 * MICROS_PER_MINUTE + inMinute);
    } else if w == 15 {
      DivModUnique(t, W, day * 96 + hour * 4 + minute / 15, minute % 15 * MICROS_PER_MINUTE + inMinute);
    } else if w == 30 {
      DivModUnique(t, W, day * 48 + hour * 2 + minute / 30, minute % 30 * MICROS_PER_MINUTE + inMinute);
    } else if w == 60 {
      DivModUnique(t, W, day * 24 + hour, minute * MICROS_PER_MINUTE + inMinute);
    } else if w == 240 {
      DivModUnique(t, W, day * 6 + hour / 4, hour % 4 * MICROS_PER_HOUR + minute * MICROS_PER_MINUTE + inMinute);
    } else {
      DivModUnique(t, W, day, hour * MICROS_PER_HOUR + minute * MICROS_PER_MINUTE + inMinute);
    }
  }

  /** Alignment is a floor: it does not move forward, moves back by less than one
      bucket, lands on a bucket boundary and is idempotent. */
  lemma AlignProperties(t: Instant, w: int)
    requires ValidWidth(w)
    ensures Align(t, w) <= t < Align(t, w) + Width(w)
    ensures Align(t, w) % Width(w) == 0
    ensures Align(Align(t, w), w) == Align(t, w)
  {
    var W := Width(w);
    AlignIsFloor(t, w);
    var a := t - t % W;
    DivModUnique(a, W, t / W, 0);
    AlignIsFloor(a, w);
  }

  /** An instant on a bucket boundary is its own bucket start. */
  lemma AlignOnBoundary(t: Instant, w: int)
    requires ValidWidth(w) && t % Width(w) == 0
    ensures Align(t, w) == t
  {
    AlignIsFloor(t, w);
  }

  /** 2025-08-15 14:23:47.123456 UTC goes to 14:00, 14:15 and 14:20. */
  lemma AlignExample()
    ensures Align(1_755_267_827_123_456, 60) == 1_755_266_400_000_000
    ensures Align(1_755_267_827_123_456, 15) == 1_755_267_300_000_000
    ensures Align(1_755_267_827_123_456, 5) == 1_755_267_600_000_000
  {
  }

  // ---- expected record count -------------------------------------------------------

  /** `int(duration.total_seconds() / 60)` for a duration of `d` microseconds: whole
      minutes, truncated toward zero. */
  function WholeMinutes(d: int): (m: int)
    ensures d >= 0 ==> m * MICROS_PER_MINUTE <= d < (m + 1) * MICROS_PER_MINUTE
    ensures d < 0 ==> m <= 0 && (m - 1) * MICROS_PER_MINUTE < d <= m * MICROS_PER_MINUTE
  {
    if d >= 0 then d / MICROS_PER_MINUTE else -((-d) / MICROS_PER_MINUTE)
  }

  /** `_calculate_expected_records`: whole minutes of the window, floor-divided by the
      interval width.  For a window with start <= end this is the number of whole
      buckets that fit in it; a reversed window gives zero or less. */
  function ExpectedRecords(r: TimeRange, interval: string): (n: int)
    ensures r.start <= r.end ==>
      0 <= n && n * Width(IntervalMinutes(interval)) <= r.end - r.start < (n + 1) * Width(IntervalMinutes(interval))
    ensures r.end < r.start ==> n <= 0
  {
    var w := IntervalMinutes(interval);
    ExpectedBound(r.end - r.start, w);
    WholeMinutes(r.end - r.start) / w
  }

  /** Floor-dividing the whole minutes of a duration by the width gives the number
      of whole buckets in it. */
  lemma ExpectedBound(d: int, w: int)
    requires ValidWidth(w)
    ensures var n := WholeMinutes(d) / w;
      (d >= 0 ==> 0 <= n && n * Width(w) <= d < (n + 1) * Width(w)) && (d < 0 ==> n <= 0)
  {
    // With the width fixed the arithmetic is linear.
    if w == 1 {
    } else if w == 5 {
    } else if w == 15 {
    } else if w == 30 {
    } else if w == 60 {
    } else if w == 240 {
    } else {
    }
  }

  // ---- expected bucket starts ------------------------------------------------------

  /** from, from + step, from + 2 step, ... strictly before `limit`. */
  function Series(from: int, limit: int, step: int): seq<int>
    requires step > 0
    decreases limit - from
  {
    if from < limit then [from] + Series(from + step, limit, step) else []
  }

  /** The series starts at `from`, stays in [from, limit) and moves by `step`. */
  lemma {:induction false} SeriesShape(from: int, limit: int, step: int)
    requires step > 0
    ensures var s := Series(from, limit, step);
      (|s| > 0 <==> from < limit)
      && (|s| > 0 ==> s[0] == from)
      && (forall i :: 0 <= i < |s| ==> from <= s[i] < limit)
      && (forall i :: 0 < i < |s| ==> s[i] == s[i - 1] + step)
    decreases limit - from
  {
    if from < limit {
      SeriesShape(from + step, limit, step);
    }
  }

  function Min(a: int, b: int): (m: int)
    ensures m <= a && m <= b && (m == a || m == b)
  {
    if a <= b then a else b
  }

  /** `_generate_expected_timestamps`: the bucket starts from the start's bucket,
      strictly before min(end, now). */
  function ExpectedTimestamps(start: Instant, end: Instant, w: int, now: Instant): (s: seq<Instant>)
    requires ValidWidth(w)
  {
    Series(Align(start, w), Min(end, now), Width(w))
  }

  method GenerateExpectedTimestamps(start: Instant, end: Instant, w: int, now: Instant)
    returns (timestamps: seq<Instant>)
    requires ValidWidth(w)
    ensures timestamps == ExpectedTimestamps(start, end, w, now)
  {
    var step := Width(w);
    var first := Align(start, w);
    timestamps := [];
    var current := first;
    var effectiveEnd := Min(end, now);
    while current < effectiveEnd
      invariant timestamps + Series(current, effectiveEnd, step) == Series(first, effectiveEnd, step)
      decreases effectiveEnd - current
    {
      ghost var rest := Series(current + step, effectiveEnd, step);
      assert Series(current, effectiveEnd, step) == [current] + rest;
      assert timestamps + ([current] + rest) == (timestamps + [current]) + rest;
      timestamps := timestamps + [current];
      current := current + step;
    }
  }

  lemma {:induction false} SeriesIncreasing(from: int, limit: int, step: int)
    requires step > 0
    ensures Sorting.StrictlyIncreasing(Series(from, limit, step))
    decreases limit - from
  {
    if from < limit {
      SeriesIncreasing(from + step, limit, step);
      SeriesShape(from + step, limit, step);
    }
  }

  /** Starting on a boundary, the series holds exactly the boundaries in [from, limit). */
  lemma {:induction false} SeriesMembers(from: int, limit: int, step: int, x: int)
    requires step > 0 && from % step == 0
    ensures x in Series(from, limit, step) <==> from <= x < limit && x % step == 0
    decreases limit - from
  {
    if from < limit {
      MultipleSum(from, step, step);
      SeriesMembers(from + step, limit, step, x);
      if from < x && x % step == 0 {
        MultiplesApart(from, x, step);
      }
    }
  }

  /** The expected starts are exactly the bucket boundaries from the start's bucket up
      to, and not including, min(end, now); nothing at or after `now` is expected. */
  lemma ExpectedTimestampsMembers(start: Instant, end: Instant, w: int, now: Instant, x: Instant)
    requires ValidWidth(w)
    ensures x in ExpectedTimestamps(start, end, w, now) <==>
      Align(start, w) <= x < end && x < now && x % Width(w) == 0
  {
    AlignProperties(start, w);
    SeriesMembers(Align(start, w), Min(end, now), Width(w), x);
  }

  // ---- buckets present in the local data ------------------------------------------

  function Last<T>(s: seq<T>): T
    requires |s| > 0
  {
    s[|s| - 1]
  }

  /** The bucket a record belongs to: its open time, aligned. */
  function RecordBucket(rec: Record, w: int): Instant
    requires w > 0
  {
    Align(FromMillis(rec.openTime), w)
  }

  /** The set of buckets that some record of `data` falls in. */
  function Buckets(data: seq<Record>, w: int): (b: set<Instant>)
    requires w > 0
    ensures forall i :: 0 <= i < |data| ==> RecordBucket(data[i], w) in b
    ensures forall x :: x in b ==> exists i :: 0 <= i < |data| && RecordBucket(data[i], w) == x
  {
    if |data| == 0 then {}
    else
      var init := data[..|data| - 1];
      assert forall i :: 0 <= i < |init| ==> init[i] == data[i];
      Buckets(init, w) + {RecordBucket(Last(data), w)}
  }

  /** The elements of `expected` that are not in `present`, in their order. */
  function Missing(expected: seq<Instant>, present: set<Instant>): (m: seq<Instant>)
    ensures forall x :: x in m <==> x in expected && x !in present
    ensures |m| <= |expected|
  {
    if |expected| == 0 then []
    else
      var init := expected[..|expected| - 1];
      assert expected == init + [Last(expected)];
      Missing(init, present) + (if Last(expected) in present then [] else [Last(expected)])
  }

  /** Nothing is missing when every expected instant is present. */
  lemma {:induction false} NothingMissing(expected: seq<Instant>, present: set<Instant>)
    requires forall i :: 0 <= i < |expected| ==> expected[i] in present
    ensures Missing(expected, present) == []
  {
    if |expected| > 0 {
      NothingMissing(expected[..|expected| - 1], present);
    }
  }

  lemma {:induction false} MissingIncreasing(expected: seq<Instant>, present: set<Instant>)
    requires Sorting.StrictlyIncreasing(expected)
    ensures Sorting.StrictlyIncreasing(Missing(expected, present))
  {
    if |expected| > 0 {
      var init := expected[..|expected| - 1];
      assert forall i :: 0 <= i < |init| ==> init[i] == expected[i];
      MissingIncreasing(init, present);
      var m0 := Missing(init, present);
      forall x | x in m0 ensures x < Last(expected) {
        var i :| 0 <= i < |init| && init[i] == x;
      }
      if Last(expected) !in present {
        Sorting.AppendIncreasing(m0, Last(expected));
      } else {
        assert Missing(expected, present) == m0;
      }
    }
  }

  // ---- runs of consecutive missing buckets -----------------------------------------

  /** Splits `s` into maximal runs in which each element is the previous one plus
      `step`, scanning left to right as `_group_missing_timestamps_to_gaps` does. */
  function Runs(s: seq<int>, step: int): (rs: seq<seq<int>>)
    ensures |rs| == 0 <==> |s| == 0
    ensures forall k :: 0 <= k < |rs| ==> |rs[k]| > 0
  {
    if |s| == 0 then []
    else
      var init := Runs(s[..|s| - 1], step);
      var x := Last(s);
      if |init| > 0 && x == Last(Last(init)) + step then init[..|init| - 1] + [Last(init) + [x]]
      else init + [[x]]
  }

  /** One step of the scan: appending `x` extends the last run or opens a new one. */
  lemma RunsSnoc(s: seq<int>, x: int, step: int)
    ensures var rs0 := Runs(s, step);
      Runs(s + [x], step)
      == if |rs0| > 0 && x == Last(Last(rs0)) + step then rs0[..|rs0| - 1] + [Last(rs0) + [x]]
         else rs0 + [[x]]
  {
    assert (s + [x])[..|s|] == s;
  }

  /** The scan step in terms of the closed runs and the open one. */
  lemma RunsStep(prefix: seq<int>, x: int, step: int, closed: seq<seq<int>>, group: seq<int>)
    requires |group| > 0 && Runs(prefix, step) == closed + [group]
    ensures Runs(prefix + [x], step)
         == if x == Last(group) + step then closed + [group + [x]] else (closed + [group]) + [[x]]
  {
    RunsSnoc(prefix, x, step);
    assert (closed + [group])[..|closed|] == closed;
  }

  function Flatten(rs: seq<seq<int>>): seq<int> {
    if |rs| == 0 then [] else Flatten(rs[..|rs| - 1]) + Last(rs)
  }

  lemma FlattenSnoc(rs: seq<seq<int>>, run: seq<int>)
    ensures Flatten(rs + [run]) == Flatten(rs) + run
  {
    assert (rs + [run])[..|rs|] == rs;
  }

  /** The last run ends with s's last element. */
  lemma RunsLast(s: seq<int>, step: int)
    requires |s| > 0
    ensures Last(Last(Runs(s, step))) == Last(s)
  {
    RunsSnoc(s[..|s| - 1], Last(s), step);
    assert s == s[..|s| - 1] + [Last(s)];
  }

  /** The runs are a partition of `s` in order. */
  lemma {:induction false} RunsFlatten(s: seq<int>, step: int)
    ensures Flatten(Runs(s, step)) == s
  {
    if |s| > 0 {
      var init, x := s[..|s| - 1], Last(s);
      var rs0 := Runs(init, step);
      RunsFlatten(init, step);
      if |rs0| > 0 && x == Last(Last(rs0)) + step {
        FlattenExtend(rs0, x);
      } else {
        FlattenSnoc(rs0, [x]);
      }
      assert s == init + [x];
    }
  }

  /** Extending the last run extends the flattening by the same element. */
  lemma FlattenExtend(rs: seq<seq<int>>, x: int)
    requires |rs| > 0
    ensures Flatten(rs[..|rs| - 1] + [Last(rs) + [x]]) == Flatten(rs) + [x]
  {
    var closed, open := rs[..|rs| - 1], Last(rs);
    FlattenSnoc(closed, open + [x]);
    Sorting.AppendAssoc(Flatten(closed), open, [x]);
  }

  /** Each element is the previous one plus `step`. */
  predicate Consecutive(run: seq<int>, step: int) {
    forall j :: 0 < j < |run| ==> run[j] == run[j - 1] + step
  }

  predicate AllConsecutive(rs: seq<seq<int>>, step: int) {
    forall k :: 0 <= k < |rs| ==> Consecutive(rs[k], step)
  }

  /** Inside a run each element is the previous one plus `step`. */
  lemma {:induction false} RunsConsecutive(s: seq<int>, step: int)
    ensures AllConsecutive(Runs(s, step), step)
  {
    if |s| > 0 {
      var init, x := s[..|s| - 1], Last(s);
      var rs0 := Runs(init, step);
      RunsConsecutive(init, step);
      if |rs0| > 0 && x == Last(Last(rs0)) + step {
        ExtendKeepsConsecutive(rs0, x, step);
      } else {
        var after := rs0 + [[x]];
        assert forall k :: 0 <= k < |rs0| ==> after[k] == rs0[k];
      }
    }
  }

  lemma ExtendKeepsConsecutive(rs: seq<seq<int>>, x: int, step: int)
    requires |rs| > 0 && |Last(rs)| > 0 && x == Last(Last(rs)) + step
    requires AllConsecutive(rs, step)
    ensures AllConsecutive(rs[..|rs| - 1] + [Last(rs) + [x]], step)
  {
    var after := rs[..|rs| - 1] + [Last(rs) + [x]];
    assert forall k :: 0 <= k < |rs| - 1 ==> after[k] == rs[k];
    assert Consecutive(rs[|rs| - 1], step);
  }

  /** No run starts one step after the end of the run before it. */
  predicate Maximal(rs: seq<seq<int>>, step: int)
    requires forall k :: 0 <= k < |rs| ==> |rs[k]| > 0
  {
    forall k :: 0 < k < |rs| ==> rs[k][0] != Last(rs[k - 1]) + step
  }

  /** Runs are maximal: a run never starts one step after the end of the run before it. */
  lemma {:induction false} RunsMaximal(s: seq<int>, step: int)
    ensures Maximal(Runs(s, step), step)
  {
    if |s| > 0 {
      var init, x := s[..|s| - 1], Last(s);
      var rs0 := Runs(init, step);
      RunsMaximal(init, step);
      if |rs0| > 0 && x == Last(Last(rs0)) + step {
        ExtendKeepsMaximal(rs0, x, step);
      } else {
        OpenKeepsMaximal(rs0, x, step);
      }
    }
  }

  lemma ExtendKeepsMaximal(rs: seq<seq<int>>, x: int, step: int)
    requires |rs| > 0 && forall k :: 0 <= k < |rs| ==> |rs[k]| > 0
    requires Maximal(rs, step)
    ensures Maximal(rs[..|rs| - 1] + [Last(rs) + [x]], step)
  {
    var after := rs[..|rs| - 1] + [Last(rs) + [x]];
    assert forall k :: 0 <= k < |rs| - 1 ==> after[k] == rs[k];
    assert after[|rs| - 1][0] == rs[|rs| - 1][0];
  }

  lemma OpenKeepsMaximal(rs: seq<seq<int>>, x: int, step: int)
    requires forall k :: 0 <= k < |rs| ==> |rs[k]| > 0
    requires Maximal(rs, step)
    requires |rs| > 0 ==> x != Last(Last(rs)) + step
    ensures Maximal(rs + [[x]], step)
  {
    var after := rs + [[x]];
    assert forall k :: 0 <= k < |rs| ==> after[k] == rs[k];
  }

  /** Every element of a run is an element of `s`. */
  lemma RunsMembers(s: seq<int>, step: int)
    ensures var rs := Runs(s, step);
      forall k, j :: 0 <= k < |rs| && 0 <= j < |rs[k]| ==> rs[k][j] in s
  {
    var rs := Runs(s, step);
    RunsFlatten(s, step);
    forall k, j | 0 <= k < |rs| && 0 <= j < |rs[k]| ensures rs[k][j] in s {
      FlattenMember(rs, k, j);
    }
  }

  lemma {:induction false} FlattenMember(rs: seq<seq<int>>, k: int, j: int)
    requires 0 <= k < |rs| && 0 <= j < |rs[k]|
    ensures rs[k][j] in Flatten(rs)
  {
    var init := rs[..|rs| - 1];
    if k < |rs| - 1 {
      assert rs[k] == init[k];
      FlattenMember(init, k, j);
    } else {
      assert Flatten(rs) == Flatten(init) + rs[k];
      assert Flatten(rs)[|Flatten(init)| + j] == rs[k][j];
    }
  }

  /** Each run ends before the next one starts. */
  predicate RunsAscend(rs: seq<seq<int>>)
    requires forall k :: 0 <= k < |rs| ==> |rs[k]| > 0
  {
    forall k :: 0 < k < |rs| ==> Last(rs[k - 1]) < rs[k][0]
  }

  /** In a strictly increasing sequence, each run ends before the next run starts. */
  lemma {:induction false} RunsOrdered(s: seq<int>, step: int)
    requires Sorting.StrictlyIncreasing(s)
    ensures RunsAscend(Runs(s, step))
  {
    if |s| > 0 {
      var init, x := s[..|s| - 1], Last(s);
      var rs0 := Runs(init, step);
      PrefixIncreasing(s);
      RunsOrdered(init, step);
      if |rs0| > 0 && x == Last(Last(rs0)) + step {
        ExtendKeepsAscend(rs0, x);
      } else {
        if |rs0| > 0 {
          RunsLast(init, step);
        }
        OpenKeepsAscend(rs0, x);
      }
    }
  }

  lemma PrefixIncreasing(s: seq<int>)
    requires |s| > 0 && Sorting.StrictlyIncreasing(s)
    ensures Sorting.StrictlyIncreasing(s[..|s| - 1])
    ensures |s| > 1 ==> s[|s| - 2] < Last(s)
  {
  }

  lemma ExtendKeepsAscend(rs: seq<seq<int>>, x: int)
    requires |rs| > 0 && forall k :: 0 <= k < |rs| ==> |rs[k]| > 0
    requires RunsAscend(rs)
    ensures RunsAscend(rs[..|rs| - 1] + [Last(rs) + [x]])
  {
    var after := rs[..|rs| - 1] + [Last(rs) + [x]];
    assert forall k :: 0 <= k < |rs| - 1 ==> after[k] == rs[k];
    assert after[|rs| - 1][0] == rs[|rs| - 1][0];
  }

  lemma OpenKeepsAscend(rs: seq<seq<int>>, x: int)
    requires forall k :: 0 <= k < |rs| ==> |rs[k]| > 0
    requires RunsAscend(rs)
    requires |rs| > 0 ==> Last(Last(rs)) < x
    ensures RunsAscend(rs + [[x]])
  {
    var after := rs + [[x]];
    assert forall k :: 0 <= k < |rs| ==> after[k] == rs[k];
  }

  /** A run whose elements lie on boundaries holds every boundary between its ends. */
  lemma {:induction false} RunCoversBoundaries(run: seq<int>, step: int, x: int)
    requires step > 0 && |run| > 0
    requires Consecutive(run, step)
    requires run[0] % step == 0 && x % step == 0 && run[0] <= x <= Last(run)
    ensures x in run
  {
    if |run| > 1 {
      var init := run[..|run| - 1];
      if x <= Last(init) {
        RunCoversBoundaries(init, step, x);
      } else {
        AlignedRun(init, step);
        MultiplesApart(Last(init), x, step);
      }
    }
  }

  lemma {:induction false} AlignedRun(run: seq<int>, step: int)
    requires step > 0 && |run| > 0
    requires Consecutive(run, step)
    requires run[0] % step == 0
    ensures Last(run) % step == 0 && run[0] <= Last(run)
  {
    if |run| > 1 {
      AlignedRun(run[..|run| - 1], step);
      MultipleSum(run[|run| - 2], step, step);
    }
  }

  // ---- gaps --------------------------------------------------------------------------

  datatype GapType = MissingRecords | PreciseMissingRecords
  datatype Severity = Low | Medium | High

  datatype DataGap = DataGap(
    start: Instant,
    end: Instant,
    gapType: GapType,
    expectedCount: int,
    actualCount: int,
    severity: Severity)

  function GapStart(g: DataGap): int { g.start }

  function Identity(x: int): int { x }

  /** Ten or more missing buckets are high, three or more medium, fewer low. */
  function SeverityOf(count: int): Severity {
    if count >= 10 then High else if count >= 3 then Medium else Low
  }

  /** `_create_gap_from_timestamps`: from `start` to one microsecond before the bucket
      after the group's last timestamp. */
  function CreateGap(start: Instant, group: seq<Instant>, w: int): (g: DataGap)
    requires ValidWidth(w) && |group| > 0
    ensures g.end + 1 == Last(group) + Width(w) && g.expectedCount == |group| && g.actualCount == 0
  {
    DataGap(start, Last(group) + Width(w) - 1, PreciseMissingRecords, |group|,
            0, SeverityOf(|group|))
  }

  function GapsOfRuns(rs: seq<seq<Instant>>, w: int): (gs: seq<DataGap>)
    requires ValidWidth(w) && forall k :: 0 <= k < |rs| ==> |rs[k]| > 0
    ensures |gs| == |rs|
  {
    seq(|rs|, k requires 0 <= k < |rs| => CreateGap(rs[k][0], rs[k], w))
  }

  lemma GapsOfRunsSnoc(rs: seq<seq<Instant>>, run: seq<Instant>, w: int)
    requires ValidWidth(w) && |run| > 0 && forall k :: 0 <= k < |rs| ==> |rs[k]| > 0
    ensures GapsOfRuns(rs + [run], w) == GapsOfRuns(rs, w) + [CreateGap(run[0], run, w)]
  {
    assert forall k :: 0 <= k < |rs| ==> (rs + [run])[k] == rs[k];
  }

  /** `_group_missing_timestamps_to_gaps`: sort, split into runs, one gap per run. */
  function GroupGaps(missing: seq<Instant>, w: int): seq<DataGap>
    requires ValidWidth(w)
  {
    GapsOfRuns(Runs(Sorting.SortBy(missing, Identity), Width(w)), w)
  }

  method GroupMissingTimestamps(missing: seq<Instant>, w: int) returns (gaps: seq<DataGap>)
    requires ValidWidth(w)
    ensures gaps == GroupGaps(missing, w)
  {
    if |missing| == 0 {
      return [];
    }
    var step := Width(w);
    var ms := Sorting.SortBy(missing, Identity);
    gaps := [];
    var groupStart := ms[0];
    var group := [ms[0]];
    ghost var closed: seq<seq<Instant>> := [];
    assert ms[..1] == [ms[0]];
    for i := 1 to |ms|
      invariant |group| > 0 && groupStart == group[0]
      invariant Runs(ms[..i], step) == closed + [group]
      invariant forall k :: 0 <= k < |closed| ==> |closed[k]| > 0
      invariant gaps == GapsOfRuns(closed, w)
    {
      assert ms[..i + 1] == ms[..i] + [ms[i]];
      RunsStep(ms[..i], ms[i], step, closed, group);
      var expectedNext := group[|group| - 1] + step;
      if ms[i] == expectedNext {
        group := group + [ms[i]];
      } else {
        GapsOfRunsSnoc(closed, group, w);
        gaps := gaps + [CreateGap(groupStart, group, w)];
        closed := closed + [group];
        groupStart := ms[i];
        group := [ms[i]];
      }
    }
    GapsOfRunsSnoc(closed, group, w);
    gaps := gaps + [CreateGap(groupStart, group, w)];
    assert ms[..|ms|] == ms;
  }

  /** Sum of the expected counts of a list of gaps. */
  function TotalExpected(gs: seq<DataGap>): int {
    if |gs| == 0 then 0 else TotalExpected(gs[..|gs| - 1]) + Last(gs).expectedCount
  }

  lemma {:induction false} TotalExpectedRuns(rs: seq<seq<Instant>>, w: int)
    requires ValidWidth(w) && forall k :: 0 <= k < |rs| ==> |rs[k]| > 0
    ensures TotalExpected(GapsOfRuns(rs, w)) == |Flatten(rs)|
  {
    if |rs| > 0 {
      var init := rs[..|rs| - 1];
      TotalExpectedRuns(init, w);
      assert GapsOfRuns(rs, w)[..|rs| - 1] == GapsOfRuns(init, w);
    }
  }

  /** The gaps of a strictly increasing list of bucket starts, one per maximal run:
      each starts at its run's first bucket, ends just before the bucket after its run,
      counts its run, and the counts add up to the number of missing buckets. */
  lemma GroupGapsRuns(missing: seq<Instant>, w: int)
    requires ValidWidth(w) && Sorting.StrictlyIncreasing(missing)
    ensures var rs := Runs(missing, Width(w));
      var gs := GroupGaps(missing, w);
      |gs| == |rs|
      && (forall k :: 0 <= k < |gs| ==>
            gs[k].start == rs[k][0] && gs[k].end + 1 == Last(rs[k]) + Width(w)
            && gs[k].expectedCount == |rs[k]| && gs[k].severity == SeverityOf(|rs[k]|))
      && TotalExpected(gs) == |missing|
  {
    Sorting.SortBySorted(missing, Identity);
    RunsFlatten(missing, Width(w));
    TotalExpectedRuns(Runs(missing, Width(w)), w);
  }

  /** Runs of aligned buckets start and end on a boundary, and each ends no earlier
      than it starts. */
  predicate AlignedRuns(rs: seq<seq<int>>, step: int)
    requires step > 0 && forall k :: 0 <= k < |rs| ==> |rs[k]| > 0
  {
    forall k :: 0 <= k < |rs| ==> rs[k][0] % step == 0 && Last(rs[k]) % step == 0 && rs[k][0] <= Last(rs[k])
  }

  lemma RunsAligned(missing: seq<Instant>, step: int)
    requires step > 0
    requires forall i :: 0 <= i < |missing| ==> missing[i] % step == 0
    ensures AlignedRuns(Runs(missing, step), step)
  {
    var rs := Runs(missing, step);
    RunsConsecutive(missing, step);
    RunsMembers(missing, step);
    forall k | 0 <= k < |rs|
      ensures rs[k][0] % step == 0 && Last(rs[k]) % step == 0 && rs[k][0] <= Last(rs[k])
    {
      assert rs[k][0] in missing;
      assert Consecutive(rs[k], step);
      AlignedRun(rs[k], step);
    }
  }

  /** Consecutive runs of aligned, strictly increasing buckets leave at least one
      boundary between them. */
  lemma RunsApart(missing: seq<Instant>, step: int)
    requires step > 0 && Sorting.StrictlyIncreasing(missing)
    requires forall i :: 0 <= i < |missing| ==> missing[i] % step == 0
    ensures var rs := Runs(missing, step);
      forall k :: 0 < k < |rs| ==> Last(rs[k - 1]) + 2 * step <= rs[k][0]
  {
    var rs := Runs(missing, step);
    RunsAligned(missing, step);
    RunsMaximal(missing, step);
    RunsOrdered(missing, step);
    forall k | 0 < k < |rs| ensures Last(rs[k - 1]) + 2 * step <= rs[k][0] {
      var a, b := Last(rs[k - 1]), rs[k][0];
      assert rs[k - 1][0] % step == 0 && a % step == 0;
      assert b % step == 0 && a < b && b != a + step;
      MultiplesApart(a, b, step);
      MultipleSum(a, step, step);
      MultiplesApart(a + step, b, step);
    }
  }

  /** Gaps over boundary-aligned, strictly increasing buckets are sorted and disjoint,
      with at least one present bucket between consecutive gaps. */
  lemma GroupGapsDisjoint(missing: seq<Instant>, w: int)
    requires ValidWidth(w) && Sorting.StrictlyIncreasing(missing)
    requires forall i :: 0 <= i < |missing| ==> missing[i] % Width(w) == 0
    ensures var gs := GroupGaps(missing, w);
      (forall k :: 0 <= k < |gs| ==> gs[k].start <= gs[k].end)
      && (forall k :: 0 < k < |gs| ==> gs[k - 1].end + Width(w) < gs[k].start)
  {
    GroupGapsRuns(missing, w);
    RunsAligned(missing, Width(w));
    RunsApart(missing, Width(w));
  }

  predicate InSomeGap(x: Instant, gs: seq<DataGap>) {
    exists k :: 0 <= k < |gs| && gs[k].start <= x <= gs[k].end
  }

  /** A bucket boundary lies inside one of the gaps exactly when it is one of the
      missing buckets. */
  lemma GroupGapsCoverMissing(missing: seq<Instant>, w: int, x: Instant)
    requires ValidWidth(w) && Sorting.StrictlyIncreasing(missing)
    requires forall i :: 0 <= i < |missing| ==> missing[i] % Width(w) == 0
    requires x % Width(w) == 0
    ensures InSomeGap(x, GroupGaps(missing, w)) <==> x in missing
  {
    if x in missing {
      MissingInSomeGap(missing, w, x);
    }
    if InSomeGap(x, GroupGaps(missing, w)) {
      InSomeGapMissing(missing, w, x);
    }
  }

  lemma MissingInSomeGap(missing: seq<Instant>, w: int, x: Instant)
    requires ValidWidth(w) && Sorting.StrictlyIncreasing(missing)
    requires x in missing
    ensures InSomeGap(x, GroupGaps(missing, w))
  {
    var gs := GroupGaps(missing, w);
    var k := RunHolding(missing, Width(w), x);
    GroupGapsRuns(missing, w);
    assert gs[k].start <= x <= gs[k].end;
  }

  /** The run of `s` that holds one of its elements. */
  lemma RunHolding(s: seq<int>, step: int, x: int) returns (k: int)
    requires step > 0 && x in s
    ensures var rs := Runs(s, step); 0 <= k < |rs| && rs[k][0] <= x <= Last(rs[k])
  {
    var rs := Runs(s, step);
    RunsConsecutive(s, step);
    RunsFlatten(s, step);
    var i :| 0 <= i < |s| && s[i] == x;
    var j;
    k, j := FlattenIndex(rs, i);
    RunElementBounds(rs[k], step, j);
  }

  lemma InSomeGapMissing(missing: seq<Instant>, w: int, x: Instant)
    requires ValidWidth(w) && Sorting.StrictlyIncreasing(missing)
    requires forall i :: 0 <= i < |missing| ==> missing[i] % Width(w) == 0
    requires x % Width(w) == 0
    requires InSomeGap(x, GroupGaps(missing, w))
    ensures x in missing
  {
    var step := Width(w);
    var rs := Runs(missing, step);
    var gs := GroupGaps(missing, w);
    GroupGapsRuns(missing, w);
    RunsAligned(missing, step);
    var k :| 0 <= k < |gs| && gs[k].start <= x <= gs[k].end;
    var run := rs[k];
    assert run[0] % step == 0 && Last(run) % step == 0;
    if x > Last(run) {
      MultiplesApart(Last(run), x, step);
    }
    RunsConsecutive(missing, step);
    assert Consecutive(run, step);
    RunCoversBoundaries(run, step, x);
    RunsMembers(missing, step);
    var j :| 0 <= j < |run| && run[j] == x;
    assert rs[k][j] in missing;
  }

  lemma {:induction false} RunElementBounds(run: seq<int>, step: int, j: int)
    requires step > 0 && 0 <= j < |run|
    requires Consecutive(run, step)
    ensures run[0] <= run[j] <= Last(run)
  {
    if j < |run| - 1 {
      RunElementBounds(run[..|run| - 1], step, j);
    } else if j > 0 {
      RunElementBounds(run[..|run| - 1], step, j - 1);
    }
  }

  lemma {:induction false} FlattenIndex(rs: seq<seq<int>>, i: int) returns (k: int, j: int)
    requires 0 <= i < |Flatten(rs)|
    ensures 0 <= k < |rs| && 0 <= j < |rs[k]| && rs[k][j] == Flatten(rs)[i]
  {
    var init := rs[..|rs| - 1];
    if i < |Flatten(init)| {
      k, j := FlattenIndex(init, i);
      assert rs[k] == init[k];
    } else {
      k, j := |rs| - 1, i - |Flatten(init)|;
    }
  }

  // ---- repair ranges -----------------------------------------------------------------

  function Max(a: int, b: int): (m: int)
    ensures m >= a && m >= b && (m == a || m == b)
  {
    if a >= b then a else b
  }

  /** Gaps closer than this to the current repair range join it. */
  const MERGE_DISTANCE: int := MICROS_PER_HOUR

  /** The range-merging loop of `_generate_repair_ranges` over gaps in order. */
  function Coalesce(gs: seq<DataGap>): seq<TimeRange> {
    if |gs| == 0 then []
    else
      var init := Coalesce(gs[..|gs| - 1]);
      var g := Last(gs);
      if |init| == 0 then [TimeRange(g.start, g.end)]
      else if g.start - Last(init).end <= MERGE_DISTANCE then
        init[..|init| - 1] + [TimeRange(Last(init).start, Max(Last(init).end, g.end))]
      else init + [TimeRange(g.start, g.end)]
  }

  lemma CoalesceSnoc(gs: seq<DataGap>, g: DataGap)
    ensures var init := Coalesce(gs);
      Coalesce(gs + [g])
      == if |init| == 0 then [TimeRange(g.start, g.end)]
         else if g.start - Last(init).end <= MERGE_DISTANCE then
           init[..|init| - 1] + [TimeRange(Last(init).start, Max(Last(init).end, g.end))]
         else init + [TimeRange(g.start, g.end)]
  {
    assert (gs + [g])[..|gs|] == gs;
  }

  /** `_generate_repair_ranges`: coalesce the gaps in order of start time. */
  function RepairRanges(gaps: seq<DataGap>): seq<TimeRange> {
    if |gaps| == 0 then [] else Coalesce(Sorting.SortBy(gaps, GapStart))
  }

  method GenerateRepairRanges(gaps: seq<DataGap>) returns (ranges: seq<TimeRange>)
    ensures ranges == RepairRanges(gaps)
  {
    if |gaps| == 0 {
      return [];
    }
    var sorted := Sorting.SortBy(gaps, GapStart);
    ranges := [];
    var currentStart := sorted[0].start;
    var currentEnd := sorted[0].end;
    assert sorted[..1] == [sorted[0]];
    for i := 1 to |sorted|
      invariant Coalesce(sorted[..i]) == ranges + [TimeRange(currentStart, currentEnd)]
    {
      assert sorted[..i + 1] == sorted[..i] + [sorted[i]];
      CoalesceSnoc(sorted[..i], sorted[i]);
      var gap := sorted[i];
      if gap.start - currentEnd <= MERGE_DISTANCE {
        currentEnd := Max(currentEnd, gap.end);
      } else {
        ranges := ranges + [TimeRange(currentStart, currentEnd)];
        currentStart := gap.start;
        currentEnd := gap.end;
      }
    }
    ranges := ranges + [TimeRange(currentStart, currentEnd)];
    assert sorted[..|sorted|] == sorted;
  }

  lemma {:induction false} CoalesceNonEmpty(gs: seq<DataGap>)
    ensures |Coalesce(gs)| == 0 <==> |gs| == 0
  {
    if |gs| > 0 {
      CoalesceNonEmpty(gs[..|gs| - 1]);
    }
  }

  /** Each range starts more than an hour after the one before it ends. */
  predicate Separated(rs: seq<TimeRange>) {
    forall k :: 0 < k < |rs| ==> rs[k].start - rs[k - 1].end > MERGE_DISTANCE
  }

  /** Consecutive repair ranges are more than one hour apart. */
  lemma {:induction false} CoalesceSeparated(gs: seq<DataGap>)
    ensures Separated(Coalesce(gs))
  {
    if |gs| > 0 {
      var init := Coalesce(gs[..|gs| - 1]);
      CoalesceSeparated(gs[..|gs| - 1]);
      var g := Last(gs);
      if |init| > 0 && g.start - Last(init).end <= MERGE_DISTANCE {
        WidenKeepsSeparated(init, Max(Last(init).end, g.end));
      } else if |init| > 0 {
        AppendKeepsSeparated(init, TimeRange(g.start, g.end));
      }
    }
  }

  lemma WidenKeepsSeparated(rs: seq<TimeRange>, end: Instant)
    requires |rs| > 0 && Separated(rs)
    ensures Separated(rs[..|rs| - 1] + [TimeRange(Last(rs).start, end)])
  {
    var after := rs[..|rs| - 1] + [TimeRange(Last(rs).start, end)];
    assert forall k :: 0 <= k < |rs| - 1 ==> after[k] == rs[k];
    assert after[|rs| - 1].start == rs[|rs| - 1].start;
  }

  lemma AppendKeepsSeparated(rs: seq<TimeRange>, r: TimeRange)
    requires |rs| > 0 && Separated(rs) && r.start - Last(rs).end > MERGE_DISTANCE
    ensures Separated(rs + [r])
  {
    var after := rs + [r];
    assert forall k :: 0 <= k < |rs| ==> after[k] == rs[k];
  }

  /** Ranges built from gaps with start <= end also have start <= end. */
  lemma {:induction false} CoalesceWellFormed(gs: seq<DataGap>)
    requires forall i :: 0 <= i < |gs| ==> gs[i].start <= gs[i].end
    ensures var rs := Coalesce(gs); forall k :: 0 <= k < |rs| ==> rs[k].start <= rs[k].end
  {
    if |gs| > 0 {
      var pre := gs[..|gs| - 1];
      assert forall i :: 0 <= i < |pre| ==> pre[i] == gs[i];
      CoalesceWellFormed(pre);
      var init := Coalesce(pre);
      var rs := Coalesce(gs);
      assert gs == pre + [Last(gs)];
      CoalesceSnoc(pre, Last(gs));
      forall k | 0 <= k < |rs| ensures rs[k].start <= rs[k].end {
        if k < |init| - 1 {
          assert rs[k] == init[k];
        }
      }
    }
  }

  predicate Covered(g: DataGap, rs: seq<TimeRange>) {
    exists k :: 0 <= k < |rs| && rs[k].start <= g.start && g.end <= rs[k].end
  }

  predicate AllCovered(gs: seq<DataGap>, rs: seq<TimeRange>) {
    forall i :: 0 <= i < |gs| ==> Covered(gs[i], rs)
  }

  /** Widening the last range to take in one more gap keeps every gap covered. */
  lemma WidenKeepsCovered(pre: seq<DataGap>, init: seq<TimeRange>, g: DataGap, end: int)
    requires AllCovered(pre, init) && |init| > 0
    requires Last(init).end <= end && Last(init).start <= g.start && g.end <= end
    ensures AllCovered(pre + [g], init[..|init| - 1] + [TimeRange(Last(init).start, end)])
  {
    var rs := init[..|init| - 1] + [TimeRange(Last(init).start, end)];
    forall i | 0 <= i < |pre + [g]| ensures Covered((pre + [g])[i], rs) {
      if i < |pre| {
        var x := pre[i];
        assert Covered(x, init);
        var k :| 0 <= k < |init| && init[k].start <= x.start && x.end <= init[k].end;
        assert rs[k].start == init[k].start && rs[k].end >= init[k].end;
      } else {
        assert rs[|rs| - 1].start <= g.start && g.end <= rs[|rs| - 1].end;
      }
    }
  }

  /** Appending a range for one more gap keeps every gap covered. */
  lemma AppendKeepsCovered(pre: seq<DataGap>, init: seq<TimeRange>, g: DataGap)
    requires AllCovered(pre, init)
    ensures AllCovered(pre + [g], init + [TimeRange(g.start, g.end)])
  {
    var rs := init + [TimeRange(g.start, g.end)];
    forall i | 0 <= i < |pre + [g]| ensures Covered((pre + [g])[i], rs) {
      if i < |pre| {
        var x := pre[i];
        assert Covered(x, init);
        var k :| 0 <= k < |init| && init[k].start <= x.start && x.end <= init[k].end;
        assert rs[k] == init[k];
      } else {
        assert rs[|rs| - 1] == TimeRange(g.start, g.end);
      }
    }
  }

  /** Over gaps sorted by start, the last range starts no later than the last gap. */
  lemma {:induction false} CoalesceLast(gs: seq<DataGap>)
    requires Sorting.SortedBy(gs, GapStart)
    ensures |gs| > 0 ==> |Coalesce(gs)| > 0 && Last(Coalesce(gs)).start <= Last(gs).start
  {
    if |gs| > 0 {
      var pre := gs[..|gs| - 1];
      assert Sorting.SortedBy(pre, GapStart);
      CoalesceLast(pre);
      if |pre| > 0 {
        assert Last(pre).start <= Last(gs).start;
      }
    }
  }

  /** Over gaps sorted by start, every gap lies inside some repair range. */
  lemma {:induction false} CoalesceCovers(gs: seq<DataGap>)
    requires Sorting.SortedBy(gs, GapStart)
    ensures AllCovered(gs, Coalesce(gs))
  {
    if |gs| > 0 {
      var pre := gs[..|gs| - 1];
      var init := Coalesce(pre);
      var g := Last(gs);
      assert Sorting.SortedBy(pre, GapStart);
      CoalesceCovers(pre);
      if |init| > 0 && g.start - Last(init).end <= MERGE_DISTANCE {
        CoalesceLast(pre);
        assert Last(pre).start <= g.start;
        WidenKeepsCovered(pre, init, g, Max(Last(init).end, g.end));
      } else {
        AppendKeepsCovered(pre, init, g);
      }
      assert gs == pre + [g];
    }
  }

  /** Repair ranges are empty exactly when there are no gaps; otherwise every gap is
      inside a range, and the ranges are in order, more than an hour apart. */
  lemma RepairRangesProperties(gaps: seq<DataGap>)
    ensures |RepairRanges(gaps)| == 0 <==> |gaps| == 0
    ensures forall g :: g in gaps ==> Covered(g, RepairRanges(gaps))
    ensures var rs := RepairRanges(gaps);
      forall k :: 0 < k < |rs| ==> rs[k].start - rs[k - 1].end > MERGE_DISTANCE
  {
    if |gaps| > 0 {
      var sorted := Sorting.SortBy(gaps, GapStart);
      Sorting.SortBySorts(gaps, GapStart);
      Sorting.SortByPermutes(gaps, GapStart);
      CoalesceNonEmpty(sorted);
      CoalesceCovers(sorted);
      CoalesceSeparated(sorted);
      forall g | g in gaps ensures Covered(g, RepairRanges(gaps)) {
        assert g in multiset(sorted);
        var i :| 0 <= i < |sorted| && sorted[i] == g;
      }
    }
  }

  /** Gaps separated by more than an hour each become their own repair range. */
  lemma {:induction false} CoalesceSeparatedGaps(gs: seq<DataGap>)
    requires forall k :: 0 < k < |gs| ==> gs[k].start - gs[k - 1].end > MERGE_DISTANCE
    requires forall k :: 0 <= k < |gs| ==> gs[k].start <= gs[k].end
    ensures Coalesce(gs) == seq(|gs|, k requires 0 <= k < |gs| => TimeRange(gs[k].start, gs[k].end))
  {
    if |gs| > 0 {
      var pre := gs[..|gs| - 1];
      CoalesceSeparatedGaps(pre);
    }
  }

  /** With hourly or longer buckets no two gaps are merged: one present bucket between
      two gaps already puts them more than an hour apart. */
  lemma HourlyGapsNeverMerge(missing: seq<Instant>, w: int)
    requires ValidWidth(w) && w >= 60 && Sorting.StrictlyIncreasing(missing)
    requires forall i :: 0 <= i < |missing| ==> missing[i] % Width(w) == 0
    ensures var gs := GroupGaps(missing, w);
      RepairRanges(gs) == seq(|gs|, k requires 0 <= k < |gs| => TimeRange(gs[k].start, gs[k].end))
  {
    var gs := GroupGaps(missing, w);
    GroupGapsDisjoint(missing, w);
    if |gs| > 0 {
      Sorting.AdjacentSorted(gs, GapStart);
      Sorting.SortBySorted(gs, GapStart);
      CoalesceSeparatedGaps(gs);
    }
  }

  /** Two pairs of consecutive buckets with a hole between them form two runs. */
  lemma RunsOfTwoPairs(a: int, b: int, step: int)
    requires step > 0 && b > a + 2 * step
    ensures Runs([a, a + step, b, b + step], step) == [[a, a + step], [b, b + step]]
  {
    assert Runs([a], step) == [[a]];
    RunsStep([a], a + step, step, [], [a]);
    assert [a] + [a + step] == [a, a + step];
    RunsStep([a, a + step], b, step, [], [a, a + step]);
    assert [a, a + step] + [b] == [a, a + step, b];
    RunsStep([a, a + step, b], b + step, step, [[a, a + step]], [b]);
    assert [a, a + step, b] + [b + step] == [a, a + step, b, b + step];
    assert Last([b]) + step == b + step && [b] + [b + step] == [b, b + step];
    assert [[a, a + step]] + [[b, b + step]] == [[a, a + step], [b, b + step]];
  }

  /** Hourly buckets 05:00, 06:00, 15:00 and 16:00 missing: two low-severity gaps,
      each its own repair range. */
  lemma HourlyGapsExample()
    ensures var m := [5 * MICROS_PER_HOUR, 6 * MICROS_PER_HOUR, 15 * MICROS_PER_HOUR, 16 * MICROS_PER_HOUR];
      var gs := GroupGaps(m, 60);
      |gs| == 2 && gs[0].severity == Low && gs[1].severity == Low
      && gs[0].start == 5 * MICROS_PER_HOUR && gs[0].expectedCount == 2
      && gs[1].start == 15 * MICROS_PER_HOUR && gs[1].expectedCount == 2
      && RepairRanges(gs) == [TimeRange(gs[0].start, gs[0].end), TimeRange(gs[1].start, gs[1].end)]
  {
    var h := MICROS_PER_HOUR;
    var m := [5 * h, 6 * h, 15 * h, 16 * h];
    assert Width(60) == h;
    RunsOfTwoPairs(5 * h, 15 * h, h);
    assert [5 * h, 5 * h + h, 15 * h, 15 * h + h] == m;
    GroupGapsRuns(m, 60);
    HourlyGapsNeverMerge(m, 60);
  }

  // ---- detection and the report --------------------------------------------------------

  /** `_detect_precise_missing_records`: the gaps formed by the expected bucket starts
      that no record's aligned open time hits. */
  function PreciseGaps(r: TimeRange, data: seq<Record>, w: int, now: Instant): seq<DataGap>
    requires ValidWidth(w)
  {
    var expected := ExpectedTimestamps(r.start, r.end, w, now);
    if |expected| == 0 then [] else GroupGaps(Missing(expected, Buckets(data, w)), w)
  }

  method DetectPreciseMissingRecords(r: TimeRange, data: seq<Record>, interval: string, now: Instant)
    returns (gaps: seq<DataGap>)
    ensures gaps == PreciseGaps(r, data, IntervalMinutes(interval), now)
  {
    gaps := [];
    var w := IntervalMinutes(interval);
    var expected := GenerateExpectedTimestamps(r.start, r.end, w, now);
    if |expected| == 0 {
      return;
    }
    var actual := CollectBuckets(data, w);
    var missing := CollectMissing(expected, actual);
    if |missing| > 0 {
      gaps := GroupMissingTimestamps(missing, w);
    }
  }

  /** The set of aligned open times of the records. */
  method CollectBuckets(data: seq<Record>, w: int) returns (actual: set<Instant>)
    requires ValidWidth(w)
    ensures actual == Buckets(data, w)
  {
    actual := {};
    for i := 0 to |data|
      invariant actual == Buckets(data[..i], w)
    {
      assert data[..i + 1][..i] == data[..i];
      actual := actual + {RecordBucket(data[i], w)};
    }
    assert data[..|data|] == data;
  }

  /** The expected bucket starts that are not among the actual ones, in order. */
  method CollectMissing(expected: seq<Instant>, actual: set<Instant>) returns (missing: seq<Instant>)
    ensures missing == Missing(expected, actual)
  {
    missing := [];
    for i := 0 to |expected|
      invariant missing == Missing(expected[..i], actual)
    {
      assert expected[..i + 1][..i] == expected[..i];
      if expected[i] !in actual {
        missing := missing + [expected[i]];
      }
    }
    assert expected[..|expected|] == expected;
  }

  /** `_detect_data_gaps`: with no data, one high-severity gap over the whole window if
      any record is expected; otherwise the precise gaps. */
  function DataGaps(r: TimeRange, interval: string, data: seq<Record>, now: Instant): seq<DataGap> {
    if |data| == 0 then
      var n := ExpectedRecords(r, interval);
      if n > 0 then [DataGap(r.start, r.end, MissingRecords, n, 0, High)] else []
    else PreciseGaps(r, data, IntervalMinutes(interval), now)
  }

  method DetectDataGaps(r: TimeRange, interval: string, data: seq<Record>, now: Instant)
    returns (gaps: seq<DataGap>)
    ensures gaps == DataGaps(r, interval, data, now)
  {
    if |data| == 0 {
      var n := ExpectedRecords(r, interval);
      if n > 0 {
        return [DataGap(r.start, r.end, MissingRecords, n, 0, High)];
      }
      return [];
    }
    gaps := DetectPreciseMissingRecords(r, data, interval, now);
  }

  datatype IntegrityReport = IntegrityReport(
    symbol: string,
    interval: string,
    timeRange: TimeRange,
    totalRecords: int,
    expectedRecords: int,
    completenessRatio: real,
    gaps: seq<DataGap>,
    isHealthy: bool,
    needsRepair: bool,
    repairRanges: seq<TimeRange>)

  /** records / max(expected, 1), exactly. */
  function Completeness(actual: int, expected: int): real {
    actual as real / Max(expected, 1) as real
  }

  predicate HasHighGap(gaps: seq<DataGap>) {
    exists i :: 0 <= i < |gaps| && gaps[i].severity == High
  }

  /** `analyze_data_completeness`. */
  function Analyze(symbol: string, interval: string, r: TimeRange, data: seq<Record>, now: Instant): IntegrityReport {
    if r.start >= now then
      IntegrityReport(symbol, interval, r, 0, 0, 1.0, [], true, false, [])
    else
      var effective := TimeRange(r.start, Min(r.end, now));
      var expected := ExpectedRecords(effective, interval);
      var ratio := Completeness(|data|, expected);
      var gaps := DataGaps(effective, interval, data, now);
      IntegrityReport(symbol, interval, effective, |data|, expected, ratio, gaps,
                      ratio >= 0.999 && |gaps| == 0,
                      ratio < 0.99 || HasHighGap(gaps),
                      RepairRanges(gaps))
  }

  method AnalyzeDataCompleteness(symbol: string, interval: string, r: TimeRange, data: seq<Record>, now: Instant)
    returns (report: IntegrityReport)
    ensures report == Analyze(symbol, interval, r, data, now)
  {
    if r.start >= now {
      return IntegrityReport(symbol, interval, r, 0, 0, 1.0, [], true, false, []);
    }
    var effective := TimeRange(r.start, Min(r.end, now));
    var expected := ExpectedRecords(effective, interval);
    var ratio := Completeness(|data|, expected);
    var gaps := DetectDataGaps(effective, interval, data, now);
    var repair := GenerateRepairRanges(gaps);
    report := IntegrityReport(symbol, interval, effective, |data|, expected, ratio, gaps,
                              ratio >= 0.999 && |gaps| == 0,
                              ratio < 0.99 || HasHighGap(gaps),
                              repair);
  }

  /** A window that starts at or after `now` expects nothing and is healthy. */
  lemma FutureWindowIsHealthy(symbol: string, interval: string, r: TimeRange, data: seq<Record>, now: Instant)
    requires r.start >= now
    ensures var rep := Analyze(symbol, interval, r, data, now);
      rep.expectedRecords == 0 && rep.completenessRatio == 1.0 && rep.gaps == []
      && rep.isHealthy && !rep.needsRepair && rep.repairRanges == [] && rep.timeRange == r
  {
  }

  /** A healthy report never asks for repair. */
  lemma HealthyNeedsNoRepair(symbol: string, interval: string, r: TimeRange, data: seq<Record>, now: Instant)
    ensures var rep := Analyze(symbol, interval, r, data, now);
      rep.isHealthy ==> !rep.needsRepair
  {
  }

  /** With no local records and an elapsed window: completeness 0, repair needed, and
      one high gap spanning the clipped window exactly when some record is expected. */
  lemma EmptyDataReport(symbol: string, interval: string, r: TimeRange, now: Instant)
    requires r.start < now
    ensures var rep := Analyze(symbol, interval, r, [], now);
      var n := ExpectedRecords(TimeRange(r.start, Min(r.end, now)), interval);
      rep.totalRecords == 0 && rep.completenessRatio == 0.0 && rep.needsRepair && !rep.isHealthy
      && rep.gaps == (if n > 0 then [DataGap(r.start, Min(r.end, now), MissingRecords, n, 0, High)] else [])
  {
  }

  /** The missing buckets of a window: boundaries from the start's bucket, before both
      the window's end and `now`, that no record falls in. */
  lemma {:induction false} MissingBucketsMembers(r: TimeRange, data: seq<Record>, w: int, now: Instant, x: Instant)
    requires ValidWidth(w)
    ensures var m := Missing(ExpectedTimestamps(r.start, r.end, w, now), Buckets(data, w));
      (x in m <==> Align(r.start, w) <= x < r.end && x < now && x % Width(w) == 0 && x !in Buckets(data, w))
      && Sorting.StrictlyIncreasing(m)
      && (forall i :: 0 <= i < |m| ==> m[i] % Width(w) == 0)
  {
    var expected := ExpectedTimestamps(r.start, r.end, w, now);
    var m := Missing(expected, Buckets(data, w));
    ExpectedTimestampsMembers(r.start, r.end, w, now, x);
    SeriesIncreasing(Align(r.start, w), Min(r.end, now), Width(w));
    MissingIncreasing(expected, Buckets(data, w));
    forall i | 0 <= i < |m| ensures m[i] % Width(w) == 0 {
      ExpectedTimestampsMembers(r.start, r.end, w, now, m[i]);
    }
  }

  /** The gaps of an elapsed window with local data cover exactly the missing buckets:
      a bucket boundary is inside a reported gap iff it is expected (from the start's
      bucket, before the clipped end) and no record falls in it.  Nothing at or after
      `now` is ever reported. */
  lemma ReportGapsAreMissingBuckets(symbol: string, interval: string, r: TimeRange, data: seq<Record>,
                                    now: Instant, x: Instant)
    requires r.start < now && |data| > 0
    requires x % Width(IntervalMinutes(interval)) == 0
    ensures var rep := Analyze(symbol, interval, r, data, now);
      var w := IntervalMinutes(interval);
      InSomeGap(x, rep.gaps) <==> Align(r.start, w) <= x < Min(r.end, now) && x !in Buckets(data, w)
  {
    var w := IntervalMinutes(interval);
    var eff := TimeRange(r.start, Min(r.end, now));
    var expected := ExpectedTimestamps(eff.start, eff.end, w, now);
    var m := Missing(expected, Buckets(data, w));
    MissingBucketsMembers(eff, data, w, now, x);
    if |expected| == 0 {
      ExpectedTimestampsMembers(eff.start, eff.end, w, now, x);
    } else {
      GroupGapsCoverMissing(m, w, x);
    }
  }

  /** The precise gaps of a window are sorted and disjoint, with a present bucket
      between neighbours, and their expected counts add up to the missing buckets. */
  lemma ReportGapsDisjoint(r: TimeRange, data: seq<Record>, w: int, now: Instant)
    requires ValidWidth(w)
    ensures var gs := PreciseGaps(r, data, w, now);
      (forall k :: 0 <= k < |gs| ==> gs[k].start <= gs[k].end)
      && (forall k :: 0 < k < |gs| ==> gs[k - 1].end + Width(w) < gs[k].start)
      && TotalExpected(gs) == |Missing(ExpectedTimestamps(r.start, r.end, w, now), Buckets(data, w))|
  {
    var expected := ExpectedTimestamps(r.start, r.end, w, now);
    var m := Missing(expected, Buckets(data, w));
    MissingBucketsMembers(r, data, w, now, 0);
    if |expected| > 0 {
      GroupGapsDisjoint(m, w);
      GroupGapsRuns(m, w);
    }
  }

  /** When every expected bucket holds a record there are no gaps. */
  lemma CompleteDataHasNoGaps(r: TimeRange, data: seq<Record>, w: int, now: Instant)
    requires ValidWidth(w)
    requires var e := ExpectedTimestamps(r.start, r.end, w, now);
      forall i :: 0 <= i < |e| ==> e[i] in Buckets(data, w)
    ensures PreciseGaps(r, data, w, now) == []
  {
    var expected := ExpectedTimestamps(r.start, r.end, w, now);
    NothingMissing(expected, Buckets(data, w));
    var m := Missing(expected, Buckets(data, w));
    assert Sorting.SortBy(m, Identity) == [];
  }

  /** As many records as expected, or more, is complete. */
  lemma CompletenessAtLeastOne(actual: int, expected: int)
    requires actual >= Max(expected, 1)
    ensures Completeness(actual, expected) >= 1.0
  {
    var d := Max(expected, 1) as real;
    var q := actual as real / d;
    assert q * d == actual as real;
    if q < 1.0 {
      assert q * d < d;
    }
  }

  /** A window that has elapsed, with a record in every expected bucket and at least
      as many records as expected, is healthy: no gaps, no repair ranges. */
  lemma CompleteDataIsHealthy(symbol: string, interval: string, r: TimeRange, data: seq<Record>, now: Instant)
    requires r.start < now && |data| > 0
    requires var eff := TimeRange(r.start, Min(r.end, now));
      |data| >= ExpectedRecords(eff, interval) &&
      var e := ExpectedTimestamps(eff.start, eff.end, IntervalMinutes(interval), now);
      forall i :: 0 <= i < |e| ==> e[i] in Buckets(data, IntervalMinutes(interval))
    ensures var rep := Analyze(symbol, interval, r, data, now);
      rep.gaps == [] && rep.repairRanges == [] && rep.completenessRatio >= 1.0
      && rep.isHealthy && !rep.needsRepair
  {
    var eff := TimeRange(r.start, Min(r.end, now));
    CompleteDataHasNoGaps(eff, data, IntervalMinutes(interval), now);
    RepairRangesProperties([]);
    CompletenessAtLeastOne(|data|, ExpectedRecords(eff, interval));
  }
}
