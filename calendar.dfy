// Instants, calendar days and "YYYY-MM-DD" strings.
//
// An instant is an integer count of microseconds since the Unix epoch in UTC
// (Python's aware `datetime` has microsecond resolution).  Kline records carry
// their times in milliseconds.  A calendar day is an integer count of days since
// 1970-01-01.
module Calendar {
  import opened Wrappers

  type Instant = int

  const MICROS_PER_SECOND: int := 1_000_000
  const MICROS_PER_MINUTE: int := 60_000_000
  const MICROS_PER_HOUR: int := 3_600_000_000
  const MICROS_PER_DAY: int := 86_400_000_000
  const SECONDS_PER_DAY: int := 86_400

  /** The instant `ms` milliseconds after the epoch (`fromtimestamp(ms / 1000, tz=utc)`). */
  function FromMillis(ms: int): (t: Instant)
    ensures t / 1000 == ms && t % 1000 == 0
  {
    ms * 1000
  }

  /** Midnight UTC of calendar day `day`. */
  function Midnight(day: int): (t: Instant)
    ensures t % MICROS_PER_DAY == 0 && t / MICROS_PER_DAY == day
  {
    day * MICROS_PER_DAY
  }

  /** The calendar day that a wall clock `offsetSeconds` ahead of UTC shows at
      `epochSeconds` (what `fromtimestamp` does in that local zone). */
  function LocalDay(epochSeconds: int, offsetSeconds: int): (day: int)
    ensures day * SECONDS_PER_DAY <= epochSeconds + offsetSeconds < (day + 1) * SECONDS_PER_DAY
  {
    (epochSeconds + offsetSeconds) / SECONDS_PER_DAY
  }

  datatype Date = Date(year: int, month: int, day: int)

  predicate IsLeapYear(y: int) {
    y % 4 == 0 && (y % 100 != 0 || y % 400 == 0)
  }

  function DaysInMonth(y: int, m: int): (n: int)
    ensures 28 <= n <= 31
  {
    if m == 2 then (if IsLeapYear(y) then 29 else 28)
    else if m == 4 || m == 6 || m == 9 || m == 11 then 30
    else 31
  }

  /** A date that `strftime("%Y-%m-%d")` writes as four, two and two digits. */
  predicate ValidDate(d: Date) {
    1 <= d.year <= 9999 && 1 <= d.month <= 12 && 1 <= d.day <= DaysInMonth(d.year, d.month)
  }

  /** Days since 1970-01-01 of a proleptic Gregorian date (Hinnant's days_from_civil). */
  function DayOfDate(d: Date): int {
    var y := if d.month <= 2 then d.year - 1 else d.year;
    var era := y / 400;
    var yoe := y - era * 400;
    var mp := if d.month > 2 then d.month - 3 else d.month + 9;
    var doy := (153 * mp + 2) / 5 + d.day - 1;
    var doe := yoe * 365 + yoe / 4 - yoe / 100 + doy;
    era * 146097 + doe - 719468
  }

  /** The proleptic Gregorian date of a day count (Hinnant's civil_from_days). */
  function DateOfDay(n: int): Date {
    var z := n + 719468;
    var era := z / 146097;
    var doe := z - era * 146097;
    var yoe := (doe - doe / 1460 + doe / 36524 - doe / 146096) / 365;
    var doy := doe - (365 * yoe + yoe / 4 - yoe / 100);
    var mp := (5 * doy + 2) / 153;
    var d := doy - (153 * mp + 2) / 5 + 1;
    var m := if mp < 10 then mp + 3 else mp - 9;
    Date(if m <= 2 then yoe + era * 400 + 1 else yoe + era * 400, m, d)
  }

  // ---- decimal digits ---------------------------------------------------------

  function Digit(n: int): (c: char)
    requires 0 <= n < 10
    ensures '0' <= c <= '9' && c as int - '0' as int == n
  {
    ('0' as int + n) as char
  }

  predicate IsDigit(c: char) { '0' <= c <= '9' }

  function DigitValue(c: char): (n: int)
    requires IsDigit(c)
    ensures 0 <= n < 10
  {
    c as int - '0' as int
  }

  /** `n` as exactly `width` decimal digits, most significant first. */
  function Padded(n: nat, width: nat): (s: string)
    ensures |s| == width
    ensures forall i :: 0 <= i < |s| ==> IsDigit(s[i])
    decreases width
  {
    if width == 0 then "" else Padded(n / 10, width - 1) + [Digit(n % 10)]
  }

  /** The value of a string of decimal digits. */
  function DigitsValue(s: string): (n: nat)
    requires forall i :: 0 <= i < |s| ==> IsDigit(s[i])
  {
    if |s| == 0 then 0 else DigitsValue(s[..|s| - 1]) * 10 + DigitValue(s[|s| - 1])
  }

  function Pow10(k: nat): (p: nat)
    ensures p >= 1
  {
    if k == 0 then 1 else 10 * Pow10(k - 1)
  }

  lemma {:induction false} PaddedValue(n: nat, width: nat)
    requires n < Pow10(width)
    ensures DigitsValue(Padded(n, width)) == n
    decreases width
  {
    if width > 0 {
      var s := Padded(n, width);
      assert s[..|s| - 1] == Padded(n / 10, width - 1);
      PaddedValue(n / 10, width - 1);
    }
  }

  predicate AllDigits(s: string) { forall i :: 0 <= i < |s| ==> IsDigit(s[i]) }

  predicate IsNonZeroDigit(c: char) { '1' <= c <= '9' }

  /** The `%m` group of `strptime`'s pattern, `1[0-2]|0[1-9]|[1-9]`, followed by
      the literal "-": the month and the length of its text, for the first
      alternative that matches at the front of `t` with a "-" after it. */
  function MonthField(t: string): (r: Option<(int, nat)>)
    ensures r.Some? ==> 1 <= r.value.0 <= 12 && 1 <= r.value.1 <= 2 && r.value.1 < |t| && t[r.value.1] == '-'
  {
    if |t| >= 3 && t[0] == '1' && '0' <= t[1] <= '2' && t[2] == '-' then Some((10 + DigitValue(t[1]), 2))
    else if |t| >= 3 && t[0] == '0' && IsNonZeroDigit(t[1]) && t[2] == '-' then Some((DigitValue(t[1]), 2))
    else if |t| >= 2 && IsNonZeroDigit(t[0]) && t[1] == '-' then Some((DigitValue(t[0]), 1))
    else None
  }

  /** The `%d` group, `3[01]|[12]\d|0[1-9]|[1-9]| [1-9]`: the day and the length
      of its text, for the first alternative that matches at the front of `t`. */
  function DayField(t: string): (r: Option<(int, nat)>)
    ensures r.Some? ==> 1 <= r.value.0 <= 31 && 1 <= r.value.1 <= 2 && r.value.1 <= |t|
  {
    if |t| >= 2 && t[0] == '3' && '0' <= t[1] <= '1' then Some((30 + DigitValue(t[1]), 2))
    else if |t| >= 2 && '1' <= t[0] <= '2' && IsDigit(t[1]) then Some((10 * DigitValue(t[0]) + DigitValue(t[1]), 2))
    else if |t| >= 2 && t[0] == '0' && IsNonZeroDigit(t[1]) then Some((DigitValue(t[1]), 2))
    else if |t| >= 1 && IsNonZeroDigit(t[0]) then Some((DigitValue(t[0]), 1))
    else if |t| >= 2 && t[0] == ' ' && IsNonZeroDigit(t[1]) then Some((DigitValue(t[1]), 2))
    else None
  }

  /** `strptime(s, "%Y-%m-%d")`: four year digits, "-", the `%m` group, "-", and
      the `%d` group, which must end the text; text left over ("unconverted data
      remains"), a text the pattern does not match or an impossible date (year 0,
      February 30) is None, where Python raises ValueError. */
  function ParseDate(s: string): (r: Option<Date>)
    ensures r.Some? ==> ValidDate(r.value)
  {
    if |s| >= 5 && AllDigits(s[..4]) && s[4] == '-' then
      match MonthField(s[5..])
      case None => None
      case Some((month, ml)) =>
        var rest := s[5 + ml + 1..];
        match DayField(rest)
        case None => None
        case Some((day, dl)) =>
          if dl != |rest| then None
          else
            var d := Date(DigitsValue(s[..4]), month, day);
            if ValidDate(d) then Some(d) else None
    else None
  }

  /** The texts `%m` reads as month `m`: two digits, or one below 10. */
  function MonthTexts(m: nat): set<string> {
    {Padded(m, 2)} + if 1 <= m < 10 then {Padded(m, 1)} else {}
  }

  /** The texts `%d` reads as day `day`: two digits, or below 10 one digit or a
      space and one digit. */
  function DayTexts(day: nat): set<string> {
    {Padded(day, 2)} + if 1 <= day < 10 then {Padded(day, 1), " " + Padded(day, 1)} else {}
  }

  /** `s` spells the valid date `d` in one of the forms `%Y-%m-%d` accepts. */
  predicate Spells(s: string, d: Date)
    requires ValidDate(d)
  {
    exists mt, dt :: mt in MonthTexts(d.month) && dt in DayTexts(d.day) &&
                     s == Padded(d.year, 4) + "-" + mt + "-" + dt
  }

  lemma PaddedOne(n: nat)
    requires n < 10
    ensures Padded(n, 1) == [Digit(n)]
  {
    assert n / 10 == 0 && n % 10 == n;
    assert Padded(n, 1) == Padded(n / 10, 0) + [Digit(n % 10)];
  }

  lemma PaddedTwo(n: nat)
    requires n < 100
    ensures Padded(n, 2) == [Digit(n / 10), Digit(n % 10)]
  {
    PaddedOne(n / 10);
  }

  /** A digit string is the padded text of its own value. */
  lemma {:induction false} DigitsPadded(t: string)
    requires AllDigits(t)
    ensures Padded(DigitsValue(t), |t|) == t
    decreases |t|
  {
    if |t| > 0 {
      var p := t[..|t| - 1];
      var c := t[|t| - 1];
      var n := DigitsValue(t);
      assert n / 10 == DigitsValue(p) && n % 10 == DigitValue(c);
      DigitsPadded(p);
      assert Digit(DigitValue(c)) == c;
      assert t == p + [c];
    }
  }

  /** `%m` reads every text of a month, up to the "-" after it. */
  lemma MonthFieldOfText(m: int, mt: string, tail: string)
    requires 1 <= m <= 12 && mt in MonthTexts(m)
    ensures MonthField(mt + "-" + tail) == Some((m, |mt|))
  {
    PaddedTwo(m);
    PaddedOne(m % 10);
    var t := mt + "-" + tail;
    if |mt| == 2 {
      assert t[0] == mt[0] && t[1] == mt[1] && t[2] == '-';
    } else {
      assert t[0] == mt[0] && t[1] == '-';
    }
  }

  /** `%d` reads every text of a day. */
  lemma DayFieldOfText(day: int, dt: string)
    requires 1 <= day <= 31 && dt in DayTexts(day)
    ensures DayField(dt) == Some((day, |dt|))
  {
    if dt == Padded(day, 2) {
      PaddedTwo(day);
    } else {
      PaddedOne(day);
      assert 1 <= day < 10;
    }
  }

  /** What `%m` reads is a text of that month. */
  lemma MonthTextOfField(t: string)
    requires MonthField(t).Some?
    ensures t[..MonthField(t).value.1] in MonthTexts(MonthField(t).value.0)
  {
    var m := MonthField(t).value.0;
    PaddedTwo(m);
    PaddedOne(m % 10);
    if MonthField(t).value.1 == 2 {
      assert t[..2] == [t[0], t[1]];
      if t[0] == '1' {
        assert t[1] == Digit(m % 10);
      }
    } else {
      assert t[..1] == [t[0]];
    }
  }

  /** What `%d` reads, when it is the whole text, is a text of that day. */
  lemma DayTextOfField(t: string)
    requires DayField(t).Some? && DayField(t).value.1 == |t|
    ensures t in DayTexts(DayField(t).value.0)
  {
    var day := DayField(t).value.0;
    PaddedTwo(day);
    PaddedOne(day % 10);
    if |t| == 2 {
      assert t == [t[0], t[1]];
      if t[0] == ' ' {
        assert t == " " + Padded(day, 1);
      } else {
        assert t[0] == Digit(day / 10) && t[1] == Digit(day % 10);
      }
    } else {
      assert t == [t[0]];
    }
  }

  /** The parts of a "year-month-day" text sit where the parser looks for them. */
  lemma SpellingParts(y: string, mt: string, dt: string)
    requires |y| == 4
    ensures var s := y + "-" + mt + "-" + dt;
      |s| >= 5 && s[..4] == y && s[4] == '-' && s[5..] == mt + "-" + dt && s[5 + |mt| + 1..] == dt
  {
    var s := y + "-" + mt + "-" + dt;
    assert s[5..] == mt + "-" + dt;
    assert (mt + "-" + dt)[|mt| + 1..] == dt;
  }

  /** Every spelling of a valid date parses to that date. */
  lemma ParseSpelling(s: string, d: Date, mt: string, dt: string)
    requires ValidDate(d) && mt in MonthTexts(d.month) && dt in DayTexts(d.day)
    requires s == Padded(d.year, 4) + "-" + mt + "-" + dt
    ensures ParseDate(s) == Some(d)
  {
    assert Pow10(4) == 10000;
    PaddedValue(d.year, 4);
    SpellingParts(Padded(d.year, 4), mt, dt);
    MonthFieldOfText(d.month, mt, dt);
    DayFieldOfText(d.day, dt);
  }

  /** Whatever parses to a date spells it. */
  lemma ParsedSpells(s: string, d: Date)
    requires ParseDate(s) == Some(d)
    ensures ValidDate(d) && Spells(s, d)
  {
    var t := s[5..];
    var ml := MonthField(t).value.1;
    var mt := s[5..5 + ml];
    var dt := s[5 + ml + 1..];
    assert t[..ml] == mt;
    MonthTextOfField(t);
    DayTextOfField(dt);
    DigitsPadded(s[..4]);
    assert s == s[..4] + "-" + mt + "-" + dt;
  }

  /** `strptime(s, "%Y-%m-%d")` yields `d` exactly when `d` is valid and `s`
      spells it: the zero-padded form, or an unpadded or space-padded month or
      day. */
  lemma ParseDateSpellings(s: string, d: Date)
    ensures ParseDate(s) == Some(d) <==> ValidDate(d) && Spells(s, d)
  {
    if ParseDate(s) == Some(d) {
      ParsedSpells(s, d);
    } else if ValidDate(d) && Spells(s, d) {
      var mt, dt :| mt in MonthTexts(d.month) && dt in DayTexts(d.day) &&
                    s == Padded(d.year, 4) + "-" + mt + "-" + dt;
      ParseSpelling(s, d, mt, dt);
    }
  }

  /** An unpadded month and day are read as `strptime` reads them. */
  lemma ParseDateUnpadded()
    ensures ParseDate("2024-1-5") == Some(Date(2024, 1, 5))
  {
    PaddedOne(1);
    PaddedOne(5);
    assert Padded(2024, 4) == "2024";
    ParseSpelling("2024-1-5", Date(2024, 1, 5), "1", "5");
  }

  /** So is a space-padded day. */
  lemma ParseDateSpacePadded()
    ensures ParseDate("2024-01- 5") == Some(Date(2024, 1, 5))
  {
    PaddedOne(5);
    PaddedTwo(1);
    assert Padded(2024, 4) == "2024";
    assert " " + Padded(5, 1) == " 5";
    ParseSpelling("2024-01- 5", Date(2024, 1, 5), "01", " 5");
  }

  /** Month 13 and a day with a digit left over do not match the pattern. */
  lemma ParseDateRejectsText()
    ensures ParseDate("2024-13-01") == None
    ensures ParseDate("2024-01-011") == None
  {
    assert MonthField("13-01") == None;
    var t := "2024-01-011";
    assert t[5..] == "01-011" && MonthField("01-011") == Some((1, 2));
    assert t[8..] == "011" && DayField("011") == Some((1, 2));
  }

  /** 29 February of a common year and year 0 are not dates. */
  lemma ParseDateRejectsDates()
    ensures ParseDate("2023-02-29") == None
    ensures ParseDate("0000-01-01") == None
  {
    var z := "0000";
    assert z[..3] == "000" && "000"[..2] == "00" && "00"[..1] == "0" && "0"[..0] == "";
    assert DigitsValue(z) == 0;
    assert "0000-01-01"[..4] == z;
  }

  /** `strftime("%Y-%m-%d")` of a valid date. */
  function FormatDate(d: Date): (s: string)
    requires ValidDate(d)
    ensures |s| == 10 && s[4] == '-' && s[7] == '-'
  {
    Padded(d.year, 4) + "-" + Padded(d.month, 2) + "-" + Padded(d.day, 2)
  }

  /** A formatted date parses back to itself. */
  lemma ParseFormatDate(d: Date)
    requires ValidDate(d)
    ensures ParseDate(FormatDate(d)) == Some(d)
  {
    ParseSpelling(FormatDate(d), d, Padded(d.month, 2), Padded(d.day, 2));
  }

  /** Distinct valid dates have distinct names. */
  lemma FormatDateInjective(a: Date, b: Date)
    requires ValidDate(a) && ValidDate(b) && FormatDate(a) == FormatDate(b)
    ensures a == b
  {
    ParseFormatDate(a);
    ParseFormatDate(b);
  }

  /** The "YYYY-MM-DD" name of calendar day `day`. */
  function DayName(day: int): (s: string)
    requires ValidDate(DateOfDay(day))
    ensures ParseDate(s) == Some(DateOfDay(day))
  {
    ParseFormatDate(DateOfDay(day));
    FormatDate(DateOfDay(day))
  }

  // The range of Python's `datetime`.

  /** Midnight of 0001-01-01 and the last microsecond of 9999-12-31. */
  const MIN_DATETIME: int := -719162 * MICROS_PER_DAY
  const MAX_DATETIME: int := 2932897 * MICROS_PER_DAY - 1

  /** The largest number of days a `timedelta` can hold. */
  const MAX_DELTA_DAYS: int := 999999999

  type DateTime = t: int | MIN_DATETIME <= t <= MAX_DATETIME

  predicate InRange(t: int) {
    MIN_DATETIME <= t <= MAX_DATETIME
  }

  /** The bounds are the first and the last day of the proleptic calendar's
      four-digit years. */
  lemma DateTimeBounds()
    ensures MIN_DATETIME == Midnight(DayOfDate(Date(1, 1, 1)))
    ensures MAX_DATETIME + 1 == Midnight(DayOfDate(Date(9999, 12, 31)) + 1)
  {
  }
}
