// The bulk downloader's helpers: the inclusive list of days between two
// "YYYY-MM-DD" dates, the archive URL of one file, the name of the extracted file
// and the directory it goes in.
module DownloadUtils {
  import opened Wrappers
  import opened Calendar
  import opened DataQuery
  import Sorting

  // ---------------------------------------------------------------------------
  // Paths

  /** `posixpath.join(a, b)`: an absolute `b` replaces `a`; otherwise a separator
      is inserted unless `a` is empty or already ends with one. */
  function Join(a: string, b: string): string {
    if |b| > 0 && b[0] == '/' then b
    else if |a| == 0 || a[|a| - 1] == '/' then a + b
    else a + "/" + b
  }

  /** An absolute second path replaces the first; a relative one is appended to
      it, after exactly one separator. */
  lemma JoinShape(a: string, b: string)
    ensures var r := Join(a, b);
      && (|b| > 0 && b[0] == '/' ==> r == b)
      && (!(|b| > 0 && b[0] == '/') ==>
            |r| >= |a| && r[..|a|] == a && r[|r| - |b|..] == b
            && (|a| == 0 || a[|a| - 1] == '/' || r[|a|] == '/'))
  {
  }

  /** A path component that `Join` appends with one separator. */
  predicate Segment(s: string) {
    |s| > 0 && '/' !in s
  }

  /** A non-empty relative path with no trailing separator. */
  predicate Relative(s: string) {
    |s| > 0 && s[0] != '/' && s[|s| - 1] != '/'
  }

  lemma SegmentIsRelative(s: string)
    requires Segment(s)
    ensures Relative(s)
  {
    assert s[0] in s && s[|s| - 1] in s;
  }

  /** Joining a relative path keeps it at the end, so the result has no trailing
      separator either. */
  lemma JoinRelativeEnd(a: string, s: string)
    requires Relative(s)
    ensures var j := Join(a, s); |j| > 0 && j[|j| - 1] == s[|s| - 1]
  {
    if |a| == 0 || a[|a| - 1] == '/' {
      assert Join(a, s) == a + s;
    } else {
      assert Join(a, s) == a + "/" + s;
    }
  }

  /** Joining one relative path after another is joining the two with a slash
      between. */
  lemma JoinSegments(a: string, s: string, t: string)
    requires Relative(s) && |t| > 0 && t[0] != '/'
    ensures Join(Join(a, s), t) == Join(a, s + "/" + t)
  {
    var j := Join(a, s);
    JoinRelativeEnd(a, s);
    assert (s + "/" + t)[0] == s[0];
    if |a| == 0 || a[|a| - 1] == '/' {
      assert j + "/" + t == a + (s + "/" + t);
    } else {
      assert j + "/" + t == a + "/" + (s + "/" + t);
    }
  }

  /** `get_file_directory`: base/type/symbol, with /interval added when an
      interval is given. */
  function GetFileDirectory(dataType: string, symbol: string, interval: Option<string>, baseDir: string): (d: string)
    ensures Given(interval) ==> |d| >= |interval.value| && d[|d| - |interval.value|..] == interval.value
    ensures !Given(interval) ==> |d| >= |symbol| && d[|d| - |symbol|..] == symbol
    ensures Given(interval) && interval.value[0] != '/' ==>
      var parent := Join(Join(baseDir, dataType), symbol);
      |d| >= |parent| && d[..|parent|] == parent
  {
    var parent := Join(Join(baseDir, dataType), symbol);
    JoinShape(Join(baseDir, dataType), symbol);
    if Given(interval) then
      JoinShape(parent, interval.value);
      Join(parent, interval.value)
    else parent
  }

  /** Without an interval, and with plain segments for the type and symbol, the
      directory is one join of "type/symbol" onto the base. */
  lemma FileDirectoryLayout(dataType: string, symbol: string, baseDir: string)
    requires Segment(dataType) && Segment(symbol)
    ensures GetFileDirectory(dataType, symbol, None, baseDir) == Join(baseDir, dataType + "/" + symbol)
  {
    SegmentIsRelative(dataType);
    JoinSegments(baseDir, dataType, symbol);
  }

  /** With an interval, it is one join of "type/symbol/interval". */
  lemma FileDirectoryLayoutInterval(dataType: string, symbol: string, interval: string, baseDir: string)
    requires Segment(dataType) && Segment(symbol) && Segment(interval)
    ensures GetFileDirectory(dataType, symbol, Some(interval), baseDir)
            == Join(baseDir, dataType + "/" + symbol + "/" + interval)
  {
    SegmentIsRelative(dataType);
    SegmentIsRelative(symbol);
    JoinSegments(baseDir, dataType, symbol);
    var ts := dataType + "/" + symbol;
    SegmentIsRelative(interval);
    assert ts[0] == dataType[0] && ts[|ts| - 1] == symbol[|symbol| - 1];
    JoinSegments(baseDir, ts, interval);
  }

  // ---------------------------------------------------------------------------
  // Download URL and file names

  /** The data types whose file names carry the type rather than the interval. */
  const TYPES_WITH_DATATYPE: set<string> := {"metrics", "bookDepth"}

  /** `build_download_url`: a kline kind needs an interval (only None is refused;
      an empty string is used as it is) and is fetched from
      base + "kind/S/I/S-I-D.zip"; any other kind from base + "kind/S/S-kind-D.zip". */
  function BuildDownloadUrl(baseUrl: string, dataType: string, symbol: string, date: string,
                            interval: Option<string>): (r: Result<string>)
    ensures r.Err? <==> dataType in KLINE_TYPES && interval.None?
    ensures r.Err? ==> r.error == ValueError("Interval is required for " + dataType)
    ensures r.Ok? ==> |r.value| >= |baseUrl| && r.value[..|baseUrl|] == baseUrl
  {
    if dataType in KLINE_TYPES then
      if interval.None? then Err(ValueError("Interval is required for " + dataType))
      else Ok(baseUrl + (dataType + "/" + symbol + "/" + interval.value + "/")
              + FileStem(symbol, interval.value, date) + ".zip")
    else Ok(baseUrl + (dataType + "/" + symbol + "/") + FileStem(symbol, dataType, date) + ".zip")
  }

  /** `get_output_filename`: "S-kind-D.ext" for metrics and bookDepth whatever the
      interval, "S-I-D.ext" for any other kind with an interval, "S-kind-D.ext"
      otherwise. */
  function GetOutputFilename(symbol: string, dataType: string, date: string, interval: Option<string>,
                             extension: string): (r: string)
    ensures r == FileStem(symbol, if dataType !in TYPES_WITH_DATATYPE && Given(interval)
                                  then interval.value else dataType, date) + "." + extension
  {
    if dataType in TYPES_WITH_DATATYPE then symbol + "-" + dataType + "-" + date + "." + extension
    else if Given(interval) then symbol + "-" + interval.value + "-" + date + "." + extension
    else symbol + "-" + dataType + "-" + date + "." + extension
  }

  /** "S-X-D": a file's name without its extension. */
  function FileStem(symbol: string, middle: string, date: string): string {
    symbol + "-" + middle + "-" + date
  }

  /** The archive a URL names is the file name the extractor gives it, with the
      ".zip" extension, for the two shapes of task the generator builds (a kline
      kind with an interval, another kind without one). */
  lemma UrlNamesOutputFile(baseUrl: string, dataType: string, symbol: string, date: string,
                           interval: Option<string>)
    requires (dataType in KLINE_TYPES && Given(interval)) || (dataType !in KLINE_TYPES && interval.None?)
    ensures BuildDownloadUrl(baseUrl, dataType, symbol, date, interval).Ok?
    ensures var url := BuildDownloadUrl(baseUrl, dataType, symbol, date, interval).value;
            var name := GetOutputFilename(symbol, dataType, date, interval, "zip");
            |url| >= |name| && url[|url| - |name|..] == name
  {
    var stem := FileStem(symbol, if dataType in KLINE_TYPES then interval.value else dataType, date);
    var head := if dataType in KLINE_TYPES then baseUrl + (dataType + "/" + symbol + "/" + interval.value + "/")
                else baseUrl + (dataType + "/" + symbol + "/");
    Sorting.AppendAssoc(head, stem, ".zip");
    Sorting.AppendAssoc(stem, ".", "zip");
    assert "." + "zip" == ".zip";
    assert BuildDownloadUrl(baseUrl, dataType, symbol, date, interval).value == head + (stem + ".zip");
  }

  // ---------------------------------------------------------------------------
  // Date ranges

  /** `datetime` comparison of two dates. */
  predicate DateLe(a: Date, b: Date) {
    a.year < b.year
    || (a.year == b.year && (a.month < b.month || (a.month == b.month && a.day <= b.day)))
  }

  /** The last date `datetime` can hold; the day after it overflows. */
  const MAX_DATE := Date(9999, 12, 31)

  lemma ValidBelowMax(d: Date)
    requires ValidDate(d)
    ensures DateLe(d, MAX_DATE)
  {
  }

  /** `d + timedelta(days=1)` on the calendar fields. */
  function NextDate(d: Date): (n: Date)
    requires ValidDate(d)
    ensures d != MAX_DATE ==> ValidDate(n)
    ensures DateLe(d, n) && n != d
  {
    if d.day < DaysInMonth(d.year, d.month) then Date(d.year, d.month, d.day + 1)
    else if d.month < 12 then Date(d.year, d.month + 1, 1)
    else Date(d.year + 1, 1, 1)
  }

  /** No valid date lies strictly between a date and the next one. */
  lemma NextDateIsSuccessor(d: Date, x: Date)
    requires ValidDate(d) && ValidDate(x)
    requires DateLe(d, x) && x != d
    ensures DateLe(NextDate(d), x)
  {
  }

  /** The days from `s` to `e` inclusive, one day apart; the list stops at the last
      representable date. */
  function DayRange(s: Date, e: Date): (r: seq<Date>)
    requires ValidDate(s)
    ensures forall k :: 0 <= k < |r| ==> ValidDate(r[k])
    ensures |r| == 0 <==> !DateLe(s, e)
    ensures |r| > 0 ==> r[0] == s
    decreases e.year - s.year, 12 - s.month, 31 - s.day
  {
    if !DateLe(s, e) then []
    else if s == MAX_DATE then [s]
    else [s] + DayRange(NextDate(s), e)
  }

  /** The range holds exactly the valid dates from `s` to `e`. */
  lemma {:induction false} DayRangeMembers(s: Date, e: Date, x: Date)
    requires ValidDate(s)
    ensures x in DayRange(s, e) <==> ValidDate(x) && DateLe(s, x) && DateLe(x, e)
    decreases e.year - s.year, 12 - s.month, 31 - s.day
  {
    if DateLe(s, e) && s != MAX_DATE {
      var n := NextDate(s);
      DayRangeMembers(n, e, x);
      if ValidDate(x) && DateLe(s, x) && x != s {
        NextDateIsSuccessor(s, x);
      }
    } else if DateLe(s, e) && ValidDate(x) && DateLe(s, x) {
      ValidBelowMax(x);
    }
  }

  /** Each day of `r` is the day after the one before it. */
  predicate DayByDay(r: seq<Date>) {
    forall k {:trigger r[k]} :: 0 < k < |r| ==> ValidDate(r[k - 1]) && r[k] == NextDate(r[k - 1])
  }

  /** The range climbs one day at a time. */
  lemma {:induction false} DayRangeSteps(s: Date, e: Date)
    requires ValidDate(s)
    ensures DayByDay(DayRange(s, e))
    decreases e.year - s.year, 12 - s.month, 31 - s.day
  {
    if DateLe(s, e) && s != MAX_DATE {
      var rest := DayRange(NextDate(s), e);
      var r := [s] + rest;
      DayRangeSteps(NextDate(s), e);
      assert DayRange(s, e) == r;
      forall k {:trigger r[k]} | 0 < k < |r| ensures ValidDate(r[k - 1]) && r[k] == NextDate(r[k - 1]) {
        if k > 1 {
          assert r[k] == rest[k - 1] && r[k - 1] == rest[k - 2];
        }
      }
    }
  }

  /** The range is strictly ascending. */
  lemma {:induction false} DayRangeAscending(s: Date, e: Date)
    requires ValidDate(s)
    ensures var r := DayRange(s, e);
      forall i, j :: 0 <= i < j < |r| ==> DateLe(r[i], r[j]) && r[i] != r[j]
    decreases e.year - s.year, 12 - s.month, 31 - s.day
  {
    if DateLe(s, e) && s != MAX_DATE {
      var n := NextDate(s);
      var rest := DayRange(n, e);
      var r := [s] + rest;
      DayRangeAscending(n, e);
      assert DayRange(s, e) == r;
      forall j | 0 <= j < |rest| ensures DateLe(s, rest[j]) && s != rest[j] {
        DayRangeMembers(n, e, rest[j]);
      }
      forall i, j | 0 <= i < j < |r| ensures DateLe(r[i], r[j]) && r[i] != r[j] {
        assert r[j] == rest[j - 1];
        if i > 0 {
          assert r[i] == rest[i - 1];
        }
      }
    }
  }

  /** The last day of a non-empty range is the last one not after `e`. */
  lemma {:induction false} DayRangeLast(s: Date, e: Date)
    requires ValidDate(s)
    ensures var r := DayRange(s, e);
      |r| > 0 ==> DateLe(r[|r| - 1], e)
                  && (r[|r| - 1] != MAX_DATE ==> !DateLe(NextDate(r[|r| - 1]), e))
    decreases e.year - s.year, 12 - s.month, 31 - s.day
  {
    if DateLe(s, e) && s != MAX_DATE {
      var rest := DayRange(NextDate(s), e);
      DayRangeLast(NextDate(s), e);
      assert DayRange(s, e) == [s] + rest;
    }
  }

  /** The "YYYY-MM-DD" names of valid dates. */
  function DayNames(days: seq<Date>): (r: seq<string>)
    requires forall k :: 0 <= k < |days| ==> ValidDate(days[k])
    ensures |r| == |days|
    ensures forall k :: 0 <= k < |r| ==> r[k] == FormatDate(days[k])
  {
    if |days| == 0 then [] else [FormatDate(days[0])] + DayNames(days[1..])
  }

  function LowerChar(c: char): char {
    if 'A' <= c <= 'Z' then (c as int + 32) as char else c
  }

  /** `s.lower()` on ASCII letters.  (No other character lowers to a letter of
      "latest", so the comparison below is exact.) */
  function Lower(s: string): (r: string)
    ensures |r| == |s|
  {
    if |s| == 0 then "" else [LowerChar(s[0])] + Lower(s[1..])
  }

  /** The end date, where "latest" in any case stands for `today`. */
  function EndText(endDate: string, today: string): (r: string)
    ensures r == today || r == endDate
  {
    if Lower(endDate) == "latest" then today else endDate
  }

  /** `generate_date_range`: an end of "latest" in any case means `today`; a
      malformed date raises ValueError; the result names every day from start to
      end inclusive, and a range that reaches the last representable date raises
      OverflowError when the loop steps past it. */
  function DateRange(startDate: string, endDate: string, today: string): (r: Result<seq<string>>)
  {
    var endText := EndText(endDate, today);
    match ParseDate(startDate)
    case None => Err(ValueError("time data '" + startDate + "' does not match format '%Y-%m-%d'"))
    case Some(s) =>
      match ParseDate(endText)
      case None => Err(ValueError("time data '" + endText + "' does not match format '%Y-%m-%d'"))
      case Some(e) =>
        if DateLe(s, e) && e == MAX_DATE then Err(OverflowError("date value out of range"))
        else Ok(DayNames(DayRange(s, e)))
  }

  /** The successful range is empty exactly when the start is after the end, and
      otherwise names every valid day between them, in ascending order. */
  lemma DateRangeDays(startDate: string, endDate: string, today: string, x: Date)
    requires ParseDate(startDate).Some?
    requires DateRange(startDate, endDate, today).Ok?
    ensures var names := DateRange(startDate, endDate, today).value;
            var s := ParseDate(startDate).value;
            var e := ParseDate(EndText(endDate, today)).value;
            (|names| == 0 <==> !DateLe(s, e))
            && (ValidDate(x) ==> (FormatDate(x) in names <==> DateLe(s, x) && DateLe(x, e)))
  {
    if ValidDate(x) {
      DayNamesMembers(ParseDate(startDate).value, ParseDate(EndText(endDate, today)).value, x);
    }
  }

  /** A valid day is named in the range exactly when it lies between its ends. */
  lemma DayNamesMembers(s: Date, e: Date, x: Date)
    requires ValidDate(s) && ValidDate(x)
    ensures FormatDate(x) in DayNames(DayRange(s, e)) <==> DateLe(s, x) && DateLe(x, e)
  {
    DayRangeMembers(s, e, x);
    if x in DayRange(s, e) {
      NamedIfListed(DayRange(s, e), x);
    }
    if FormatDate(x) in DayNames(DayRange(s, e)) {
      ListedIfNamed(DayRange(s, e), x);
    }
  }

  lemma NamedIfListed(days: seq<Date>, x: Date)
    requires forall k :: 0 <= k < |days| ==> ValidDate(days[k])
    requires x in days
    ensures FormatDate(x) in DayNames(days)
  {
    var k :| 0 <= k < |days| && days[k] == x;
    assert DayNames(days)[k] == FormatDate(x);
  }

  lemma ListedIfNamed(days: seq<Date>, x: Date)
    requires forall k :: 0 <= k < |days| ==> ValidDate(days[k])
    requires ValidDate(x) && FormatDate(x) in DayNames(days)
    ensures x in days
  {
    var names := DayNames(days);
    var k :| 0 <= k < |names| && names[k] == FormatDate(x);
    FormatDateInjective(x, days[k]);
  }

  /** Both unpadded ends parse. */
  lemma UnpaddedEnds()
    ensures ParseDate("2024-1-5") == Some(Date(2024, 1, 5))
    ensures ParseDate("2024-1-6") == Some(Date(2024, 1, 6))
  {
    PaddedOne(1);
    PaddedOne(5);
    PaddedOne(6);
    assert Padded(2024, 4) == "2024";
    ParseSpelling("2024-1-5", Date(2024, 1, 5), "1", "5");
    ParseSpelling("2024-1-6", Date(2024, 1, 6), "1", "6");
  }

  /** The range from 5 to 6 January 2024 is those two days. */
  lemma TwoDays()
    ensures DayRange(Date(2024, 1, 5), Date(2024, 1, 6)) == [Date(2024, 1, 5), Date(2024, 1, 6)]
  {
    assert DayRange(Date(2024, 1, 7), Date(2024, 1, 6)) == [];
  }

  /** The two days are named zero-padded. */
  lemma TwoDayNames()
    ensures DayNames(DayRange(Date(2024, 1, 5), Date(2024, 1, 6))) == ["2024-01-05", "2024-01-06"]
  {
    var s, e := Date(2024, 1, 5), Date(2024, 1, 6);
    PaddedTwo(1);
    PaddedTwo(5);
    PaddedTwo(6);
    assert Padded(2024, 4) == "2024";
    TwoDays();
    assert FormatDate(s) == "2024-01-05" && FormatDate(e) == "2024-01-06";
  }

  /** Unpadded dates are read as `strptime` reads them, and the days are named in
      the zero-padded form. */
  lemma DateRangeUnpadded(today: string)
    ensures DateRange("2024-1-5", "2024-1-6", today) == Ok(["2024-01-05", "2024-01-06"])
  {
    UnpaddedEnds();
    TwoDayNames();
    var l := Lower("2024-1-6");
    assert |l| != |"latest"|;
    assert EndText("2024-1-6", today) == "2024-1-6";
  }

  /** The loop of `generate_date_range`. */
  method GenerateDateRange(startDate: string, endDate: string, today: string) returns (res: Result<seq<string>>)
    ensures res == DateRange(startDate, endDate, today)
  {
    var endText := EndText(endDate, today);
    var start := ParseDate(startDate);
    if start.None? {
      return Err(ValueError("time data '" + startDate + "' does not match format '%Y-%m-%d'"));
    }
    var end := ParseDate(endText);
    if end.None? {
      return Err(ValueError("time data '" + endText + "' does not match format '%Y-%m-%d'"));
    }
    res := CollectDays(start.value, end.value);
  }

  /** The day-by-day loop of `generate_date_range`, from a parsed start to a parsed
      end; stepping past 9999-12-31 raises OverflowError. */
  method CollectDays(s: Date, e: Date) returns (res: Result<seq<string>>)
    requires ValidDate(s) && ValidDate(e)
    ensures res == if DateLe(s, e) && e == MAX_DATE then Err(OverflowError("date value out of range"))
                   else Ok(DayNames(DayRange(s, e)))
  {
    var dates: seq<string> := [];
    var current := s;
    while DateLe(current, e)
      invariant ValidDate(current)
      invariant dates + DayNames(DayRange(current, e)) == DayNames(DayRange(s, e))
      decreases |DayRange(current, e)|
    {
      if current == MAX_DATE {
        ValidBelowMax(e);
        assert |DayRange(s, e)| > 0;
        return Err(OverflowError("date value out of range"));
      }
      NamesStep(dates, current, e);
      dates := dates + [FormatDate(current)];
      current := NextDate(current);
    }
    if e == MAX_DATE {
      ValidBelowMax(current);
    }
    assert DayRange(current, e) == [] && dates + [] == dates;
    res := Ok(dates);
  }

  /** One step of the loop: the names still to come start with today's. */
  lemma NamesStep(dates: seq<string>, d: Date, e: Date)
    requires ValidDate(d) && DateLe(d, e) && d != MAX_DATE
    ensures dates + DayNames(DayRange(d, e)) == (dates + [FormatDate(d)]) + DayNames(DayRange(NextDate(d), e))
    ensures |DayRange(NextDate(d), e)| < |DayRange(d, e)|
  {
    var rest := DayRange(NextDate(d), e);
    assert DayRange(d, e) == [d] + rest;
    assert DayRange(d, e)[1..] == rest;
  }

}
