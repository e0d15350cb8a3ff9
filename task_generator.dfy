// The bulk downloader's task list: one task per (date, symbol, enabled data type
// [, interval]), with its URL and local paths, minus the tasks whose CSV file is
// already on disk.
module TaskGenerator {
  import opened Wrappers
  import opened DataQuery
  import opened DownloadUtils
  import opened TaskTracker

  /** One file to fetch: the dictionary `build_task_fast` returns. */
  datatype DownloadTask = DownloadTask(
    symbol: string,
    dataType: string,
    date: string,
    interval: Option<string>,
    url: string,
    fileDir: string,
    zipFilename: string,
    csvFilename: string,
    zipPath: string,
    csvPath: string)

  /** `s.rstrip('/')`. */
  function RStripSlash(s: string): (r: string)
    ensures |r| <= |s| && r == s[..|r|]
    ensures |r| == 0 || r[|r| - 1] != '/'
    ensures forall i :: |r| <= i < |s| ==> s[i] == '/'
  {
    if |s| > 0 && s[|s| - 1] == '/' then RStripSlash(s[..|s| - 1]) else s
  }

  /** The task's directory under the output directory: "kind/S/I" with a (truthy)
      interval, "kind/S" without. */
  function TaskSubdir(symbol: string, dataType: string, interval: Option<string>): string {
    if Given(interval) then dataType + "/" + symbol + "/" + interval.value else dataType + "/" + symbol
  }

  /** The file stem: "S-I-D" with a (truthy) interval, "S-kind-D" without. */
  function TaskStem(symbol: string, dataType: string, date: string, interval: Option<string>): string {
    if Given(interval) then FileStem(symbol, interval.value, date) else FileStem(symbol, dataType, date)
  }

  /** The base URL without trailing slashes, a slash, then "kind/S/I/S-I-D.zip"
      with a (truthy) interval and "kind/S/S-kind-D.zip" without. */
  function TaskUrl(symbol: string, dataType: string, date: string, interval: Option<string>, baseUrl: string): string {
    if Given(interval) then
      RStripSlash(baseUrl) + "/" + (dataType + "/" + symbol + "/" + interval.value + "/")
      + FileStem(symbol, interval.value, date) + ".zip"
    else
      RStripSlash(baseUrl) + "/" + (dataType + "/" + symbol + "/") + FileStem(symbol, dataType, date) + ".zip"
  }

  /** `build_task_fast`: the URL, and the archive and CSV file side by side in the
      task's directory under the output directory. */
  function BuildTaskFast(symbol: string, dataType: string, date: string, interval: Option<string>,
                         baseUrl: string, outputDir: string): DownloadTask
  {
    var fileDir := Join(outputDir, TaskSubdir(symbol, dataType, interval));
    var stem := TaskStem(symbol, dataType, date, interval);
    DownloadTask(symbol, dataType, date, interval, TaskUrl(symbol, dataType, date, interval, baseUrl), fileDir,
                 stem + ".zip", stem + ".csv", Join(fileDir, stem + ".zip"), Join(fileDir, stem + ".csv"))
  }

  /** A task keeps its identity, and its archive and CSV file sit side by side in
      its directory, with paths that differ only in the extension. */
  lemma TaskFiles(symbol: string, dataType: string, date: string, interval: Option<string>,
                  baseUrl: string, outputDir: string)
    ensures var t := BuildTaskFast(symbol, dataType, date, interval, baseUrl, outputDir);
      && t.symbol == symbol && t.dataType == dataType && t.date == date && t.interval == interval
      && t.zipPath == Join(t.fileDir, t.zipFilename) && t.csvPath == Join(t.fileDir, t.csvFilename)
      && t.zipFilename[..|t.zipFilename| - 4] == t.csvFilename[..|t.csvFilename| - 4]
      && |t.zipPath| == |t.csvPath| && |t.zipPath| >= 4
      && t.zipPath[..|t.zipPath| - 4] == t.csvPath[..|t.csvPath| - 4]
      && t.zipPath[|t.zipPath| - 4..] == ".zip" && t.csvPath[|t.csvPath| - 4..] == ".csv"
  {
    var t := BuildTaskFast(symbol, dataType, date, interval, baseUrl, outputDir);
    var stem := t.zipFilename[..|t.zipFilename| - 4];
    assert t.zipFilename == stem + ".zip" && t.csvFilename == stem + ".csv";
    SideBySide(t.fileDir, stem);
  }

  /** Two files with one stem in one directory differ only in the extension. */
  lemma SideBySide(dir: string, stem: string)
    ensures var z, c := Join(dir, stem + ".zip"), Join(dir, stem + ".csv");
            |z| == |c| && |z| >= 4 && z[..|z| - 4] == c[..|c| - 4]
            && z[|z| - 4..] == ".zip" && c[|c| - 4..] == ".csv"
  {
    var z, c := Join(dir, stem + ".zip"), Join(dir, stem + ".csv");
    assert (stem + ".zip")[0] == (stem + ".csv")[0];
    if |stem + ".zip"| > 0 && (stem + ".zip")[0] == '/' {
      assert z[..|z| - 4] == stem == c[..|c| - 4];
    } else if |dir| == 0 || dir[|dir| - 1] == '/' {
      assert z == (dir + stem) + ".zip" && c == (dir + stem) + ".csv";
    } else {
      assert z == (dir + "/" + stem) + ".zip" && c == (dir + "/" + stem) + ".csv";
    }
  }

  /** For the two shapes of task the generator builds (a kline kind with an
      interval, another kind without one) and a base URL that ends in exactly one
      slash, the fast builder's URL is the one the download helpers build. */
  lemma TaskUrlMatches(symbol: string, dataType: string, date: string, interval: Option<string>, baseUrl: string)
    requires (dataType in KLINE_TYPES && Given(interval)) || (dataType !in KLINE_TYPES && interval.None?)
    requires baseUrl == RStripSlash(baseUrl) + "/"
    ensures BuildDownloadUrl(baseUrl, dataType, symbol, date, interval) == Ok(TaskUrl(symbol, dataType, date, interval, baseUrl))
  {
  }

  lemma ExtensionJoin(x: string)
    ensures x + "." + "zip" == x + ".zip" && x + "." + "csv" == x + ".csv"
  {
    assert x + "." + "zip" == x + ".zip";
    assert x + "." + "csv" == x + ".csv";
  }

  /** For the same two shapes, the archive and CSV names are the extractor's
      output file names. */
  lemma TaskFileNamesMatch(symbol: string, dataType: string, date: string, interval: Option<string>)
    requires (dataType in KLINE_TYPES && Given(interval)) || (dataType !in KLINE_TYPES && interval.None?)
    ensures TaskStem(symbol, dataType, date, interval) + ".zip" == GetOutputFilename(symbol, dataType, date, interval, "zip")
    ensures TaskStem(symbol, dataType, date, interval) + ".csv" == GetOutputFilename(symbol, dataType, date, interval, "csv")
  {
    assert dataType !in TYPES_WITH_DATATYPE || dataType !in KLINE_TYPES;
    ExtensionJoin(TaskStem(symbol, dataType, date, interval));
  }

  /** With plain path segments, the task's directory is the one the download
      helpers build. */
  lemma TaskDirectoryMatches(symbol: string, dataType: string, date: string, interval: Option<string>,
                             baseUrl: string, outputDir: string)
    requires Segment(dataType) && Segment(symbol) && (Given(interval) ==> Segment(interval.value))
    ensures BuildTaskFast(symbol, dataType, date, interval, baseUrl, outputDir).fileDir
            == GetFileDirectory(dataType, symbol, interval, outputDir)
  {
    if Given(interval) {
      FileDirectoryLayoutInterval(dataType, symbol, interval.value, outputDir);
    } else {
      FileDirectoryLayout(dataType, symbol, outputDir);
    }
  }

  // ---------------------------------------------------------------------------
  // Generation

  /** The settings `generate_file_level_tasks` reads; `dataTypes` is the
      (kind, enabled) dictionary in order. */
  datatype GeneratorConfig = GeneratorConfig(
    startDate: string,
    endDate: string,
    tradingPairs: seq<string>,
    dataTypes: seq<(string, bool)>,
    klineIntervals: seq<string>,
    baseUrl: string,
    outputDirectory: string)

  /** The tasks of one kline kind, one per interval, in interval order. */
  function IntervalTasks(c: GeneratorConfig, date: string, symbol: string, kind: string,
                         intervals: seq<string>): (r: seq<DownloadTask>)
    ensures |r| == |intervals|
  {
    if |intervals| == 0 then []
    else IntervalTasks(c, date, symbol, kind, intervals[..|intervals| - 1])
         + [BuildTaskFast(symbol, kind, date, Some(intervals[|intervals| - 1]), c.baseUrl, c.outputDirectory)]
  }

  /** The tasks of one (kind, enabled) item: none when disabled, one per configured
      interval for a kline kind (none when no interval is configured), one task
      without an interval for any other kind. */
  function KindTasks(c: GeneratorConfig, date: string, symbol: string, item: (string, bool)): seq<DownloadTask> {
    if !item.1 then []
    else if item.0 in KLINE_TYPES then IntervalTasks(c, date, symbol, item.0, c.klineIntervals)
    else [BuildTaskFast(symbol, item.0, date, None, c.baseUrl, c.outputDirectory)]
  }

  function SymbolTasks(c: GeneratorConfig, date: string, symbol: string, kinds: seq<(string, bool)>): seq<DownloadTask> {
    if |kinds| == 0 then []
    else SymbolTasks(c, date, symbol, kinds[..|kinds| - 1]) + KindTasks(c, date, symbol, kinds[|kinds| - 1])
  }

  function DateTasks(c: GeneratorConfig, date: string, symbols: seq<string>): seq<DownloadTask> {
    if |symbols| == 0 then []
    else DateTasks(c, date, symbols[..|symbols| - 1]) + SymbolTasks(c, date, symbols[|symbols| - 1], c.dataTypes)
  }

  /** Every generated task, dates outermost, then symbols, then kinds, then
      intervals. */
  function AllTasks(c: GeneratorConfig, dates: seq<string>, symbols: seq<string>): seq<DownloadTask> {
    if |dates| == 0 then []
    else AllTasks(c, dates[..|dates| - 1], symbols) + DateTasks(c, dates[|dates| - 1], symbols)
  }

  /** The number of tasks per (date, symbol): |intervals| for an enabled kline
      kind, 1 for another enabled kind, nothing for a disabled one. */
  function PerSymbol(kinds: seq<(string, bool)>, intervals: seq<string>): nat {
    if |kinds| == 0 then 0
    else
      var item := kinds[|kinds| - 1];
      PerSymbol(kinds[..|kinds| - 1], intervals)
      + (if !item.1 then 0 else if item.0 in KLINE_TYPES then |intervals| else 1)
  }

  lemma {:induction false} SymbolTasksCount(c: GeneratorConfig, date: string, symbol: string, kinds: seq<(string, bool)>)
    ensures |SymbolTasks(c, date, symbol, kinds)| == PerSymbol(kinds, c.klineIntervals)
  {
    if |kinds| > 0 {
      SymbolTasksCount(c, date, symbol, kinds[..|kinds| - 1]);
    }
  }

  lemma {:induction false} DateTasksCount(c: GeneratorConfig, date: string, symbols: seq<string>)
    ensures |DateTasks(c, date, symbols)| == |symbols| * PerSymbol(c.dataTypes, c.klineIntervals)
  {
    if |symbols| > 0 {
      var n, p := |symbols|, PerSymbol(c.dataTypes, c.klineIntervals);
      DateTasksCount(c, date, symbols[..|symbols| - 1]);
      SymbolTasksCount(c, date, symbols[|symbols| - 1], c.dataTypes);
      MulStep(n, p);
    }
  }

  lemma MulStep(n: nat, p: nat)
    requires n > 0
    ensures (n - 1) * p + p == n * p
  {
  }

  /** The generated count is |dates| × |symbols| × the per-symbol count. */
  lemma {:induction false} AllTasksCount(c: GeneratorConfig, dates: seq<string>, symbols: seq<string>)
    ensures |AllTasks(c, dates, symbols)| == |dates| * (|symbols| * PerSymbol(c.dataTypes, c.klineIntervals))
  {
    if |dates| > 0 {
      AllTasksCount(c, dates[..|dates| - 1], symbols);
      DateTasksCount(c, dates[|dates| - 1], symbols);
      MulStep(|dates|, |symbols| * PerSymbol(c.dataTypes, c.klineIntervals));
    }
  }

  lemma SymbolTasksStep(c: GeneratorConfig, date: string, symbol: string, kinds: seq<(string, bool)>, k: nat)
    requires k < |kinds|
    ensures SymbolTasks(c, date, symbol, kinds[..k + 1])
         == SymbolTasks(c, date, symbol, kinds[..k]) + KindTasks(c, date, symbol, kinds[k])
  {
    assert kinds[..k + 1][..k] == kinds[..k];
  }

  lemma IntervalTasksStep(c: GeneratorConfig, date: string, symbol: string, kind: string, intervals: seq<string>, l: nat)
    requires l < |intervals|
    ensures IntervalTasks(c, date, symbol, kind, intervals[..l + 1])
         == IntervalTasks(c, date, symbol, kind, intervals[..l])
            + [BuildTaskFast(symbol, kind, date, Some(intervals[l]), c.baseUrl, c.outputDirectory)]
  {
    assert intervals[..l + 1][..l] == intervals[..l];
  }

  /** The innermost loop of `generate_file_level_tasks`: one task per configured
      interval of a kline kind. */
  method GenerateIntervalTasks(c: GeneratorConfig, date: string, symbol: string, kind: string)
    returns (tasks: seq<DownloadTask>)
    ensures tasks == IntervalTasks(c, date, symbol, kind, c.klineIntervals)
  {
    tasks := [];
    for l := 0 to |c.klineIntervals|
      invariant tasks == IntervalTasks(c, date, symbol, kind, c.klineIntervals[..l])
    {
      var t := BuildTaskFast(symbol, kind, date, Some(c.klineIntervals[l]), c.baseUrl, c.outputDirectory);
      IntervalTasksStep(c, date, symbol, kind, c.klineIntervals, l);
      tasks := tasks + [t];
    }
    assert c.klineIntervals[..|c.klineIntervals|] == c.klineIntervals;
  }

  /** The loop over the (kind, enabled) items: the tasks of one symbol on one
      date. */
  method GenerateSymbolTasks(c: GeneratorConfig, date: string, symbol: string) returns (tasks: seq<DownloadTask>)
    ensures tasks == SymbolTasks(c, date, symbol, c.dataTypes)
  {
    tasks := [];
    for k := 0 to |c.dataTypes|
      invariant tasks == SymbolTasks(c, date, symbol, c.dataTypes[..k])
    {
      SymbolTasksStep(c, date, symbol, c.dataTypes, k);
      var item := c.dataTypes[k];
      var more: seq<DownloadTask> := [];
      if item.1 {
        if item.0 in KLINE_TYPES {
          more := GenerateIntervalTasks(c, date, symbol, item.0);
        } else {
          more := [BuildTaskFast(symbol, item.0, date, None, c.baseUrl, c.outputDirectory)];
        }
      }
      assert more == KindTasks(c, date, symbol, item);
      tasks := tasks + more;
    }
    assert c.dataTypes[..|c.dataTypes|] == c.dataTypes;
  }

  /** The loop over the symbols: the tasks of one date. */
  method GenerateDateTasks(c: GeneratorConfig, date: string, symbols: seq<string>) returns (tasks: seq<DownloadTask>)
    ensures tasks == DateTasks(c, date, symbols)
  {
    tasks := [];
    for j := 0 to |symbols|
      invariant tasks == DateTasks(c, date, symbols[..j])
    {
      assert symbols[..j + 1][..j] == symbols[..j];
      var more := GenerateSymbolTasks(c, date, symbols[j]);
      tasks := tasks + more;
    }
    assert symbols[..|symbols|] == symbols;
  }

  /** The generation loops of `generate_file_level_tasks`, dates outermost. */
  method GenerateTasks(c: GeneratorConfig, dates: seq<string>, symbols: seq<string>) returns (all: seq<DownloadTask>)
    ensures all == AllTasks(c, dates, symbols)
  {
    all := [];
    for i := 0 to |dates|
      invariant all == AllTasks(c, dates[..i], symbols)
    {
      assert dates[..i + 1][..i] == dates[..i];
      var more := GenerateDateTasks(c, dates[i], symbols);
      all := all + more;
    }
    assert dates[..|dates|] == dates;
  }

  // ---------------------------------------------------------------------------
  // Pre-filtering

  /** The tasks whose CSV file is not among the existing files, in order. */
  function Prefiltered(tasks: seq<DownloadTask>, existing: set<string>): seq<DownloadTask> {
    if |tasks| == 0 then []
    else
      var t := tasks[|tasks| - 1];
      Prefiltered(tasks[..|tasks| - 1], existing) + if t.csvPath in existing then [] else [t]
  }

  /** The pre-filter keeps exactly the tasks whose CSV file is not on disk. */
  lemma {:induction false} PrefilteredMembers(tasks: seq<DownloadTask>, existing: set<string>)
    ensures forall t :: t in Prefiltered(tasks, existing) <==> t in tasks && t.csvPath !in existing
    ensures |Prefiltered(tasks, existing)| <= |tasks|
  {
    if |tasks| > 0 {
      var init := tasks[..|tasks| - 1];
      PrefilteredMembers(init, existing);
      assert tasks == init + [tasks[|tasks| - 1]];
    }
  }

  /** The tracker's status of a task. */
  function TaskStatusOf(entries: seq<Entry>, t: DownloadTask): TaskStatus {
    StatusOf(entries, TaskKey(t.symbol, t.dataType, t.date, t.interval))
  }

  /** A task the tracker has as FAILED: the pre-filter logs it as a retry. */
  predicate IsRetry(entries: seq<Entry>, t: DownloadTask) {
    TaskStatusOf(entries, t) == Failed
  }

  /** The number of elements of `s` that satisfy `f`. */
  function CountWhere<T>(s: seq<T>, f: T -> bool): (n: nat)
    ensures n <= |s|
  {
    if |s| == 0 then 0 else CountWhere(s[..|s| - 1], f) + if f(s[|s| - 1]) then 1 else 0
  }

  lemma {:induction false} CountWherePositive<T>(s: seq<T>, f: T -> bool)
    ensures CountWhere(s, f) > 0 <==> exists x :: x in s && f(x)
  {
    if |s| > 0 {
      var init, last := s[..|s| - 1], s[|s| - 1];
      CountWherePositive(init, f);
      assert s == init + [last];
      if f(last) {
        assert last in s;
      } else if CountWhere(init, f) > 0 {
        var x :| x in init && f(x);
        assert x in s;
      } else {
        forall x | x in s ensures !f(x) {
          if x != last {
            assert x in init;
          }
        }
      }
    }
  }

  /** The number of kept tasks that the tracker has as FAILED. */
  function FailedRetries(kept: seq<DownloadTask>, entries: seq<Entry>): (n: nat)
    ensures n <= |kept|
  {
    CountWhere(kept, t => IsRetry(entries, t))
  }

  /** Some kept task is a failed retry exactly when the count is positive. */
  lemma FailedRetriesPositive(kept: seq<DownloadTask>, entries: seq<Entry>)
    ensures FailedRetries(kept, entries) > 0 <==> exists t :: t in kept && IsRetry(entries, t)
  {
    CountWherePositive(kept, t => IsRetry(entries, t));
  }

  lemma PrefilteredSkip(all: seq<DownloadTask>, existing: set<string>, i: nat)
    requires i < |all| && all[i].csvPath in existing
    ensures Prefiltered(all[..i + 1], existing) == Prefiltered(all[..i], existing)
  {
    assert all[..i + 1][..i] == all[..i];
  }

  lemma PrefilteredKeep(all: seq<DownloadTask>, existing: set<string>, i: nat)
    requires i < |all| && all[i].csvPath !in existing
    ensures Prefiltered(all[..i + 1], existing) == Prefiltered(all[..i], existing) + [all[i]]
  {
    assert all[..i + 1][..i] == all[..i];
  }

  lemma CountWhereSnoc<T>(s: seq<T>, x: T, f: T -> bool)
    ensures CountWhere(s + [x], f) == CountWhere(s, f) + if f(x) then 1 else 0
  {
    assert (s + [x])[..|s|] == s;
  }

  lemma FailedRetriesSnoc(kept: seq<DownloadTask>, t: DownloadTask, entries: seq<Entry>)
    ensures FailedRetries(kept + [t], entries) == FailedRetries(kept, entries) + if IsRetry(entries, t) then 1 else 0
  {
    CountWhereSnoc(kept, t, u => IsRetry(entries, u));
  }

  /** The pre-filter loop: the kept tasks, how many were skipped and how many of
      the kept ones the tracker has as FAILED. */
  method Prefilter(all: seq<DownloadTask>, existing: set<string>, tracker: Tracker)
    returns (kept: seq<DownloadTask>, skipped: nat, failedRetry: nat)
    ensures kept == Prefiltered(all, existing)
    ensures skipped + |kept| == |all|
    ensures failedRetry == FailedRetries(kept, tracker.entries)
  {
    kept, skipped, failedRetry := [], 0, 0;
    ghost var entries := tracker.entries;
    for i := 0 to |all|
      invariant kept == Prefiltered(all[..i], existing)
      invariant skipped + |kept| == i
      invariant failedRetry == FailedRetries(kept, entries)
    {
      var t := all[i];
      if t.csvPath in existing {
        PrefilteredSkip(all, existing, i);
        skipped := skipped + 1;
      } else {
        PrefilteredKeep(all, existing, i);
        var status := tracker.GetTaskStatus(t.symbol, t.dataType, t.date, t.interval);
        if status == Failed {
          failedRetry := failedRetry + 1;
        }
        FailedRetriesSnoc(kept, t, entries);
        kept := kept + [t];
      }
    }
    assert all[..|all|] == all;
  }

  /** The symbols to use: the configured ones, or else the fetched list (None when
      fetching failed, in which case no task is generated). */
  function TradingPairs(c: GeneratorConfig, fetched: Option<seq<string>>): Option<seq<string>> {
    if |c.tradingPairs| > 0 then Some(c.tradingPairs) else fetched
  }

  /** `generate_file_level_tasks` as a value: the date range's error propagates;
      an empty range raises IndexError where the log line reads `dates[0]`; a
      failed symbol fetch gives no tasks; otherwise the generated tasks whose CSV
      file does not exist yet. */
  function FileLevelTasks(c: GeneratorConfig, today: string, fetched: Option<seq<string>>,
                          existing: set<string>): (r: Result<seq<DownloadTask>>)
  {
    match DateRange(c.startDate, c.endDate, today)
    case Err(e) => Err(e)
    case Ok(dates) =>
      if |dates| == 0 then Err(IndexError("list index out of range"))
      else match TradingPairs(c, fetched)
        case None => Ok([])
        case Some(symbols) => Ok(Prefiltered(AllTasks(c, dates, symbols), existing))
  }

  /** Every returned task is a generated one whose CSV file is missing, and every
      such task is returned; skipped and returned add up to the generated count. */
  lemma FileLevelTasksMembers(c: GeneratorConfig, today: string, symbols: seq<string>,
                              existing: set<string>, t: DownloadTask)
    requires DateRange(c.startDate, c.endDate, today).Ok?
    requires |DateRange(c.startDate, c.endDate, today).value| > 0
    requires TradingPairs(c, Some(symbols)) == Some(symbols)
    ensures var r := FileLevelTasks(c, today, Some(symbols), existing);
            var all := AllTasks(c, DateRange(c.startDate, c.endDate, today).value, symbols);
            r == Ok(Prefiltered(all, existing))
            && (t in r.value <==> t in all && t.csvPath !in existing)
  {
    PrefilteredMembers(AllTasks(c, DateRange(c.startDate, c.endDate, today).value, symbols), existing);
  }

  /** The whole of `generate_file_level_tasks`.  `fetched` is what fetching the
      symbol list gave (None when it raised) and `existing` the CSV files on disk;
      the tracker's failures are saved exactly when some returned task had failed
      before, and `saved` is what was written. */
  method GenerateFileLevelTasks(c: GeneratorConfig, tracker: Tracker, today: string,
                                fetched: Option<seq<string>>, existing: set<string>)
    returns (res: Result<seq<DownloadTask>>, saved: Option<seq<Entry>>)
    ensures res == FileLevelTasks(c, today, fetched, existing)
    ensures saved.Some? <==> res.Ok? && exists t :: t in res.value && IsRetry(tracker.entries, t)
    ensures saved.Some? ==> saved.value == FailedOnly(tracker.entries)
  {
    saved := None;
    var range := GenerateDateRange(c.startDate, c.endDate, today);
    if range.Err? {
      return Err(range.error), None;
    }
    var dates := range.value;
    if |dates| == 0 {
      return Err(IndexError("list index out of range")), None;
    }
    var symbols := c.tradingPairs;
    if |symbols| == 0 {
      if fetched.None? {
        return Ok([]), None;
      }
      symbols := fetched.value;
    }
    var all := GenerateTasks(c, dates, symbols);
    var kept, skipped, failedRetry := Prefilter(all, existing, tracker);
    FailedRetriesPositive(kept, tracker.entries);
    if failedRetry > 0 {
      var written := tracker.SaveProgress();
      saved := Some(written);
    }
    res := Ok(kept);
  }
}
