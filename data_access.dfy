// The data access layer's decisions around the local store: the store's query
// keying and `write_data`'s grouping by date, the repair decision taken from an
// integrity report, the request sizes for the exchange, the collection of the
// concurrent fetches, and the sort-and-deduplicate merge of local and fetched
// rows.
//
// The store is seen only through what its SQL statement returns for each file
// pattern, and a write is the description of the file it would produce.  The
// exchange's answers, one per repair range in range order, are a parameter.
module DataAccess {
  import opened Wrappers
  import opened Calendar
  import opened DataQuery
  import opened SymbolMetadata
  import IC = IntegrityChecker
  import Sorting

  // ---- the local store ----------------------------------------------------------

  /** The file pattern the store reads one (symbol, interval) pair from. */
  function ParquetPattern(dataPath: string, dataType: string, interval: string, symbol: string): string {
    dataPath + "/binance_parquet/" + dataType + "/interval=" + interval + "/date=*/symbol=" + symbol + ".parquet"
  }

  /** What the SQL statement over one file pattern does: it returns rows, or it
      raises with a message. */
  datatype Statement = Returned(rows: seq<Record>) | Raised(message: string)

  /** The `n` characters of `s` from position `k`. */
  function Slice(s: string, k: int, n: int): string
    requires 0 <= k && 0 <= n && k + n <= |s|
  {
    s[k..k + n]
  }

  /** Python's `t in s` on strings. */
  predicate Contains(s: string, t: string)
    ensures Contains(s, t) <==> exists k :: 0 <= k <= |s| - |t| && Slice(s, k, |t|) == t
    decreases |s|
  {
    if |s| < |t| then false
    else if s[..|t|] == t then assert Slice(s, 0, |t|) == t; true
    else
      assert Slice(s, 0, |t|) != t;
      assert forall k :: 1 <= k <= |s| - |t| ==> Slice(s, k, |t|) == Slice(s[1..], k - 1, |t|);
      assert forall k :: 0 <= k <= |s| - 1 - |t| ==> Slice(s[1..], k, |t|) == Slice(s, k + 1, |t|);
      Contains(s[1..], t)
  }

  /** The two messages `query` reads as "no such files". */
  predicate FilesMissing(message: string) {
    Contains(message, "No files found") || Contains(message, "does not exist")
  }

  /** The statement that runs for one pair; a pattern absent from `rows` matches no
      file, which DuckDB reports with "No files found". */
  function PairStatement(rows: map<string, Statement>, dataPath: string, dataType: string,
                         symbol: string, interval: string): (st: Statement)
    ensures st.Raised? && ParquetPattern(dataPath, dataType, interval, symbol) !in rows ==> FilesMissing(st.message)
  {
    var pattern := ParquetPattern(dataPath, dataType, interval, symbol);
    if pattern in rows then rows[pattern]
    else
      var m := "No files found that match the pattern \"" + pattern + "\"";
      assert m[..|"No files found"|] == "No files found";
      Raised(m)
  }

  /** A pair whose statement raised for another reason than missing files: the
      `except` branch awaits `self._handle_exception`, which no class defines. */
  predicate PairFails(rows: map<string, Statement>, dataPath: string, dataType: string,
                      symbol: string, interval: string) {
    var st := PairStatement(rows, dataPath, dataType, symbol, interval);
    st.Raised? && !FilesMissing(st.message)
  }

  /** The AttributeError that the missing `_handle_exception` raises. */
  const HANDLE_EXCEPTION_MISSING: Error :=
    AttributeError("'DuckDBEngine' object has no attribute '_handle_exception'")

  /** Some pair of the query fails. */
  predicate AnyPairFails(rows: map<string, Statement>, dataPath: string, dataType: string,
                         symbols: seq<string>, intervals: seq<string>) {
    exists s, i :: s in symbols && i in intervals && PairFails(rows, dataPath, dataType, s, i)
  }

  /** The rows of one pair: what the statement returns, or none when the files are
      missing. */
  function PairRows(rows: map<string, Statement>, dataPath: string, dataType: string,
                    symbol: string, interval: string): seq<Record>
  {
    match PairStatement(rows, dataPath, dataType, symbol, interval)
    case Returned(data) => data
    case Raised(_) => []
  }

  /** The result map after one symbol's intervals have been visited in order. */
  function SymbolRows(acc: map<string, seq<Record>>, rows: map<string, Statement>, dataPath: string,
                      dataType: string, symbol: string, intervals: seq<string>): map<string, seq<Record>>
  {
    if |intervals| == 0 then acc
    else
      var i := intervals[|intervals| - 1];
      SymbolRows(acc, rows, dataPath, dataType, symbol, intervals[..|intervals| - 1])
        [Key(symbol, i) := PairRows(rows, dataPath, dataType, symbol, i)]
  }

  /** Visiting one more interval stores that pair's rows under its key. */
  lemma SymbolRowsSnoc(acc: map<string, seq<Record>>, rows: map<string, Statement>, dataPath: string,
                       dataType: string, symbol: string, intervals: seq<string>, b: nat)
    requires b < |intervals|
    ensures SymbolRows(acc, rows, dataPath, dataType, symbol, intervals[..b + 1])
            == SymbolRows(acc, rows, dataPath, dataType, symbol, intervals[..b])
                 [Key(symbol, intervals[b]) := PairRows(rows, dataPath, dataType, symbol, intervals[b])]
  {
    assert intervals[..b + 1][..b] == intervals[..b];
  }

  /** The result map after the symbols have been visited in order. */
  function QueryMap(rows: map<string, Statement>, dataPath: string, dataType: string,
                    symbols: seq<string>, intervals: seq<string>): map<string, seq<Record>>
  {
    if |symbols| == 0 then map[]
    else
      SymbolRows(QueryMap(rows, dataPath, dataType, symbols[..|symbols| - 1], intervals),
                 rows, dataPath, dataType, symbols[|symbols| - 1], intervals)
  }

  /** A visit of one symbol adds exactly that symbol's keys and leaves the others. */
  lemma {:induction false} SymbolRowsEntries(acc: map<string, seq<Record>>, rows: map<string, Statement>,
                                             dataPath: string, dataType: string, symbol: string,
                                             intervals: seq<string>, k: string)
    ensures var m := SymbolRows(acc, rows, dataPath, dataType, symbol, intervals);
      (k in m <==> k in acc || exists i :: i in intervals && k == Key(symbol, i))
      && (k in acc && (forall i :: i in intervals ==> k != Key(symbol, i)) ==> m[k] == acc[k])
      && (forall i :: i in intervals && k == Key(symbol, i) ==> m[k] == PairRows(rows, dataPath, dataType, symbol, i))
  {
    if |intervals| > 0 {
      var init := intervals[..|intervals| - 1];
      assert intervals == init + [intervals[|intervals| - 1]];
      SymbolRowsEntries(acc, rows, dataPath, dataType, symbol, init, k);
      forall i | i in intervals && k == Key(symbol, i)
        ensures SymbolRows(acc, rows, dataPath, dataType, symbol, intervals)[k]
             == PairRows(rows, dataPath, dataType, symbol, i)
      {
        var last := intervals[|intervals| - 1];
        if k == Key(symbol, last) {
          KeyLeft(symbol, i, last);
        } else {
          assert i in init;
        }
      }
    }
  }

  /** Keys of one symbol determine their suffix. */
  lemma KeyLeft(symbol: string, x1: string, x2: string)
    requires Key(symbol, x1) == Key(symbol, x2)
    ensures x1 == x2
  {
    assert x1 == Key(symbol, x1)[|symbol| + 1..];
  }

  /** The query yields one key per (symbol, interval) pair.  For symbols free of '_'
      (all exchange symbols are) each key holds its own pair's rows. */
  lemma {:induction false} QueryMapEntries(rows: map<string, Statement>, dataPath: string, dataType: string,
                                           symbols: seq<string>, intervals: seq<string>, k: string)
    ensures var m := QueryMap(rows, dataPath, dataType, symbols, intervals);
      k in m <==> exists s, i :: s in symbols && i in intervals && k == Key(s, i)
    ensures (forall s :: s in symbols ==> '_' !in s) ==>
      var m := QueryMap(rows, dataPath, dataType, symbols, intervals);
      forall s, i :: s in symbols && i in intervals && k == Key(s, i) ==> m[k] == PairRows(rows, dataPath, dataType, s, i)
  {
    if |symbols| > 0 {
      var init := symbols[..|symbols| - 1];
      var last := symbols[|symbols| - 1];
      assert symbols == init + [last];
      var before := QueryMap(rows, dataPath, dataType, init, intervals);
      QueryMapEntries(rows, dataPath, dataType, init, intervals, k);
      SymbolRowsEntries(before, rows, dataPath, dataType, last, intervals, k);
      if forall s :: s in symbols ==> '_' !in s {
        forall s, i | s in symbols && i in intervals && k == Key(s, i)
          ensures QueryMap(rows, dataPath, dataType, symbols, intervals)[k]
               == PairRows(rows, dataPath, dataType, s, i)
        {
          forall j | j in intervals && k == Key(last, j) ensures s == last && i == j {
            KeyInjective(s, i, last, j);
          }
        }
      }
    }
  }

  /** The date-partitioned directory a row of `date` is written under. */
  function ParquetFile(dataPath: string, dataType: string, interval: string, date: string, symbol: string): string {
    dataPath + "/binance_parquet/" + dataType + "/interval=" + interval + "/date=" + date + "/symbol=" + symbol + ".parquet"
  }

  function CsvFile(dataPath: string, dataType: string, interval: string, date: string, symbol: string): string {
    dataPath + "/" + dataType + "/" + symbol + "/" + interval + "/" + symbol + "-" + interval + "-" + date + ".csv"
  }

  /** A file `write_data` would replace: its path, its format and its rows. */
  datatype FileWrite = FileWrite(path: string, format: string, rows: seq<Record>)

  /** The local calendar date of a row's open time, under a clock `offsetSeconds`
      ahead of UTC; None where the year is out of `strftime`'s range, and there
      `fromtimestamp` raises. */
  function DateOf(row: Record, offsetSeconds: int): Option<string> {
    var day := LocalDay(row.openTime / 1000, offsetSeconds);
    if ValidDate(DateOfDay(day)) then Some(DayName(day)) else None
  }

  /** A row's date names the local calendar day of its open time. */
  lemma DateOfNamesDay(row: Record, offsetSeconds: int)
    ensures var day := LocalDay(row.openTime / 1000, offsetSeconds);
      DateOf(row, offsetSeconds).Some? <==> ValidDate(DateOfDay(day))
    ensures DateOf(row, offsetSeconds).Some? ==>
      ParseDate(DateOf(row, offsetSeconds).value) == Some(DateOfDay(LocalDay(row.openTime / 1000, offsetSeconds)))
  {
  }

  /** The dates of the rows, in order; None when some row has no date. */
  function RowDates(data: seq<Record>, offsetSeconds: int): (r: Option<seq<string>>)
    ensures r.Some? ==> |r.value| == |data|
  {
    if |data| == 0 then Some([])
    else match RowDates(data[..|data| - 1], offsetSeconds)
      case None => None
      case Some(dates) =>
        match DateOf(data[|data| - 1], offsetSeconds)
        case None => None
        case Some(d) => Some(dates + [d])
  }

  /** One more row extends the dates by its own, or leaves none. */
  lemma RowDatesSnoc(data: seq<Record>, offsetSeconds: int, n: nat)
    requires n < |data| && RowDates(data[..n], offsetSeconds).Some?
    ensures DateOf(data[n], offsetSeconds).None? ==> RowDates(data[..n + 1], offsetSeconds).None?
    ensures DateOf(data[n], offsetSeconds).Some? ==>
      RowDates(data[..n + 1], offsetSeconds) == Some(RowDates(data[..n], offsetSeconds).value + [DateOf(data[n], offsetSeconds).value])
  {
    assert data[..n + 1][..n] == data[..n];
  }

  /** The dates, each once, in order of first appearance (the insertion order of the
      grouping dictionary). */
  function DateOrder(dates: seq<string>): (order: seq<string>)
    ensures forall d :: d in order <==> d in dates
  {
    if |dates| == 0 then []
    else
      var before := DateOrder(dates[..|dates| - 1]);
      var d := dates[|dates| - 1];
      assert dates == dates[..|dates| - 1] + [d];
      if d in before then before else before + [d]
  }

  predicate Distinct(s: seq<string>) {
    forall i, j :: 0 <= i < j < |s| ==> s[i] != s[j]
  }

  /** The dates are listed once each. */
  lemma {:induction false} DateOrderDistinct(dates: seq<string>)
    ensures Distinct(DateOrder(dates))
  {
    if |dates| > 0 {
      var before := DateOrder(dates[..|dates| - 1]);
      var d := dates[|dates| - 1];
      DateOrderDistinct(dates[..|dates| - 1]);
      if d !in before {
        var order := before + [d];
        forall i, j | 0 <= i < j < |order| ensures order[i] != order[j] {
          if j == |before| {
            assert order[i] == before[i];
            assert before[i] in before;
          } else {
            assert order[i] == before[i] && order[j] == before[j];
          }
        }
        assert DateOrder(dates) == order;
      } else {
        assert DateOrder(dates) == before;
      }
    }
  }

  /** The rows of `data` dated `date`, in input order. */
  function OnDate(data: seq<Record>, dates: seq<string>, date: string): seq<Record>
    requires |dates| == |data|
  {
    if |data| == 0 then []
    else
      OnDate(data[..|data| - 1], dates[..|dates| - 1], date)
        + (if dates[|dates| - 1] == date then [data[|data| - 1]] else [])
  }

  /** The groups of the dictionary: date to rows. */
  function DateGroups(data: seq<Record>, dates: seq<string>): (groups: map<string, seq<Record>>)
    requires |dates| == |data|
    ensures forall d :: d in groups <==> d in dates
  {
    if |data| == 0 then map[]
    else
      var before := DateGroups(data[..|data| - 1], dates[..|dates| - 1]);
      var d := dates[|dates| - 1];
      assert dates == dates[..|dates| - 1] + [d];
      before[d := (if d in before then before[d] else []) + [data[|data| - 1]]]
  }

  /** The group of a date holds exactly the rows of that date, in input order, and is
      not empty. */
  lemma {:induction false} DateGroupsRows(data: seq<Record>, dates: seq<string>, d: string)
    requires |dates| == |data|
    ensures var groups := DateGroups(data, dates);
      d in groups ==> groups[d] == OnDate(data, dates, d) && |groups[d]| > 0
  {
    if |data| > 0 {
      var before := DateGroups(data[..|data| - 1], dates[..|dates| - 1]);
      DateGroupsRows(data[..|data| - 1], dates[..|dates| - 1], d);
      var groups := DateGroups(data, dates);
      if d == dates[|dates| - 1] && d !in before {
        assert OnDate(data[..|data| - 1], dates[..|dates| - 1], d) == [] by {
          OnDateEmpty(data[..|data| - 1], dates[..|dates| - 1], d);
        }
      }
    }
  }

  lemma DateGroupsSnoc(data: seq<Record>, dates: seq<string>, row: Record, d: string)
    requires |dates| == |data|
    ensures var before := DateGroups(data, dates);
      DateGroups(data + [row], dates + [d]) == before[d := (if d in before then before[d] else []) + [row]]
  {
    assert (data + [row])[..|data|] == data;
    assert (dates + [d])[..|dates|] == dates;
  }

  lemma DateOrderSnoc(dates: seq<string>, d: string)
    ensures DateOrder(dates + [d]) == (if d in DateOrder(dates) then DateOrder(dates) else DateOrder(dates) + [d])
  {
    assert (dates + [d])[..|dates|] == dates;
  }

  lemma {:induction false} OnDateEmpty(data: seq<Record>, dates: seq<string>, date: string)
    requires |dates| == |data| && date !in dates
    ensures OnDate(data, dates, date) == []
  {
    if |data| > 0 {
      assert dates == dates[..|dates| - 1] + [dates[|dates| - 1]];
      OnDateEmpty(data[..|data| - 1], dates[..|dates| - 1], date);
    }
  }

  /** A row lies in the group of a date exactly when it is a row of that date; so the
      groups partition the rows. */
  lemma {:induction false} OnDateMembers(data: seq<Record>, dates: seq<string>, date: string, i: nat)
    requires |dates| == |data| && i < |data|
    ensures dates[i] == date ==> data[i] in OnDate(data, dates, date)
    ensures forall x :: x in OnDate(data, dates, date) ==> x in data
  {
    var init := data[..|data| - 1];
    if i < |init| {
      OnDateMembers(init, dates[..|dates| - 1], date, i);
      assert init[i] == data[i] && dates[..|dates| - 1][i] == dates[i];
    } else if |init| > 0 {
      OnDateMembers(init, dates[..|dates| - 1], date, 0);
    }
  }

  /** The files written for the dates in `order`: each date's parquet file, followed
      by its csv file when csv is among the formats. */
  function FileWrites(order: seq<string>, groups: map<string, seq<Record>>, dataPath: string,
                      dataType: string, interval: string, symbol: string, formats: seq<string>): seq<FileWrite>
    requires forall d :: d in order ==> d in groups
  {
    if |order| == 0 then []
    else
      var init := order[..|order| - 1];
      var d := order[|order| - 1];
      FileWrites(init, groups, dataPath, dataType, interval, symbol, formats)
        + [FileWrite(ParquetFile(dataPath, dataType, interval, d, symbol), "parquet", groups[d])]
        + (if "csv" in formats then [FileWrite(CsvFile(dataPath, dataType, interval, d, symbol), "csv", groups[d])] else [])
  }

  /** Every date gets its parquet file; csv files exist exactly when asked for; no
      other file is written. */
  lemma {:induction false} FileWritesMembers(order: seq<string>, groups: map<string, seq<Record>>, dataPath: string,
                                             dataType: string, interval: string, symbol: string,
                                             formats: seq<string>, w: FileWrite)
    requires forall d :: d in order ==> d in groups
    ensures w in FileWrites(order, groups, dataPath, dataType, interval, symbol, formats) <==>
      exists d :: d in order &&
        (w == FileWrite(ParquetFile(dataPath, dataType, interval, d, symbol), "parquet", groups[d])
         || ("csv" in formats && w == FileWrite(CsvFile(dataPath, dataType, interval, d, symbol), "csv", groups[d])))
    ensures |FileWrites(order, groups, dataPath, dataType, interval, symbol, formats)|
         == |order| * (if "csv" in formats then 2 else 1)
  {
    if |order| > 0 {
      var init := order[..|order| - 1];
      assert order == init + [order[|order| - 1]];
      FileWritesMembers(init, groups, dataPath, dataType, interval, symbol, formats, w);
    }
  }

  /** The DuckDB store: its directory and whether `initialize` has connected it. */
  class DuckDBEngine {
    const dataPath: string
    var connected: bool

    constructor (dataPath: string)
      ensures this.dataPath == dataPath && !connected
    {
      this.dataPath := dataPath;
      connected := false;
    }

    method Initialize()
      modifies this
      ensures connected
    {
      connected := true;
    }

    /** `query`: RuntimeError before `initialize`, ValueError for a data type that is
        not a kline kind, and otherwise one entry per (symbol, interval) pair, visited
        symbol by symbol.  `rows` says what the SQL statement does for each file
        pattern.  Missing files give the pair no rows; any other failure reaches the
        undefined `_handle_exception` and ends the query with an AttributeError. */
    method Query(symbols: seq<string>, intervals: seq<string>, r: TimeRange, dataType: string,
                 rows: map<string, Statement>)
      returns (res: Result<map<string, seq<Record>>>)
      ensures !connected ==> res == Err(RuntimeError("DuckDB connection not initialized"))
      ensures connected && dataType !in KLINE_TYPES ==> res.Err? && res.error.ValueError?
      ensures connected && dataType in KLINE_TYPES ==>
        res == if AnyPairFails(rows, dataPath, dataType, symbols, intervals) then Err(HANDLE_EXCEPTION_MISSING)
               else Ok(QueryMap(rows, dataPath, dataType, symbols, intervals))
    {
      if !connected {
        return Err(RuntimeError("DuckDB connection not initialized"));
      }
      if dataType !in KLINE_TYPES {
        return Err(ValueError("Unsupported data_type: " + dataType));
      }
      var results: map<string, seq<Record>> := map[];
      for a := 0 to |symbols|
        invariant results == QueryMap(rows, dataPath, dataType, symbols[..a], intervals)
        invariant !AnyPairFails(rows, dataPath, dataType, symbols[..a], intervals)
      {
        assert symbols[..a + 1] == symbols[..a] + [symbols[a]];
        var next := QuerySymbol(results, symbols[a], intervals, dataType, rows);
        if next.Err? {
          assert exists i :: i in intervals && PairFails(rows, dataPath, dataType, symbols[a], i);
          assert symbols[a] in symbols;
          return Err(next.error);
        }
        results := next.value;
      }
      assert symbols[..|symbols|] == symbols;
      return Ok(results);
    }

    /** The inner loop of `query` for one symbol: its pairs are added to `acc`
        interval by interval, unless one of them fails for a reason other than
        missing files. */
    method QuerySymbol(acc: map<string, seq<Record>>, symbol: string, intervals: seq<string>,
                       dataType: string, rows: map<string, Statement>)
      returns (res: Result<map<string, seq<Record>>>)
      ensures res.Err? <==> exists i :: i in intervals && PairFails(rows, dataPath, dataType, symbol, i)
      ensures res.Err? ==> res.error == HANDLE_EXCEPTION_MISSING
      ensures res.Ok? ==> res.value == SymbolRows(acc, rows, dataPath, dataType, symbol, intervals)
    {
      var results := acc;
      for b := 0 to |intervals|
        invariant results == SymbolRows(acc, rows, dataPath, dataType, symbol, intervals[..b])
        invariant forall i :: i in intervals[..b] ==> !PairFails(rows, dataPath, dataType, symbol, i)
      {
        var pair := QueryPair(symbol, intervals[b], dataType, rows);
        if pair.Err? {
          return Err(pair.error);
        }
        assert intervals[..b + 1] == intervals[..b] + [intervals[b]];
        SymbolRowsSnoc(acc, rows, dataPath, dataType, symbol, intervals, b);
        results := results[Key(symbol, intervals[b]) := pair.value];
      }
      assert intervals[..|intervals|] == intervals;
      return Ok(results);
    }

    /** One pass of the inner loop of `query`: the pair's rows, none when its files
        are missing, or the AttributeError of the `except` branch. */
    method QueryPair(symbol: string, interval: string, dataType: string, rows: map<string, Statement>)
      returns (res: Result<seq<Record>>)
      ensures res.Err? <==> PairFails(rows, dataPath, dataType, symbol, interval)
      ensures res.Err? ==> res.error == HANDLE_EXCEPTION_MISSING
      ensures res.Ok? ==> res.value == PairRows(rows, dataPath, dataType, symbol, interval)
    {
      var st := PairStatement(rows, dataPath, dataType, symbol, interval);
      match st
      case Returned(data) =>
        return Ok(data);
      case Raised(message) =>
        if FilesMissing(message) {
          return Ok([]);
        }
        return Err(HANDLE_EXCEPTION_MISSING);
    }

    /** `write_data`: nothing for no rows; the rows grouped by their local date, and
        per date the parquet file, then the csv file when csv is among the formats.
        A row whose date cannot be written fails the call before any file is. */
    method WriteData(symbol: string, interval: string, data: seq<Record>, dataType: string,
                     formats: seq<string>, offsetSeconds: int)
      returns (res: Result<seq<FileWrite>>)
      ensures |data| == 0 ==> res == Ok([])
      ensures RowDates(data, offsetSeconds).None? ==> res.Err?
      ensures RowDates(data, offsetSeconds).Some? ==>
        var dates := RowDates(data, offsetSeconds).value;
        res == Ok(FileWrites(DateOrder(dates), DateGroups(data, dates),
                             dataPath, dataType, interval, symbol, formats))
    {
      if |data| == 0 {
        return Ok([]);
      }
      var order: seq<string> := [];
      var groups: map<string, seq<Record>> := map[];
      ghost var dates: seq<string> := [];
      for i := 0 to |data|
        invariant RowDates(data[..i], offsetSeconds) == Some(dates)
        invariant order == DateOrder(dates)
        invariant groups == DateGroups(data[..i], dates)
      {
        var date := DateOf(data[i], offsetSeconds);
        if date.None? {
          RowDatesSnoc(data, offsetSeconds, i);
          NoDateFails(data, offsetSeconds, i + 1);
          return Err(ValueError("year is out of range"));
        }
        var d := date.value;
        RowDatesSnoc(data, offsetSeconds, i);
        DateOrderSnoc(dates, d);
        GroupStep(data, i, dates, d);
        var group := if d in groups then groups[d] else [];
        if d !in groups {
          order := order + [d];
        }
        groups := groups[d := group + [data[i]]];
        dates := dates + [d];
      }
      assert data[..|data|] == data;
      var writes := WriteGroups(order, groups, symbol, interval, dataType, formats);
      res := Ok(writes);
    }

    /** The per-date writes of `write_data`, in the dictionary's order. */
    method WriteGroups(order: seq<string>, groups: map<string, seq<Record>>, symbol: string, interval: string,
                       dataType: string, formats: seq<string>)
      returns (writes: seq<FileWrite>)
      requires forall d :: d in order ==> d in groups
      ensures writes == FileWrites(order, groups, dataPath, dataType, interval, symbol, formats)
    {
      writes := [];
      for j := 0 to |order|
        invariant writes == FileWrites(order[..j], groups, dataPath, dataType, interval, symbol, formats)
      {
        assert order[..j + 1][..j] == order[..j];
        var d := order[j];
        writes := writes + [FileWrite(ParquetFile(dataPath, dataType, interval, d, symbol), "parquet", groups[d])];
        if "csv" in formats {
          writes := writes + [FileWrite(CsvFile(dataPath, dataType, interval, d, symbol), "csv", groups[d])];
        }
      }
      assert order[..|order|] == order;
    }
  }

  /** One step of the grouping loop: the row joins the group of its date. */
  lemma GroupStep(data: seq<Record>, i: nat, dates: seq<string>, d: string)
    requires i < |data| && |dates| == i
    ensures var groups := DateGroups(data[..i], dates);
      DateGroups(data[..i + 1], dates + [d]) == groups[d := (if d in groups then groups[d] else []) + [data[i]]]
  {
    DateGroupsSnoc(data[..i], dates, data[i], d);
    assert data[..i + 1] == data[..i] + [data[i]];
  }

  /** A prefix without dates leaves the whole input without dates. */
  lemma {:induction false} NoDateFails(data: seq<Record>, offsetSeconds: int, n: nat)
    requires n <= |data| && RowDates(data[..n], offsetSeconds).None?
    ensures RowDates(data, offsetSeconds).None?
    decreases |data| - n
  {
    if n < |data| {
      assert data[..n + 1][..n] == data[..n];
      NoDateFails(data, offsetSeconds, n + 1);
    } else {
      assert data[..n] == data;
    }
  }

  // ---- the repair decision ----------------------------------------------------------

  /** `_find_missing_data` after the report: the ranges to fetch from the exchange. */
  function DecideRepair(report: IC.IntegrityReport, r: TimeRange, symbols: map<string, SymbolInfo>,
                        symbol: string): (res: Result<seq<TimeRange>>)
    ensures !report.needsRepair && report.isHealthy ==> res == Ok([])
    ensures report.needsRepair && report.completenessRatio < 0.5 ==> res == Ok([r])
    ensures report.needsRepair && report.completenessRatio >= 0.5 ==> res == Ok(report.repairRanges)
    ensures !report.needsRepair && !report.isHealthy && |report.gaps| > 0 ==> res == Ok(report.repairRanges)
    ensures !report.needsRepair && !report.isHealthy && |report.gaps| == 0 && report.totalRecords != 0 ==> res == Ok([])
  {
    if !report.needsRepair && report.isHealthy then Ok([])
    else if report.needsRepair then
      if report.completenessRatio < 0.5 then Ok([r]) else Ok(report.repairRanges)
    else if |report.gaps| > 0 then Ok(report.repairRanges)
    else if report.totalRecords == 0 then
      match Classify(symbols, symbol, r)
      case Err(e) => Err(e)
      case Ok(kind) =>
        if kind == NewCoin then
          match ListingDate(symbols, symbol)
          case Err(e) => Err(e)
          case Ok(listing) =>
            if listing.Some? && r.start < listing.value then
              var adjusted := IC.Max(listing.value, r.start);
              if adjusted < r.end then Ok([TimeRange(adjusted, r.end)]) else Ok([])
            else Ok([r])
        else Ok([r])
    else Ok([])
  }

  /** The branch that consults the listing date: a report that is neither healthy
      nor in need of repair, has no gaps and counts no records. */
  predicate ReachesListingBranch(report: IC.IntegrityReport) {
    !report.needsRepair && !report.isHealthy && |report.gaps| == 0 && report.totalRecords == 0
  }

  /** `_find_missing_data`: the local rows are analysed against `now` and the report
      decides. */
  function FindMissingData(symbol: string, interval: string, r: TimeRange, local: seq<Record>, now: Instant,
                           symbols: map<string, SymbolInfo>): Result<seq<TimeRange>>
  {
    DecideRepair(IC.Analyze(symbol, interval, r, local, now), r, symbols, symbol)
  }

  /** No report of the integrity checker reaches the listing-date branch: a window in
      the future is healthy, and an elapsed one without records has completeness 0
      and so needs repair. */
  lemma ListingBranchUnreachable(symbol: string, interval: string, r: TimeRange, local: seq<Record>, now: Instant)
    ensures !ReachesListingBranch(IC.Analyze(symbol, interval, r, local, now))
  {
    if r.start < now && |local| == 0 {
      IC.EmptyDataReport(symbol, interval, r, now);
    }
  }

  /** With no local rows for an elapsed window the whole requested range is fetched. */
  lemma EmptyLocalFetchesWholeRange(symbol: string, interval: string, r: TimeRange, now: Instant,
                                    symbols: map<string, SymbolInfo>)
    requires r.start < now
    ensures FindMissingData(symbol, interval, r, [], now, symbols) == Ok([r])
  {
    IC.EmptyDataReport(symbol, interval, r, now);
  }

  /** The decision never fails and fetches nothing, the whole range, or the report's
      repair ranges; the listing date is never consulted. */
  lemma FindMissingDataOutcomes(symbol: string, interval: string, r: TimeRange, local: seq<Record>, now: Instant,
                                symbols: map<string, SymbolInfo>)
    ensures var res := FindMissingData(symbol, interval, r, local, now, symbols);
      var report := IC.Analyze(symbol, interval, r, local, now);
      res == Ok([]) || res == Ok([r]) || res == Ok(report.repairRanges)
  {
    ListingBranchUnreachable(symbol, interval, r, local, now);
  }

  // ---- request sizes -----------------------------------------------------------------

  /** Python's `round` of q / d: nearest integer, ties to even. */
  function RoundHalfEven(q: int, d: int): (n: int)
    requires d > 0
    ensures 2 * (q - n * d) <= d && 2 * (n * d - q) <= d
    ensures 2 * (q - n * d) == d || 2 * (n * d - q) == d ==> n % 2 == 0
  {
    var f := q / d;
    var rem := q % d;
    assert q == f * d + rem && (f + 1) * d == f * d + d;
    if 2 * rem < d then f
    else if 2 * rem > d then f + 1
    else if f % 2 == 0 then f else f + 1
  }

  /** `_calculate_expected_records_for_range`: at least one; the nearest count of
      bucket widths of 15 minutes, 1 hour or 4 hours (15 minutes for any other name),
      and the whole days of the range for "1d". */
  function ExpectedHint(r: TimeRange, interval: string): (n: int)
    ensures n >= 1
    ensures interval == "1d" ==> n == IC.Max(1, (r.end - r.start) / MICROS_PER_DAY)
    ensures interval != "1d" ==>
      var width := (if interval == "1h" then 3600 else if interval == "4h" then 14400 else 900) * MICROS_PER_SECOND;
      n == IC.Max(1, RoundHalfEven(r.end - r.start, width))
  {
    var delta := r.end - r.start;
    if interval == "15m" then IC.Max(1, RoundHalfEven(delta, 900 * MICROS_PER_SECOND))
    else if interval == "1h" then IC.Max(1, RoundHalfEven(delta, 3600 * MICROS_PER_SECOND))
    else if interval == "4h" then IC.Max(1, RoundHalfEven(delta, 14400 * MICROS_PER_SECOND))
    else if interval == "1d" then IC.Max(1, delta / MICROS_PER_DAY)
    else IC.Max(1, RoundHalfEven(delta, 900 * MICROS_PER_SECOND))
  }

  /** The request limit: twice the hint, raised to 100 and capped at 1000. */
  function ApiLimit(hint: int): (l: int)
    ensures 100 <= l <= 1000
    ensures 50 <= hint <= 500 ==> l == 2 * hint
  {
    IC.Min(IC.Max(hint * 2, 100), 1000)
  }

  /** An exact hour of a 1h range asks for its hours; 2.5 hours round to 2 and
      3.5 to 4. */
  lemma HintExamples()
    ensures ExpectedHint(TimeRange(0, 3 * MICROS_PER_HOUR), "1h") == 3
    ensures ExpectedHint(TimeRange(0, 5 * MICROS_PER_HOUR / 2), "1h") == 2
    ensures ExpectedHint(TimeRange(0, 7 * MICROS_PER_HOUR / 2), "1h") == 4
    ensures ExpectedHint(TimeRange(0, 0), "15m") == 1
  {
  }

  /** The fetch tasks' limits, one per repair range, in range order. */
  method PlanFetches(ranges: seq<TimeRange>, interval: string) returns (limits: seq<int>)
    ensures |limits| == |ranges|
    ensures forall i :: 0 <= i < |ranges| ==> limits[i] == ApiLimit(ExpectedHint(ranges[i], interval))
    ensures forall i :: 0 <= i < |limits| ==> 100 <= limits[i] <= 1000
  {
    limits := [];
    for i := 0 to |ranges|
      invariant |limits| == i
      invariant forall j :: 0 <= j < i ==> limits[j] == ApiLimit(ExpectedHint(ranges[j], interval))
    {
      limits := limits + [ApiLimit(ExpectedHint(ranges[i], interval))];
    }
  }

  // ---- collecting the fetches ----------------------------------------------------------

  /** The rows of the successful fetches, concatenated in range order. */
  function Fetched(results: seq<Result<seq<Record>>>): seq<Record> {
    if |results| == 0 then []
    else
      var last := results[|results| - 1];
      Fetched(results[..|results| - 1]) + (if last.Ok? then last.value else [])
  }

  lemma {:induction false} FetchedAppend(a: seq<Result<seq<Record>>>, b: seq<Result<seq<Record>>>)
    ensures Fetched(a + b) == Fetched(a) + Fetched(b)
    decreases |b|
  {
    if |b| > 0 {
      assert (a + b)[..|a + b| - 1] == a + b[..|b| - 1];
      FetchedAppend(a, b[..|b| - 1]);
    } else {
      assert a + b == a;
    }
  }

  /** A failed fetch contributes nothing and does not stop the others. */
  lemma FailedFetchContributesNothing(a: seq<Result<seq<Record>>>, e: Error, b: seq<Result<seq<Record>>>)
    ensures Fetched(a + [Err(e)] + b) == Fetched(a) + Fetched(b)
  {
    FetchedAppend(a + [Err(e)], b);
    FetchedAppend(a, [Err(e)]);
    var failed: seq<Result<seq<Record>>> := [Err(e)];
    assert Fetched(failed) == [] by {
      assert failed[..0] == [];
    }
  }

  /** Every fetched row comes from a successful fetch, and every row of one is fetched. */
  lemma {:induction false} FetchedMembers(results: seq<Result<seq<Record>>>, x: Record)
    ensures x in Fetched(results) <==> exists i :: 0 <= i < |results| && results[i].Ok? && x in results[i].value
  {
    if |results| > 0 {
      var init := results[..|results| - 1];
      FetchedMembers(init, x);
      assert forall i :: 0 <= i < |init| ==> init[i] == results[i];
    }
  }

  method CollectFetched(results: seq<Result<seq<Record>>>) returns (apiData: seq<Record>)
    ensures apiData == Fetched(results)
  {
    apiData := [];
    for i := 0 to |results|
      invariant apiData == Fetched(results[..i])
    {
      assert results[..i + 1][..i] == results[..i];
      if results[i].Ok? {
        apiData := apiData + results[i].value;
      }
    }
    assert results[..|results|] == results;
  }

  /** The formats fetched rows are written in: none when nothing was fetched (and
      the table is not consulted); csv and parquet to repair corrupted data, parquet
      otherwise.  A malformed stored date fails the classification. */
  function WriteFormats(apiData: seq<Record>, symbols: map<string, SymbolInfo>, symbol: string, r: TimeRange)
    : (f: Result<seq<string>>)
    ensures |apiData| == 0 ==> f == Ok([])
    ensures |apiData| > 0 && Classify(symbols, symbol, r).Ok? ==>
      f == Ok(if Classify(symbols, symbol, r).value == DataCorruption then ["csv", "parquet"] else ["parquet"])
    ensures |apiData| > 0 && Classify(symbols, symbol, r).Err? ==> f.Err?
  {
    if |apiData| == 0 then Ok([])
    else match Classify(symbols, symbol, r)
      case Err(e) => Err(e)
      case Ok(kind) => Ok(if kind == DataCorruption then ["csv", "parquet"] else ["parquet"])
  }

  // ---- the merge -------------------------------------------------------------------------

  function OpenTime(row: Record): int { row.openTime }

  function OpenTimes(s: seq<Record>): set<int> {
    set row | row in s :: row.openTime
  }

  /** The first row of each open time, in order. */
  function Dedup(s: seq<Record>): seq<Record> {
    if |s| == 0 then []
    else
      var init := s[..|s| - 1];
      var row := s[|s| - 1];
      Dedup(init) + (if row.openTime in OpenTimes(init) then [] else [row])
  }

  predicate StrictlyByOpenTime(s: seq<Record>) {
    forall i, j :: 0 <= i < j < |s| ==> s[i].openTime < s[j].openTime
  }

  /** The deduplicated rows are rows of the input and keep its open times. */
  lemma {:induction false} DedupMembers(s: seq<Record>)
    ensures forall x :: x in Dedup(s) ==> x in s
    ensures OpenTimes(Dedup(s)) == OpenTimes(s)
  {
    if |s| > 0 {
      var init := s[..|s| - 1];
      var row := s[|s| - 1];
      assert s == init + [row];
      DedupMembers(init);
      forall t | t in OpenTimes(s) ensures t in OpenTimes(Dedup(s)) {
        var x :| x in s && x.openTime == t;
        if x in init {
          assert t in OpenTimes(init);
          var y :| y in Dedup(init) && y.openTime == t;
          assert y in Dedup(s);
        } else if row.openTime in OpenTimes(init) {
          var y :| y in Dedup(init) && y.openTime == t;
          assert y in Dedup(s);
        } else {
          assert row in Dedup(s);
        }
      }
      forall t | t in OpenTimes(Dedup(s)) ensures t in OpenTimes(s) {
        var x :| x in Dedup(s) && x.openTime == t;
        assert x in s;
      }
    }
  }

  /** Each kept row is the first row of its open time. */
  lemma {:induction false} DedupFirst(s: seq<Record>)
    ensures var d := Dedup(s);
      forall i :: 0 <= i < |d| ==>
        |Sorting.WithKey(s, OpenTime, d[i].openTime)| > 0 && d[i] == Sorting.WithKey(s, OpenTime, d[i].openTime)[0]
  {
    if |s| > 0 {
      var init := s[..|s| - 1];
      var row := s[|s| - 1];
      assert s == init + [row];
      DedupFirst(init);
      DedupMembers(init);
      var d := Dedup(s);
      forall i | 0 <= i < |d|
        ensures |Sorting.WithKey(s, OpenTime, d[i].openTime)| > 0
             && d[i] == Sorting.WithKey(s, OpenTime, d[i].openTime)[0]
      {
        var k := d[i].openTime;
        Sorting.WithKeyAppend(init, [row], OpenTime, k);
        if i < |Dedup(init)| {
          assert d[i] == Dedup(init)[i];
        } else {
          assert d[i] == row && k !in OpenTimes(init);
          if |Sorting.WithKey(init, OpenTime, k)| > 0 {
            var y := Sorting.WithKey(init, OpenTime, k)[0];
            Sorting.WithKeyMembers(init, OpenTime, k, y);
            assert false;
          }
        }
      }
    }
  }

  /** Deduplicating rows sorted by open time leaves them strictly increasing. */
  lemma {:induction false} DedupStrict(s: seq<Record>)
    requires Sorting.SortedBy(s, OpenTime)
    ensures StrictlyByOpenTime(Dedup(s))
  {
    if |s| > 0 {
      var init := s[..|s| - 1];
      var row := s[|s| - 1];
      assert Sorting.SortedBy(init, OpenTime);
      DedupStrict(init);
      if row.openTime !in OpenTimes(init) {
        DedupMembers(init);
        LastAbove(s);
        AppendStrict(Dedup(init), row);
      }
    }
  }

  /** In rows sorted by open time, the last row is later than every earlier row
      with another open time. */
  lemma LastAbove(s: seq<Record>)
    requires |s| > 0 && Sorting.SortedBy(s, OpenTime)
    ensures forall x :: x in s[..|s| - 1] && x.openTime != s[|s| - 1].openTime ==> x.openTime < s[|s| - 1].openTime
  {
    forall x | x in s[..|s| - 1] && x.openTime != s[|s| - 1].openTime ensures x.openTime < s[|s| - 1].openTime {
      var j :| 0 <= j < |s| - 1 && s[j] == x;
      assert OpenTime(s[j]) <= OpenTime(s[|s| - 1]);
    }
  }

  lemma AppendStrict(d: seq<Record>, row: Record)
    requires StrictlyByOpenTime(d)
    requires forall x :: x in d ==> x.openTime < row.openTime
    ensures StrictlyByOpenTime(d + [row])
  {
    forall i, j | 0 <= i < j < |d + [row]| ensures (d + [row])[i].openTime < (d + [row])[j].openTime {
      if j == |d| {
        assert d[i] in d;
      }
    }
  }

  /** The merge of `_fetch_and_merge_data`: local rows then fetched rows, stably
      sorted by open time, first row of each open time kept. */
  function Merge(local: seq<Record>, fetched: seq<Record>): seq<Record> {
    Dedup(Sorting.SortBy(local + fetched, OpenTime))
  }

  /** The merge is strictly increasing in open time and its open times are those of
      both inputs together. */
  lemma MergeOrdered(local: seq<Record>, fetched: seq<Record>)
    ensures StrictlyByOpenTime(Merge(local, fetched))
    ensures OpenTimes(Merge(local, fetched)) == OpenTimes(local) + OpenTimes(fetched)
  {
    var all := local + fetched;
    var sorted := Sorting.SortBy(all, OpenTime);
    Sorting.SortBySorts(all, OpenTime);
    Sorting.SortByPermutes(all, OpenTime);
    DedupStrict(sorted);
    DedupMembers(sorted);
    forall t ensures t in OpenTimes(sorted) <==> t in OpenTimes(local) + OpenTimes(fetched) {
      if t in OpenTimes(sorted) {
        var x :| x in sorted && x.openTime == t;
        assert x in multiset(sorted);
        assert x in all;
      }
      if t in OpenTimes(local) + OpenTimes(fetched) {
        var x :| x in all && x.openTime == t;
        assert x in multiset(all);
        assert x in sorted;
      }
    }
  }

  /** On a tie the local row wins: each merged row is the first local row of its open
      time when there is one, and the first fetched row of it otherwise. */
  lemma MergeKeepsLocal(local: seq<Record>, fetched: seq<Record>)
    ensures var m := Merge(local, fetched);
      forall i :: 0 <= i < |m| ==>
        var k := m[i].openTime;
        if k in OpenTimes(local) then |Sorting.WithKey(local, OpenTime, k)| > 0 && m[i] == Sorting.WithKey(local, OpenTime, k)[0]
        else |Sorting.WithKey(fetched, OpenTime, k)| > 0 && m[i] == Sorting.WithKey(fetched, OpenTime, k)[0]
  {
    var all := local + fetched;
    var sorted := Sorting.SortBy(all, OpenTime);
    var m := Merge(local, fetched);
    DedupFirst(sorted);
    forall i | 0 <= i < |m|
      ensures var k := m[i].openTime;
        if k in OpenTimes(local) then |Sorting.WithKey(local, OpenTime, k)| > 0 && m[i] == Sorting.WithKey(local, OpenTime, k)[0]
        else |Sorting.WithKey(fetched, OpenTime, k)| > 0 && m[i] == Sorting.WithKey(fetched, OpenTime, k)[0]
    {
      var k := m[i].openTime;
      Sorting.SortByStable(all, OpenTime, k);
      Sorting.WithKeyAppend(local, fetched, OpenTime, k);
      var wl := Sorting.WithKey(local, OpenTime, k);
      var wf := Sorting.WithKey(fetched, OpenTime, k);
      assert Sorting.WithKey(sorted, OpenTime, k) == wl + wf;
      assert m == Dedup(sorted);
      assert m[i] == (wl + wf)[0];
      if k in OpenTimes(local) {
        var y :| y in local && y.openTime == k;
        Sorting.WithKeyMembers(local, OpenTime, k, y);
        assert y in wl;
        assert (wl + wf)[0] == wl[0];
      } else {
        if |wl| > 0 {
          var y := wl[0];
          Sorting.WithKeyMembers(local, OpenTime, k, y);
          assert false;
        }
        assert wl + wf == wf;
      }
    }
  }

  lemma DedupStep(s: seq<Record>, i: nat)
    requires i < |s|
    ensures Dedup(s[..i + 1]) == Dedup(s[..i]) + (if s[i].openTime in OpenTimes(s[..i]) then [] else [s[i]])
    ensures OpenTimes(s[..i + 1]) == OpenTimes(s[..i]) + {s[i].openTime}
  {
    assert s[..i + 1][..i] == s[..i];
    assert s[..i + 1] == s[..i] + [s[i]];
  }

  /** The loop that keeps the first row of each open time, with its `seen_times` set. */
  method DedupByOpenTime(all: seq<Record>) returns (unique: seq<Record>)
    ensures unique == Dedup(all)
  {
    unique := [];
    var seen: set<int> := {};
    for i := 0 to |all|
      invariant unique == Dedup(all[..i])
      invariant seen == OpenTimes(all[..i])
    {
      DedupStep(all, i);
      if all[i].openTime !in seen {
        unique := unique + [all[i]];
      }
      seen := seen + {all[i].openTime};
    }
    assert all[..|all|] == all;
  }

  /** What `_fetch_and_merge_data` produces once the fetches are back: the request
      limits, the fetched rows, the formats they are written in (none: no write) and
      the merged rows. */
  datatype MergeOutcome = MergeOutcome(limits: seq<int>, apiData: seq<Record>, formats: seq<string>,
                                       merged: seq<Record>)

  /** `_fetch_and_merge_data` once the exchange has answered: the request limits,
      the collected rows, the formats, and the merge.  The classification's error
      and the write's ValueError for a fetched row without a local date (as
      `DuckDBEngine.WriteData` raises it) end the call before the merge. */
  method FetchAndMergeData(symbol: string, interval: string, r: TimeRange, missingRanges: seq<TimeRange>,
                           local: seq<Record>, responses: seq<Result<seq<Record>>>,
                           symbols: map<string, SymbolInfo>, offsetSeconds: int)
    returns (res: Result<MergeOutcome>)
    requires |responses| == |missingRanges|
    ensures var apiData := Fetched(responses);
      match WriteFormats(apiData, symbols, symbol, r)
      case Err(e) => res == Err(e)
      case Ok(formats) =>
        if |apiData| > 0 && RowDates(apiData, offsetSeconds).None? then
          res == Err(ValueError("year is out of range"))
        else
          res.Ok? && res.value.apiData == apiData && res.value.formats == formats
          && res.value.merged == Merge(local, apiData)
          && |res.value.limits| == |missingRanges|
          && forall i :: 0 <= i < |missingRanges| ==> res.value.limits[i] == ApiLimit(ExpectedHint(missingRanges[i], interval))
  {
    var limits := PlanFetches(missingRanges, interval);
    var apiData := CollectFetched(responses);
    var formats := WriteFormats(apiData, symbols, symbol, r);
    if formats.Err? {
      return Err(formats.error);
    }
    if |apiData| > 0 && RowDates(apiData, offsetSeconds).None? {
      return Err(ValueError("year is out of range"));
    }
    var merged := DedupByOpenTime(Sorting.SortBy(local + apiData, OpenTime));
    return Ok(MergeOutcome(limits, apiData, formats.value, merged));
  }

  /** The last step of `_fetch_and_merge_data` as written: inside the fetch branch the
      name of the caller's dictionary is rebound to the list of gathered results, so
      storing the merged rows under a string key raises TypeError, after the write. */
  function StoreMergedAsWritten(results: map<string, seq<Record>>, missingRanges: seq<TimeRange>,
                                key: string, merged: seq<Record>): (r: Result<map<string, seq<Record>>>)
    ensures |missingRanges| == 0 ==> r == Ok(results[key := merged])
  {
    if |missingRanges| > 0 then Err(TypeError("list indices must be integers or slices, not str"))
    else Ok(results[key := merged])
  }

  /** The caller reaches the merge only with some range to fetch, so as written the
      merged rows never reach the caller. */
  lemma MergedRowsNeverStored(results: map<string, seq<Record>>, missingRanges: seq<TimeRange>,
                              key: string, merged: seq<Record>)
    requires |missingRanges| > 0
    ensures StoreMergedAsWritten(results, missingRanges, key, merged).Err?
    ensures StoreMergedAsWritten(results, missingRanges, key, merged).error.TypeError?
  {
  }

  /** The intended last step: the caller's dictionary holds the merged rows under the
      pair's key and is otherwise unchanged. */
  function StoreMerged(results: map<string, seq<Record>>, key: string, merged: seq<Record>)
    : (m: map<string, seq<Record>>)
    ensures key in m && m[key] == merged
    ensures forall k :: k != key ==> (k in m <==> k in results) && (k in results ==> m[k] == results[k])
  {
    results[key := merged]
  }
}
