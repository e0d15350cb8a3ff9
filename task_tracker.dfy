// The download tracker's table of task records, keyed by
// "symbol_dataType[_interval]_date".  The table is an insertion-ordered dictionary
// (Python's dict), modelled as a sequence of entries with distinct keys in which
// writing an existing key replaces that entry in place and a new key goes last.
module TaskTracker {
  import opened Wrappers
  import opened DataQuery

  datatype TaskStatus = Pending | Skipped | Completed | Failed
  {
    /** The string a task record stores for this status. */
    function Value(): string {
      match this
      case Pending => "pending"
      case Skipped => "skipped"
      case Completed => "completed"
      case Failed => "failed"
    }
  }

  /** `TaskStatus(s)`; None where the enumeration raises ValueError. */
  function ParseStatus(s: string): (r: Option<TaskStatus>)
    ensures r.Some? ==> r.value.Value() == s
    ensures r.None? ==> forall st: TaskStatus :: st.Value() != s
  {
    if s == "pending" then Some(Pending)
    else if s == "skipped" then Some(Skipped)
    else if s == "completed" then Some(Completed)
    else if s == "failed" then Some(Failed)
    else None
  }

  /** A status written to a record reads back as itself. */
  lemma StatusRoundTrip(st: TaskStatus)
    ensures ParseStatus(st.Value()) == Some(st)
  {
    match st
    case Pending =>
    case Skipped =>
    case Completed =>
    case Failed =>
  }

  /** One task record.  `status` is None when the record has no "status" field (a
      hand-edited tracking file); `interval`, `errorMsg` and `fileSize` are None
      where the dictionary holds None or lacks the field.  `lastUpdated` is the
      ISO time of the last write, supplied by the caller. */
  datatype TaskInfo = TaskInfo(
    symbol: string,
    dataType: string,
    date: string,
    interval: Option<string>,
    status: Option<string>,
    lastUpdated: string,
    errorMsg: Option<string>,
    fileSize: Option<int>)

  datatype Entry = Entry(key: string, info: TaskInfo)

  // ---------------------------------------------------------------------------
  // Task keys

  /** `_generate_task_key`: f"{symbol}_{data_type}_{interval}_{date}" when an
      interval is given, f"{symbol}_{data_type}_{date}" otherwise. */
  function TaskKey(symbol: string, dataType: string, date: string, interval: Option<string>): (k: string)
    ensures |k| == |symbol| + |dataType| + |date| + (if Given(interval) then |interval.value| + 3 else 2)
  {
    if Given(interval) then Key(symbol, Key(dataType, Key(interval.value, date)))
    else Key(symbol, Key(dataType, date))
  }

  function Underscores(s: string): nat {
    if |s| == 0 then 0 else (if s[0] == '_' then 1 else 0) + Underscores(s[1..])
  }

  lemma {:induction false} UnderscoresAppend(a: string, b: string)
    ensures Underscores(a + b) == Underscores(a) + Underscores(b)
  {
    if |a| > 0 {
      assert (a + b)[0] == a[0] && (a + b)[1..] == a[1..] + b;
      UnderscoresAppend(a[1..], b);
    } else {
      assert a + b == b;
    }
  }

  lemma {:induction false} NoUnderscores(s: string)
    requires '_' !in s
    ensures Underscores(s) == 0
  {
    if |s| > 0 {
      assert s[0] != '_';
      assert forall c :: c in s[1..] ==> c in s;
      NoUnderscores(s[1..]);
    }
  }

  lemma KeyUnderscores(a: string, b: string)
    ensures Underscores(Key(a, b)) == Underscores(a) + 1 + Underscores(b)
  {
    UnderscoresAppend(a, "_");
    UnderscoresAppend(a + "_", b);
    assert Underscores("_") == 1 by {
      assert "_"[1..] == "";
    }
  }

  /** Tasks whose symbol, data type, interval and date hold no underscore get
      distinct keys: a key determines all four, and whether an interval was given. */
  lemma TaskKeyInjective(s1: string, t1: string, d1: string, i1: Option<string>,
                         s2: string, t2: string, d2: string, i2: Option<string>)
    requires '_' !in s1 && '_' !in t1 && '_' !in d1 && (i1.Some? ==> '_' !in i1.value)
    requires '_' !in s2 && '_' !in t2 && '_' !in d2 && (i2.Some? ==> '_' !in i2.value)
    requires TaskKey(s1, t1, d1, i1) == TaskKey(s2, t2, d2, i2)
    ensures s1 == s2 && t1 == t2 && d1 == d2
    ensures Given(i1) == Given(i2) && (Given(i1) ==> i1.value == i2.value)
  {
    NoUnderscores(s1); NoUnderscores(t1); NoUnderscores(d1);
    NoUnderscores(s2); NoUnderscores(t2); NoUnderscores(d2);
    if i1.Some? { NoUnderscores(i1.value); }
    if i2.Some? { NoUnderscores(i2.value); }
    var k1 := TaskKey(s1, t1, d1, i1);
    var k2 := TaskKey(s2, t2, d2, i2);
    if Given(i1) {
      KeyUnderscores(i1.value, d1);
      KeyUnderscores(t1, Key(i1.value, d1));
      KeyUnderscores(s1, Key(t1, Key(i1.value, d1)));
    } else {
      KeyUnderscores(t1, d1);
      KeyUnderscores(s1, Key(t1, d1));
    }
    if Given(i2) {
      KeyUnderscores(i2.value, d2);
      KeyUnderscores(t2, Key(i2.value, d2));
      KeyUnderscores(s2, Key(t2, Key(i2.value, d2)));
    } else {
      KeyUnderscores(t2, d2);
      KeyUnderscores(s2, Key(t2, d2));
    }
    assert Underscores(k1) == Underscores(k2);
    if Given(i1) && Given(i2) {
      KeyInjective(s1, Key(t1, Key(i1.value, d1)), s2, Key(t2, Key(i2.value, d2)));
      KeyInjective(t1, Key(i1.value, d1), t2, Key(i2.value, d2));
      KeyInjective(i1.value, d1, i2.value, d2);
    } else if !Given(i1) && !Given(i2) {
      KeyInjective(s1, Key(t1, d1), s2, Key(t2, d2));
      KeyInjective(t1, d1, t2, d2);
    }
  }

  // ---------------------------------------------------------------------------
  // The table as an ordered dictionary

  predicate DistinctKeys(s: seq<Entry>) {
    forall i, j :: 0 <= i < j < |s| ==> s[i].key != s[j].key
  }

  predicate HasKey(s: seq<Entry>, key: string) {
    exists i :: 0 <= i < |s| && s[i].key == key
  }

  /** The position of the first entry for `key`. */
  function IndexOf(s: seq<Entry>, key: string): (i: nat)
    requires HasKey(s, key)
    ensures i < |s| && s[i].key == key
    ensures forall j :: 0 <= j < i ==> s[j].key != key
  {
    if s[0].key == key then 0
    else
      var k :| 0 <= k < |s| && s[k].key == key;
      assert s[1..][k - 1].key == key;
      1 + IndexOf(s[1..], key)
  }

  /** `task_status.get(key)`. */
  function Lookup(s: seq<Entry>, key: string): (r: Option<TaskInfo>)
    ensures r.Some? <==> HasKey(s, key)
    ensures r.Some? ==> exists i :: 0 <= i < |s| && s[i] == Entry(key, r.value)
  {
    if HasKey(s, key) then Some(s[IndexOf(s, key)].info) else None
  }

  /** `task_status[key] = info`: replaces the entry in place, or appends a new one. */
  function Put(s: seq<Entry>, key: string, info: TaskInfo): (r: seq<Entry>)
    ensures |r| == if HasKey(s, key) then |s| else |s| + 1
  {
    if HasKey(s, key) then s[IndexOf(s, key) := Entry(key, info)] else s + [Entry(key, info)]
  }

  /** Writing a key changes what that key reads and nothing else. */
  lemma PutLookup(s: seq<Entry>, key: string, info: TaskInfo, k: string)
    ensures Lookup(Put(s, key, info), k) == if k == key then Some(info) else Lookup(s, k)
  {
    var r := Put(s, key, info);
    if HasKey(s, key) {
      var p := IndexOf(s, key);
      assert forall j :: 0 <= j < |s| ==> r[j].key == s[j].key;
      if k == key {
        assert r[p].key == key;
        var q := IndexOf(r, key);
        assert q == p;
      } else if HasKey(s, k) {
        var a := IndexOf(s, k);
        assert r[a].key == k;
        var b := IndexOf(r, k);
        assert a == b;
        assert a != p;
      } else {
        assert !HasKey(r, k);
      }
    } else {
      assert forall j :: 0 <= j < |s| ==> r[j] == s[j];
      if k == key {
        assert r[|s|].key == key;
        var q := IndexOf(r, key);
        assert q == |s|;
      } else if HasKey(s, k) {
        var a := IndexOf(s, k);
        assert r[a].key == k;
        var b := IndexOf(r, k);
        assert a == b;
      } else {
        assert forall j :: 0 <= j < |r| ==> r[j].key != k;
      }
    }
  }

  lemma PutDistinct(s: seq<Entry>, key: string, info: TaskInfo)
    requires DistinctKeys(s)
    ensures DistinctKeys(Put(s, key, info))
  {
    var r := Put(s, key, info);
    if HasKey(s, key) {
      assert forall j :: 0 <= j < |s| ==> r[j].key == s[j].key;
    } else {
      assert forall j :: 0 <= j < |s| ==> r[j] == s[j];
    }
  }

  /** With distinct keys, an entry's key reads back that entry. */
  lemma LookupAt(s: seq<Entry>, i: int)
    requires DistinctKeys(s) && 0 <= i < |s|
    ensures Lookup(s, s[i].key) == Some(s[i].info)
  {
    assert HasKey(s, s[i].key);
  }

  // ---------------------------------------------------------------------------
  // Reading statuses

  /** `TaskStatus(task_info.get('status', 'pending'))`; None where it raises. */
  function ReadStatus(info: TaskInfo): (r: Option<TaskStatus>)
    ensures info.status.None? ==> r == Some(Pending)
    ensures info.status.Some? ==> r == ParseStatus(info.status.value)
  {
    if info.status.None? then Some(Pending) else ParseStatus(info.status.value)
  }

  /** `get_task_status`: the stored status, or PENDING for a task that is not in
      the table or whose status is not one of the four. */
  function StatusOf(s: seq<Entry>, key: string): (st: TaskStatus)
    ensures !HasKey(s, key) ==> st == Pending
    ensures HasKey(s, key) && ReadStatus(Lookup(s, key).value).None? ==> st == Pending
    ensures HasKey(s, key) && ReadStatus(Lookup(s, key).value).Some? ==>
              st == ReadStatus(Lookup(s, key).value).value
  {
    match Lookup(s, key)
    case None => Pending
    case Some(info) => ReadStatus(info).GetOr(Pending)
  }

  predicate AllValid(s: seq<Entry>) {
    forall i :: 0 <= i < |s| ==> ReadStatus(s[i].info).Some?
  }

  predicate PendingOrFailed(info: TaskInfo) {
    ReadStatus(info) == Some(Pending) || ReadStatus(info) == Some(Failed)
  }

  /** `get_pending_tasks`: the records whose status is PENDING or FAILED, in table
      order; the first unrecognised status raises ValueError. */
  function PendingTasks(s: seq<Entry>): (r: Result<seq<TaskInfo>>)
    ensures r.Ok? <==> AllValid(s)
  {
    if |s| == 0 then Ok([])
    else
      var last := s[|s| - 1].info;
      match PendingTasks(s[..|s| - 1])
      case Err(e) => Err(e)
      case Ok(rest) =>
        if ReadStatus(last).None? then Err(ValueError("'" + last.status.value + "' is not a valid TaskStatus"))
        else Ok(rest + if PendingOrFailed(last) then [last] else [])
  }

  /** The pending list holds exactly the PENDING and FAILED records of the table. */
  lemma {:induction false} PendingTasksMembers(s: seq<Entry>, x: TaskInfo)
    requires PendingTasks(s).Ok?
    ensures x in PendingTasks(s).value <==>
              (exists i :: 0 <= i < |s| && s[i].info == x) && PendingOrFailed(x)
  {
    if |s| > 0 {
      var init := s[..|s| - 1];
      PendingTasksMembers(init, x);
      if x in PendingTasks(init).value {
        var i :| 0 <= i < |init| && init[i].info == x;
        assert s[i].info == x;
      }
      if (exists i :: 0 <= i < |s| && s[i].info == x) && PendingOrFailed(x) {
        var i :| 0 <= i < |s| && s[i].info == x;
        if i < |init| {
          assert init[i].info == x;
        }
      }
    }
  }

  // ---------------------------------------------------------------------------
  // Statistics

  datatype Stats = Stats(pending: nat, skipped: nat, completed: nat, failed: nat)
  {
    function Total(): nat { pending + skipped + completed + failed }

    function Bump(st: TaskStatus): (r: Stats)
      ensures r.Total() == Total() + 1
    {
      match st
      case Pending => this.(pending := pending + 1)
      case Skipped => this.(skipped := skipped + 1)
      case Completed => this.(completed := completed + 1)
      case Failed => this.(failed := failed + 1)
    }
  }

  const NO_STATS := Stats(0, 0, 0, 0)

  /** The per-status counts of the records whose status is recognised. */
  function Tally(s: seq<Entry>): Stats {
    if |s| == 0 then NO_STATS
    else
      var t := Tally(s[..|s| - 1]);
      match ReadStatus(s[|s| - 1].info)
      case None => t
      case Some(st) => t.Bump(st)
  }

  /** The length of the longest prefix whose statuses are all recognised. */
  function ValidPrefix(s: seq<Entry>): (n: nat)
    ensures n <= |s|
    ensures forall i :: 0 <= i < n ==> ReadStatus(s[i].info).Some?
    ensures n < |s| ==> ReadStatus(s[n].info).None?
    ensures n == |s| <==> AllValid(s)
  {
    if |s| == 0 || ReadStatus(s[0].info).None? then 0
    else
      var m := ValidPrefix(s[1..]);
      assert forall i :: 1 <= i < |s| ==> s[i] == s[1..][i - 1];
      1 + m
  }

  /** When every status is recognised, the counts add up to the size of the table. */
  lemma {:induction false} TallyTotal(s: seq<Entry>)
    requires AllValid(s)
    ensures Tally(s).Total() == |s|
  {
    if |s| > 0 {
      var init := s[..|s| - 1];
      assert forall i :: 0 <= i < |init| ==> init[i] == s[i];
      TallyTotal(init);
    }
  }

  /** The PENDING and FAILED counts are the size of the pending list. */
  lemma {:induction false} TallyPending(s: seq<Entry>)
    requires PendingTasks(s).Ok?
    ensures |PendingTasks(s).value| == Tally(s).pending + Tally(s).failed
  {
    if |s| > 0 {
      var init := s[..|s| - 1];
      var last := s[|s| - 1].info;
      assert PendingTasks(init).Ok?;
      TallyPending(init);
      PendingStep(s, |s| - 1);
      TallyStep(s, |s| - 1);
      assert s[..|s|] == s && s[..|s| - 1] == init;
    }
  }

  // ---------------------------------------------------------------------------
  // The persisted failures

  predicate IsFailedRecord(info: TaskInfo) {
    info.status == Some(Failed.Value())
  }

  /** The `failed_tasks` that `_save_task_status` writes: the records whose raw
      status is "failed", in table order. */
  function FailedOnly(s: seq<Entry>): (r: seq<Entry>)
    ensures forall e :: e in r <==> e in s && IsFailedRecord(e.info)
    ensures |r| <= |s|
  {
    if |s| == 0 then []
    else
      var init := s[..|s| - 1];
      assert s == init + [s[|s| - 1]];
      FailedOnly(init) + if IsFailedRecord(s[|s| - 1].info) then [s[|s| - 1]] else []
  }

  /** The FAILED count of the statistics is the number of persisted records. */
  lemma {:induction false} TallyFailed(s: seq<Entry>)
    ensures Tally(s).failed == |FailedOnly(s)|
  {
    if |s| > 0 {
      TallyFailed(s[..|s| - 1]);
      var info := s[|s| - 1].info;
      if IsFailedRecord(info) {
        StatusRoundTrip(Failed);
      } else if info.status.Some? {
        assert ReadStatus(info) != Some(Failed);
      }
    }
  }

  lemma {:induction false} NoFailedRecords(s: seq<Entry>)
    requires forall i :: 0 <= i < |s| ==> !IsFailedRecord(s[i].info)
    ensures FailedOnly(s) == []
  {
    if |s| > 0 {
      var init := s[..|s| - 1];
      assert forall i :: 0 <= i < |init| ==> init[i] == s[i];
      NoFailedRecords(init);
    }
  }

  /** The record `set_task_status` stores: the error message only when it is a
      non-empty string, the file size only when it is given. */
  function NewRecord(symbol: string, dataType: string, date: string, status: TaskStatus,
                     interval: Option<string>, errorMsg: Option<string>, fileSize: Option<int>,
                     now: string): (info: TaskInfo)
    ensures ReadStatus(info) == Some(status)
    ensures info.errorMsg.Some? <==> Given(errorMsg)
    ensures info.errorMsg.Some? ==> info.errorMsg == errorMsg
    ensures info.fileSize == fileSize
  {
    StatusRoundTrip(status);
    TaskInfo(symbol, dataType, date, interval, Some(status.Value()), now,
             if Given(errorMsg) then errorMsg else None, fileSize)
  }

  class Tracker {
    var entries: seq<Entry>
    var stats: Stats

    predicate Valid()
      reads this
    {
      DistinctKeys(entries)
    }

    /** A tracker over the `failed_tasks` loaded from the tracking file (empty when
        the file is missing or unreadable), with all counts zero. */
    constructor (loaded: seq<Entry>)
      requires DistinctKeys(loaded)
      ensures Valid() && entries == loaded && stats == NO_STATS
    {
      entries := loaded;
      stats := NO_STATS;
    }

    /** `get_task_status`: pending for an unknown task or a record whose status
        cannot be read, otherwise the recorded status. */
    function GetTaskStatus(symbol: string, dataType: string, date: string, interval: Option<string>): (st: TaskStatus)
      reads this
      ensures var key := TaskKey(symbol, dataType, date, interval);
        && (!HasKey(entries, key) ==> st == Pending)
        && (HasKey(entries, key) && ReadStatus(Lookup(entries, key).value).None? ==> st == Pending)
        && (HasKey(entries, key) && ReadStatus(Lookup(entries, key).value).Some? ==>
              st == ReadStatus(Lookup(entries, key).value).value)
    {
      StatusOf(entries, TaskKey(symbol, dataType, date, interval))
    }

    /** `set_task_status` (in memory only): the task reads back the new status and
        record, and every other task reads as before. */
    method SetTaskStatus(symbol: string, dataType: string, date: string, status: TaskStatus,
                         interval: Option<string>, errorMsg: Option<string>, fileSize: Option<int>,
                         now: string)
      requires Valid()
      modifies this
      ensures Valid()
      ensures entries == Put(old(entries), TaskKey(symbol, dataType, date, interval),
                             NewRecord(symbol, dataType, date, status, interval, errorMsg, fileSize, now))
      ensures stats == old(stats)
      ensures Lookup(entries, TaskKey(symbol, dataType, date, interval))
              == Some(NewRecord(symbol, dataType, date, status, interval, errorMsg, fileSize, now))
      ensures GetTaskStatus(symbol, dataType, date, interval) == status
      ensures forall k :: k != TaskKey(symbol, dataType, date, interval) ==> Lookup(entries, k) == old(Lookup(entries, k))
    {
      var key := TaskKey(symbol, dataType, date, interval);
      var info := NewRecord(symbol, dataType, date, status, interval, errorMsg, fileSize, now);
      ghost var before := entries;
      PutDistinct(entries, key, info);
      entries := Put(entries, key, info);
      forall k | true
        ensures Lookup(entries, k) == if k == key then Some(info) else Lookup(before, k)
      {
        PutLookup(before, key, info, k);
      }
    }

    /** `get_pending_tasks`, by a scan of the table. */
    method GetPendingTasks() returns (res: Result<seq<TaskInfo>>)
      ensures res == PendingTasks(entries)
    {
      var pending: seq<TaskInfo> := [];
      for i := 0 to |entries|
        invariant PendingTasks(entries[..i]) == Ok(pending)
      {
        var info := entries[i].info;
        var st := ReadStatus(info);
        if st.None? {
          res := Err(ValueError("'" + info.status.value + "' is not a valid TaskStatus"));
          PendingStep(entries, i);
          PendingErrPersists(entries, i + 1);
          return;
        }
        PendingStep(entries, i);
        if PendingOrFailed(info) {
          pending := pending + [info];
        }
      }
      assert entries[..|entries|] == entries;
      res := Ok(pending);
    }

    /** `update_statistics`: the counts are reset and then taken record by record;
        an unrecognised status raises ValueError and leaves the counts of the
        records before it. */
    method UpdateStatistics() returns (err: Option<Error>)
      modifies this
      ensures entries == old(entries)
      ensures stats == Tally(entries[..ValidPrefix(entries)])
      ensures err.None? <==> AllValid(entries)
      ensures err.None? ==> stats.Total() == |entries|
    {
      var counts: Stats;
      counts, err := CountStatuses(entries);
      stats := counts;
    }

    /** `get_statistics`. */
    method GetStatistics() returns (res: Result<Stats>)
      modifies this
      ensures entries == old(entries)
      ensures res.Ok? <==> AllValid(entries)
      ensures res.Ok? ==> res.value == stats == Tally(entries) && stats.Total() == |entries|
    {
      var err := UpdateStatistics();
      if err.Some? {
        return Err(err.value);
      }
      assert entries[..|entries|] == entries;
      res := Ok(stats);
    }

    /** `save_progress`: the `failed_tasks` written to the tracking file. */
    method SaveProgress() returns (written: seq<Entry>)
      ensures written == FailedOnly(entries)
      ensures forall e :: e in written <==> e in entries && IsFailedRecord(e.info)
    {
      written := [];
      for i := 0 to |entries|
        invariant written == FailedOnly(entries[..i])
      {
        assert entries[..i + 1][..i] == entries[..i];
        if entries[i].info.status == Some("failed") {
          written := written + [entries[i]];
        }
      }
      assert entries[..|entries|] == entries;
    }

    /** `reset_failed_tasks`: every record is reset as `ResetEntry` says, in place.
        When something was reset the tracking file is rewritten, and then holds no
        failures. */
    method ResetFailedTasks(now: string) returns (resetCount: nat, written: Option<seq<Entry>>)
      requires Valid()
      modifies this
      ensures Valid()
      ensures stats == old(stats)
      ensures entries == ResetEntries(old(entries), now)
      ensures resetCount == |FailedOnly(old(entries))|
      ensures FailedOnly(entries) == []
      ensures written == if resetCount > 0 then Some([]) else None
    {
      var reset;
      reset, resetCount := ResetAll(entries, now);
      ResetEntriesKeys(entries, now);
      entries := reset;
      NoFailedRecords(entries);
      written := None;
      if resetCount > 0 {
        var w := SaveProgress();
        written := Some(w);
      }
    }
  }

  /** Every record reset as `ResetEntry` says, in order. */
  function ResetEntries(s: seq<Entry>, now: string): (r: seq<Entry>)
    ensures |r| == |s|
  {
    if |s| == 0 then [] else ResetEntries(s[..|s| - 1], now) + [ResetEntry(s[|s| - 1], now)]
  }

  lemma {:induction false} ResetEntriesAt(s: seq<Entry>, now: string, i: nat)
    requires i < |s|
    ensures ResetEntries(s, now)[i] == ResetEntry(s[i], now)
  {
    if i < |s| - 1 {
      ResetEntriesAt(s[..|s| - 1], now, i);
    }
  }

  /** Resetting keeps every key where it was and leaves no failed record. */
  lemma ResetEntriesKeys(s: seq<Entry>, now: string)
    ensures var r := ResetEntries(s, now);
      forall i :: 0 <= i < |r| ==> r[i].key == s[i].key && !IsFailedRecord(r[i].info)
  {
    forall i | 0 <= i < |s| ensures ResetEntries(s, now)[i].key == s[i].key && !IsFailedRecord(ResetEntries(s, now)[i].info) {
      ResetEntriesAt(s, now, i);
    }
  }

  /** The loop of `reset_failed_tasks` over the records: each record reset in
      place as `ResetEntry` says, and the number of failed ones. */
  method ResetAll(start: seq<Entry>, now: string) returns (reset: seq<Entry>, resetCount: nat)
    ensures reset == ResetEntries(start, now)
    ensures resetCount == |FailedOnly(start)|
  {
    reset := start;
    resetCount := 0;
    for i := 0 to |start|
      invariant reset == ResetEntries(start[..i], now) + start[i..]
      invariant resetCount == |FailedOnly(start[..i])|
    {
      FailedCountStep(start, i);
      ResetStep(start, now, i);
      if IsFailedRecord(reset[i].info) {
        reset := reset[i := ResetEntry(reset[i], now)];
        resetCount := resetCount + 1;
      }
    }
    assert start[..|start|] == start;
  }

  lemma ResetStep(s: seq<Entry>, now: string, i: nat)
    requires i < |s|
    ensures var before := ResetEntries(s[..i], now) + s[i..];
      ResetEntries(s[..i + 1], now) + s[i + 1..]
      == if IsFailedRecord(s[i].info) then before[i := ResetEntry(s[i], now)] else before
  {
    assert s[..i + 1][..i] == s[..i];
    assert s[i..] == [s[i]] + s[i + 1..];
  }

  lemma FailedCountStep(s: seq<Entry>, i: nat)
    requires i < |s|
    ensures |FailedOnly(s[..i + 1])| == |FailedOnly(s[..i])| + (if IsFailedRecord(s[i].info) then 1 else 0)
  {
    assert s[..i + 1][..i] == s[..i];
  }

  /** What `reset_failed_tasks` does to one record: a "failed" one becomes
      "pending", is stamped `now` and loses its error message, keeping everything
      else; any other record is untouched. */
  function ResetEntry(e: Entry, now: string): (r: Entry)
    ensures !IsFailedRecord(r.info) && r.key == e.key
  {
    if IsFailedRecord(e.info)
    then Entry(e.key, e.info.(status := Some("pending"), lastUpdated := now, errorMsg := None))
    else e
  }

  /** A failed record comes back pending, stamped `now`, without its message and
      otherwise as it was; any other record comes back unchanged. */
  lemma ResetEntryEffect(e: Entry, now: string)
    ensures var r := ResetEntry(e, now);
      && (!IsFailedRecord(e.info) ==> r == e)
      && (IsFailedRecord(e.info) ==>
            r.info.status == Some(Pending.Value()) && r.info.errorMsg.None? && r.info.lastUpdated == now
            && r.info.(status := e.info.status, errorMsg := e.info.errorMsg, lastUpdated := e.info.lastUpdated) == e.info)
  {
  }

  /** The counting loop of `update_statistics`: the counts of the records up to
      the first unrecognised status, and the ValueError that status raises. */
  method CountStatuses(s: seq<Entry>) returns (counts: Stats, err: Option<Error>)
    ensures counts == Tally(s[..ValidPrefix(s)])
    ensures err.None? <==> AllValid(s)
    ensures err.None? ==> counts.Total() == |s|
  {
    counts := NO_STATS;
    err := None;
    var i := 0;
    while i < |s|
      invariant 0 <= i <= |s|
      invariant i <= ValidPrefix(s)
      invariant counts == Tally(s[..i])
    {
      TallyStep(s, i);
      var info := s[i].info;
      var st := ReadStatus(info);
      if st.None? {
        err := Some(ValueError("'" + info.status.value + "' is not a valid TaskStatus"));
        assert ValidPrefix(s) == i;
        return;
      }
      counts := counts.Bump(st.value);
      i := i + 1;
    }
    assert s[..|s|] == s;
    TallyTotal(s);
  }

  /** One step of the pending scan. */
  lemma PendingStep(s: seq<Entry>, i: int)
    requires 0 <= i < |s| && PendingTasks(s[..i]).Ok?
    ensures var info := s[i].info;
      PendingTasks(s[..i + 1]) ==
        if ReadStatus(info).None? then Err(ValueError("'" + info.status.value + "' is not a valid TaskStatus"))
        else if PendingOrFailed(info) then Ok(PendingTasks(s[..i]).value + [info])
        else Ok(PendingTasks(s[..i]).value)
  {
    assert s[..i + 1][..i] == s[..i] && s[..i + 1][i] == s[i];
    assert PendingTasks(s[..i]).value + [] == PendingTasks(s[..i]).value;
  }

  /** One step of the statistics count. */
  lemma TallyStep(s: seq<Entry>, i: int)
    requires 0 <= i < |s|
    ensures Tally(s[..i + 1]) == match ReadStatus(s[i].info)
                                 case None => Tally(s[..i])
                                 case Some(st) => Tally(s[..i]).Bump(st)
  {
    assert s[..i + 1][..i] == s[..i] && s[..i + 1][i] == s[i];
  }

  /** Once a prefix of the table fails the scan, the whole table fails with the
      same error. */
  lemma {:induction false} PendingErrPersists(s: seq<Entry>, n: int)
    requires 0 <= n <= |s| && PendingTasks(s[..n]).Err?
    ensures PendingTasks(s) == PendingTasks(s[..n])
    decreases |s| - n
  {
    if n < |s| {
      var init := s[..|s| - 1];
      assert init[..n] == s[..n];
      PendingErrPersists(init, n);
    } else {
      assert s[..n] == s;
    }
  }
}
