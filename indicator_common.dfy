// What the two indicator engines share: the default indicator configurations,
// the bounded deque behind their rolling windows, the update throttle, and the
// per-indicator cache of computed values keyed by timestamp, which keeps only
// its newest entries.
//
// Timestamps and indicator values are Python floats; they are modelled as
// exact reals.
module IndicatorCommon {
  import opened Wrappers

  datatype IndicatorConfig = IndicatorConfig(name: string, windowSize: int, updateFrequency: string)

  /** `IndicatorConfig.get_default_configs()`, in the order of its dict literal. */
  const DEFAULT_CONFIGS: seq<IndicatorConfig> := [
    IndicatorConfig("price_change_15m", 2, "15m"),
    IndicatorConfig("rsi_14", 15, "15m"),
    IndicatorConfig("sma_20", 21, "15m"),
    IndicatorConfig("sma_200", 201, "1h"),
    IndicatorConfig("ema_200", 201, "1h"),
    IndicatorConfig("volume_spike", 21, "15m"),
    IndicatorConfig("atr_14", 15, "15m"),
    IndicatorConfig("bid_ask_spread", 1, "1m"),
    IndicatorConfig("open_interest", 1, "5m")
  ]

  /** The configuration registered under `name`, if any. */
  function FindConfig(cs: seq<IndicatorConfig>, name: string): (r: Option<IndicatorConfig>)
    ensures r.Some? ==> r.value in cs && r.value.name == name
    ensures r.None? ==> forall c :: c in cs ==> c.name != name
  {
    if |cs| == 0 then None
    else if cs[0].name == name then Some(cs[0])
    else FindConfig(cs[1..], name)
  }

  /** `max(config.window_size for config in configs)`; None where Python's `max`
      of an empty sequence raises ValueError. */
  function MaxWindowSize(cs: seq<IndicatorConfig>): (r: Option<int>) {
    if |cs| == 0 then None
    else
      var rest := MaxWindowSize(cs[1..]);
      if rest.Some? && rest.value > cs[0].windowSize then rest else Some(cs[0].windowSize)
  }

  /** The maximum is an upper bound that some configuration reaches. */
  lemma {:induction false} MaxWindowSizeIsMax(cs: seq<IndicatorConfig>)
    ensures MaxWindowSize(cs).None? <==> |cs| == 0
    ensures MaxWindowSize(cs).Some? ==>
      (forall c :: c in cs ==> c.windowSize <= MaxWindowSize(cs).value) &&
      (exists c :: c in cs && c.windowSize == MaxWindowSize(cs).value)
  {
    if |cs| > 0 {
      MaxWindowSizeIsMax(cs[1..]);
      assert cs[0] in cs;
      assert forall c :: c in cs ==> c == cs[0] || c in cs[1..];
    }
  }

  /** The default configurations need windows of 201 points (SMA 200 and EMA 200). */
  lemma DefaultMaxWindow()
    ensures MaxWindowSize(DEFAULT_CONFIGS) == Some(201)
  {
    var cs := DEFAULT_CONFIGS;
    assert MaxWindowSize(cs[8..]) == Some(1);
    assert MaxWindowSize(cs[7..]) == Some(1);
    assert MaxWindowSize(cs[6..]) == Some(15);
    assert MaxWindowSize(cs[5..]) == Some(21);
    assert MaxWindowSize(cs[4..]) == Some(201);
    assert MaxWindowSize(cs[3..]) == Some(201);
    assert MaxWindowSize(cs[2..]) == Some(201);
    assert MaxWindowSize(cs[1..]) == Some(201);
  }

  // ---------------------------------------------------------------------------
  // Rolling windows

  /** What a deque with `maxlen` holds after its contents became `s`: the last
      `maxLen` elements. */
  function Bounded<T>(s: seq<T>, maxLen: nat): (r: seq<T>)
    ensures |r| <= maxLen && |r| <= |s|
  {
    if |s| <= maxLen then s else s[|s| - maxLen..]
  }

  /** Appending to a bounded deque: the new element goes last, and the oldest one
      drops out only when the deque was full. */
  lemma BoundedAppend<T>(s: seq<T>, x: T, maxLen: nat)
    requires |s| <= maxLen
    ensures |s| < maxLen ==> Bounded(s + [x], maxLen) == s + [x]
    ensures |s| == maxLen > 0 ==> Bounded(s + [x], maxLen) == s[1..] + [x]
    ensures |s| == maxLen == 0 ==> Bounded(s + [x], maxLen) == []
    ensures |Bounded(s + [x], maxLen)| == if |s| < maxLen then |s| + 1 else maxLen
  {
    if |s| == maxLen > 0 {
      assert (s + [x])[1..] == s[1..] + [x];
    }
  }

  /** A data point of a rolling window: a dict of named numeric fields. */
  type Item = map<string, real>

  /** `get_latest(field)`: the newest item's field, None when the window is empty
      or its newest item lacks the field. */
  function Latest(data: seq<Item>, field: string): Option<real> {
    if |data| > 0 && field in data[|data| - 1] then Some(data[|data| - 1][field]) else None
  }

  /** `get_values(field)`: the field of every item that has it, oldest first. */
  function Values(data: seq<Item>, field: string): (vs: seq<real>)
    ensures |vs| <= |data|
  {
    if |data| == 0 then []
    else
      var last := data[|data| - 1];
      Values(data[..|data| - 1], field) + if field in last then [last[field]] else []
  }

  /** The values are exactly the field's values in the items that have it. */
  lemma {:induction false} ValuesMembers(data: seq<Item>, field: string, v: real)
    ensures v in Values(data, field) <==> exists i :: 0 <= i < |data| && field in data[i] && data[i][field] == v
  {
    if |data| > 0 {
      var init := data[..|data| - 1];
      ValuesMembers(init, field, v);
      assert forall i :: 0 <= i < |init| ==> init[i] == data[i];
    }
  }

  /** `ValuesMembers` for every value at once. */
  lemma ValuesAreFieldValues(data: seq<Item>, field: string)
    ensures forall v :: v in Values(data, field) <==> exists i :: 0 <= i < |data| && field in data[i] && data[i][field] == v
  {
    forall v
      ensures v in Values(data, field) <==> exists i :: 0 <= i < |data| && field in data[i] && data[i][field] == v
    {
      ValuesMembers(data, field, v);
    }
  }

  /** After a bounded append, the newest item is the appended one. */
  lemma LatestAfterAppend(data: seq<Item>, item: Item, maxLen: nat, field: string)
    requires |data| <= maxLen && maxLen > 0
    ensures Latest(Bounded(data + [item], maxLen), field)
            == if field in item then Some(item[field]) else None
  {
    BoundedAppend(data, item, maxLen);
  }

  // ---------------------------------------------------------------------------
  // Update throttle

  /** The least time between two updates for an update frequency, in seconds:
      15 minutes, one hour or four hours, and 15 minutes for any other value. */
  function MinInterval(frequency: string): (n: int)
    ensures n == 900 || n == 3600 || n == 14400
    ensures frequency != "15m" && frequency != "1h" && frequency != "4h" ==> n == 900
  {
    if frequency == "15m" then 15 * 60
    else if frequency == "1h" then 60 * 60
    else if frequency == "4h" then 4 * 60 * 60
    else 15 * 60
  }

  /** The indicator's last update time, 0 when it has none. */
  function LastUpdateOf(lastUpdate: map<string, real>, indicator: string): real {
    if indicator in lastUpdate then lastUpdate[indicator] else 0.0
  }

  /** `_should_update`: an unknown indicator is always recomputed; a known one
      once its minimum interval has passed since its last update. */
  function ShouldUpdate(cs: seq<IndicatorConfig>, lastUpdate: map<string, real>,
                        indicator: string, timestamp: real): bool
  {
    match FindConfig(cs, indicator)
    case None => true
    case Some(c) => timestamp >= LastUpdateOf(lastUpdate, indicator) + MinInterval(c.updateFrequency) as real
  }

  /** The throttle never fires within 15 minutes of the last update, always fires
      four hours after it, and always fires for an unknown indicator. */
  lemma ShouldUpdateBounds(cs: seq<IndicatorConfig>, lastUpdate: map<string, real>,
                           indicator: string, timestamp: real)
    ensures FindConfig(cs, indicator).None? ==> ShouldUpdate(cs, lastUpdate, indicator, timestamp)
    ensures FindConfig(cs, indicator).Some? && timestamp < LastUpdateOf(lastUpdate, indicator) + 900.0
            ==> !ShouldUpdate(cs, lastUpdate, indicator, timestamp)
    ensures timestamp >= LastUpdateOf(lastUpdate, indicator) + 14400.0
            ==> ShouldUpdate(cs, lastUpdate, indicator, timestamp)
  {
  }

  /** Once the throttle fires it keeps firing for later timestamps. */
  lemma ShouldUpdateMonotone(cs: seq<IndicatorConfig>, lastUpdate: map<string, real>,
                             indicator: string, t1: real, t2: real)
    requires t1 <= t2
    requires ShouldUpdate(cs, lastUpdate, indicator, t1)
    ensures ShouldUpdate(cs, lastUpdate, indicator, t2)
  {
  }

  /** With the default configurations and no recorded update, the hourly SMA 200
      fires from 3600 on. */
  lemma DefaultThrottleHourly(timestamp: real)
    ensures ShouldUpdate(DEFAULT_CONFIGS, map[], "sma_200", timestamp) <==> timestamp >= 3600.0
  {
    var cs := DEFAULT_CONFIGS;
    assert FindConfig(cs, "sma_200") == FindConfig(cs[3..], "sma_200") by {
      assert FindConfig(cs, "sma_200") == FindConfig(cs[1..], "sma_200");
      assert FindConfig(cs[1..], "sma_200") == FindConfig(cs[2..], "sma_200");
      assert FindConfig(cs[2..], "sma_200") == FindConfig(cs[3..], "sma_200");
    }
  }

  /** The 15-minute RSI 14 fires from 900 on. */
  lemma DefaultThrottleQuarter(timestamp: real)
    ensures ShouldUpdate(DEFAULT_CONFIGS, map[], "rsi_14", timestamp) <==> timestamp >= 900.0
  {
    var cs := DEFAULT_CONFIGS;
    assert FindConfig(cs, "rsi_14") == FindConfig(cs[1..], "rsi_14");
  }

  /** An indicator without a default configuration, such as MACD, is always
      recomputed. */
  lemma DefaultThrottleUnknown(timestamp: real)
    ensures ShouldUpdate(DEFAULT_CONFIGS, map[], "macd", timestamp)
  {
    assert forall c :: c in DEFAULT_CONFIGS ==> c.name != "macd";
  }

  /** What `_compute_indicator` did, which this model takes as given: the value it
      returned and, where it reached that statement, the time it recorded as the
      indicator's last update. */
  datatype Computation = Computation(value: Option<real>, stampedAt: Option<real>)

  function Stamped(lastUpdate: map<string, real>, indicator: string, c: Computation): (r: map<string, real>)
    ensures c.stampedAt.None? ==> r == lastUpdate
    ensures c.stampedAt.Some? ==> r.Keys == lastUpdate.Keys + {indicator} && r[indicator] == c.stampedAt.value
    ensures forall k :: k in lastUpdate && k != indicator ==> k in r && r[k] == lastUpdate[k]
  {
    if c.stampedAt.Some? then lastUpdate[indicator := c.stampedAt.value] else lastUpdate
  }

  // ---------------------------------------------------------------------------
  // Timestamp caches

  /** One cached value of an indicator, at the timestamp it was computed for. */
  datatype Cached = Cached(ts: real, value: real)

  /** The cached values of one indicator for one symbol: a Python dict from
      timestamp to value, as its entries in insertion order. */
  type TimestampCache = seq<Cached>

  /** The cache of `indicator` for `symbol`: empty when there is none yet. */
  function CacheOf(cache: map<(string, string), TimestampCache>, symbol: string, indicator: string): TimestampCache {
    if (symbol, indicator) in cache then cache[(symbol, indicator)] else []
  }

  function Keys(c: TimestampCache): (ks: seq<real>)
    ensures |ks| == |c|
  {
    if |c| == 0 then [] else [c[0].ts] + Keys(c[1..])
  }

  predicate Distinct(s: seq<real>) {
    forall i, j :: 0 <= i < j < |s| ==> s[i] != s[j]
  }

  /** A dict has each key once. */
  predicate WellFormed(c: TimestampCache) {
    |c| == 0 || (c[0].ts !in Keys(c[1..]) && WellFormed(c[1..]))
  }

  lemma {:induction false} WellFormedDistinct(c: TimestampCache)
    requires WellFormed(c)
    ensures Distinct(Keys(c))
  {
    if |c| > 0 {
      WellFormedDistinct(c[1..]);
      var ks := Keys(c);
      forall i, j | 0 <= i < j < |ks| ensures ks[i] != ks[j] {
        assert ks[j] == Keys(c[1..])[j - 1];
        if i > 0 {
          assert ks[i] == Keys(c[1..])[i - 1];
        }
      }
    }
  }

  /** `cache.get(ts)`. */
  function Lookup(c: TimestampCache, ts: real): (r: Option<real>)
    ensures r.Some? <==> ts in Keys(c)
  {
    if |c| == 0 then None
    else if c[0].ts == ts then Some(c[0].value)
    else Lookup(c[1..], ts)
  }

  /** `cache[ts] = v`: an existing key keeps its place, a new one goes last. */
  function Store(c: TimestampCache, ts: real, v: real): (r: TimestampCache) {
    if |c| == 0 then [Cached(ts, v)]
    else if c[0].ts == ts then [Cached(ts, v)] + c[1..]
    else [c[0]] + Store(c[1..], ts, v)
  }

  /** `del cache[ts]`. */
  function Remove(c: TimestampCache, ts: real): (r: TimestampCache) {
    if |c| == 0 then []
    else (if c[0].ts == ts then [] else [c[0]]) + Remove(c[1..], ts)
  }

  /** Storing makes `ts` read back as `v` and leaves every other key as it was. */
  lemma {:induction false} StoreLookup(c: TimestampCache, ts: real, v: real, k: real)
    ensures Lookup(Store(c, ts, v), k) == if k == ts then Some(v) else Lookup(c, k)
  {
    if |c| > 0 && c[0].ts != ts {
      StoreLookup(c[1..], ts, v, k);
      var r := Store(c, ts, v);
      assert r[0] == c[0] && r[1..] == Store(c[1..], ts, v);
    }
  }

  /** Storing a key the dict does not have appends one entry and keeps it a dict. */
  lemma {:induction false} StoreNew(c: TimestampCache, ts: real, v: real)
    requires WellFormed(c) && ts !in Keys(c)
    ensures Store(c, ts, v) == c + [Cached(ts, v)]
    ensures Keys(Store(c, ts, v)) == Keys(c) + [ts]
    ensures WellFormed(Store(c, ts, v))
  {
    if |c| > 0 {
      var t := c[1..];
      StoreNew(t, ts, v);
      assert c == [c[0]] + t;
      var r := Store(c, ts, v);
      assert r == [c[0]] + Store(t, ts, v);
      assert r[1..] == Store(t, ts, v);
    }
  }

  lemma {:induction false} RemoveMembers(c: TimestampCache, ts: real)
    ensures forall k :: k in Keys(Remove(c, ts)) <==> k in Keys(c) && k != ts
  {
    if |c| > 0 {
      RemoveMembers(c[1..], ts);
      var hd := if c[0].ts == ts then [] else [c[0]];
      assert Remove(c, ts) == hd + Remove(c[1..], ts);
      KeysAppend(hd, Remove(c[1..], ts));
    }
  }

  lemma {:induction false} KeysAppend(a: TimestampCache, b: TimestampCache)
    ensures Keys(a + b) == Keys(a) + Keys(b)
  {
    if |a| > 0 {
      KeysAppend(a[1..], b);
      assert (a + b)[1..] == a[1..] + b;
    } else {
      assert a + b == b;
    }
  }

  lemma {:induction false} RemoveWellFormed(c: TimestampCache, ts: real)
    requires WellFormed(c)
    ensures WellFormed(Remove(c, ts))
  {
    if |c| > 0 {
      RemoveWellFormed(c[1..], ts);
      RemoveMembers(c[1..], ts);
      var r := Remove(c, ts);
      if c[0].ts != ts {
        assert r == [c[0]] + Remove(c[1..], ts);
        assert r[0] == c[0] && r[1..] == Remove(c[1..], ts);
        assert c[0].ts !in Keys(r[1..]);
      } else {
        assert r == Remove(c[1..], ts);
      }
    }
  }

  lemma {:induction false} RemoveLookup(c: TimestampCache, ts: real, k: real)
    requires k != ts
    ensures Lookup(Remove(c, ts), k) == Lookup(c, k)
  {
    if |c| > 0 {
      RemoveLookup(c[1..], ts, k);
      var rest := Remove(c[1..], ts);
      if c[0].ts != ts {
        var r := [c[0]] + rest;
        assert Remove(c, ts) == r;
        assert r[0] == c[0] && r[1..] == rest;
      } else {
        assert Remove(c, ts) == rest;
      }
    }
  }

  lemma {:induction false} RemoveAbsent(c: TimestampCache, ts: real)
    requires ts !in Keys(c)
    ensures Remove(c, ts) == c
  {
    if |c| > 0 {
      RemoveAbsent(c[1..], ts);
      assert c == [c[0]] + c[1..];
    }
  }

  lemma {:induction false} RemoveLength(c: TimestampCache, ts: real)
    requires WellFormed(c)
    ensures |Remove(c, ts)| == if ts in Keys(c) then |c| - 1 else |c|
  {
    if |c| > 0 {
      if c[0].ts == ts {
        RemoveAbsent(c[1..], ts);
      } else {
        RemoveLength(c[1..], ts);
      }
    }
  }

  /** Deleting a key removes exactly it, keeps every other value, and shortens the
      dict by one entry when the key was there. */
  lemma RemoveEffect(c: TimestampCache, ts: real)
    requires WellFormed(c)
    ensures WellFormed(Remove(c, ts))
    ensures forall k :: k in Keys(Remove(c, ts)) <==> k in Keys(c) && k != ts
    ensures forall k :: k != ts ==> Lookup(Remove(c, ts), k) == Lookup(c, k)
    ensures |Remove(c, ts)| == if ts in Keys(c) then |c| - 1 else |c|
  {
    RemoveWellFormed(c, ts);
    RemoveMembers(c, ts);
    RemoveLength(c, ts);
    forall k | k != ts ensures Lookup(Remove(c, ts), k) == Lookup(c, k) {
      RemoveLookup(c, ts, k);
    }
  }

  /** Deleting the keys of `ks` one after another, as the eviction loop does. */
  function RemoveAll(c: TimestampCache, ks: seq<real>): (r: TimestampCache)
  {
    if |ks| == 0 then c else Remove(RemoveAll(c, ks[..|ks| - 1]), ks[|ks| - 1])
  }

  lemma {:induction false} RemoveAllMembers(c: TimestampCache, ks: seq<real>)
    ensures forall k :: k in Keys(RemoveAll(c, ks)) <==> k in Keys(c) && k !in ks
  {
    if |ks| > 0 {
      var init, last := ks[..|ks| - 1], ks[|ks| - 1];
      RemoveAllMembers(c, init);
      RemoveMembers(RemoveAll(c, init), last);
      assert ks == init + [last];
    }
  }

  lemma {:induction false} RemoveAllLookup(c: TimestampCache, ks: seq<real>, k: real)
    requires k !in ks
    ensures Lookup(RemoveAll(c, ks), k) == Lookup(c, k)
  {
    if |ks| > 0 {
      var init, last := ks[..|ks| - 1], ks[|ks| - 1];
      assert ks == init + [last];
      RemoveAllLookup(c, init, k);
      RemoveLookup(RemoveAll(c, init), last, k);
    }
  }

  lemma {:induction false} RemoveAllWellFormed(c: TimestampCache, ks: seq<real>)
    requires WellFormed(c)
    ensures WellFormed(RemoveAll(c, ks))
  {
    if |ks| > 0 {
      RemoveAllWellFormed(c, ks[..|ks| - 1]);
      RemoveWellFormed(RemoveAll(c, ks[..|ks| - 1]), ks[|ks| - 1]);
    }
  }

  lemma {:induction false} RemoveAllLength(c: TimestampCache, ks: seq<real>)
    requires WellFormed(c) && Distinct(ks)
    requires forall k :: k in ks ==> k in Keys(c)
    ensures |RemoveAll(c, ks)| == |c| - |ks|
  {
    if |ks| > 0 {
      var init, last := ks[..|ks| - 1], ks[|ks| - 1];
      assert Distinct(init);
      assert forall k :: k in init ==> k in ks;
      RemoveAllLength(c, init);
      assert last !in init by {
        forall i | 0 <= i < |init| ensures init[i] != last {
          assert ks[i] != ks[|ks| - 1];
        }
      }
      assert last in ks;
      RemoveAllMembers(c, init);
      RemoveAllWellFormed(c, init);
      RemoveLength(RemoveAll(c, init), last);
    }
  }

  /** Deleting distinct keys of the dict: the rest keep their values and the dict
      loses one entry per key. */
  lemma RemoveAllEffect(c: TimestampCache, ks: seq<real>)
    requires WellFormed(c) && Distinct(ks)
    requires forall k :: k in ks ==> k in Keys(c)
    ensures WellFormed(RemoveAll(c, ks))
    ensures forall k :: k in Keys(RemoveAll(c, ks)) <==> k in Keys(c) && k !in ks
    ensures forall k :: k !in ks ==> Lookup(RemoveAll(c, ks), k) == Lookup(c, k)
    ensures |RemoveAll(c, ks)| == |c| - |ks|
  {
    RemoveAllMembers(c, ks);
    RemoveAllWellFormed(c, ks);
    RemoveAllLength(c, ks);
    forall k | k !in ks ensures Lookup(RemoveAll(c, ks), k) == Lookup(c, k) {
      RemoveAllLookup(c, ks, k);
    }
  }

  // ---- sorting the keys -------------------------------------------------------

  predicate NonDecreasing(s: seq<real>) {
    forall i, j :: 0 <= i < j < |s| ==> s[i] <= s[j]
  }

  function InsertKey(x: real, s: seq<real>): (r: seq<real>)
    ensures |r| == |s| + 1
  {
    if |s| == 0 then [x]
    else if x <= s[0] then [x] + s
    else [s[0]] + InsertKey(x, s[1..])
  }

  /** `sorted(keys)`, as an insertion sort. */
  function SortKeys(s: seq<real>): (r: seq<real>)
    ensures |r| == |s|
  {
    if |s| == 0 then [] else InsertKey(s[0], SortKeys(s[1..]))
  }

  lemma {:induction false} InsertKeyMembers(x: real, s: seq<real>)
    ensures forall y :: y in InsertKey(x, s) <==> y == x || y in s
  {
    if |s| > 0 && x > s[0] {
      InsertKeyMembers(x, s[1..]);
      assert s == [s[0]] + s[1..];
    }
  }

  lemma ConsDistinct(h: real, t: seq<real>)
    requires Distinct(t) && h !in t
    ensures Distinct([h] + t)
  {
    forall i, j | 0 <= i < j < |[h] + t| ensures ([h] + t)[i] != ([h] + t)[j] {
      assert ([h] + t)[j] == t[j - 1];
      if i > 0 {
        assert ([h] + t)[i] == t[i - 1];
      } else {
        assert t[j - 1] in t;
      }
    }
  }

  lemma ConsNonDecreasing(h: real, t: seq<real>)
    requires NonDecreasing(t)
    requires forall y :: y in t ==> h <= y
    ensures NonDecreasing([h] + t)
  {
    forall i, j | 0 <= i < j < |[h] + t| ensures ([h] + t)[i] <= ([h] + t)[j] {
      assert ([h] + t)[j] == t[j - 1];
      if i > 0 {
        assert ([h] + t)[i] == t[i - 1];
      } else {
        assert t[j - 1] in t;
      }
    }
  }

  lemma {:induction false} InsertKeySorted(x: real, s: seq<real>)
    requires NonDecreasing(s)
    ensures NonDecreasing(InsertKey(x, s))
  {
    if |s| == 0 {
    } else if x <= s[0] {
      forall y | y in s ensures x <= y {
        var j :| 0 <= j < |s| && s[j] == y;
        assert j == 0 || s[0] <= s[j];
      }
      ConsNonDecreasing(x, s);
    } else {
      var t := s[1..];
      assert NonDecreasing(t);
      InsertKeySorted(x, t);
      InsertKeyMembers(x, t);
      forall y | y in InsertKey(x, t) ensures s[0] <= y {
        if y != x {
          var j :| 0 <= j < |t| && t[j] == y;
          assert s[j + 1] == y;
        }
      }
      ConsNonDecreasing(s[0], InsertKey(x, t));
    }
  }

  lemma {:induction false} InsertKeyDistinct(x: real, s: seq<real>)
    requires Distinct(s) && x !in s
    ensures Distinct(InsertKey(x, s))
  {
    if |s| == 0 {
    } else if x <= s[0] {
      ConsDistinct(x, s);
    } else {
      var t := s[1..];
      assert Distinct(t);
      assert x !in t;
      InsertKeyDistinct(x, t);
      InsertKeyMembers(x, t);
      assert s[0] !in t by {
        forall j | 0 <= j < |t| ensures t[j] != s[0] {
          assert s[j + 1] != s[0];
        }
      }
      ConsDistinct(s[0], InsertKey(x, t));
    }
  }

  /** The sort orders the keys and reorders nothing else: it has the same
      elements and, for distinct keys, no repeats. */
  lemma {:induction false} SortKeysSorted(s: seq<real>)
    ensures NonDecreasing(SortKeys(s))
    ensures forall y :: y in SortKeys(s) <==> y in s
    ensures Distinct(s) ==> Distinct(SortKeys(s))
  {
    if |s| > 0 {
      var t := s[1..];
      SortKeysSorted(t);
      InsertKeySorted(s[0], SortKeys(t));
      InsertKeyMembers(s[0], SortKeys(t));
      assert s == [s[0]] + t;
      if Distinct(s) {
        assert Distinct(t);
        assert s[0] !in t by {
          forall j | 0 <= j < |t| ensures t[j] != s[0] {
            assert s[j + 1] != s[0];
          }
        }
        InsertKeyDistinct(s[0], SortKeys(t));
      }
    }
  }

  // ---- eviction ---------------------------------------------------------------

  /** Where Python's slice `[:stop]` of a sequence of length n ends. */
  function SliceStop(n: nat, stop: int): (k: nat)
    ensures k <= n
  {
    if stop >= 0 then (if stop <= n then stop else n)
    else if n + stop >= 0 then n + stop else 0
  }

  /** `sorted(cache.keys())[:-limit]`: the timestamps that eviction deletes. */
  function OldestKeys(c: TimestampCache, limit: int): (r: seq<real>) {
    var ks := SortKeys(Keys(c));
    ks[..SliceStop(|ks|, -limit)]
  }

  /** The cache after eviction: when it holds more than `limit` entries, the
      timestamps `OldestKeys` names are deleted. */
  function Trimmed(c: TimestampCache, limit: int): (r: TimestampCache) {
    if |c| > limit then RemoveAll(c, OldestKeys(c, limit)) else c
  }

  /** The eviction step of `get_indicator`: sorts the timestamps and deletes the
      oldest ones one by one. */
  method TrimCache(c: TimestampCache, limit: int) returns (r: TimestampCache)
    ensures r == Trimmed(c, limit)
  {
    r := c;
    if |c| > limit {
      var ks := SortKeys(Keys(c));
      var oldest := ks[..SliceStop(|ks|, -limit)];
      for i := 0 to |oldest|
        invariant r == RemoveAll(c, oldest[..i])
      {
        assert oldest[..i + 1][..i] == oldest[..i];
        r := Remove(r, oldest[i]);
      }
      assert oldest[..|oldest|] == oldest;
    }
  }

  /** In a non-decreasing sequence without repeats, everything before position m
      is smaller than everything from m on, and an element lies before m exactly
      when it does not lie from m on. */
  lemma SplitSorted(ks: seq<real>, m: nat)
    requires NonDecreasing(ks) && Distinct(ks) && m <= |ks|
    ensures forall k :: k in ks ==> (k in ks[..m] <==> k !in ks[m..])
    ensures forall k, j :: k in ks[..m] && j in ks[m..] ==> k < j
  {
    forall k, j | k in ks[..m] && j in ks[m..] ensures k < j {
      var a :| 0 <= a < m && ks[..m][a] == k;
      var b :| 0 <= b < |ks| - m && ks[m..][b] == j;
      assert ks[a] == k && ks[m + b] == j;
      assert ks[a] <= ks[m + b] && ks[a] != ks[m + b];
    }
    forall k | k in ks ensures k in ks[..m] <==> k !in ks[m..] {
      var i :| 0 <= i < |ks| && ks[i] == k;
      if i < m {
        assert ks[..m][i] == k;
      } else {
        assert ks[m..][i - m] == k;
      }
    }
  }

  /** Eviction leaves a dict and never changes a kept value. */
  lemma TrimmedSubset(c: TimestampCache, limit: int)
    requires WellFormed(c)
    ensures WellFormed(Trimmed(c, limit))
    ensures forall k :: k in Keys(Trimmed(c, limit)) ==> k in Keys(c) && Lookup(Trimmed(c, limit), k) == Lookup(c, k)
  {
    if |c| > limit {
      var ks := SortKeys(Keys(c));
      WellFormedDistinct(c);
      SortKeysSorted(Keys(c));
      var oldest := OldestKeys(c, limit);
      assert Distinct(oldest);
      assert forall k :: k in oldest ==> k in ks;
      RemoveAllEffect(c, oldest);
    }
  }

  /** With a positive limit the cache keeps exactly its `limit` newest entries:
      no more than `limit` remain, every deleted timestamp is older than every
      kept one, and nothing is deleted while the cache is within the limit. */
  lemma TrimmedKeepsNewest(c: TimestampCache, limit: int)
    requires WellFormed(c) && limit > 0
    ensures |Trimmed(c, limit)| == if |c| <= limit then |c| else limit
    ensures forall k, j :: k in Keys(c) && k !in Keys(Trimmed(c, limit)) && j in Keys(Trimmed(c, limit)) ==> k < j
  {
    if |c| > limit {
      var ks := SortKeys(Keys(c));
      WellFormedDistinct(c);
      SortKeysSorted(Keys(c));
      var m := |ks| - limit;
      var oldest := ks[..m];
      assert oldest == OldestKeys(c, limit);
      assert forall k :: k in oldest ==> k in ks;
      RemoveAllEffect(c, oldest);
      SplitSorted(ks, m);
    }
  }

  /** With a limit of 0, `[:-0]` is the empty slice: nothing is ever deleted. */
  lemma TrimmedZeroLimit(c: TimestampCache)
    ensures Trimmed(c, 0) == c
  {
    if |c| > 0 {
      assert OldestKeys(c, 0) == [];
    }
  }

  /** `max(keys)` of a non-empty key list. */
  function MaxKey(ks: seq<real>): (m: real)
    requires |ks| > 0
    ensures m in ks && forall k :: k in ks ==> k <= m
  {
    if |ks| == 1 then ks[0]
    else
      var rest := MaxKey(ks[1..]);
      assert forall k :: k in ks ==> k == ks[0] || k in ks[1..];
      if ks[0] > rest then ks[0] else rest
  }

  /** `_get_latest_cached` on one cache: the value at the greatest timestamp, None
      when the cache is empty. */
  function LatestCached(c: TimestampCache): (r: Option<real>)
    ensures r.None? <==> |c| == 0
    ensures r.Some? ==> exists k :: k in Keys(c) && Lookup(c, k) == r && forall j :: j in Keys(c) ==> j <= k
  {
    if |c| == 0 then None
    else
      var k := MaxKey(Keys(c));
      Lookup(c, k)
  }

  /** A timestamp newer than every other one in the dict survives eviction. */
  lemma NewestSurvives(c: TimestampCache, ts: real, limit: int)
    requires WellFormed(c) && limit > 0 && ts in Keys(c)
    requires forall k :: k in Keys(c) ==> k <= ts
    ensures ts in Keys(Trimmed(c, limit))
  {
    var t := Trimmed(c, limit);
    TrimmedKeepsNewest(c, limit);
    TrimmedSubset(c, limit);
    var j := MaxKey(Keys(t));
    assert j in Keys(c) && j <= ts;
  }

  /** A value stored at a timestamp newer than every cached one survives eviction
      and becomes the latest cached value. */
  lemma StoredNewestIsLatest(c: TimestampCache, ts: real, v: real, limit: int)
    requires WellFormed(c) && limit > 0
    requires forall k :: k in Keys(c) ==> k < ts
    ensures Lookup(Trimmed(Store(c, ts, v), limit), ts) == Some(v)
    ensures LatestCached(Trimmed(Store(c, ts, v), limit)) == Some(v)
  {
    StoreNew(c, ts, v);
    var c2 := Store(c, ts, v);
    StoreLookup(c, ts, v, ts);
    assert forall k :: k in Keys(c2) ==> k <= ts;
    NewestSurvives(c2, ts, limit);
    var t := Trimmed(c2, limit);
    TrimmedSubset(c2, limit);
    var m := MaxKey(Keys(t));
    assert m == ts;
  }

  // ---------------------------------------------------------------------------
  // get_indicator

  /** The engine state that `get_indicator` reads and writes. */
  datatype CacheState = CacheState(cache: map<(string, string), TimestampCache>, lastUpdate: map<string, real>)

  /** The value `get_indicator` returns and the state it leaves. */
  datatype Answer = Answer(value: Option<real>, state: CacheState)

  /** Every per-indicator cache is a dict. */
  predicate CachesWellFormed(cache: map<(string, string), TimestampCache>) {
    forall k :: k in cache ==> WellFormed(cache[k])
  }

  /** `get_indicator` with the computation given: a cached timestamp answers from
      the cache; a throttled indicator answers with its latest cached value;
      otherwise the computed value is returned and, when there is one, stored
      and the cache trimmed to `limit`. */
  function GetIndicatorSpec(st: CacheState, symbol: string, indicator: string, ts: real,
                            comp: Computation, cs: seq<IndicatorConfig>, limit: int): Answer
  {
    var c := CacheOf(st.cache, symbol, indicator);
    if Lookup(c, ts).Some? then Answer(Lookup(c, ts), st)
    else if !ShouldUpdate(cs, st.lastUpdate, indicator, ts) then Answer(LatestCached(c), st)
    else
      var lu := Stamped(st.lastUpdate, indicator, comp);
      match comp.value
      case None => Answer(None, CacheState(st.cache, lu))
      case Some(v) => Answer(comp.value, CacheState(st.cache[(symbol, indicator) := Trimmed(Store(c, ts, v), limit)], lu))
  }

  /** A cache hit returns the stored value and changes nothing. */
  lemma CacheHit(st: CacheState, symbol: string, indicator: string, ts: real, v: real,
                 comp: Computation, cs: seq<IndicatorConfig>, limit: int)
    requires Lookup(CacheOf(st.cache, symbol, indicator), ts) == Some(v)
    ensures GetIndicatorSpec(st, symbol, indicator, ts, comp, cs, limit) == Answer(Some(v), st)
  {
  }

  /** A request that neither hits the cache nor passes the throttle returns the
      latest cached value and changes nothing. */
  lemma Throttled(st: CacheState, symbol: string, indicator: string, ts: real,
                  comp: Computation, cs: seq<IndicatorConfig>, limit: int)
    requires Lookup(CacheOf(st.cache, symbol, indicator), ts).None?
    requires !ShouldUpdate(cs, st.lastUpdate, indicator, ts)
    ensures GetIndicatorSpec(st, symbol, indicator, ts, comp, cs, limit)
            == Answer(LatestCached(CacheOf(st.cache, symbol, indicator)), st)
  {
  }

  /** A value computed for a timestamp newer than the cached ones is what a second
      request for that timestamp returns, whatever the second computation would
      give, and it is then the latest cached value. */
  lemma ComputedThenCached(st: CacheState, symbol: string, indicator: string, ts: real, v: real,
                           comp: Computation, later: Computation, cs: seq<IndicatorConfig>, limit: int)
    requires CachesWellFormed(st.cache) && limit > 0
    requires forall k :: k in Keys(CacheOf(st.cache, symbol, indicator)) ==> k < ts
    requires ShouldUpdate(cs, st.lastUpdate, indicator, ts) && comp.value == Some(v)
    ensures var a := GetIndicatorSpec(st, symbol, indicator, ts, comp, cs, limit);
            a.value == Some(v) &&
            GetIndicatorSpec(a.state, symbol, indicator, ts, later, cs, limit) == Answer(Some(v), a.state) &&
            LatestCached(CacheOf(a.state.cache, symbol, indicator)) == Some(v)
  {
    var c := CacheOf(st.cache, symbol, indicator);
    assert ts !in Keys(c);
    StoredNewestIsLatest(c, ts, v, limit);
  }

  /** `get_indicator` keeps every cache a dict, changes no other indicator's cache,
      and keeps each cache within a positive limit once it is within it. */
  lemma GetIndicatorKeepsCaches(st: CacheState, symbol: string, indicator: string, ts: real,
                                comp: Computation, cs: seq<IndicatorConfig>, limit: int)
    requires CachesWellFormed(st.cache)
    ensures var a := GetIndicatorSpec(st, symbol, indicator, ts, comp, cs, limit);
            CachesWellFormed(a.state.cache) &&
            (forall k :: k in st.cache && k != (symbol, indicator) ==> k in a.state.cache && a.state.cache[k] == st.cache[k]) &&
            (limit > 0 && |CacheOf(st.cache, symbol, indicator)| <= limit ==> |CacheOf(a.state.cache, symbol, indicator)| <= limit)
  {
    var c := CacheOf(st.cache, symbol, indicator);
    var a := GetIndicatorSpec(st, symbol, indicator, ts, comp, cs, limit);
    if Lookup(c, ts).None? && ShouldUpdate(cs, st.lastUpdate, indicator, ts) && comp.value.Some? {
      var v := comp.value.value;
      StoreNew(c, ts, v);
      TrimmedSubset(Store(c, ts, v), limit);
      if limit > 0 {
        TrimmedKeepsNewest(Store(c, ts, v), limit);
      }
    }
  }
}
