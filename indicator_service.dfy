// The in-memory indicator engine of the services layer: per (symbol, interval)
// rolling windows that skip data points whose open time they already hold, and
// per (symbol, indicator) caches of computed values.
//
// The nested `defaultdict`s are maps keyed by the pair of their two keys.  The
// indicator arithmetic of `_compute_indicator` is not modelled: what it returned
// and recorded is a parameter of `GetIndicator`.
module IndicatorService {
  import opened Wrappers
  import opened IndicatorCommon

  /** What `append` is given: a dict, or some other object. */
  datatype Payload = Dict(fields: Item) | NotADict

  const OPEN_TIME: string := "open_time"

  /** Some item of the window has open time `ts` (`existing_item.get('open_time')
      == ts`; an item without one never matches). */
  predicate HasOpenTime(data: seq<Item>, ts: real) {
    exists i :: 0 <= i < |data| && OPEN_TIME in data[i] && data[i][OPEN_TIME] == ts
  }

  /** The window contents after `append(p)`: empty dicts, other objects and dicts
      without an open time are ignored, as is an open time already in the window;
      any other item goes into the bounded deque. */
  function Appended(data: seq<Item>, maxSize: nat, p: Payload): seq<Item> {
    match p
    case NotADict => data
    case Dict(item) =>
      if |item| == 0 || OPEN_TIME !in item then data
      else if HasOpenTime(data, item[OPEN_TIME]) then data
      else Bounded(data + [item], maxSize)
  }

  /** What every window keeps: no more than `maxSize` items, each with an open
      time, and no open time twice. */
  predicate WindowInvariant(data: seq<Item>, maxSize: nat) {
    |data| <= maxSize &&
    (forall i :: 0 <= i < |data| ==> OPEN_TIME in data[i]) &&
    (forall i, j :: 0 <= i < j < |data| ==> data[i][OPEN_TIME] != data[j][OPEN_TIME])
  }

  /** Anything that is not a dict with an open time leaves the window unchanged. */
  lemma AppendIgnoresInvalid(data: seq<Item>, maxSize: nat, p: Payload)
    requires p.NotADict? || OPEN_TIME !in p.fields
    ensures Appended(data, maxSize, p) == data
  {
  }

  /** A data point whose open time the window already holds is skipped. */
  lemma AppendSkipsDuplicate(data: seq<Item>, maxSize: nat, item: Item, i: nat)
    requires i < |data| && OPEN_TIME in item && OPEN_TIME in data[i]
    requires data[i][OPEN_TIME] == item[OPEN_TIME]
    ensures Appended(data, maxSize, Dict(item)) == data
  {
  }

  /** A data point with a new open time goes last; the oldest one drops out only
      when the window was full. */
  lemma AppendFresh(data: seq<Item>, maxSize: nat, item: Item)
    requires WindowInvariant(data, maxSize) && maxSize > 0
    requires OPEN_TIME in item && !HasOpenTime(data, item[OPEN_TIME])
    ensures Appended(data, maxSize, Dict(item)) == (if |data| < maxSize then data else data[1..]) + [item]
  {
    BoundedAppend(data, item, maxSize);
  }

  /** Appending keeps the window invariant: bounded, and no open time twice. */
  lemma AppendKeepsInvariant(data: seq<Item>, maxSize: nat, p: Payload)
    requires WindowInvariant(data, maxSize)
    ensures WindowInvariant(Appended(data, maxSize, p), maxSize)
  {
    if p.Dict? && |p.fields| > 0 && OPEN_TIME in p.fields && !HasOpenTime(data, p.fields[OPEN_TIME]) {
      var item := p.fields;
      var s := data + [item];
      assert forall i :: 0 <= i < |s| - 1 ==> s[i] == data[i];
      assert forall i, j :: 0 <= i < j < |s| ==> s[i][OPEN_TIME] != s[j][OPEN_TIME];
      var r := Bounded(s, maxSize);
      assert forall i :: 0 <= i < |r| ==> r[i] == s[|s| - |r| + i];
    }
  }

  /** After a data point with a new open time, its fields are the latest ones. */
  lemma AppendFreshIsLatest(data: seq<Item>, maxSize: nat, item: Item, field: string)
    requires WindowInvariant(data, maxSize) && maxSize > 0
    requires |item| > 0 && OPEN_TIME in item && !HasOpenTime(data, item[OPEN_TIME])
    ensures Latest(Appended(data, maxSize, Dict(item)), field)
            == if field in item then Some(item[field]) else None
  {
    LatestAfterAppend(data, item, maxSize, field);
  }

  /** A full window stays full. */
  lemma FullStaysFull(data: seq<Item>, maxSize: nat, p: Payload)
    requires WindowInvariant(data, maxSize) && |data| == maxSize
    ensures |Appended(data, maxSize, p)| == maxSize
  {
    if p.Dict? && |p.fields| > 0 && OPEN_TIME in p.fields && !HasOpenTime(data, p.fields[OPEN_TIME]) {
      BoundedAppend(data, p.fields, maxSize);
    }
  }

  /** `RollingWindow`: a deque of data points with `maxlen = max_size`. */
  class RollingWindow {
    var data: seq<Item>
    const maxSize: nat

    predicate Valid()
      reads this
    {
      WindowInvariant(data, maxSize)
    }

    constructor (maxSize: nat)
      ensures Valid() && data == [] && this.maxSize == maxSize
    {
      data := [];
      this.maxSize := maxSize;
    }

    /** `append`: scans the window for the new open time before appending. */
    method Append(p: Payload)
      requires Valid()
      modifies this
      ensures Valid()
      ensures data == Appended(old(data), maxSize, p)
    {
      AppendKeepsInvariant(data, maxSize, p);
      if p.NotADict? || |p.fields| == 0 || OPEN_TIME !in p.fields {
        return;
      }
      var item := p.fields;
      var ts := item[OPEN_TIME];
      for i := 0 to |data|
        invariant forall j :: 0 <= j < i ==> !(OPEN_TIME in data[j] && data[j][OPEN_TIME] == ts)
      {
        if OPEN_TIME in data[i] && data[i][OPEN_TIME] == ts {
          return;
        }
      }
      BoundedAppend(data, item, maxSize);
      if |data| < maxSize {
        data := data + [item];
      } else if maxSize > 0 {
        data := data[1..] + [item];
      }
    }

    /** `get_values(field)`: the field of the items that have it, at most one
        value per item. */
    function GetValues(field: string): (vs: seq<real>)
      reads this
      ensures |vs| <= |data|
      ensures forall v :: v in vs <==> exists i :: 0 <= i < |data| && field in data[i] && data[i][field] == v
    {
      ValuesAreFieldValues(data, field);
      Values(data, field)
    }

    /** `get_latest(field)`: present exactly when the newest item has the field,
        and then the last of `get_values(field)`. */
    function GetLatest(field: string): (r: Option<real>)
      reads this
      ensures r.Some? <==> |data| > 0 && field in data[|data| - 1]
      ensures r.Some? ==> |GetValues(field)| > 0 && GetValues(field)[|GetValues(field)| - 1] == r.value
    {
      Latest(data, field)
    }

    /** `is_full`: a valid window that is not full has room for another item
        without eviction. */
    predicate IsFull()
      reads this
      ensures Valid() ==> (IsFull() <==> !(Size() < maxSize))
    {
      |data| == maxSize
    }

    /** `size`: never above the capacity, and never below the number of values
        any field yields. */
    function Size(): (n: nat)
      reads this
      ensures Valid() ==> n <= maxSize
      ensures forall field :: |GetValues(field)| <= n
    {
      |data|
    }
  }

  /** The size of every window: the largest `window_size` of the default
      configurations. */
  function WindowSize(): nat {
    DefaultMaxWindow();
    MaxWindowSize(DEFAULT_CONFIGS).value
  }

  /** `IndicatorEngine` (the parts of it that keep state). */
  class Engine {
    var windows: map<(string, string), RollingWindow>
    var cache: map<(string, string), TimestampCache>
    var lastUpdate: map<string, real>

    /** Every window is valid and sized as the configurations need, no two keys
        share a window, and every cache is a dict. */
    predicate Valid()
      reads this, windows.Values
    {
      (forall k :: k in windows ==> windows[k].Valid() && windows[k].maxSize == WindowSize()) &&
      (forall k1, k2 :: k1 in windows && k2 in windows && k1 != k2 ==> windows[k1] != windows[k2]) &&
      CachesWellFormed(cache)
    }

    constructor ()
      ensures Valid() && windows == map[] && cache == map[] && lastUpdate == map[]
    {
      windows := map[];
      cache := map[];
      lastUpdate := map[];
    }

    /** The data points of the (symbol, interval) window, none if it has none. */
    function WindowData(symbol: string, interval: string): seq<Item>
      reads this, windows.Values
    {
      if (symbol, interval) in windows then windows[(symbol, interval)].data else []
    }

    /** `update_rolling_window`: creates the window on first use, sized to the
        largest configured window (201), then appends. */
    method UpdateRollingWindow(symbol: string, interval: string, p: Payload)
      requires Valid()
      modifies this, windows.Values
      ensures Valid()
      ensures windows.Keys == old(windows.Keys) + {(symbol, interval)}
      ensures WindowData(symbol, interval) == Appended(old(WindowData(symbol, interval)), WindowSize(), p)
      ensures (symbol, interval) !in old(windows) ==> fresh(windows[(symbol, interval)])
      ensures forall k :: k in old(windows) ==> windows[k] == old(windows[k])
      ensures forall k :: k in old(windows) && k != (symbol, interval) ==> windows[k].data == old(windows[k].data)
      ensures cache == old(cache) && lastUpdate == old(lastUpdate)
    {
      var key := (symbol, interval);
      if key !in windows {
        var w := new RollingWindow(WindowSize());
        windows := windows[key := w];
      }
      windows[key].Append(p);
    }

    /** A request that neither hits the cache nor is throttled computes. */
    predicate Computes(symbol: string, indicator: string, ts: real)
      reads this
    {
      Lookup(CacheOf(cache, symbol, indicator), ts).None? &&
      ShouldUpdate(DEFAULT_CONFIGS, lastUpdate, indicator, ts)
    }

    /** Records what `_compute_indicator` returned and stamped: the value is
        stored and the cache trimmed to its 100 newest timestamps. */
    method Record(symbol: string, indicator: string, ts: real, comp: Computation)
      requires Valid() && Computes(symbol, indicator, ts)
      modifies this
      ensures Valid() && windows == old(windows)
      ensures GetIndicatorSpec(CacheState(old(cache), old(lastUpdate)), symbol, indicator, ts, comp, DEFAULT_CONFIGS, 100)
              == Answer(comp.value, CacheState(cache, lastUpdate))
    {
      GetIndicatorKeepsCaches(CacheState(cache, lastUpdate), symbol, indicator, ts, comp, DEFAULT_CONFIGS, 100);
      if comp.value.Some? {
        var stored := Store(CacheOf(cache, symbol, indicator), ts, comp.value.value);
        var trimmed := TrimCache(stored, 100);
        cache := cache[(symbol, indicator) := trimmed];
      }
      if comp.stampedAt.Some? {
        lastUpdate := lastUpdate[indicator := comp.stampedAt.value];
      }
    }

    /** `get_indicator`, where `comp` is what `_compute_indicator` returns and
        records. */
    method GetIndicator(symbol: string, indicator: string, ts: real, comp: Computation)
      returns (r: Option<real>)
      requires Valid()
      modifies this
      ensures Valid()
      ensures windows == old(windows)
      ensures Answer(r, CacheState(cache, lastUpdate))
              == GetIndicatorSpec(CacheState(old(cache), old(lastUpdate)), symbol, indicator, ts, comp, DEFAULT_CONFIGS, 100)
    {
      var c := CacheOf(cache, symbol, indicator);
      if Lookup(c, ts).Some? {
        return Lookup(c, ts);
      }
      if !ShouldUpdate(DEFAULT_CONFIGS, lastUpdate, indicator, ts) {
        return LatestCached(c);
      }
      Record(symbol, indicator, ts, comp);
      return comp.value;
    }

    /** `_get_latest_cached`: None when nothing is cached for the pair, otherwise
        the value stored at its greatest timestamp. */
    function GetLatestCached(symbol: string, indicator: string): (r: Option<real>)
      reads this
      ensures r.None? <==> (symbol, indicator) !in cache || |cache[(symbol, indicator)]| == 0
      ensures r.Some? ==>
        var c := cache[(symbol, indicator)];
        exists k :: k in Keys(c) && Lookup(c, k) == r && forall j :: j in Keys(c) ==> j <= k
    {
      LatestCached(CacheOf(cache, symbol, indicator))
    }

    /** `cleanup`: forgets every window, cached value and update time. */
    method Cleanup()
      modifies this
      ensures Valid()
      ensures windows == map[] && cache == map[] && lastUpdate == map[]
    {
      windows := map[];
      cache := map[];
      lastUpdate := map[];
    }
  }
}
