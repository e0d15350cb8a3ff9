// The standalone indicator engine: rolling windows that take every data point,
// created on first use with a configurable size, and per (symbol, indicator)
// caches trimmed to a configurable number of entries.
//
// The nested `defaultdict`s are maps keyed by the pair of their two keys.  What
// `_compute_indicator` returns and records is a parameter of `GetIndicator`.
module Indicators {
  import opened Wrappers
  import opened IndicatorCommon

  const DEFAULT_MAX_WINDOW: int := 250
  const DEFAULT_CACHE_LIMIT: int := 100

  /** `RollingWindow`: a deque with `maxlen = max_size`, appended to blindly. */
  class RollingWindow {
    var data: seq<Item>
    const maxSize: nat

    predicate Valid()
      reads this
    {
      |data| <= maxSize
    }

    constructor (maxSize: nat)
      ensures Valid() && data == [] && this.maxSize == maxSize
    {
      data := [];
      this.maxSize := maxSize;
    }

    /** `append`: the item goes last; when the deque was full its oldest item
        drops out. */
    method Append(item: Item)
      requires Valid()
      modifies this
      ensures Valid()
      ensures data == Bounded(old(data) + [item], maxSize)
    {
      BoundedAppend(data, item, maxSize);
      if |data| < maxSize {
        data := data + [item];
      } else if maxSize > 0 {
        data := data[1..] + [item];
      }
    }

    /** `get_values(field)`: the field of the items that have it, at most one
        value per item. */
    function GetValues(field: string): (vs: seq<real>)
      reads this
      ensures |vs| <= |data|
      ensures forall v :: v in vs <==> exists i :: 0 <= i < |data| && field in data[i] && data[i][field] == v
    {
      ValuesAreFieldValues(data, field);
      Values(data, field)
    }

    /** `get_latest(field)`: present exactly when the newest item has the field,
        and then the last of `get_values(field)`. */
    function GetLatest(field: string): (r: Option<real>)
      reads this
      ensures r.Some? <==> |data| > 0 && field in data[|data| - 1]
      ensures r.Some? ==> |GetValues(field)| > 0 && GetValues(field)[|GetValues(field)| - 1] == r.value
    {
      Latest(data, field)
    }

    /** `is_full`: a valid window that is not full has room for another item
        without eviction. */
    predicate IsFull()
      reads this
      ensures Valid() ==> (IsFull() <==> !(Size() < maxSize))
    {
      |data| == maxSize
    }

    /** `size`: never above the capacity, and never below the number of values
        any field yields. */
    function Size(): (n: nat)
      reads this
      ensures Valid() ==> n <= maxSize
      ensures forall field :: |GetValues(field)| <= n
    {
      |data|
    }
  }

  /** `IndicatorEngine` (the parts of it that keep state). */
  class Engine {
    const maxWindow: int
    const cacheLimit: int
    var windows: map<(string, string), RollingWindow>
    var cache: map<(string, string), TimestampCache>
    var lastUpdate: map<string, real>

    /** Every window is valid and has the configured size, no two keys share a
        window, and every cache is a dict. */
    predicate Valid()
      reads this, windows.Values
    {
      (forall k :: k in windows ==> windows[k].Valid() && windows[k].maxSize == maxWindow) &&
      (forall k1, k2 :: k1 in windows && k2 in windows && k1 != k2 ==> windows[k1] != windows[k2]) &&
      CachesWellFormed(cache)
    }

    /** `__init__` reads `window.max_window_size` of the configuration, 250 when
        absent. `cacheLimit` is `cache.max_entries_per_symbol`, 100 when absent,
        which `get_indicator` re-reads on every store; holding it here is the
        same while the configuration does not change. */
    constructor (maxWindowSetting: Option<int>, cacheLimitSetting: Option<int>)
      ensures Valid()
      ensures maxWindow == maxWindowSetting.GetOr(DEFAULT_MAX_WINDOW)
      ensures cacheLimit == cacheLimitSetting.GetOr(DEFAULT_CACHE_LIMIT)
      ensures windows == map[] && cache == map[] && lastUpdate == map[]
    {
      maxWindow := maxWindowSetting.GetOr(DEFAULT_MAX_WINDOW);
      cacheLimit := cacheLimitSetting.GetOr(DEFAULT_CACHE_LIMIT);
      windows := map[];
      cache := map[];
      lastUpdate := map[];
    }

    /** The data points of the (symbol, interval) window, none if it has none. */
    function WindowData(symbol: string, interval: string): seq<Item>
      reads this, windows.Values
    {
      if (symbol, interval) in windows then windows[(symbol, interval)].data else []
    }

    /** The `defaultdict` lookup `rolling_windows[symbol][interval]`: creates an
        empty window of the configured size on first use; a negative size is the
        `ValueError` that `deque` raises, and then nothing changes. */
    method WindowFor(symbol: string, interval: string) returns (w: Result<RollingWindow>)
      requires Valid()
      modifies this
      ensures Valid()
      ensures w.Err? <==> (symbol, interval) !in old(windows) && maxWindow < 0
      ensures w.Err? ==> windows == old(windows)
      ensures w.Ok? ==> windows.Keys == old(windows.Keys) + {(symbol, interval)} &&
                        w.value == windows[(symbol, interval)]
      ensures w.Ok? && (symbol, interval) !in old(windows) ==> fresh(w.value) && w.value.data == []
      ensures forall k :: k in old(windows) ==> k in windows && windows[k] == old(windows[k])
      ensures cache == old(cache) && lastUpdate == old(lastUpdate)
    {
      var key := (symbol, interval);
      if key in windows {
        return Ok(windows[key]);
      }
      if maxWindow < 0 {
        return Err(ValueError("maxlen must be non-negative"));
      }
      var created := new RollingWindow(maxWindow);
      windows := windows[key := created];
      return Ok(created);
    }

    /** `update_rolling_window`: appends to the window, creating it first. */
    method UpdateRollingWindow(symbol: string, interval: string, item: Item) returns (ok: bool)
      requires Valid()
      modifies this, windows.Values
      ensures Valid()
      ensures !ok <==> (symbol, interval) !in old(windows) && maxWindow < 0
      ensures !ok ==> windows == old(windows)
      ensures ok ==> windows.Keys == old(windows.Keys) + {(symbol, interval)} &&
                     WindowData(symbol, interval) == Bounded(old(WindowData(symbol, interval)) + [item], maxWindow as nat)
      ensures forall k :: k in old(windows) ==> windows[k] == old(windows[k])
      ensures forall k :: k in old(windows) && k != (symbol, interval) ==> windows[k].data == old(windows[k].data)
      ensures cache == old(cache) && lastUpdate == old(lastUpdate)
    {
      var w := WindowFor(symbol, interval);
      if w.Err? {
        return false;
      }
      w.value.Append(item);
      return true;
    }

    /** A request that neither hits the cache nor is throttled computes. */
    predicate Computes(symbol: string, indicator: string, ts: real)
      reads this
    {
      Lookup(CacheOf(cache, symbol, indicator), ts).None? &&
      ShouldUpdate(DEFAULT_CONFIGS, lastUpdate, indicator, ts)
    }

    /** Records what `_compute_indicator` returned and stamped: the value is
        stored and the cache trimmed to `cacheLimit`. */
    method Record(symbol: string, indicator: string, ts: real, comp: Computation)
      requires Valid() && Computes(symbol, indicator, ts)
      modifies this
      ensures Valid() && windows == old(windows)
      ensures GetIndicatorSpec(CacheState(old(cache), old(lastUpdate)), symbol, indicator, ts, comp, DEFAULT_CONFIGS, cacheLimit)
              == Answer(comp.value, CacheState(cache, lastUpdate))
    {
      GetIndicatorKeepsCaches(CacheState(cache, lastUpdate), symbol, indicator, ts, comp, DEFAULT_CONFIGS, cacheLimit);
      if comp.value.Some? {
        var stored := Store(CacheOf(cache, symbol, indicator), ts, comp.value.value);
        var trimmed := TrimCache(stored, cacheLimit);
        cache := cache[(symbol, indicator) := trimmed];
      }
      if comp.stampedAt.Some? {
        lastUpdate := lastUpdate[indicator := comp.stampedAt.value];
      }
    }

    /** `get_indicator`, where `comp` is what `_compute_indicator` returns and
        records.  Computing looks the (symbol, interval) window up first, which
        creates it (or fails, as in `WindowFor`); the cache keeps the
        `cacheLimit` newest timestamps of each indicator. */
    method GetIndicator(symbol: string, indicator: string, ts: real, interval: string, comp: Computation)
      returns (r: Result<Option<real>>)
      requires Valid()
      modifies this
      ensures Valid()
      ensures r.Err? <==> old(Computes(symbol, indicator, ts)) && (symbol, interval) !in old(windows) && maxWindow < 0
      ensures r.Err? ==> cache == old(cache) && lastUpdate == old(lastUpdate) && windows == old(windows)
      ensures r.Ok? ==> Answer(r.value, CacheState(cache, lastUpdate))
                        == GetIndicatorSpec(CacheState(old(cache), old(lastUpdate)), symbol, indicator, ts, comp, DEFAULT_CONFIGS, cacheLimit)
      ensures r.Ok? && old(Computes(symbol, indicator, ts)) ==> windows.Keys == old(windows.Keys) + {(symbol, interval)}
      ensures !old(Computes(symbol, indicator, ts)) ==> windows == old(windows)
      ensures forall k :: k in old(windows) ==> k in windows && windows[k] == old(windows[k])
    {
      var c := CacheOf(cache, symbol, indicator);
      if Lookup(c, ts).Some? {
        return Ok(Lookup(c, ts));
      }
      if !ShouldUpdate(DEFAULT_CONFIGS, lastUpdate, indicator, ts) {
        return Ok(LatestCached(c));
      }
      var w := WindowFor(symbol, interval);
      if w.Err? {
        return Err(w.error);
      }
      Record(symbol, indicator, ts, comp);
      return Ok(comp.value);
    }

    /** `_get_latest_cached`: None when nothing is cached for the pair, otherwise
        the value stored at its greatest timestamp. */
    function GetLatestCached(symbol: string, indicator: string): (r: Option<real>)
      reads this
      ensures r.None? <==> (symbol, indicator) !in cache || |cache[(symbol, indicator)]| == 0
      ensures r.Some? ==>
        var c := cache[(symbol, indicator)];
        exists k :: k in Keys(c) && Lookup(c, k) == r && forall j :: j in Keys(c) ==> j <= k
    {
      LatestCached(CacheOf(cache, symbol, indicator))
    }

    /** `cleanup`: forgets every window, cached value and update time. */
    method Cleanup()
      modifies this
      ensures Valid()
      ensures windows == map[] && cache == map[] && lastUpdate == map[]
    {
      windows := map[];
      cache := map[];
      lastUpdate := map[];
    }
  }
}
