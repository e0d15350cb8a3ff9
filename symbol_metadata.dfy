// The symbol metadata table: per-symbol listing date and status, the date of the
// last refresh from the exchange, the classification of a local data shortfall,
// and the per-symbol transform of a refresh.
//
// The table is the object's `symbols` field and is updated in place; the JSON
// file it is saved to, and the HTTP request of a refresh, are not modelled
// (the exchange's answer is a parameter).
module SymbolMetadata {
  import opened Wrappers
  import opened Calendar
  import opened DataQuery

  /** One entry of the table; an entry loaded from a file may lack its date. */
  datatype SymbolInfo = SymbolInfo(listingDate: Option<string>, status: string)

  /** Why local data is missing. */
  datatype MissingKind = UnknownSymbol | NewCoin | DataCorruption

  /** The refresh date a table without one is taken to have. */
  const DEFAULT_LAST_UPDATED: string := "2025-01-01"

  /** The instant a stored "YYYY-MM-DD" date stands for: midnight UTC of that day.
      A malformed string raises ValueError, as `strptime` does. */
  function ListingInstant(stored: string): (r: Result<Instant>)
    ensures r.Ok? <==> ParseDate(stored).Some?
    ensures r.Ok? ==> r.value == Midnight(DayOfDate(ParseDate(stored).value))
    ensures r.Err? ==> r.error.ValueError?
  {
    match ParseDate(stored)
    case None => Err(ValueError("time data does not match format '%Y-%m-%d'"))
    case Some(d) => Ok(Midnight(DayOfDate(d)))
  }

  /** `get_listing_date`. */
  function ListingDate(symbols: map<string, SymbolInfo>, symbol: string): (r: Result<Option<Instant>>)
    ensures symbol !in symbols || symbols[symbol].listingDate.None? ==> r == Ok(None)
    ensures symbol in symbols && symbols[symbol].listingDate.Some? ==>
      match ListingInstant(symbols[symbol].listingDate.value)
      case Ok(t) => r == Ok(Some(t))
      case Err(e) => r == Err(e)
  {
    if symbol in symbols && symbols[symbol].listingDate.Some? then
      match ListingInstant(symbols[symbol].listingDate.value)
      case Ok(t) => Ok(Some(t))
      case Err(e) => Err(e)
    else Ok(None)
  }

  /** `classify_missing_data`: unknown symbols and symbols without a date are
      "unknown_symbol"; a window starting before the listing is "new_coin"; anything
      else is "data_corruption". */
  function Classify(symbols: map<string, SymbolInfo>, symbol: string, r: TimeRange): (k: Result<MissingKind>)
    ensures symbol !in symbols ==> k == Ok(UnknownSymbol)
    ensures ListingDate(symbols, symbol) == Ok(None) ==> k == Ok(UnknownSymbol)
    ensures ListingDate(symbols, symbol).Err? ==> k.Err?
    ensures k == Ok(NewCoin) <==> exists t :: ListingDate(symbols, symbol) == Ok(Some(t)) && r.start < t
    ensures k == Ok(DataCorruption) <==> exists t :: ListingDate(symbols, symbol) == Ok(Some(t)) && r.start >= t
  {
    if symbol !in symbols then Ok(UnknownSymbol)
    else match ListingDate(symbols, symbol)
      case Err(e) => Err(e)
      case Ok(None) => Ok(UnknownSymbol)
      case Ok(Some(t)) => if r.start < t then Ok(NewCoin) else Ok(DataCorruption)
  }

  /** A date written by `add_symbol` from a formatted date reads back as that date's
      midnight. */
  lemma AddedListingDate(symbols: map<string, SymbolInfo>, symbol: string, d: Date, status: string)
    requires ValidDate(d)
    ensures ListingDate(symbols[symbol := SymbolInfo(Some(FormatDate(d)), status)], symbol)
         == Ok(Some(Midnight(DayOfDate(d))))
  {
    ParseFormatDate(d);
  }

  // ---- the refresh transform --------------------------------------------------

  /** One entry of the exchange's symbol list, as far as the transform reads it. */
  datatype ExchangeSymbol = ExchangeSymbol(symbol: string, status: Option<string>, onboardDate: Option<int>)

  predicate IsUsdt(symbol: string) {
    |symbol| >= 4 && symbol[|symbol| - 4..] == "USDT"
  }

  /** The listing dates assumed for symbols the exchange gives no onboarding date:
      the futures launch, the second batch, and everything later. */
  const FUTURES_LAUNCH: string := "2019-09-25"
  const SECOND_BATCH: string := "2020-01-01"
  const LATER_LISTING: string := "2021-01-01"

  /** The fallback texts are real dates. */
  lemma FuturesLaunchParses()
    ensures ParseDate(FUTURES_LAUNCH) == Some(Date(2019, 9, 25))
  {
    PaddedTwo(9);
    PaddedTwo(25);
    assert Padded(2019, 4) == "2019";
    ParseSpelling(FUTURES_LAUNCH, Date(2019, 9, 25), "09", "25");
  }

  lemma SecondBatchParses()
    ensures ParseDate(SECOND_BATCH) == Some(Date(2020, 1, 1))
  {
    PaddedTwo(1);
    assert Padded(2020, 4) == "2020";
    ParseSpelling(SECOND_BATCH, Date(2020, 1, 1), "01", "01");
  }

  lemma LaterListingParses()
    ensures ParseDate(LATER_LISTING) == Some(Date(2021, 1, 1))
  {
    PaddedTwo(1);
    assert Padded(2021, 4) == "2021";
    ParseSpelling(LATER_LISTING, Date(2021, 1, 1), "01", "01");
  }

  /** The listing date stored for an exchange entry: the local calendar day of a
      non-zero `onboardDate` (in ms), the futures launch date when that day is
      outside the years `strftime` can write (where `fromtimestamp` raises
      ValueError), and otherwise a guess by symbol. */
  function ListingDateFor(e: ExchangeSymbol, offsetSeconds: int): string {
    if e.onboardDate.Some? && e.onboardDate.value != 0 then
      var day := LocalDay(e.onboardDate.value / 1000, offsetSeconds);
      if ValidDate(DateOfDay(day)) then DayName(day) else FUTURES_LAUNCH
    else if e.symbol in ["BTCUSDT", "ETHUSDT", "BNBUSDT"] then FUTURES_LAUNCH
    else if e.symbol in ["ADAUSDT", "DOTUSDT", "LINKUSDT"] then SECOND_BATCH
    else LATER_LISTING
  }

  /** The stored listing date always parses back: to the onboarding day when it
      is writable, else to the fallback date chosen by symbol or range. */
  lemma ListingDateForParses(e: ExchangeSymbol, offsetSeconds: int)
    ensures var s := ListingDateFor(e, offsetSeconds);
      && ParseDate(s).Some?
      && (e.onboardDate.None? || e.onboardDate == Some(0) ==>
            ParseDate(s) == Some(if e.symbol in ["BTCUSDT", "ETHUSDT", "BNBUSDT"] then Date(2019, 9, 25)
                                 else if e.symbol in ["ADAUSDT", "DOTUSDT", "LINKUSDT"] then Date(2020, 1, 1)
                                 else Date(2021, 1, 1)))
      && (e.onboardDate.Some? && e.onboardDate.value != 0 ==>
            var day := LocalDay(e.onboardDate.value / 1000, offsetSeconds);
            ParseDate(s) == Some(if ValidDate(DateOfDay(day)) then DateOfDay(day) else Date(2019, 9, 25)))
  {
    FuturesLaunchParses();
    SecondBatchParses();
    LaterListingParses();
  }

  /** The table entry of an exchange symbol: TRADING is "active", anything else,
      a missing status included, "inactive". */
  function EntryFor(e: ExchangeSymbol, offsetSeconds: int): SymbolInfo {
    SymbolInfo(Some(ListingDateFor(e, offsetSeconds)),
               if e.status == Some("TRADING") then "active" else "inactive")
  }

  /** An entry holds a parsable date and the status TRADING maps to. */
  lemma EntryForShape(e: ExchangeSymbol, offsetSeconds: int)
    ensures var info := EntryFor(e, offsetSeconds);
      && info.listingDate.Some? && ParseDate(info.listingDate.value).Some?
      && info.status == (if e.status == Some("TRADING") then "active" else "inactive")
  {
    ListingDateForParses(e, offsetSeconds);
  }

  /** The table after the transform has visited `exchange` left to right. */
  function Refreshed(symbols: map<string, SymbolInfo>, exchange: seq<ExchangeSymbol>, offsetSeconds: int)
    : map<string, SymbolInfo>
  {
    if |exchange| == 0 then symbols
    else
      var before := Refreshed(symbols, exchange[..|exchange| - 1], offsetSeconds);
      var e := exchange[|exchange| - 1];
      if IsUsdt(e.symbol) then before[e.symbol := EntryFor(e, offsetSeconds)] else before
  }

  /** The `updated_count` of the transform: the visits that meet a symbol the table
      does not yet hold. */
  function NewCount(symbols: map<string, SymbolInfo>, exchange: seq<ExchangeSymbol>, offsetSeconds: int): nat {
    if |exchange| == 0 then 0
    else
      var init := exchange[..|exchange| - 1];
      var e := exchange[|exchange| - 1];
      NewCount(symbols, init, offsetSeconds)
        + (if IsUsdt(e.symbol) && e.symbol !in Refreshed(symbols, init, offsetSeconds) then 1 else 0)
  }

  /** The `usdt_count` of the transform. */
  function UsdtCount(exchange: seq<ExchangeSymbol>): nat {
    if |exchange| == 0 then 0
    else UsdtCount(exchange[..|exchange| - 1]) + (if IsUsdt(exchange[|exchange| - 1].symbol) then 1 else 0)
  }

  /** Some visit of the exchange list writes symbol `k`. */
  predicate Writes(exchange: seq<ExchangeSymbol>, k: string) {
    IsUsdt(k) && exists e :: e in exchange && e.symbol == k
  }

  /** The transform keeps every old key and adds exactly the USDT symbols of the
      exchange list. */
  lemma {:induction false} RefreshedKeys(symbols: map<string, SymbolInfo>, exchange: seq<ExchangeSymbol>,
                                         offsetSeconds: int, k: string)
    ensures k in Refreshed(symbols, exchange, offsetSeconds) <==> k in symbols || Writes(exchange, k)
  {
    if |exchange| > 0 {
      var init := exchange[..|exchange| - 1];
      assert exchange == init + [exchange[|exchange| - 1]];
      RefreshedKeys(symbols, init, offsetSeconds, k);
    }
  }

  /** An entry the exchange list does not write keeps its old value. */
  lemma {:induction false} RefreshedUnwritten(symbols: map<string, SymbolInfo>, exchange: seq<ExchangeSymbol>,
                                              offsetSeconds: int, k: string)
    requires k in symbols && !Writes(exchange, k)
    ensures var m := Refreshed(symbols, exchange, offsetSeconds); k in m && m[k] == symbols[k]
  {
    if |exchange| > 0 {
      var init := exchange[..|exchange| - 1];
      assert exchange == init + [exchange[|exchange| - 1]];
      RefreshedUnwritten(symbols, init, offsetSeconds, k);
    }
  }

  /** An entry the exchange list writes holds the entry made from one of its visits. */
  lemma {:induction false} RefreshedWritten(symbols: map<string, SymbolInfo>, exchange: seq<ExchangeSymbol>,
                                            offsetSeconds: int, k: string)
    requires Writes(exchange, k)
    ensures var m := Refreshed(symbols, exchange, offsetSeconds);
      k in m && exists e :: e in exchange && e.symbol == k && m[k] == EntryFor(e, offsetSeconds)
  {
    var init := exchange[..|exchange| - 1];
    var last := exchange[|exchange| - 1];
    assert exchange == init + [last];
    if !(last.symbol == k) {
      RefreshedWritten(symbols, init, offsetSeconds, k);
    }
  }

  /** `updated_count` is the number of symbols the transform added to the table. */
  lemma {:induction false} NewCountIsAdded(symbols: map<string, SymbolInfo>, exchange: seq<ExchangeSymbol>,
                                           offsetSeconds: int)
    ensures NewCount(symbols, exchange, offsetSeconds)
         == |Refreshed(symbols, exchange, offsetSeconds).Keys - symbols.Keys|
    decreases |exchange|
  {
    if |exchange| > 0 {
      var init := exchange[..|exchange| - 1];
      var e := exchange[|exchange| - 1];
      var before := Refreshed(symbols, init, offsetSeconds);
      NewCountIsAdded(symbols, init, offsetSeconds);
      RefreshedKeepsKeys(symbols, init, offsetSeconds);
      if IsUsdt(e.symbol) {
        AddKeyCount(symbols, before, e.symbol, EntryFor(e, offsetSeconds));
      }
    }
  }

  /** Writing key `k` adds one key beyond `base` exactly when `k` was absent. */
  lemma AddKeyCount(base: map<string, SymbolInfo>, m: map<string, SymbolInfo>, k: string, v: SymbolInfo)
    requires base.Keys <= m.Keys
    ensures |m[k := v].Keys - base.Keys| == |m.Keys - base.Keys| + (if k in m then 0 else 1)
  {
    assert m[k := v].Keys == m.Keys + {k};
    AddElementCount(m.Keys, base.Keys, k);
  }

  lemma AddElementCount(keys: set<string>, base: set<string>, x: string)
    requires base <= keys
    ensures |(keys + {x}) - base| == |keys - base| + (if x in keys then 0 else 1)
  {
    if x !in keys {
      assert (keys + {x}) - base == (keys - base) + {x};
    } else {
      assert keys + {x} == keys;
    }
  }

  lemma {:induction false} RefreshedKeepsKeys(symbols: map<string, SymbolInfo>, exchange: seq<ExchangeSymbol>,
                                              offsetSeconds: int)
    ensures symbols.Keys <= Refreshed(symbols, exchange, offsetSeconds).Keys
  {
    if |exchange| > 0 {
      RefreshedKeepsKeys(symbols, exchange[..|exchange| - 1], offsetSeconds);
    }
  }

  /** `SymbolMetadataManager`: the table and the date of its last refresh. */
  class Manager {
    var lastUpdated: Option<string>
    var symbols: map<string, SymbolInfo>

    /** The table a missing metadata file gives. */
    constructor ()
      ensures lastUpdated == Some(DEFAULT_LAST_UPDATED) && symbols == map[]
    {
      lastUpdated := Some(DEFAULT_LAST_UPDATED);
      symbols := map[];
    }

    /** A table loaded from its file. */
    constructor Loaded(lastUpdated: Option<string>, symbols: map<string, SymbolInfo>)
      ensures this.lastUpdated == lastUpdated && this.symbols == symbols
    {
      this.lastUpdated := lastUpdated;
      this.symbols := symbols;
    }

    /** `should_update_today`, with today's "YYYY-MM-DD" as a parameter: not once the
        table is dated today; a table without a date counts as dated 2025-01-01. */
    predicate ShouldUpdateToday(today: string)
      reads this
      ensures lastUpdated == Some(today) ==> !ShouldUpdateToday(today)
      ensures lastUpdated.Some? && lastUpdated.value != today ==> ShouldUpdateToday(today)
      ensures lastUpdated.None? ==> (ShouldUpdateToday(today) <==> today != DEFAULT_LAST_UPDATED)
    {
      lastUpdated.GetOr(DEFAULT_LAST_UPDATED) != today
    }

    /** `is_symbol_known`: an unknown symbol has no listing date. */
    predicate IsSymbolKnown(symbol: string)
      reads this
      ensures !IsSymbolKnown(symbol) ==> ListingDate(symbols, symbol) == Ok(None)
    {
      symbol in symbols
    }

    /** `get_listing_date`: none for an unknown symbol or an entry without a date;
        otherwise midnight UTC of the stored date, or the parse's ValueError. */
    function GetListingDate(symbol: string): (r: Result<Option<Instant>>)
      reads this
      ensures !IsSymbolKnown(symbol) ==> r == Ok(None)
      ensures IsSymbolKnown(symbol) && symbols[symbol].listingDate.None? ==> r == Ok(None)
      ensures r.Ok? && r.value.Some? ==> r.value.value % MICROS_PER_DAY == 0
    {
      ListingDate(symbols, symbol)
    }

    /** `classify_missing_data` over this table: unknown_symbol without a listing
        date, new_coin when the range starts before the listing, data_corruption
        otherwise. */
    function ClassifyMissingData(symbol: string, r: TimeRange): (k: Result<MissingKind>)
      reads this
      ensures !IsSymbolKnown(symbol) || GetListingDate(symbol) == Ok(None) ==> k == Ok(UnknownSymbol)
      ensures GetListingDate(symbol).Err? ==> k.Err?
      ensures k == Ok(NewCoin) <==> exists t :: GetListingDate(symbol) == Ok(Some(t)) && r.start < t
      ensures k == Ok(DataCorruption) <==> exists t :: GetListingDate(symbol) == Ok(Some(t)) && r.start >= t
    {
      Classify(symbols, symbol, r)
    }

    /** `add_symbol`: the symbol is known afterwards with the given date and status,
        every other entry and the refresh date are untouched. */
    method AddSymbol(symbol: string, listingDate: string, status: string)
      modifies this
      ensures symbols == old(symbols)[symbol := SymbolInfo(Some(listingDate), status)]
      ensures lastUpdated == old(lastUpdated)
      ensures IsSymbolKnown(symbol)
      ensures GetListingDate(symbol) == (match ListingInstant(listingDate)
                                         case Ok(t) => Ok(Some(t))
                                         case Err(e) => Err(e))
      ensures forall s :: s != symbol ==> GetListingDate(s) == old(GetListingDate(s))
    {
      symbols := symbols[symbol := SymbolInfo(Some(listingDate), status)];
    }

    /** `update_symbols_from_api` after the request: `response` is the exchange's
        symbol list, or None when the request failed.  Nothing changes and the
        answer is false when the table was refreshed today, the request failed or
        the list is empty; otherwise every USDT symbol is (re)written, the refresh
        date becomes today, and the count of added symbols is returned beside the
        answer. */
    method UpdateSymbolsFromApi(response: Option<seq<ExchangeSymbol>>, today: string, offsetSeconds: int)
      returns (updated: bool, newCount: nat, usdtCount: nat)
      modifies this
      ensures updated <==> old(ShouldUpdateToday(today)) && response.Some? && |response.value| > 0
      ensures !updated ==> symbols == old(symbols) && lastUpdated == old(lastUpdated) && newCount == 0 && usdtCount == 0
      ensures updated ==> symbols == Refreshed(old(symbols), response.value, offsetSeconds)
                          && lastUpdated == Some(today)
                          && newCount == NewCount(old(symbols), response.value, offsetSeconds)
                          && usdtCount == UsdtCount(response.value)
      ensures updated ==> !ShouldUpdateToday(today)
    {
      updated, newCount, usdtCount := false, 0, 0;
      if !ShouldUpdateToday(today) || response.None? || |response.value| == 0 {
        return;
      }
      var exchange := response.value;
      ghost var start := symbols;
      for i := 0 to |exchange|
        invariant symbols == Refreshed(start, exchange[..i], offsetSeconds)
        invariant newCount == NewCount(start, exchange[..i], offsetSeconds)
        invariant usdtCount == UsdtCount(exchange[..i])
        invariant lastUpdated == old(lastUpdated)
      {
        assert exchange[..i + 1][..i] == exchange[..i];
        var e := exchange[i];
        if IsUsdt(e.symbol) {
          usdtCount := usdtCount + 1;
          if e.symbol !in symbols {
            newCount := newCount + 1;
          }
          symbols := symbols[e.symbol := EntryFor(e, offsetSeconds)];
        }
      }
      assert exchange[..|exchange|] == exchange;
      lastUpdated := Some(today);
      updated := true;
    }
  }
}
