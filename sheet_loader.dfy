/**
 * `loadSheetData`: parse the sheet id, serve a fresh cached copy when the
 * cache allows it, otherwise fetch, normalise and validate the rows, then
 * stamp and cache the result. The storage is an abstract map from sheet id
 * to the last stored result; the clock, the fetched rows, the fallback-key
 * generator and the regular-expression and number tests are parameters.
 */
module SheetLoader {
  import opened Wrappers
  import opened Values
  import Text
  import SheetUrl
  import Normalize
  import Validate

  /** `cacheTimeout` when the caller gives none: five minutes, in milliseconds. */
  const DefaultCacheTimeout: int := 5 * 60 * 1000

  /** The result object `loadSheetData` returns and stores. */
  datatype Loaded = Loaded(sheetId: string, sheetName: string, data: seq<Record>, timestamp: int)

  /** The options object; `None` is a missing property, which takes the destructuring default. */
  datatype LoadOptions = LoadOptions(useCache: Option<bool>, cacheTimeout: Option<int>, schema: Option<Validate.Schema>)

  /** The reasons `loadSheetData` throws. */
  datatype LoadError = InvalidUrl | FetchFailed(message: string) | ValidationFailed(message: string)

  /**
   * What the outside world supplies: the clock at the freshness test and at
   * the stamp, the rows `fetchSheetData` yields (or the message it throws),
   * the fallback-key generator and the runtime tests of the validator.
   */
  datatype World = World(now: int, stamp: int, fetched: Result<seq<Record>, string>,
                         suffix: (int, int) -> string, oracles: Validate.Oracles)

  datatype Outcome = Outcome(result: Result<Loaded, LoadError>, cache: map<string, Loaded>)

  /** `storage.load(sheetId)`: the stored result, or `null`. */
  function Lookup(cache: map<string, Loaded>, id: string): (r: Option<Loaded>)
    ensures r.Some? <==> id in cache
    ensures r.Some? ==> r.value == cache[id]
  {
    if id in cache then Some(cache[id]) else None
  }

  /** `cached && cached.timestamp && Date.now() - cached.timestamp < cacheTimeout`. */
  predicate Fresh(cached: Option<Loaded>, now: int, timeout: int) {
    cached.Some? && cached.value.timestamp != 0 && now - cached.value.timestamp < timeout
  }

  /** The thrown message: `Validation failed:` and the error texts, one per line. */
  function FailureText(errors: seq<Validate.Message>): string {
    "Validation failed:\n" + Text.Join(seq(|errors|, i requires 0 <= i < |errors| => Validate.MessageText(errors[i])), "\n")
  }

  /** Every stored result sits under its own sheet id. */
  predicate KeyedById(cache: map<string, Loaded>) {
    forall id :: id in cache ==> cache[id].sheetId == id
  }

  /**
   * `loadSheetData`, with the cache test either as written (`byName` false:
   * any fresh entry for the sheet id) or restricted to an entry for the
   * requested sheet name (`byName` true).
   */
  function LoadWith(byName: bool, url: Option<Value>, sheetName: string, opts: LoadOptions,
                    cache: map<string, Loaded>, w: World): Outcome
  {
    var id := SheetUrl.ExtractSheetId(url);
    if id.None? then Outcome(Err(InvalidUrl), cache)
    else
      var useCache := opts.useCache.GetOr(true);
      var cached := Lookup(cache, id.value);
      if useCache && Fresh(cached, w.now, opts.cacheTimeout.GetOr(DefaultCacheTimeout))
         && (!byName || cached.value.sheetName == sheetName)
      then Outcome(Ok(cached.value), cache)
      else if w.fetched.Err? then Outcome(Err(FetchFailed(w.fetched.error)), cache)
      else
        var rows := Normalize.NormalizedRows(Some(w.fetched.value), w.suffix);
        var errors := if opts.schema.Some? then Validate.Validation(Some(rows), opts.schema, w.oracles).errors else [];
        if errors != [] then Outcome(Err(ValidationFailed(FailureText(errors))), cache)
        else
          var result := Loaded(id.value, sheetName, rows, w.stamp);
          Outcome(Ok(result), if useCache then cache[id.value := result] else cache)
  }

  /** `loadSheetData` as written. */
  function Load(url: Option<Value>, sheetName: string, opts: LoadOptions, cache: map<string, Loaded>, w: World): Outcome {
    LoadWith(false, url, sheetName, opts, cache, w)
  }

  /** `loadSheetData` with the cache test also comparing the sheet name. */
  function LoadCorrected(url: Option<Value>, sheetName: string, opts: LoadOptions, cache: map<string, Loaded>, w: World): Outcome {
    LoadWith(true, url, sheetName, opts, cache, w)
  }

  /** The connector's view of its storage. */
  class Connector {
    var cache: map<string, Loaded>

    ghost predicate Valid()
      reads this
    {
      KeyedById(cache)
    }

    /**
     * A connector over storage that persists across sessions: it starts
     * with whatever the store already holds, each entry under its own id.
     */
    constructor(stored: map<string, Loaded>)
      requires KeyedById(stored)
      ensures Valid() && cache == stored
    {
      cache := stored;
    }

    /** `loadSheetData(url, sheetName, options)`. */
    method LoadSheetData(url: Option<Value>, sheetName: string, opts: LoadOptions, w: World) returns (r: Result<Loaded, LoadError>)
      requires Valid()
      modifies this
      ensures Valid()
      ensures Outcome(r, cache) == Load(url, sheetName, opts, old(cache), w)
    {
      var id := SheetUrl.ExtractSheetId(url);
      if id.None? {
        return Err(InvalidUrl);
      }
      var sheetId := id.value;
      var useCache := opts.useCache.GetOr(true);
      var cacheTimeout := opts.cacheTimeout.GetOr(DefaultCacheTimeout);
      if useCache {
        var cached := Lookup(cache, sheetId);
        if cached.Some? && cached.value.timestamp != 0 {
          var age := w.now - cached.value.timestamp;
          if age < cacheTimeout {
            return Ok(cached.value);
          }
        }
      }
      if w.fetched.Err? {
        return Err(FetchFailed(w.fetched.error));
      }
      var normalized := Normalize.NormalizeFields(Some(w.fetched.value), w.suffix);
      if opts.schema.Some? {
        var report := Validate.ValidateFields(Some(normalized), opts.schema, w.oracles);
        if report.errors != [] {
          return Err(ValidationFailed(FailureText(report.errors)));
        }
      }
      var result := Loaded(sheetId, sheetName, normalized, w.stamp);
      if useCache {
        cache := cache[sheetId := result];
      }
      return Ok(result);
    }
  }

  // ---------------------------------------------------------------------------
  // Properties

  /** A URL without a sheet id throws `Invalid Google Sheets URL`, whatever else holds, and touches nothing. */
  lemma InvalidUrlOnly(url: Option<Value>, sheetName: string, opts: LoadOptions, cache: map<string, Loaded>, w: World)
    ensures Load(url, sheetName, opts, cache, w).result == Err(InvalidUrl) <==> SheetUrl.ExtractSheetId(url).None?
    ensures SheetUrl.ExtractSheetId(url).None? ==> Load(url, sheetName, opts, cache, w).cache == cache
  {
  }

  /** A fresh stored copy is returned as it is, without fetching, and the store is unchanged. */
  lemma FreshCopyServed(url: Option<Value>, sheetName: string, opts: LoadOptions, cache: map<string, Loaded>, w: World)
    requires SheetUrl.ExtractSheetId(url).Some?
    requires opts.useCache != Some(false)
    requires Fresh(Lookup(cache, SheetUrl.ExtractSheetId(url).value), w.now, opts.cacheTimeout.GetOr(DefaultCacheTimeout))
    ensures Load(url, sheetName, opts, cache, w) == Outcome(Ok(cache[SheetUrl.ExtractSheetId(url).value]), cache)
  {
  }

  /** The freshness test is strict: a copy exactly `cacheTimeout` old is stale, one a millisecond younger is fresh. */
  lemma FreshIsStrict(l: Loaded, timeout: int)
    requires l.timestamp != 0
    ensures !Fresh(Some(l), l.timestamp + timeout, timeout)
    ensures Fresh(Some(l), l.timestamp + timeout - 1, timeout)
  {
  }

  /**
   * Without a usable stored copy, a successful fetch whose normalised rows
   * pass validation is stamped, returned and (when caching) stored under
   * the sheet id; warnings never stop it.
   */
  lemma FetchedAndStored(url: Option<Value>, sheetName: string, opts: LoadOptions, cache: map<string, Loaded>, w: World)
    requires SheetUrl.ExtractSheetId(url).Some? && w.fetched.Ok?
    requires var id := SheetUrl.ExtractSheetId(url).value;
      opts.useCache == Some(false) || !Fresh(Lookup(cache, id), w.now, opts.cacheTimeout.GetOr(DefaultCacheTimeout))
    requires var rows := Normalize.NormalizedRows(Some(w.fetched.value), w.suffix);
      opts.schema.None? || Validate.Validation(Some(rows), opts.schema, w.oracles).errors == []
    ensures var id := SheetUrl.ExtractSheetId(url).value;
      var rows := Normalize.NormalizedRows(Some(w.fetched.value), w.suffix);
      var result := Loaded(id, sheetName, rows, w.stamp);
      Load(url, sheetName, opts, cache, w)
        == Outcome(Ok(result), if opts.useCache == Some(false) then cache else cache[id := result])
  {
  }

  /** Any validation error aborts with all error texts joined, and nothing is stored. */
  lemma ValidationAborts(url: Option<Value>, sheetName: string, opts: LoadOptions, cache: map<string, Loaded>, w: World)
    requires SheetUrl.ExtractSheetId(url).Some? && w.fetched.Ok? && opts.schema.Some?
    requires var id := SheetUrl.ExtractSheetId(url).value;
      opts.useCache == Some(false) || !Fresh(Lookup(cache, id), w.now, opts.cacheTimeout.GetOr(DefaultCacheTimeout))
    requires var rows := Normalize.NormalizedRows(Some(w.fetched.value), w.suffix);
      Validate.Validation(Some(rows), opts.schema, w.oracles).errors != []
    ensures var rows := Normalize.NormalizedRows(Some(w.fetched.value), w.suffix);
      var errors := Validate.Validation(Some(rows), opts.schema, w.oracles).errors;
      Load(url, sheetName, opts, cache, w) == Outcome(Err(ValidationFailed(FailureText(errors))), cache)
  {
  }

  /** Loading keeps every stored result under its own sheet id, in either version of the cache test. */
  lemma LoadKeepsKeyedById(byName: bool, url: Option<Value>, sheetName: string, opts: LoadOptions, cache: map<string, Loaded>, w: World)
    requires KeyedById(cache)
    ensures KeyedById(LoadWith(byName, url, sheetName, opts, cache, w).cache)
  {
  }

  /**
   * As written, a fresh copy of one tab answers a request for another tab
   * of the same spreadsheet: the result names a sheet other than the one
   * asked for.
   */
  lemma OtherTabServed(url: Option<Value>, opts: LoadOptions, cache: map<string, Loaded>, w: World, asked: string)
    requires SheetUrl.ExtractSheetId(url).Some?
    requires opts.useCache != Some(false)
    requires var id := SheetUrl.ExtractSheetId(url).value;
      Fresh(Lookup(cache, id), w.now, opts.cacheTimeout.GetOr(DefaultCacheTimeout)) && cache[id].sheetName != asked
    ensures var r := Load(url, asked, opts, cache, w).result;
      r.Ok? && r.value.sheetName != asked
  {
  }

  /** With the sheet name compared, every result is for the sheet that was asked for. */
  lemma CorrectedServesAskedTab(url: Option<Value>, sheetName: string, opts: LoadOptions, cache: map<string, Loaded>, w: World)
    ensures var r := LoadCorrected(url, sheetName, opts, cache, w).result;
      r.Ok? ==> r.value.sheetName == sheetName
  {
  }
}
