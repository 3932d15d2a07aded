/**
 * The server's one piece of mutable state, the module-level `sanctionsCache`, with the
 * cache file behind it, and the operations that replace, persist, restore and read it
 * (server.js: `saveCacheToFile`, `loadCacheFromFile`, `fetchOFACData`, the list and search
 * handlers and `startServer`).
 *
 * The network, the XML parser and the clock are parameters: a refresh receives the
 * outcome of the download-and-parse, the timestamp it would stamp, and whether the file
 * write succeeds.
 */
module Server {
  import opened Wrappers
  import opened Entries
  import Query

  /** The `{data, lastUpdated, count}` object; the code only ever replaces it whole. */
  datatype Snapshot = Snapshot(data: seq<Record>, lastUpdated: Option<string>, count: nat)

  /** The value the process starts with. */
  const EmptyCache := Snapshot([], None, 0)

  /** The count is the number of records. */
  predicate Consistent(s: Snapshot) {
    s.count == |s.data|
  }

  /** The cache file: missing, holding a saved snapshot, or unreadable as JSON. */
  datatype CacheFile = NoFile | Stored(snapshot: Snapshot) | Unreadable

  /** The body of `GET /api/sanctions/list`: a snapshot tagged cached or fresh, or a 500. */
  datatype ListResponse =
    | Served(snapshot: Snapshot, cached: bool, warning: Option<string>)
    | ServerError(status: nat, error: string, message: string)

  /** `req.query.force === 'true'`: only the exact string forces a refresh. */
  function ForceRequested(forceParam: Option<string>): (b: bool)
    ensures forceParam.None? ==> !b
    ensures forceParam == Some("true") ==> b
    ensures b ==> forceParam.Some? && forceParam.value == "true"
  {
    forceParam == Some("true")
  }

  const InternalServerError := 500
  const StaleWarning := "Failed to fetch fresh data - serving cached data"
  const FetchFailure := "Failed to fetch sanctions data"

  class SanctionsServer {
    /** `sanctionsCache`. */
    var cache: Snapshot
    /** The contents of the cache file. */
    var file: CacheFile

    /** The cache, and any snapshot on disk, has a count that matches its records. */
    ghost predicate Valid()
      reads this
    {
      Consistent(cache) && (file.Stored? ==> Consistent(file.snapshot))
    }

    /** Process start: an empty cache beside whatever file an earlier run left. */
    constructor (onDisk: CacheFile)
      ensures cache == EmptyCache && file == onDisk
      ensures (onDisk.Stored? ==> Consistent(onDisk.snapshot)) ==> Valid()
    {
      cache := EmptyCache;
      file := onDisk;
    }

    /** Writes the cache to the file; a failed write is swallowed and leaves the file as it was. */
    method SaveCacheToFile(writeSucceeds: bool)
      modifies this`file
      ensures cache == old(cache)
      ensures file == if writeSucceeds then Stored(cache) else old(file)
      ensures old(Valid()) ==> Valid()
    {
      if writeSucceeds {
        file := Stored(cache);
      }
    }

    /**
     * Replaces the cache with the file's snapshot and answers true, or answers false and
     * changes nothing when the file is missing or unreadable.
     */
    method LoadCacheFromFile() returns (loaded: bool)
      modifies this`cache
      ensures file == old(file)
      ensures loaded <==> file.Stored?
      ensures cache == if loaded then file.snapshot else old(cache)
      ensures old(Valid()) ==> Valid()
    {
      match file
      case Stored(snapshot) =>
        cache := snapshot;
        loaded := true;
      case _ =>
        loaded := false;
    }

    /**
     * `fetchOFACData`: on success the cache becomes exactly the decoded records, stamped
     * `now`, with their count, and a save is attempted; on failure the error is rethrown
     * before anything is assigned, so cache and file are untouched.
     */
    method FetchOfacData(fetched: Fetched, now: string, writeSucceeds: bool) returns (r: Result<seq<Record>, Error>)
      modifies this
      ensures r == Decode(fetched)
      ensures r.Ok? ==> cache == Snapshot(r.value, Some(now), |r.value|) && Consistent(cache)
      ensures r.Ok? ==> file == if writeSucceeds then Stored(cache) else old(file)
      ensures r.Err? ==> cache == old(cache) && file == old(file)
      ensures old(Valid()) ==> Valid()
    {
      r := Decode(fetched);
      if r.Ok? {
        cache := Snapshot(r.value, Some(now), |r.value|);
        SaveCacheToFile(writeSucceeds);
      }
    }

    /**
     * `GET /api/sanctions/list`: without `force` a non-empty cache is served as cached and
     * nothing is fetched; otherwise a refresh runs, and if it fails a non-empty cache is
     * served with a warning while an empty one gives a 500.
     */
    method List(forceParam: Option<string>, fetched: Fetched, now: string, writeSucceeds: bool) returns (resp: ListResponse)
      modifies this
      ensures var force := ForceRequested(forceParam);
        !force && old(cache).data != [] ==>
        resp == Served(old(cache), true, None) && cache == old(cache) && file == old(file)
      ensures var force := ForceRequested(forceParam);
        (force || old(cache).data == []) && Decode(fetched).Ok? ==>
        && cache == Snapshot(Decode(fetched).value, Some(now), |Decode(fetched).value|)
        && file == (if writeSucceeds then Stored(cache) else old(file))
        && resp == Served(cache, false, None)
      ensures var force := ForceRequested(forceParam);
        (force || old(cache).data == []) && Decode(fetched).Err? ==>
        && cache == old(cache) && file == old(file)
        && resp == if cache.data != [] then Served(cache, true, Some(StaleWarning))
                   else ServerError(InternalServerError, FetchFailure, Message(Decode(fetched).error))
      ensures old(Valid()) ==> Valid()
    {
      if !ForceRequested(forceParam) && cache.data != [] {
        return Served(cache, true, None);
      }
      var r := FetchOfacData(fetched, now, writeSucceeds);
      match r
      case Ok(data) =>
        resp := Served(Snapshot(data, cache.lastUpdated, cache.count), false, None);
      case Err(e) =>
        if cache.data != [] {
          resp := Served(cache, true, Some(StaleWarning));
        } else {
          resp := ServerError(InternalServerError, FetchFailure, Message(e));
        }
    }

    /** `POST /api/sanctions/search`: answered from the current cache, which it does not change. */
    method Search(query: Query.QueryValue, limit: Option<int>) returns (resp: Query.SearchResponse)
      ensures resp == Query.Search(cache.data, cache.count, query, limit)
      ensures resp.Found? ==> resp.total == cache.count && Query.IsSubsequence(resp.data, cache.data)
      ensures Valid() && resp.Found? ==> resp.total == |cache.data|
    {
      resp := Query.Search(cache.data, cache.count, query, limit);
    }

    /**
     * `startServer`: load the file if there is one, then refresh once; a failed refresh
     * is logged and the server starts with whatever it has, possibly nothing.
     */
    method StartServer(fetched: Fetched, now: string, writeSucceeds: bool)
      modifies this
      ensures Decode(fetched).Ok? ==>
        && cache == Snapshot(Decode(fetched).value, Some(now), |Decode(fetched).value|)
        && file == (if writeSucceeds then Stored(cache) else old(file))
      ensures Decode(fetched).Err? ==>
        && cache == (if old(file).Stored? then old(file).snapshot else old(cache))
        && file == old(file)
      ensures old(Valid()) ==> Valid()
    {
      var loaded := LoadCacheFromFile();
      var r := FetchOfacData(fetched, now, writeSucceeds);
    }
  }

  /**
   * A snapshot that was saved is restored exactly by the next load: same records in the
   * same order, same timestamp, same count.
   */
  method SaveThenLoad(server: SanctionsServer) returns (loaded: bool)
    modifies server
    ensures loaded && server.cache == old(server.cache)
  {
    server.SaveCacheToFile(true);
    loaded := server.LoadCacheFromFile();
  }

  /**
   * A restart after a successful refresh and save, with the network down, serves the
   * records of that refresh, marked as cached and stale.
   */
  method RestartWhileOffline(fetched: Fetched, now: string, down: Error) returns (resp: ListResponse)
    requires Decode(fetched).Ok? && Decode(fetched).value != []
    ensures resp == Served(Snapshot(Decode(fetched).value, Some(now), |Decode(fetched).value|), true, Some(StaleWarning))
  {
    var first := new SanctionsServer(NoFile);
    var r := first.FetchOfacData(fetched, now, true);
    var second := new SanctionsServer(first.file);
    second.StartServer(FetchFailed(down), "later", true);
    resp := second.List(Some("true"), FetchFailed(down), "later", true);
  }
}
