/**
 * The tram operator's client: lines, stop catalogues (per line and for the
 * whole system), stop resolution, the merged real-time feed, and the
 * checks built on them, each reading the cache first and filling it after
 * a successful fetch. A failed fetch writes nothing to the cache.
 *
 * The specification functions take the cache's string part as an `ApiMap`
 * and its feed part as a map; the class's methods are proved to act as
 * they do on the shared `CacheService`.
 */
module TramClient {
  import opened Wrappers
  import opened Text
  import opened JsonModel
  import opened GtfsRealtime
  import opened Fetcher
  import opened Cache
  import opened StopDto
  import opened Catalog
  import opened StopLookup
  import opened FeedMerge

  const LinesKey: string := "lines:all"
  const LinesUrl: string := BaseUrl + "/lines?page=0&pageSize=100"
  const SampleLimit: int := 10

  /** The stops of a fetched catalogue as the list the client returns. */
  function AsRefs(stops: seq<Stop>): (refs: seq<StopRef>)
    ensures |refs| == |stops| && forall i :: 0 <= i < |stops| ==> refs[i] == Some(stops[i])
  {
    seq(|stops|, i requires 0 <= i < |stops| => Some(stops[i]))
  }

  /** `getLines()`: the cached text, or the body of the lines request, which is then cached for the default time. */
  function LinesStep(m: ApiMap, up: Upstream, now: Millis): (Result<string, Failure>, ApiMap)
  {
    var (cached, m1) := Lookup(m, LinesKey, now);
    if cached.Some? then (Ok(cached.value), m1)
    else match Accepted(Execute(up, LinesUrl).outcome)
      case Fail(f) => (Fail(f), m1)
      case Ok(body) => (Ok(body.text), Store(m1, LinesKey, Some(body.text), DefaultTtlSeconds, now))
  }

  /** Fetched lines are then served from the cache, whatever the upstream does, for a year. */
  lemma FetchedLinesServedFromCache(m: ApiMap, up: Upstream, up': Upstream, now: Millis, later: Millis)
    requires Bounded(m)
    requires now <= later < now + DefaultTtlSeconds * 1000
    requires Lookup(m, LinesKey, now).0.None?
    requires LinesStep(m, up, now).0.Ok?
    ensures var (r, m') := LinesStep(m, up, now);
      LinesStep(m', up', later) == (r, m')
  {
    var m1 := Lookup(m, LinesKey, now).1;
    LookupSemantics(m, LinesKey, now);
    var body := Accepted(Execute(up, LinesUrl).outcome).value;
    GetAfterPut(m1, LinesKey, body.text, DefaultTtlSeconds, now, later);
  }

  /**
   * `getStops(lineId)` / `getAllStops()`: on a hit the cached text is
   * decoded; on a miss both networks are paged, the elements decoded and
   * de-duplicated, and the list is cached for the default time.
   */
  function CatalogStep(m: ApiMap, up: Upstream, parse: Parser, listing: Listing, bounds: seq<nat>, now: Millis)
    : (Result<seq<StopRef>, Failure>, ApiMap)
    requires Lookup(m, CatalogKey(listing), now).0.None? ==> AllEnd(up, parse, listing, bounds)
  {
    var key := CatalogKey(listing);
    var (cached, m1) := Lookup(m, key, now);
    if cached.Some? then (DecodeCatalog(cached.value, parse), m1)
    else match Combined(up, parse, listing, bounds)
      case Fail(f) => (Fail(f), m1)
      case Ok(elements) =>
        match Dedup(DecodeAll(elements, parse))
        case Fail(f) => (Fail(f), m1)
        case Ok(stops) => (Ok(AsRefs(stops)), Store(m1, key, Some(CatalogText(stops)), DefaultTtlSeconds, now))
  }

  /** A failed catalogue request leaves the cache as the read left it: no partial catalogue is written. */
  lemma CatalogAllOrNothing(m: ApiMap, up: Upstream, parse: Parser, listing: Listing, bounds: seq<nat>, now: Millis)
    requires Bounded(m) && AllEnd(up, parse, listing, bounds)
    ensures var (r, m') := CatalogStep(m, up, parse, listing, bounds, now);
      r.Fail? ==>
        (m' == Lookup(m, CatalogKey(listing), now).1 &&
         (Lookup(m, CatalogKey(listing), now).0.None? ==> CatalogKey(listing) !in m'.entries))
  {
    LookupSemantics(m, CatalogKey(listing), now);
  }

  /**
   * A fetched catalogue is then served from the cache, without any request,
   * for a year, given a parser that reads the cached text back as the
   * tree it was written from.
   */
  lemma FetchedCatalogServedFromCache(m: ApiMap, up: Upstream, up': Upstream, parse: Parser, listing: Listing,
                                      bounds: seq<nat>, bounds': seq<nat>, now: Millis, later: Millis)
    requires Bounded(m) && AllEnd(up, parse, listing, bounds) && AllEnd(up', parse, listing, bounds')
    requires now <= later < now + DefaultTtlSeconds * 1000
    requires Lookup(m, CatalogKey(listing), now).0.None?
    requires CatalogStep(m, up, parse, listing, bounds, now).0.Ok?
    requires var stops := Dedup(DecodeAll(Combined(up, parse, listing, bounds).value, parse)).value;
      parse(CatalogText(stops)) == Some(CatalogTree(stops))
    ensures var (r, m') := CatalogStep(m, up, parse, listing, bounds, now);
      CatalogStep(m', up', parse, listing, bounds', later) == (r, m')
  {
    var key := CatalogKey(listing);
    var m1 := Lookup(m, key, now).1;
    LookupSemantics(m, key, now);
    var stops := Dedup(DecodeAll(Combined(up, parse, listing, bounds).value, parse)).value;
    GetAfterPut(m1, key, CatalogText(stops), DefaultTtlSeconds, now, later);
    CatalogRoundTrip(stops, parse);
    assert AsRefs(stops) == seq(|stops|, i requires 0 <= i < |stops| => Some(stops[i]));
  }

  /**
   * `getStop(stopId)`: null or blank gives null without reading anything;
   * otherwise the query is resolved against the full catalogue, and a miss
   * reads the catalogue once more for the log's sample of codes.
   */
  function StopStep(m: ApiMap, up: Upstream, parse: Parser, bounds: seq<nat>, stopId: Option<string>, now: Millis)
    : (Result<Option<Stop>, Failure>, ApiMap)
    requires AllEnd(up, parse, AllStops, bounds)
  {
    if stopId.None? || Trim(stopId.value) == "" then (Ok(None), m)
    else
      var (all, m1) := CatalogStep(m, up, parse, AllStops, bounds, now);
      if all.Fail? then (Fail(all.error), m1)
      else AfterResolve(Resolve(all.value, stopId), m1, up, parse, bounds, now)
  }

  /** What `getStop` does with the resolver's answer: a stop or a failure is returned, a miss reads the catalogue again. */
  function AfterResolve(resolved: Result<Option<Stop>, Failure>, m: ApiMap, up: Upstream, parse: Parser, bounds: seq<nat>, now: Millis)
    : (Result<Option<Stop>, Failure>, ApiMap)
    requires AllEnd(up, parse, AllStops, bounds)
  {
    if resolved != Ok(None) then (resolved, m)
    else
      var (again, m') := CatalogStep(m, up, parse, AllStops, bounds, now);
      if again.Fail? then (Fail(again.error), m') else (Ok(None), m')
  }

  /**
   * What `getStop` promises: null or blank input gives null and leaves the
   * cache alone; a stop it gives is in the catalogue and matches some stage
   * of the query; null for a query means no catalogue stop matches any stage.
   */
  lemma StopStepResolves(m: ApiMap, up: Upstream, parse: Parser, bounds: seq<nat>, stopId: Option<string>, now: Millis)
    requires AllEnd(up, parse, AllStops, bounds)
    ensures stopId.None? || IsBlank(stopId.value) ==> StopStep(m, up, parse, bounds, stopId, now) == (Ok(None), m)
    ensures var (r, _) := StopStep(m, up, parse, bounds, stopId, now);
      var all := CatalogStep(m, up, parse, AllStops, bounds, now).0;
      r.Ok? && r.value.Some? ==>
        all.Ok? && r.value in all.value && MatchesSomeStage(r.value.value, stopId.value)
    ensures var (r, _) := StopStep(m, up, parse, bounds, stopId, now);
      var all := CatalogStep(m, up, parse, AllStops, bounds, now).0;
      r == Ok(None) && stopId.Some? && !IsBlank(stopId.value) ==>
        all.Ok? && forall g, j :: g in Stages(stopId.value) && 0 <= j < |all.value| ==> Passes(all.value, TestOf(g), j)
  {
    if stopId.Some? && !IsBlank(stopId.value) {
      assert Trim(stopId.value) != "";
      var (all, m1) := CatalogStep(m, up, parse, AllStops, bounds, now);
      if all.Ok? {
        var resolved := Resolve(all.value, stopId);
        assert StopStep(m, up, parse, bounds, stopId, now) == AfterResolve(resolved, m1, up, parse, bounds, now);
        AfterResolveKeepsAnswer(resolved, m1, up, parse, bounds, now);
        ResolveIsSound(all.value, stopId.value);
        ResolveNoneMeansNoMatch(all.value, stopId.value);
      }
    }
  }

  /** A stop that `getStop` returns is the resolver's, and so is a null. */
  lemma AfterResolveKeepsAnswer(resolved: Result<Option<Stop>, Failure>, m: ApiMap, up: Upstream, parse: Parser, bounds: seq<nat>, now: Millis)
    requires AllEnd(up, parse, AllStops, bounds)
    ensures var r := AfterResolve(resolved, m, up, parse, bounds, now).0;
      (r.Ok? && r.value.Some? ==> r == resolved) && (r == Ok(None) ==> resolved == Ok(None))
  {
  }

  class TramApiClient {
    const cache: CacheService
    const up: Upstream
    const parse: Parser

    constructor(cache: CacheService, up: Upstream, parse: Parser)
      ensures this.cache == cache && this.up == up && this.parse == parse
    {
      this.cache := cache;
      this.up := up;
      this.parse := parse;
    }

    /** `getLines()`. */
    method GetLines(now: Millis) returns (r: Result<string, Failure>)
      requires cache.Valid()
      modifies cache
      ensures cache.Valid()
      ensures (r, cache.Api()) == LinesStep(old(cache.Api()), up, now)
      ensures cache.gtfsEntries == old(cache.gtfsEntries)
    {
      var cached := cache.Get(LinesKey, now);
      if cached.Some? {
        return Ok(cached.value);
      }
      var x := ExecuteRequest(up, LinesUrl);
      var body := Accepted(x.outcome);
      if body.Fail? {
        return Fail(body.error);
      }
      cache.Put(LinesKey, Some(body.value.text), DefaultTtlSeconds, now);
      return Ok(body.value.text);
    }

    /** The cache-hit path: the cached text parsed as an array, each element decoded. */
    method DecodeCached(text: string) returns (r: Result<seq<StopRef>, Failure>)
      ensures r == DecodeCatalog(text, parse)
    {
      var root := parse(text);
      if root.None? || !root.value.JArr? {
        return Fail(MalformedJson);
      }
      var items := root.value.items;
      var stops: seq<StopRef> := [];
      for i := 0 to |items|
        invariant |stops| == i && forall j :: 0 <= j < i ==> stops[j] == FromJson(items[j], parse)
      {
        stops := stops + [FromJson(items[i], parse)];
      }
      assert stops == DecodeAll(items, parse);
      return Ok(stops);
    }

    /** The body shared by `getStops(lineId)` and `getAllStops()`. */
    method GetCatalog(listing: Listing, ghost bounds: seq<nat>, now: Millis) returns (r: Result<seq<StopRef>, Failure>)
      requires cache.Valid()
      requires Lookup(cache.Api(), CatalogKey(listing), now).0.None? ==> AllEnd(up, parse, listing, bounds)
      modifies cache
      ensures cache.Valid()
      ensures (r, cache.Api()) == CatalogStep(old(cache.Api()), up, parse, listing, bounds, now)
      ensures cache.gtfsEntries == old(cache.gtfsEntries)
    {
      var key := CatalogKey(listing);
      var cached := cache.Get(key, now);
      if cached.Some? {
        r := DecodeCached(cached.value);
        return;
      }
      var combined := FetchCombined(up, parse, listing, bounds);
      if combined.Fail? {
        return Fail(combined.error);
      }
      var stops := Deduplicate(combined.value, parse);
      if stops.Fail? {
        return Fail(stops.error);
      }
      cache.PutDefault(key, Some(CatalogText(stops.value)), now);
      return Ok(AsRefs(stops.value));
    }

    /** `getStops(lineId)`. */
    method GetStops(lineId: string, ghost bounds: seq<nat>, now: Millis) returns (r: Result<seq<StopRef>, Failure>)
      requires cache.Valid()
      requires Lookup(cache.Api(), CatalogKey(LineStops(lineId)), now).0.None? ==> AllEnd(up, parse, LineStops(lineId), bounds)
      modifies cache
      ensures cache.Valid()
      ensures (r, cache.Api()) == CatalogStep(old(cache.Api()), up, parse, LineStops(lineId), bounds, now)
      ensures cache.gtfsEntries == old(cache.gtfsEntries)
    {
      r := GetCatalog(LineStops(lineId), bounds, now);
    }

    /** `getAllStops()`. */
    method GetAllStops(ghost bounds: seq<nat>, now: Millis) returns (r: Result<seq<StopRef>, Failure>)
      requires cache.Valid()
      requires Lookup(cache.Api(), CatalogKey(AllStops), now).0.None? ==> AllEnd(up, parse, AllStops, bounds)
      modifies cache
      ensures cache.Valid()
      ensures (r, cache.Api()) == CatalogStep(old(cache.Api()), up, parse, AllStops, bounds, now)
      ensures cache.gtfsEntries == old(cache.gtfsEntries)
    {
      r := GetCatalog(AllStops, bounds, now);
    }

    /** `listAllGtfsCodes()`. */
    method ListAllGtfsCodes(ghost bounds: seq<nat>, now: Millis) returns (r: Result<set<string>, Failure>)
      requires cache.Valid()
      requires Lookup(cache.Api(), CatalogKey(AllStops), now).0.None? ==> AllEnd(up, parse, AllStops, bounds)
      modifies cache
      ensures cache.Valid()
      ensures var (all, m') := CatalogStep(old(cache.Api()), up, parse, AllStops, bounds, now);
        cache.Api() == m' && r == (if all.Fail? then Fail(all.error) else Ok(GtfsCodes(all.value)))
      ensures cache.gtfsEntries == old(cache.gtfsEntries)
    {
      var all := GetAllStops(bounds, now);
      if all.Fail? {
        return Fail(all.error);
      }
      return Ok(GtfsCodes(all.value));
    }

    /** `getStop(stopId)`; the sample of codes it logs on a miss is computed and dropped. */
    method GetStop(stopId: Option<string>, ghost bounds: seq<nat>, now: Millis) returns (r: Result<Option<Stop>, Failure>)
      requires cache.Valid() && AllEnd(up, parse, AllStops, bounds)
      modifies cache
      ensures cache.Valid()
      ensures (r, cache.Api()) == StopStep(old(cache.Api()), up, parse, bounds, stopId, now)
      ensures cache.gtfsEntries == old(cache.gtfsEntries)
    {
      if stopId.None? {
        return Ok(None);
      }
      var query := Trim(stopId.value);
      if query == "" {
        return Ok(None);
      }
      var all := GetAllStops(bounds, now);
      if all.Fail? {
        return Fail(all.error);
      }
      r := Resolve(all.value, stopId);
      ghost var m1 := cache.Api();
      assert StopStep(old(cache.Api()), up, parse, bounds, stopId, now) == AfterResolve(r, m1, up, parse, bounds, now);
      if r != Ok(None) {
        return;
      }
      var codes := ListAllGtfsCodes(bounds, now);
      if codes.Fail? {
        return Fail(codes.error);
      }
      var sample, _ := SampleCodes(codes.value, SampleLimit);
      return Ok(None);
    }

    /** `getGtfsrtData(network)`. */
    method GetGtfsrtData(network: string, now: Millis) returns (r: Result<FeedMessage, Failure>)
      modifies cache
      ensures (r, cache.gtfsEntries) == FeedStep(old(cache.gtfsEntries), up, network, now)
      ensures cache.Api() == old(cache.Api())
    {
      var key := FeedKey(network);
      var cached := cache.GetGtfsRt(key, now);
      if cached.Some? {
        return Ok(cached.value);
      }
      var id := NetworkIdFor(network);
      var trip := ExecuteRequest(up, TripUrl(id));
      if trip.outcome.Fail? {
        return Fail(trip.outcome.error);
      }
      var vehicle := ExecuteRequest(up, VehicleUrl(id));
      if vehicle.outcome.Fail? {
        return Fail(vehicle.outcome.error);
      }
      var tripBody := Accepted(trip.outcome);
      if tripBody.Fail? {
        return Fail(tripBody.error);
      }
      var vehicleBody := Accepted(vehicle.outcome);
      if vehicleBody.Fail? {
        return Fail(vehicleBody.error);
      }
      var tripFeed := Decoded(tripBody.value);
      if tripFeed.Fail? {
        return Fail(tripFeed.error);
      }
      var vehicleFeed := Decoded(vehicleBody.value);
      if vehicleFeed.Fail? {
        return Fail(vehicleFeed.error);
      }
      var feed := Merged(tripFeed.value, vehicleFeed.value, now);
      cache.PutGtfsRt(key, feed, FeedTtlSeconds, now);
      return Ok(feed);
    }

    /** `getAllStopIds()`. */
    method GetAllStopIds(ghost bounds: seq<nat>, now: Millis) returns (r: Result<set<string>, Failure>)
      requires cache.Valid()
      requires Lookup(cache.Api(), CatalogKey(AllStops), now).0.None? ==> AllEnd(up, parse, AllStops, bounds)
      modifies cache
      ensures cache.Valid()
      ensures var (all, m') := CatalogStep(old(cache.Api()), up, parse, AllStops, bounds, now);
        cache.Api() == m' && r == (if all.Fail? then Fail(all.error) else StopIds(all.value))
      ensures cache.gtfsEntries == old(cache.gtfsEntries)
    {
      var all := GetAllStops(bounds, now);
      if all.Fail? {
        return Fail(all.error);
      }
      return StopIds(all.value);
    }

    /** `findMissingStaticStopsInGtfsRt(network)`: the static ids first, then the feed. */
    method FindMissingStaticStopsInGtfsRt(network: string, ghost bounds: seq<nat>, now: Millis)
      returns (r: Result<set<string>, Failure>)
      requires cache.Valid()
      requires Lookup(cache.Api(), CatalogKey(AllStops), now).0.None? ==> AllEnd(up, parse, AllStops, bounds)
      modifies cache
      ensures cache.Valid()
      ensures var (all, m') := CatalogStep(old(cache.Api()), up, parse, AllStops, bounds, now);
        var ids := if all.Fail? then Fail(all.error) else StopIds(all.value);
        var (feed, feeds') := FeedStep(old(cache.gtfsEntries), up, network, now);
        cache.Api() == m' &&
        (ids.Fail? ==> r == Fail(ids.error) && cache.gtfsEntries == old(cache.gtfsEntries)) &&
        (ids.Ok? ==>
          (cache.gtfsEntries == feeds' &&
           r == if feed.Fail? then Fail(feed.error) else Ok(Missing(ids.value, feed.value))))
    {
      var ids := GetAllStopIds(bounds, now);
      if ids.Fail? {
        return Fail(ids.error);
      }
      var feed := GetGtfsrtData(network, now);
      if feed.Fail? {
        return Fail(feed.error);
      }
      return Ok(Missing(ids.value, feed.value));
    }

    /** `clearAllApiCache()`: the string cache is emptied, cached feeds stay. */
    method ClearAllApiCache()
      modifies cache
      ensures cache.Valid() && cache.Api() == EmptyApi
      ensures cache.gtfsEntries == old(cache.gtfsEntries)
    {
      cache.Clear();
    }

    /** `getStopsCache()`: the cached text of the full catalogue, if live. */
    method GetStopsCache(now: Millis) returns (r: Option<string>)
      requires cache.Valid()
      modifies cache
      ensures cache.Valid()
      ensures (r, cache.Api()) == Lookup(old(cache.Api()), CatalogKey(AllStops), now)
      ensures cache.gtfsEntries == old(cache.gtfsEntries)
    {
      r := cache.Get(CatalogKey(AllStops), now);
    }
  }
}
