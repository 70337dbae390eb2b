/**
 * The real-time feed of a tram network: the trip-update feed and the
 * vehicle-position feed are requested, checked, decoded and merged into
 * one feed with a fresh header, which is cached for 30 seconds under
 * "gtfs:rt:" followed by the network name. The stop ids the trip updates
 * mention are checked against the static catalogue.
 */
module FeedMerge {
  import opened Wrappers
  import opened Text
  import opened GtfsRealtime
  import opened Fetcher
  import opened Cache
  import opened StopDto
  import opened StopLookup
  import Catalog

  const FeedTtlSeconds: int32 := 30
  const FeedVersion: string := "2"

  /** The cache key of a network's merged feed. */
  function FeedKey(network: string): string
  {
    "gtfs:rt:" + network
  }

  /** The upstream network id: "1" for TRAMBESOS in any case, "2" for every other name. */
  function NetworkIdFor(network: string): string
  {
    if EqualsIgnoreCase(network, "TRAMBESOS") then "1" else "2"
  }

  /** The network id depends only on the upper case of the name, and only TRAMBESOS selects network "1". */
  lemma NetworkIdIgnoresCase(a: string, b: string)
    ensures ToUpper(a) == ToUpper(b) ==> NetworkIdFor(a) == NetworkIdFor(b)
    ensures NetworkIdFor(a) == "1" <==> ToUpper(a) == "TRAMBESOS"
    ensures NetworkIdFor(a) in {"1", "2"}
  {
    EqualsIgnoreCaseIffSameUpper(a, "TRAMBESOS");
    EqualsIgnoreCaseIffSameUpper(b, "TRAMBESOS");
    assert ToUpper("TRAMBESOS") == "TRAMBESOS";
  }

  function TripUrl(networkId: string): string
  {
    Catalog.BaseUrl + "/gtfsrealtime?networkId=" + networkId
  }

  function VehicleUrl(networkId: string): string
  {
    Catalog.BaseUrl + "/gtfsrealtime/vehicleUpdate?networkId=" + networkId
  }

  /** The merged feed: version "2", the current epoch second, trip entities then vehicle entities. */
  function Merged(trip: FeedMessage, vehicle: FeedMessage, now: Millis): FeedMessage
  {
    FeedMessage(FeedHeader(FeedVersion, Some(now / 1000)), trip.entities + vehicle.entities)
  }

  /** A body's feed, or the decoder's failure. */
  function Decoded(body: Body): Result<FeedMessage, Failure>
  {
    if body.feed.Some? then Ok(body.feed.value) else Fail(MalformedFeed)
  }

  /**
   * The miss path of `getGtfsrtData`: both requests are executed, trip
   * first; then both responses are checked, trip first; then both bodies
   * are decoded, trip first. The first failure in that order is the outcome.
   */
  function MergeFeeds(up: Upstream, network: string, now: Millis): Result<FeedMessage, Failure>
  {
    var id := NetworkIdFor(network);
    var trip := Execute(up, TripUrl(id)).outcome;
    if trip.Fail? then Fail(trip.error)
    else
      var vehicle := Execute(up, VehicleUrl(id)).outcome;
      if vehicle.Fail? then Fail(vehicle.error)
      else
        var tripBody := Accepted(trip);
        var vehicleBody := Accepted(vehicle);
        if tripBody.Fail? then Fail(tripBody.error)
        else if vehicleBody.Fail? then Fail(vehicleBody.error)
        else
          var tripFeed := Decoded(tripBody.value);
          var vehicleFeed := Decoded(vehicleBody.value);
          if tripFeed.Fail? then Fail(tripFeed.error)
          else if vehicleFeed.Fail? then Fail(vehicleFeed.error)
          else Ok(Merged(tripFeed.value, vehicleFeed.value, now))
  }

  /** A feed as one request gives it: executed, checked and decoded. */
  function FeedAt(up: Upstream, url: string): Result<FeedMessage, Failure>
  {
    var body := Accepted(Execute(up, url).outcome);
    if body.Fail? then Fail(body.error) else Decoded(body.value)
  }

  /**
   * The merge succeeds exactly when both feeds can be had, and then holds
   * the trip feed's entities followed by the vehicle feed's, a + b of them,
   * under a header of version "2" stamped with the current epoch second.
   */
  lemma MergeCharacterised(up: Upstream, network: string, now: Millis)
    ensures var id := NetworkIdFor(network);
      var trip := FeedAt(up, TripUrl(id));
      var vehicle := FeedAt(up, VehicleUrl(id));
      var r := MergeFeeds(up, network, now);
      (r.Ok? <==> trip.Ok? && vehicle.Ok?) &&
      (r.Ok? ==>
        |r.value.entities| == |trip.value.entities| + |vehicle.value.entities| &&
        r.value.entities[..|trip.value.entities|] == trip.value.entities &&
        r.value.entities[|trip.value.entities|..] == vehicle.value.entities &&
        r.value.header == FeedHeader("2", Some(now / 1000)))
  {
  }

  /** A trip request that gets nowhere is the outcome, whatever the vehicle feed would have been. */
  lemma TripTransportFailureComesFirst(up: Upstream, network: string, now: Millis)
    requires Execute(up, TripUrl(NetworkIdFor(network))).outcome.Fail?
    ensures MergeFeeds(up, network, now) == Fail(Execute(up, TripUrl(NetworkIdFor(network))).outcome.error)
  {
  }

  /**
   * Both responses are checked before either body is decoded: an
   * undecodable trip feed loses to an unsuccessful vehicle response.
   */
  lemma ChecksBeforeDecoding(up: Upstream, network: string, now: Millis, tripBody: Body, code: int)
    requires var id := NetworkIdFor(network);
      Execute(up, TripUrl(id)).outcome == Ok(Response(200, Some(tripBody))) && tripBody.feed.None? &&
      Execute(up, VehicleUrl(id)).outcome == Ok(Response(code, None))
    ensures MergeFeeds(up, network, now) == Fail(Unsuccessful(code))
  {
  }

  /** `getGtfsrtData(network)` on the feed cache: a live cached feed, or the merge, cached for 30 s when it succeeds. */
  function FeedStep(feeds: map<string, GtfsEntry>, up: Upstream, network: string, now: Millis)
    : (Result<FeedMessage, Failure>, map<string, GtfsEntry>)
  {
    var key := FeedKey(network);
    var (hit, feeds') := LookupFeed(feeds, key, now);
    if hit.Some? then (Ok(hit.value), feeds')
    else match MergeFeeds(up, network, now)
      case Fail(f) => (Fail(f), feeds')
      case Ok(feed) => (Ok(feed), feeds'[key := NewGtfsEntry(feed, FeedTtlSeconds, now)])
  }

  /**
   * On a miss, a merged feed is then served from the cache, whatever the
   * upstream does, until 30 epoch seconds have passed; a failed merge
   * caches nothing.
   */
  lemma MergedFeedServedForThirtySeconds(feeds: map<string, GtfsEntry>, up: Upstream, up': Upstream, network: string, now: Millis, later: Millis)
    requires LookupFeed(feeds, FeedKey(network), now).0.None?
    requires now <= later && later / 1000 < now / 1000 + 30
    ensures var (r, feeds') := FeedStep(feeds, up, network, now);
      (r.Ok? ==> FeedStep(feeds', up', network, later) == (r, feeds')) &&
      (r.Fail? ==> feeds' == LookupFeed(feeds, FeedKey(network), now).1)
  {
    var key := FeedKey(network);
    var (hit, f1) := LookupFeed(feeds, key, now);
    if hit.None? && MergeFeeds(up, network, now).Ok? {
      FeedReadBackUntilExpiry(f1, key, MergeFeeds(up, network, now).value, FeedTtlSeconds, now, later);
    }
  }

  // ---------------------------------------------------------------------------
  // findMissingStaticStopsInGtfsRt

  /** Whether some trip update of the feed has a stop time update with stop id `x`; vehicle positions do not count. */
  predicate MentionedByTrip(feed: FeedMessage, x: string)
  {
    exists e, u :: 0 <= e < |feed.entities| && feed.entities[e].tripUpdate.Some? &&
      0 <= u < |feed.entities[e].tripUpdate.value.stopTimeUpdates| &&
      feed.entities[e].tripUpdate.value.stopTimeUpdates[u].stopId == Some(x)
  }

  /** The stop ids of the trip updates of one entity. */
  function EntityStopIds(entity: FeedEntity): set<string>
  {
    if entity.tripUpdate.None? then {}
    else
      var updates := entity.tripUpdate.value.stopTimeUpdates;
      set u | 0 <= u < |updates| && updates[u].stopId.Some? :: updates[u].stopId.value
  }

  /** The stop ids the trip updates of a feed mention. */
  function RealtimeStopIds(entities: seq<FeedEntity>): set<string>
    decreases |entities|
  {
    if entities == [] then {} else EntityStopIds(entities[0]) + RealtimeStopIds(entities[1..])
  }

  /** The collected ids are exactly the stop ids that trip updates mention. */
  lemma {:induction false} RealtimeStopIdsCharacterised(entities: seq<FeedEntity>, x: string)
    ensures x in RealtimeStopIds(entities) <==> MentionedByTrip(FeedMessage(FeedHeader("", None), entities), x)
    decreases |entities|
  {
    var feed := FeedMessage(FeedHeader("", None), entities);
    if entities != [] {
      var tail := FeedMessage(FeedHeader("", None), entities[1..]);
      RealtimeStopIdsCharacterised(entities[1..], x);
      if x in EntityStopIds(entities[0]) {
        var updates := entities[0].tripUpdate.value.stopTimeUpdates;
        var u :| 0 <= u < |updates| && updates[u].stopId == Some(x);
        assert MentionedByTrip(feed, x);
      } else if x in RealtimeStopIds(entities[1..]) {
        var e, u :| 0 <= e < |tail.entities| && tail.entities[e].tripUpdate.Some? &&
          0 <= u < |tail.entities[e].tripUpdate.value.stopTimeUpdates| &&
          tail.entities[e].tripUpdate.value.stopTimeUpdates[u].stopId == Some(x);
        assert entities[e + 1] == tail.entities[e];
        assert MentionedByTrip(feed, x);
      }
      if MentionedByTrip(feed, x) {
        var e, u :| 0 <= e < |entities| && entities[e].tripUpdate.Some? &&
          0 <= u < |entities[e].tripUpdate.value.stopTimeUpdates| &&
          entities[e].tripUpdate.value.stopTimeUpdates[u].stopId == Some(x);
        if e == 0 {
          assert x in EntityStopIds(entities[0]);
        } else {
          assert tail.entities[e - 1] == entities[e];
          assert MentionedByTrip(tail, x);
        }
      }
    }
  }

  /** `rtIds.removeAll(staticIds)`: the trip-update stop ids that are not static identifiers. */
  function Missing(staticIds: set<string>, feed: FeedMessage): set<string>
  {
    RealtimeStopIds(feed.entities) - staticIds
  }

  /**
   * The missing ids are exactly the stop ids trip updates mention that are
   * neither a non-empty gtfs code nor the decimal text of a non-zero id of
   * a catalogue stop.
   */
  lemma MissingCharacterised(all: seq<StopRef>, feed: FeedMessage, x: string)
    requires StopIds(all).Ok?
    ensures x in Missing(StopIds(all).value, feed) <==>
      MentionedByTrip(feed, x) &&
      !exists i :: 0 <= i < |all| && all[i].Some? && all[i].value.id.Some? && IdentifiedBy(all[i].value, x)
  {
    RealtimeStopIdsCharacterised(feed.entities, x);
    StopIdsCharacterised(all);
    assert FeedMessage(FeedHeader("", None), feed.entities).entities == feed.entities;
  }
}
