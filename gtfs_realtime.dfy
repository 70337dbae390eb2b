/**
 * The parts of a GTFS Realtime FeedMessage that the core reads or builds:
 * the header, and entities carrying a trip update (with its stop time
 * updates) or a vehicle position. The protocol-buffer wire format is not
 * modelled; a decoded feed is one of these values.
 */
module GtfsRealtime {
  import opened Wrappers

  /** One stop of a trip update; `stop_id` is optional in the format. */
  datatype StopTimeUpdate = StopTimeUpdate(stopId: Option<string>, arrivalTime: Option<int>)

  datatype TripUpdate = TripUpdate(tripId: Option<string>, stopTimeUpdates: seq<StopTimeUpdate>)

  datatype VehiclePosition = VehiclePosition(vehicleId: Option<string>, stopId: Option<string>)

  datatype FeedEntity = FeedEntity(id: string, tripUpdate: Option<TripUpdate>, vehicle: Option<VehiclePosition>)

  /** `gtfs_realtime_version` and the POSIX `timestamp` in seconds. */
  datatype FeedHeader = FeedHeader(gtfsRealtimeVersion: string, timestamp: Option<int>)

  datatype FeedMessage = FeedMessage(header: FeedHeader, entities: seq<FeedEntity>)
}
