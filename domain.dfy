/** The records shared by the catalogue, the router and the readers
    (transport-catalogue/domain.h). */
module Domain {
  import Strings

  /** A stop record's position in the catalogue's stop storage. It stands for the
      `Stop*` the source hands around: two ids are equal exactly when the pointers
      are. It is also the stop's vertex in the routing graph. */
  type StopId = nat

  /** A bus record's position in the catalogue's bus storage (`Bus*`). */
  type BusId = nat

  /** Latitude and longitude in degrees. */
  datatype Coordinates = Coordinates(lat: real, lng: real)

  datatype Stop = Stop(name: string, coords: Coordinates)

  /** A bus: its name, the stop records it visits in order and whether it is a
      round trip. A non-round bus is stored already expanded to there-and-back. */
  datatype Bus = Bus(name: string, stops: seq<StopId>, isRound: bool)

  /** A queued stop: its name, position and the road distances to its
      neighbours, in key order of the source's `std::map`. */
  datatype StopRequest = StopRequest(name: string, lat: real, lng: real, dists: seq<(string, int)>)

  datatype BusRequest = BusRequest(name: string, stops: seq<string>, isRound: bool)

  /** A "Stop", "Bus" or "Map" query; `name` is empty when the query has none. */
  datatype StatRequest = StatRequest(id: Strings.Int32, kind: string, name: string)

  datatype RouteRequest = RouteRequest(id: Strings.Int32, kind: string, from: string, to: string)

  /** One element of the queue of output requests (`std::variant`). */
  datatype OutputRequest = Stat(stat: StatRequest) | Route(route: RouteRequest)

  datatype RequestQueue = RequestQueue(
    stopsRequests: seq<StopRequest>,
    busesRequests: seq<BusRequest>,
    statsRequests: seq<OutputRequest>)
}
