/**
 * The directions service as the route screen sees it: a call from a start to an end
 * coordinate that either yields a route or fails with a description of the error.
 */
module Directions {
  import opened Wrappers
  import opened Models
  import opened RouteTypes

  /** Outcome of one directions request: the route, or the error's description. */
  type DirectionsOutcome = Result<MapRoute, string>

  /** `route(from:to:)`: the first argument is the source, the second the destination. */
  type DirectionsService = (Coordinate, Coordinate) -> DirectionsOutcome
}
