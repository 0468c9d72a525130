/**
 * The data the route screen works with: the directions service's route and its raw
 * steps, the displayable `RouteStep`, and the screen's view state.
 */
module RouteTypes {
  import opened Models

  /** A path segment: its ordered coordinates. */
  datatype Polyline = Polyline(coordinates: seq<Coordinate>)

  /** One step of a route as the directions service returns it. */
  datatype MapRouteStep = MapRouteStep(instructions: string, distance: real, polyline: Polyline)

  /** A route as the directions service returns it. */
  datatype MapRoute = MapRoute(steps: seq<MapRouteStep>)

  /** A displayable step: instruction, distance, representative point and segment. */
  datatype RouteStep = RouteStep(instruction: string, distance: real, coordinate: Coordinate, polyline: Polyline)

  /** The route screen's state. */
  datatype RouteViewState = Idle | Loading | Loaded | Failed(message: string)
}
