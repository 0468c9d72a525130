/**
 * `CoordinatorImpl`: the navigation state of the app, a stack of pushed destinations
 * (`path`) and an optional modal destination (`sheet`), plus the factory that turns
 * a destination into its screen.
 */
module Coordinators {
  import opened Wrappers
  import opened Models
  import opened RouteTypes
  import opened Directions
  import opened RouteViewModel

  /** The app's only destination: the route map for a pair of locations. */
  datatype Route = RouteMap(locationPair: LocationPair)

  class CoordinatorImpl {
    var path: seq<Route>
    var sheet: Option<Route>

    constructor()
      ensures path == [] && sheet == None
    {
      path := [];
      sheet := None;
    }

    /** `push(_:)`: the destination goes on top of the stack. */
    method Push(route: Route)
      modifies this`path
      ensures path == old(path) + [route]
    {
      path := path + [route];
    }

    /** `present(_:)`: the destination fills the modal slot; the stack is untouched. */
    method Present(route: Route)
      modifies this`sheet
      ensures sheet == Some(route)
      ensures path == old(path)
    {
      sheet := Some(route);
    }

    /** `showRouteMap(_:)`: the stack grows by exactly one, the route map for the pair;
        earlier entries and the modal slot are left as they were. */
    method ShowRouteMap(locationPair: LocationPair)
      modifies this`path
      ensures |path| == |old(path)| + 1
      ensures path[|path| - 1] == RouteMap(locationPair)
      ensures path[..|old(path)|] == old(path)
      ensures sheet == old(sheet)
    {
      Push(RouteMap(locationPair));
    }
  }

  /** The pair a destination is built with: `Route` has a single case, so a
      destination is determined by, and rebuilt from, its pair. */
  function DestinationPair(route: Route): (pair: LocationPair)
    ensures RouteMap(pair) == route
  {
    match route
    case RouteMap(locationPair) => locationPair
  }

  /** `destinationFactory(_:)`: a fresh route screen for exactly the pushed pair, with
      nothing loaded yet. */
  method DestinationFactory(route: Route, service: DirectionsService) returns (viewModel: RouteViewModelImpl)
    ensures fresh(viewModel) && viewModel.Valid()
    ensures RouteMap(viewModel.locationPair) == route
    ensures viewModel.directionsService == service
    ensures viewModel.route == None && viewModel.steps == [] && viewModel.state == Idle
  {
    viewModel := new RouteViewModelImpl(service, DestinationPair(route));
  }
}
