/**
 * `RouteViewModelImpl`: the route screen's state. It asks the directions service for a
 * route from the pair's start to its end, then publishes the route, its displayable
 * steps and the screen state.
 */
module RouteViewModel {
  import opened Wrappers
  import opened Models
  import opened RouteTypes
  import opened RouteSteps
  import opened Directions

  /** The states `state` has taken, in order, follow idle, then loading followed by a
      loaded or failed outcome, any number of times. */
  ghost predicate StrictlySequential(history: seq<RouteViewState>) {
    && |history| % 2 == 1
    && history[0] == Idle
    && forall i :: 0 < i < |history| ==>
         if i % 2 == 1 then history[i] == Loading else history[i].Loaded? || history[i].Failed?
  }

  class RouteViewModelImpl {
    var route: Option<MapRoute>
    var steps: seq<RouteStep>
    var state: RouteViewState
    /** Every value `state` has been assigned, in order; the last is the current one. */
    ghost var stateHistory: seq<RouteViewState>

    const directionsService: DirectionsService
    /** The pair captured by the task the initializer schedules. */
    const locationPair: LocationPair

    ghost predicate Valid()
      reads this
    {
      && StrictlySequential(stateHistory)
      && stateHistory[|stateHistory| - 1] == state
      && (route.None? ==> steps == [])
      && (route.Some? ==> steps == MapSteps(route.value.steps))
      && (state == Loaded ==> route.Some?)
    }

    /** `init(directionsService:locationPair:)`: nothing loaded yet; the request runs
        in the task it schedules (`RunLoadTask`). */
    constructor(directionsService: DirectionsService, locationPair: LocationPair)
      ensures Valid()
      ensures route == None && steps == [] && state == Idle
      ensures stateHistory == [Idle]
      ensures this.directionsService == directionsService && this.locationPair == locationPair
    {
      this.directionsService := directionsService;
      this.locationPair := locationPair;
      route := None;
      steps := [];
      state := Idle;
      stateHistory := [Idle];
    }

    /** The body of the task scheduled by the initializer: load the route from the
        pair's start location to its end location, in that order. */
    method RunLoadTask()
      requires Valid()
      modifies this
      ensures Valid()
      ensures stateHistory == old(stateHistory) + [Loading, state]
      ensures match directionsService(locationPair.startLocation, locationPair.endLocation)
        case Success(r) => route == Some(r) && steps == MapSteps(r.steps) && state == Loaded
        case Failure(message) => state == Failed(message) && route == old(route) && steps == old(steps)
    {
      LoadRoute(locationPair.startLocation, locationPair.endLocation);
    }

    /** `loadRoute(from:to:)`: `state` becomes loading before the request; on success
        the route, its steps and loaded are stored; on failure only `state` changes,
        to failed with the error's description. */
    method LoadRoute(start: Coordinate, end: Coordinate)
      requires Valid()
      modifies this
      ensures Valid()
      ensures stateHistory == old(stateHistory) + [Loading, state]
      ensures match directionsService(start, end)
        case Success(r) => route == Some(r) && steps == MapSteps(r.steps) && state == Loaded
        case Failure(message) => state == Failed(message) && route == old(route) && steps == old(steps)
    {
      state := Loading;
      stateHistory := stateHistory + [Loading];
      var outcome := directionsService(start, end);
      match outcome {
        case Success(r) =>
          route := Some(r);
          steps := MapSteps(r.steps);
          state := Loaded;
        case Failure(message) =>
          state := Failed(message);
      }
      stateHistory := stateHistory + [state];
    }

    /** Whatever has been published, every displayed step is well formed. */
    lemma StepsWellFormed()
      requires Valid()
      ensures forall s :: s in steps ==> WellFormed(s)
    {
      if route.Some? {
        MapStepsWellFormed(route.value.steps);
      }
    }
  }
}
