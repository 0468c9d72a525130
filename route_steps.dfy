/**
 * `RouteViewModelImpl.mapSteps`: the raw steps of a route become displayable steps by
 * dropping steps without instructions and then steps whose polyline has no first
 * coordinate.
 */
module RouteSteps {
  import opened Wrappers
  import opened Models
  import opened RouteTypes

  /** `filter`: the elements satisfying `keep`, in order. */
  function Filter<A>(xs: seq<A>, keep: A -> bool): (r: seq<A>)
    ensures |r| <= |xs|
  {
    if xs == [] then []
    else (if keep(xs[0]) then [xs[0]] else []) + Filter(xs[1..], keep)
  }

  /** `compactMap`: the non-nil images of the elements, in order. */
  function CompactMap<A, B>(xs: seq<A>, f: A -> Option<B>): (r: seq<B>)
    ensures |r| <= |xs|
  {
    if xs == [] then []
    else (if f(xs[0]).Some? then [f(xs[0]).value] else []) + CompactMap(xs[1..], f)
  }

  /** `polyline.coordinates.first`. */
  function FirstCoordinate(p: Polyline): (first: Option<Coordinate>) {
    if p.coordinates == [] then None else Some(p.coordinates[0])
  }

  /** The `filter` closure: the step has a non-empty instruction text. */
  predicate HasInstructions(step: MapRouteStep) {
    step.instructions != ""
  }

  /** The `compactMap` closure: no step without a first coordinate, else a copy. */
  function ToRouteStep(step: MapRouteStep): (routeStep: Option<RouteStep>) {
    match FirstCoordinate(step.polyline)
    case None => None
    case Some(coord) => Some(RouteStep(step.instructions, step.distance, coord, step.polyline))
  }

  /** `mapSteps(_:)`. */
  function MapSteps(steps: seq<MapRouteStep>): (routeSteps: seq<RouteStep>) {
    CompactMap(Filter(steps, HasInstructions), ToRouteStep)
  }

  // ---------------------------------------------------------------------------
  // An independent description of which steps survive and what they become.

  /** A raw step survives both stages exactly when it has instructions and a point. */
  predicate Kept(step: MapRouteStep) {
    step.instructions != "" && |step.polyline.coordinates| > 0
  }

  /** The displayable step a surviving raw step becomes. */
  function Converted(step: MapRouteStep): (routeStep: RouteStep)
    requires Kept(step)
  {
    RouteStep(step.instructions, step.distance, step.polyline.coordinates[0], step.polyline)
  }

  /** A displayable step is well formed: it has an instruction, and its point is the
      first coordinate of its own (hence non-empty) polyline. */
  predicate WellFormed(s: RouteStep) {
    s.instruction != "" && |s.polyline.coordinates| > 0 && s.coordinate == s.polyline.coordinates[0]
  }

  /** The positions of the surviving raw steps, in increasing order. */
  function KeptIndices(steps: seq<MapRouteStep>): (idx: seq<nat>)
    ensures |idx| <= |steps|
    ensures forall k :: 0 <= k < |idx| ==> idx[k] < |steps| && Kept(steps[idx[k]])
    ensures forall j, k :: 0 <= j < k < |idx| ==> idx[j] < idx[k]
    ensures forall i :: 0 <= i < |steps| && Kept(steps[i]) ==> i in idx
  {
    if steps == [] then []
    else
      var n := |steps| - 1;
      var prefix := KeptIndices(steps[..n]);
      assert forall k :: 0 <= k < |prefix| ==> steps[..n][prefix[k]] == steps[prefix[k]];
      prefix + (if Kept(steps[n]) then [n] else [])
  }

  // ---------------------------------------------------------------------------
  // Lemmas

  lemma {:induction false} FilterAppend<A>(xs: seq<A>, ys: seq<A>, keep: A -> bool)
    ensures Filter(xs + ys, keep) == Filter(xs, keep) + Filter(ys, keep)
  {
    if xs == [] {
      assert xs + ys == ys;
    } else {
      var zs := xs + ys;
      assert zs[0] == xs[0] && zs[1..] == xs[1..] + ys;
      var head := if keep(xs[0]) then [xs[0]] else [];
      calc {
        Filter(zs, keep);
        head + Filter(xs[1..] + ys, keep);
        { FilterAppend(xs[1..], ys, keep); }
        head + (Filter(xs[1..], keep) + Filter(ys, keep));
        (head + Filter(xs[1..], keep)) + Filter(ys, keep);
      }
    }
  }

  lemma {:induction false} CompactMapAppend<A, B>(xs: seq<A>, ys: seq<A>, f: A -> Option<B>)
    ensures CompactMap(xs + ys, f) == CompactMap(xs, f) + CompactMap(ys, f)
  {
    if xs == [] {
      assert xs + ys == ys;
    } else {
      var zs := xs + ys;
      assert zs[0] == xs[0] && zs[1..] == xs[1..] + ys;
      var head := if f(xs[0]).Some? then [f(xs[0]).value] else [];
      calc {
        CompactMap(zs, f);
        head + CompactMap(xs[1..] + ys, f);
        { CompactMapAppend(xs[1..], ys, f); }
        head + (CompactMap(xs[1..], f) + CompactMap(ys, f));
        (head + CompactMap(xs[1..], f)) + CompactMap(ys, f);
      }
    }
  }

  /** Mapping a concatenation maps each part: the transform works step by step. */
  lemma {:induction false} MapStepsAppend(xs: seq<MapRouteStep>, ys: seq<MapRouteStep>)
    ensures MapSteps(xs + ys) == MapSteps(xs) + MapSteps(ys)
  {
    FilterAppend(xs, ys, HasInstructions);
    CompactMapAppend(Filter(xs, HasInstructions), Filter(ys, HasInstructions), ToRouteStep);
  }

  /** A single raw step yields its conversion when it survives, and nothing otherwise. */
  lemma MapStepsSingle(step: MapRouteStep)
    ensures MapSteps([step]) == if Kept(step) then [Converted(step)] else []
  {
  }

  /** The output is exactly the conversions of the surviving steps, taken in input
      order: an order-preserving subsequence of the input. */
  lemma {:induction false} MapStepsByIndex(steps: seq<MapRouteStep>)
    ensures |MapSteps(steps)| == |KeptIndices(steps)|
    ensures forall k :: 0 <= k < |MapSteps(steps)| ==>
      Kept(steps[KeptIndices(steps)[k]]) && MapSteps(steps)[k] == Converted(steps[KeptIndices(steps)[k]])
  {
    if steps != [] {
      var n := |steps| - 1;
      var prefix := steps[..n];
      assert steps == prefix + [steps[n]];
      MapStepsAppend(prefix, [steps[n]]);
      MapStepsSingle(steps[n]);
      MapStepsByIndex(prefix);
      var idx := KeptIndices(prefix);
      assert forall k :: 0 <= k < |idx| ==> prefix[idx[k]] == steps[idx[k]];
    }
  }

  /** Every produced step has a non-empty instruction, and its coordinate is the first
      coordinate of its own polyline; so no step with an empty polyline survives. */
  lemma MapStepsWellFormed(steps: seq<MapRouteStep>)
    ensures forall s :: s in MapSteps(steps) ==> WellFormed(s)
  {
    MapStepsByIndex(steps);
  }

  /** The output is never longer than the input. */
  lemma MapStepsLength(steps: seq<MapRouteStep>)
    ensures |MapSteps(steps)| <= |steps|
  {
  }

  /** A raw step with instructions and a non-empty polyline is kept, with instruction,
      distance and polyline copied unchanged and its first coordinate as its point. */
  lemma MapStepsKeeps(steps: seq<MapRouteStep>, i: nat)
    requires i < |steps| && steps[i].instructions != "" && steps[i].polyline.coordinates != []
    ensures RouteStep(steps[i].instructions, steps[i].distance, steps[i].polyline.coordinates[0], steps[i].polyline)
      in MapSteps(steps)
  {
    MapStepsByIndex(steps);
    var idx := KeptIndices(steps);
    var k :| 0 <= k < |idx| && idx[k] == i;
    assert MapSteps(steps)[k] == Converted(steps[i]);
  }

  /** Conversely, every produced step comes from a surviving raw step of the input. */
  lemma MapStepsOnlyFromInput(steps: seq<MapRouteStep>, s: RouteStep)
    requires s in MapSteps(steps)
    ensures exists i :: 0 <= i < |steps| && Kept(steps[i]) && s == Converted(steps[i])
  {
    MapStepsByIndex(steps);
    var k :| 0 <= k < |MapSteps(steps)| && MapSteps(steps)[k] == s;
    var i := KeptIndices(steps)[k];
    assert 0 <= i < |steps| && Kept(steps[i]) && s == Converted(steps[i]);
  }
}
