# MapApp core, modelled in Dafny

MapApp is a small iOS app. The user types a start and an end address, the app
navigates to a route screen, the route screen asks a directions service for a
driving route between the two locations, and it shows the route's turn-by-turn
steps. This project models the app's non-visual logic in Dafny and proves
properties of that model:

- **Route steps** (`route_steps.dfy`, module `RouteSteps`). `mapSteps` turns the
  directions service's raw steps into displayable steps. It keeps the raw steps
  with a non-empty instruction text, then keeps those whose polyline has a first
  coordinate, and copies instruction, distance and polyline, with the first
  coordinate as the step's point. The model keeps the source's filter/compactMap
  chain. It is proved equal to an independent index-based description
  (`KeptIndices`, `Converted`), which gives the listed properties.
- **Route screen state** (`route_view_model.dfy`, class
  `RouteViewModel.RouteViewModelImpl`). The fields are `route`, `steps` and `state`.
  A ghost history records every value `state` took. Loading first publishes
  `loading` and then calls the directions service from start to end. On success it
  stores the route, its mapped steps and `loaded`. On failure only `state` changes,
  to `failed` with the error's description. The object invariant says `steps` is
  always the mapping of the stored route. It also says the state history is idle,
  then pairs of loading and an outcome.
- **Navigation** (`coordinator.dfy`, class `Coordinators.CoordinatorImpl`). The
  navigation stack is a `seq<Route>` and the modal slot is an `Option<Route>`.
  The module also models the factory that builds a route screen for a
  destination.
- **Address form** (`address_input_view_model.dfy`, class
  `AddressInputViewModel.AddressInputViewModelImpl`). The two fields feed a
  pipeline: combine the latest values, map them to "both non-empty", drop
  repeats, and assign the result to `isValid`. Ghost histories record what the
  map stage produced and what was assigned. The invariant says the assigned
  sequence is `RemoveDuplicates` of the produced one. The lemmas prove it has no
  two equal neighbours and ends with the current validity. Submitting forwards
  the pair unchanged to the coordinator.
- **Address screen** (`address_input_view.dfy`, module `AddressInputView`). This
  covers the frame preference's merge (`Reduce`, with the next value winning),
  its fold over the views that report frames (`Collect`), the "Show Route" button
  gated on `isValid`, and the suggestion-selection actions.

Shared types live in `wrappers.dfy` (`Option`, `Result`), `models.dfy`
(`Coordinate`, `LocationPair`), `route_types.dfy` (raw and displayable steps,
`RouteViewState`) and `directions.dfy` (the directions service's signature).

The address view model is smaller than its protocol suggests. It never calls the
geocoding service it is given. It enforces no minimum address length, does not
debounce or fetch suggestions, and has no loading or failed state. The "Show
Route" button always submits the fixed pair `LocationPair.mock1`.

## Model

| member | source | states |
|---|---|---|
| RouteSteps.Filter | MapApp/ViewModels/RouteViewModel/RouteViewModelImpl.swift:51-52 | the filter stage never lengthens the list |
| RouteSteps.CompactMap | MapApp/ViewModels/RouteViewModel/RouteViewModelImpl.swift:53-64 | the compactMap stage never lengthens the list |
| RouteSteps.KeptIndices | MapApp/ViewModels/RouteViewModel/RouteViewModelImpl.swift:52-56 | the surviving positions are strictly increasing, in range, and are exactly the steps with instructions and a non-empty polyline |
| RouteSteps.MapStepsAppend | MapApp/ViewModels/RouteViewModel/RouteViewModelImpl.swift:50-65 | mapping a concatenation is the concatenation of the mappings (steps are judged one at a time) |
| RouteSteps.MapStepsByIndex | MapApp/ViewModels/RouteViewModel/RouteViewModelImpl.swift:50-65 | the output is exactly the conversions of the surviving steps in input order, an order-preserving subsequence |
| RouteSteps.MapStepsWellFormed | MapApp/ViewModels/RouteViewModel/RouteViewModelImpl.swift:52-61 | every produced step has a non-empty instruction and a non-empty polyline whose first coordinate is the step's point |
| RouteSteps.MapStepsLength | MapApp/ViewModels/RouteViewModel/RouteViewModelImpl.swift:50-65 | the output is no longer than the input |
| RouteSteps.MapStepsKeeps | MapApp/ViewModels/RouteViewModel/RouteViewModelImpl.swift:58-63 | a step with instructions and a non-empty polyline appears in the output with its fields copied unchanged |
| RouteSteps.MapStepsOnlyFromInput | MapApp/ViewModels/RouteViewModel/RouteViewModelImpl.swift:50-64 | every produced step is the conversion of some surviving input step |
| RouteViewModel.RouteViewModelImpl.constructor | MapApp/ViewModels/RouteViewModel/RouteViewModelImpl.swift:14-32 | initially no route, no steps and state idle; the service and pair are kept for the scheduled load |
| RouteViewModel.RouteViewModelImpl.RunLoadTask | MapApp/ViewModels/RouteViewModel/RouteViewModelImpl.swift:26-31 | the scheduled load asks for the route from the pair's start to its end, never swapped |
| RouteViewModel.RouteViewModelImpl.LoadRoute | MapApp/ViewModels/RouteViewModel/RouteViewModelImpl.swift:34-48 | state passes through loading; on success route, steps = mapSteps(route.steps) and loaded; on failure failed(description) with route and steps kept |
| RouteViewModel.RouteViewModelImpl.StepsWellFormed | MapApp/ViewModels/RouteViewModel/RouteViewModelImpl.swift:42-43 | in every reachable state, all published steps are well formed |
| Coordinators.CoordinatorImpl.constructor | MapApp/Coordinators/Coordinator.swift:28-29 | a fresh coordinator has an empty path and no sheet |
| Coordinators.CoordinatorImpl.Push | MapApp/Coordinators/Coordinator.swift:35-37 | the route is appended to the path |
| Coordinators.CoordinatorImpl.Present | MapApp/Coordinators/Coordinator.swift:39-41 | the sheet becomes the route and the path is unchanged |
| Coordinators.CoordinatorImpl.ShowRouteMap | MapApp/Coordinators/Coordinator.swift:45-47 | the path grows by exactly one, its new last entry is the route map for the pair, earlier entries and the sheet are unchanged |
| Coordinators.DestinationPair | MapApp/Coordinators/Coordinator.swift:13-14 | a route is exactly the route map of its pair (single case) |
| Coordinators.DestinationFactory | MapApp/Coordinators/Coordinator.swift:72-77 | the destination screen is a fresh route view model for exactly the pushed pair, with nothing loaded |
| AddressInputViewModel.RemoveDuplicatesNoAdjacent | MapApp/ViewModels/AddressInputViewModel/AddressInputViewModelImpl.swift:28 | the published validity sequence never has two equal neighbours |
| AddressInputViewModel.RemoveDuplicatesLast | MapApp/ViewModels/AddressInputViewModel/AddressInputViewModelImpl.swift:26-29 | the last published value is the last computed validity |
| AddressInputViewModel.RemoveDuplicatesKeepsDistinct | MapApp/ViewModels/AddressInputViewModel/AddressInputViewModelImpl.swift:28 | a stream without repeats passes through unchanged |
| AddressInputViewModel.AddressInputViewModelImpl.constructor | MapApp/ViewModels/AddressInputViewModel/AddressInputViewModelImpl.swift:15-23 | both addresses empty and isValid false, published once |
| AddressInputViewModel.AddressInputViewModelImpl.PublishedNoAdjacent | MapApp/ViewModels/AddressInputViewModel/AddressInputViewModelImpl.swift:28 | in every reachable state of the form, the sequence of values assigned to isValid has no two equal neighbours |
| AddressInputViewModel.AddressInputViewModelImpl.Publish | MapApp/ViewModels/AddressInputViewModel/AddressInputViewModelImpl.swift:25-30 | one pipeline pass records the new validity and assigns it only if it differs from the last one |
| AddressInputViewModel.AddressInputViewModelImpl.SetStartAddress | MapApp/ViewModels/AddressInputViewModel/AddressInputViewModelImpl.swift:26-29 | after editing the start field, isValid == (start != "" && end != ""), the end field is untouched |
| AddressInputViewModel.AddressInputViewModelImpl.SetEndAddress | MapApp/ViewModels/AddressInputViewModel/AddressInputViewModelImpl.swift:26-29 | after editing the end field, isValid == (start != "" && end != ""), the start field is untouched |
| AddressInputViewModel.AddressInputViewModelImpl.DidTapShowRoute | MapApp/ViewModels/AddressInputViewModel/AddressInputViewModelImpl.swift:32-34 | the coordinator's path gains exactly the route map for the given pair; fields and sheet unchanged |
| AddressInputViewModel.BlankAddressesAreFilled | MapApp/ViewModels/AddressInputViewModel/AddressInputViewModelImpl.swift:27 | no trimming: fields of spaces count as filled, an empty one does not |
| AddressInputView.Reduce | MapApp/Views/AddressInputView.swift:20-25 | merged keys are the union; next's value wins on every key it has; keys only in the old map keep their values |
| AddressInputView.ReduceIdentity | MapApp/Views/AddressInputView.swift:18-24 | the default is empty, and merging with it changes nothing on either side |
| AddressInputView.CollectLastWins | MapApp/Views/AddressInputView.swift:20-25 | over a sequence of reported values a field is present iff some view reported it, with the value from the last one that did |
| AddressInputView.BothFieldsReported | MapApp/Views/AddressInputView.swift:99-117 | the two text fields' reports merge into a map holding both frames |
| AddressInputView.AddressInputViewImpl.constructor | MapApp/Views/AddressInputView.swift:28-30 | no field has focus initially |
| AddressInputView.AddressInputViewImpl.AtMostOneOverlay | MapApp/Views/AddressInputView.swift:58-78 | the start and end suggestion lists are never shown together |
| AddressInputView.AddressInputViewImpl.Focus | MapApp/Views/AddressInputView.swift:100-101 | tapping a field focuses it |
| AddressInputView.AddressInputViewImpl.TapBackground | MapApp/Views/AddressInputView.swift:36-38 | tapping the background clears focus |
| AddressInputView.AddressInputViewImpl.TapShowRoute | MapApp/Views/AddressInputView.swift:44-48 | the button acts iff isValid (both fields non-empty); then it pushes exactly the submitted pair, otherwise nothing changes |
| AddressInputView.AddressInputViewImpl.SelectStartSuggestion | MapApp/Views/AddressInputView.swift:66-69 | choosing a start suggestion sets the start address only, revalidates, extends the validity histories by exactly one pipeline pass, and clears focus |
| AddressInputView.AddressInputViewImpl.SelectEndSuggestion | MapApp/Views/AddressInputView.swift:84-87 | choosing an end suggestion sets the end address only, revalidates, extends the validity histories by exactly one pipeline pass, and clears focus |

## Left out

- Asynchrony and reactive plumbing (`Task`, `async`/`await`, Combine publishers, `@MainActor`). The route load is one sequential method. The directions service is a function-typed input, so its outcome is fixed per start/end pair. The validity pipeline runs synchronously after each edit.
- The directions and geocoding services' own implementations. They wrap the MapKit requests, and their only logic is "first result or throw". Only the directions service's signature is modelled, with the error carried as its description text. The geocoding service is stored by the address view model but never called.
- `error.localizedDescription`: the model takes the failure's description as given.
- Coordinates, anchors and polylines: `Coordinate` and `Anchor` are abstract types with equality only. A polyline is its coordinate sequence. Floating-point equality and hashing of `LocationPair` are not modelled.
- `LocationPair.mock1`: its constant coordinates are not modelled. The view holds the pair the button submits as a constant given at construction.
- Coordinators.CoordinatorImpl: the navigation stack and the sheet are bound two-way to the views (MapApp/Coordinators/Coordinator.swift:54,60). Back navigation pops `path`, and dismissing the sheet writes nil to `sheet`. These framework-driven transitions are not modelled; only push, present and showRouteMap are.
- `RouteStep.distance` and `MapRouteStep.distance`: the platform's `Double` distance is a `real`. The value is only copied, never computed with, so floating-point behaviour plays no part.
- `Route.id`: the string built by interpolation depends on the platform's default description of the pair.
- `RouteStep.id`: the random UUID is dropped.
- Suggestions: the address view model has no `startSuggestions`/`endSuggestions` or `state`. The suggestion lists are parameters of the overlay predicate. The selection actions take only the chosen string. The code itself fetches no suggestions.
- `AddressInputViewModel.AddressInputViewModelImpl.Publish`: `removeDuplicates` remembers the last value it let through; the model compares with `isValid` instead, which the invariant proves is that value.
- Map rendering, marker placement and the polyline coordinate-buffer extension: these are drawing code and foreign calls.
- Preview mocks: they contain no logic.
