/**
 * `AddressInputView`: the first screen. Its two text fields report their frames through
 * a preference whose values are merged key by key; a "Show Route" button is enabled
 * only while the form is valid; choosing a suggestion fills the field it belongs to
 * and dismisses the keyboard focus.
 */
module AddressInputView {
  import opened Wrappers
  import opened Models
  import opened Coordinators
  import opened AddressInputViewModel

  datatype AddressField = Start | End

  /** The bounds of a text field as reported to the overlay. */
  type Anchor(==)

  type FrameMap = map<AddressField, Anchor>

  /** `TextFieldFrameKey.defaultValue`. */
  const DefaultValue: FrameMap := map[]

  /** `TextFieldFrameKey.reduce(value:nextValue:)`: `value` is merged with the next
      value, the next value winning where both have a key. */
  function Reduce(value: FrameMap, nextValue: FrameMap): (merged: FrameMap)
    ensures merged.Keys == value.Keys + nextValue.Keys
    ensures forall f :: f in nextValue ==> merged[f] == nextValue[f]
    ensures forall f :: f in value && f !in nextValue ==> merged[f] == value[f]
  {
    value + nextValue
  }

  /** Merging with nothing, or into the default, changes nothing. */
  lemma ReduceIdentity(value: FrameMap)
    ensures Reduce(value, DefaultValue) == value
    ensures Reduce(DefaultValue, value) == value
  {
  }

  /** The value collected from the preference values of a sequence of views, reduced
      in order starting from the default. */
  function Collect(values: seq<FrameMap>): (collected: FrameMap) {
    if values == [] then DefaultValue
    else Reduce(Collect(values[..|values| - 1]), values[|values| - 1])
  }

  /** A field has a collected anchor exactly when some view reported one, and the
      anchor is the one reported by the last view that reported the field. */
  lemma {:induction false} CollectLastWins(values: seq<FrameMap>, f: AddressField)
    ensures f in Collect(values) <==> exists i :: 0 <= i < |values| && f in values[i]
    ensures forall i ::
      (0 <= i < |values| && f in values[i] && forall j :: i < j < |values| ==> f !in values[j]) ==>
        Collect(values)[f] == values[i][f]
  {
    if values != [] {
      var n := |values| - 1;
      var init := values[..n];
      CollectLastWins(init, f);
      assert forall i :: 0 <= i < n ==> init[i] == values[i];
      if f !in values[n] {
        if f in Collect(values) {
          var i :| 0 <= i < |init| && f in init[i];
          assert f in values[i];
        }
      }
    }
  }

  /** The two text fields of the screen report the start and the end frame; the
      collected value holds both. */
  lemma BothFieldsReported(startFrame: Anchor, endFrame: Anchor)
    ensures Collect([map[Start := startFrame], map[End := endFrame]]) == map[Start := startFrame, End := endFrame]
  {
    var values := [map[Start := startFrame], map[End := endFrame]];
    assert values[..1] == [map[Start := startFrame]];
    assert values[..1][..0] == [];
    assert Collect(values[..1]) == map[Start := startFrame];
    var r := Collect(values);
    assert r.Keys == {Start, End};
    assert r[Start] == startFrame && r[End] == endFrame;
  }

  class AddressInputViewImpl {
    const viewModel: AddressInputViewModelImpl
    /** The pair the button submits (`LocationPair.mock1`). */
    const submittedPair: LocationPair
    var focusedField: Option<AddressField>

    constructor(viewModel: AddressInputViewModelImpl, submittedPair: LocationPair)
      ensures this.viewModel == viewModel && this.submittedPair == submittedPair
      ensures focusedField == None
    {
      this.viewModel := viewModel;
      this.submittedPair := submittedPair;
      focusedField := None;
    }

    /** Whether the suggestion list of `field` is shown: that field has focus, its frame
        has been reported, and it has suggestions. */
    predicate OverlayVisible(field: AddressField, anchors: FrameMap, suggestions: seq<string>)
      reads this
    {
      focusedField == Some(field) && field in anchors && suggestions != []
    }

    /** Focus is on at most one field, so at most one suggestion list is shown. */
    lemma AtMostOneOverlay(anchors: FrameMap, startSuggestions: seq<string>, endSuggestions: seq<string>)
      ensures !(OverlayVisible(Start, anchors, startSuggestions) && OverlayVisible(End, anchors, endSuggestions))
    {
    }

    /** Tapping a text field gives it focus. */
    method Focus(field: AddressField)
      modifies this`focusedField
      ensures focusedField == Some(field)
    {
      focusedField := Some(field);
    }

    /** Tapping the background clears focus. */
    method TapBackground()
      modifies this`focusedField
      ensures focusedField == None
    {
      focusedField := None;
    }

    /** The "Show Route" button: disabled unless the form is valid; when enabled it
        submits the fixed pair through the view model. */
    method TapShowRoute() returns (enabled: bool)
      requires viewModel.Valid()
      modifies viewModel.coordinator`path
      ensures enabled == viewModel.isValid
      ensures enabled <==> viewModel.startAddress != "" && viewModel.endAddress != ""
      ensures viewModel.coordinator.path ==
        if enabled then old(viewModel.coordinator.path) + [RouteMap(submittedPair)] else old(viewModel.coordinator.path)
      ensures viewModel.coordinator.sheet == old(viewModel.coordinator.sheet)
    {
      enabled := viewModel.isValid;
      if enabled {
        viewModel.DidTapShowRoute(submittedPair);
      }
    }

    /** Choosing a start suggestion fills the start field only and clears focus. */
    method SelectStartSuggestion(selected: string)
      requires viewModel.Valid()
      modifies this`focusedField, viewModel`startAddress, viewModel`isValid, viewModel`combined, viewModel`published
      ensures viewModel.Valid()
      ensures viewModel.startAddress == selected && viewModel.endAddress == old(viewModel.endAddress)
      ensures viewModel.isValid == BothFilled(selected, viewModel.endAddress)
      ensures viewModel.combined == old(viewModel.combined) + [viewModel.isValid]
      ensures viewModel.published ==
        if old(viewModel.isValid) == viewModel.isValid then old(viewModel.published)
        else old(viewModel.published) + [viewModel.isValid]
      ensures focusedField == None
    {
      viewModel.SetStartAddress(selected);
      focusedField := None;
    }

    /** Choosing an end suggestion fills the end field only and clears focus. */
    method SelectEndSuggestion(selected: string)
      requires viewModel.Valid()
      modifies this`focusedField, viewModel`endAddress, viewModel`isValid, viewModel`combined, viewModel`published
      ensures viewModel.Valid()
      ensures viewModel.endAddress == selected && viewModel.startAddress == old(viewModel.startAddress)
      ensures viewModel.isValid == BothFilled(viewModel.startAddress, selected)
      ensures viewModel.combined == old(viewModel.combined) + [viewModel.isValid]
      ensures viewModel.published ==
        if old(viewModel.isValid) == viewModel.isValid then old(viewModel.published)
        else old(viewModel.published) + [viewModel.isValid]
      ensures focusedField == None
    {
      viewModel.SetEndAddress(selected);
      focusedField := None;
    }
  }
}
