/**
 * `AddressInputViewModelImpl`: the two address fields of the first screen and their
 * validity flag, kept up to date by a reactive pipeline that combines the latest
 * values of both fields, maps them to "both non-empty" and drops repeats before
 * assigning `isValid`.
 */
module AddressInputViewModel {
  import opened Models
  import opened Coordinators

  /** The `map` stage: both fields hold at least one character. There is no trimming,
      so a field holding only spaces counts as filled. */
  predicate BothFilled(startAddress: string, endAddress: string) {
    startAddress != "" && endAddress != ""
  }

  /** Two neighbouring values are never equal. */
  ghost predicate NoAdjacentDuplicates(xs: seq<bool>) {
    forall i :: 0 < i < |xs| ==> xs[i - 1] != xs[i]
  }

  /** The `removeDuplicates` stage: the values it lets through when fed `xs` in order;
      a value passes when it differs from the last value that passed. */
  function RemoveDuplicates(xs: seq<bool>): (passed: seq<bool>) {
    if xs == [] then []
    else
      var before := RemoveDuplicates(xs[..|xs| - 1]);
      var x := xs[|xs| - 1];
      if before != [] && before[|before| - 1] == x then before else before + [x]
  }

  /** Feeding one more value either drops it as a repeat or appends it. */
  lemma RemoveDuplicatesSnoc(xs: seq<bool>, x: bool)
    ensures var passed := RemoveDuplicates(xs);
      RemoveDuplicates(xs + [x]) == if passed != [] && passed[|passed| - 1] == x then passed else passed + [x]
  {
  }

  /** What `removeDuplicates` lets through never holds two equal neighbours. */
  lemma {:induction false} RemoveDuplicatesNoAdjacent(xs: seq<bool>)
    ensures NoAdjacentDuplicates(RemoveDuplicates(xs))
  {
    if xs != [] {
      RemoveDuplicatesNoAdjacent(xs[..|xs| - 1]);
    }
  }

  /** The last value let through is the last value fed in: the published flag always
      agrees with the latest fields. */
  lemma RemoveDuplicatesLast(xs: seq<bool>)
    requires xs != []
    ensures var passed := RemoveDuplicates(xs);
      passed != [] && passed[|passed| - 1] == xs[|xs| - 1]
  {
  }

  /** A stream with no repeats passes through `removeDuplicates` unchanged. */
  lemma {:induction false} RemoveDuplicatesKeepsDistinct(xs: seq<bool>)
    requires NoAdjacentDuplicates(xs)
    ensures RemoveDuplicates(xs) == xs
  {
    if xs != [] {
      var init := xs[..|xs| - 1];
      assert NoAdjacentDuplicates(init) by {
        forall i | 0 < i < |init| ensures init[i - 1] != init[i] {
          assert init[i - 1] == xs[i - 1] && init[i] == xs[i];
        }
      }
      RemoveDuplicatesKeepsDistinct(init);
    }
  }

  class AddressInputViewModelImpl {
    const coordinator: CoordinatorImpl

    var startAddress: string
    var endAddress: string
    var isValid: bool

    /** Every value the combine-and-map stage has produced, in order. */
    ghost var combined: seq<bool>
    /** Every value assigned to `isValid`, in order: the published validity sequence. */
    ghost var published: seq<bool>

    /** The `removeDuplicates` stage has seen every combined value, and `isValid`
        holds the last value it let through. */
    ghost predicate PipelineConsistent()
      reads this
    {
      && combined != []
      && published == RemoveDuplicates(combined)
      && published != []
      && isValid == published[|published| - 1]
    }

    ghost predicate Valid()
      reads this
    {
      && PipelineConsistent()
      && combined[|combined| - 1] == BothFilled(startAddress, endAddress)
      && isValid == BothFilled(startAddress, endAddress)
    }

    /** The published validity sequence never holds two equal neighbours. */
    lemma PublishedNoAdjacent()
      requires Valid()
      ensures NoAdjacentDuplicates(published)
    {
      RemoveDuplicatesNoAdjacent(combined);
    }

    /** `init(coordinator:geocodingService:)`: both fields empty; binding the pipeline
        emits the validity of the empty fields once, so `isValid` is false. */
    constructor(coordinator: CoordinatorImpl)
      ensures Valid()
      ensures this.coordinator == coordinator
      ensures startAddress == "" && endAddress == "" && !isValid
      ensures combined == [false] && published == [false]
    {
      this.coordinator := coordinator;
      startAddress := "";
      endAddress := "";
      isValid := false;
      combined := [false];
      published := [false];
      assert [false][..0] == [];
    }

    /** One pass of the pipeline after a field changed. `removeDuplicates` compares with
        the last value it let through, which `Valid()` ties to `isValid`. */
    method Publish()
      requires PipelineConsistent()
      modifies this`isValid, this`combined, this`published
      ensures Valid()
      ensures combined == old(combined) + [BothFilled(startAddress, endAddress)]
      ensures published == if old(isValid) == isValid then old(published) else old(published) + [isValid]
    {
      var valid := BothFilled(startAddress, endAddress);
      RemoveDuplicatesSnoc(combined, valid);
      combined := combined + [valid];
      if valid != isValid {
        isValid := valid;
        published := published + [valid];
      }
    }

    /** An edit of the start field (typing, or choosing a suggestion). */
    method SetStartAddress(text: string)
      requires Valid()
      modifies this`startAddress, this`isValid, this`combined, this`published
      ensures Valid()
      ensures startAddress == text && endAddress == old(endAddress)
      ensures isValid == BothFilled(text, endAddress)
      ensures combined == old(combined) + [isValid]
      ensures published == if old(isValid) == isValid then old(published) else old(published) + [isValid]
    {
      startAddress := text;
      Publish();
    }

    /** An edit of the end field (typing, or choosing a suggestion). */
    method SetEndAddress(text: string)
      requires Valid()
      modifies this`endAddress, this`isValid, this`combined, this`published
      ensures Valid()
      ensures endAddress == text && startAddress == old(startAddress)
      ensures isValid == BothFilled(startAddress, text)
      ensures combined == old(combined) + [isValid]
      ensures published == if old(isValid) == isValid then old(published) else old(published) + [isValid]
    {
      endAddress := text;
      Publish();
    }

    /** `didTapShowRoute(for:)`: forwards the pair unchanged to the coordinator, which
        pushes exactly one route map for it; the fields are untouched. */
    method DidTapShowRoute(locationPair: LocationPair)
      modifies coordinator`path
      ensures coordinator.path == old(coordinator.path) + [RouteMap(locationPair)]
      ensures coordinator.sheet == old(coordinator.sheet)
      ensures unchanged(this)
    {
      coordinator.ShowRouteMap(locationPair);
    }
  }

  /** No trimming: addresses made of spaces only make the form valid. */
  lemma BlankAddressesAreFilled()
    ensures BothFilled(" ", " ")
    ensures !BothFilled("", " ") && !BothFilled(" ", "")
  {
  }
}
