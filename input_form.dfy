/** The comparison form: three input fields, the segment catalogue loaded
    once when the form appears, and the submit handler that checks the
    fields before handing them to the page. */
module InputForm {
  import opened Wrappers

  /** What `parseFloat` yields for the text of a number input. */
  datatype ParsedNumber = NaN | Number(value: real)

  /** The arguments of one `onSubmit` call. */
  datatype SubmitArgs = SubmitArgs(dailyMileage: real, ownershipYears: real, vehicleSegment: string)

  /** The outcome of the segment-list request. */
  datatype SegmentsOutcome = SegmentsLoaded(segments: seq<string>) | SegmentsFailed

  const SegmentNotChosen: string := "Please select a vehicle segment"
  const NotPositive: string := "Mileage and ownership years must be positive numbers"
  const SegmentsLoadFailed: string := "Failed to load vehicle segments"

  /** The mileage field's `parseFloat(value) || 0`: NaN and zero are falsy,
      so both become 0. */
  function MileageFromInput(p: ParsedNumber): (mileage: real)
    ensures mileage > 0.0 <==> p.Number? && p.value > 0.0
    ensures mileage == 0.0 <==> p.NaN? || p.value == 0.0
    ensures p.Number? && p.value != 0.0 ==> mileage == p.value
  {
    match p
    case NaN => 0.0
    case Number(v) => if v == 0.0 then 0.0 else v
  }

  /** The years field's `parseFloat(value) || 1`: NaN and zero become 1, so
      only a negative entry can fail the positivity check. */
  function YearsFromInput(p: ParsedNumber): (years: real)
    ensures years != 0.0
    ensures years <= 0.0 <==> p.Number? && p.value < 0.0
    ensures p.Number? && p.value != 0.0 ==> years == p.value
  {
    match p
    case NaN => 1.0
    case Number(v) => if v == 0.0 then 1.0 else v
  }

  class Form {
    var dailyMileage: real
    var ownershipYears: real
    var vehicleSegment: string
    var segments: seq<string>
    var error: string

    /** The chosen segment is the blank option or one of the loaded ones. */
    ghost predicate Valid()
      reads this
    {
      vehicleSegment == "" || vehicleSegment in segments
    }

    /** The form's initial state. */
    constructor ()
      ensures Valid()
      ensures dailyMileage == 50.0 && ownershipYears == 5.0
      ensures vehicleSegment == "" && segments == [] && error == ""
    {
      dailyMileage := 50.0;
      ownershipYears := 5.0;
      vehicleSegment := "";
      segments := [];
      error := "";
    }

    /** `fetchSegments`, run once when the form appears: a loaded list
        replaces the catalogue and its first entry becomes the choice; a
        failure leaves the catalogue empty and sets the load error. */
    method FetchSegments(outcome: SegmentsOutcome)
      requires Valid() && segments == []
      modifies this
      ensures Valid()
      ensures outcome.SegmentsLoaded? ==>
                && segments == outcome.segments
                && vehicleSegment == (if outcome.segments != [] then outcome.segments[0] else old(vehicleSegment))
                && error == old(error)
      ensures outcome.SegmentsFailed? ==>
                segments == [] && vehicleSegment == old(vehicleSegment) && error == SegmentsLoadFailed
      ensures dailyMileage == old(dailyMileage) && ownershipYears == old(ownershipYears)
      ensures segments == [] ==> vehicleSegment == ""
    {
      match outcome
      case SegmentsLoaded(loaded) =>
        segments := loaded;
        if |loaded| > 0 {
          vehicleSegment := loaded[0];
        }
      case SegmentsFailed =>
        error := SegmentsLoadFailed;
    }

    /** `handleSubmit`: the segment is checked first, then both numbers;
        only a form that passes both is handed on, unchanged, and its error
        cleared. The result is the `onSubmit` call made, if any. */
    method HandleSubmit() returns (submitted: Option<SubmitArgs>)
      requires Valid()
      modifies this`error
      ensures Valid()
      ensures vehicleSegment == "" ==> submitted == None && error == SegmentNotChosen
      ensures vehicleSegment != "" && (dailyMileage <= 0.0 || ownershipYears <= 0.0) ==>
                submitted == None && error == NotPositive
      ensures submitted.Some? <==> vehicleSegment != "" && dailyMileage > 0.0 && ownershipYears > 0.0
      ensures segments == [] ==> submitted == None
      ensures submitted.Some? ==>
                submitted.value == SubmitArgs(dailyMileage, ownershipYears, vehicleSegment) && error == ""
    {
      if vehicleSegment == "" {
        error := SegmentNotChosen;
        return None;
      }
      if dailyMileage <= 0.0 || ownershipYears <= 0.0 {
        error := NotPositive;
        return None;
      }
      error := "";
      return Some(SubmitArgs(dailyMileage, ownershipYears, vehicleSegment));
    }

    /** The mileage input's change handler. */
    method ChangeMileage(p: ParsedNumber)
      requires Valid()
      modifies this`dailyMileage
      ensures Valid()
      ensures dailyMileage == MileageFromInput(p)
    {
      dailyMileage := MileageFromInput(p);
    }

    /** The years input's change handler. */
    method ChangeYears(p: ParsedNumber)
      requires Valid()
      modifies this`ownershipYears
      ensures Valid()
      ensures ownershipYears == YearsFromInput(p)
    {
      ownershipYears := YearsFromInput(p);
    }

    /** The segment select's change handler: the choice is one of its
        options, the blank one or a loaded segment. */
    method ChangeSegment(choice: string)
      requires Valid()
      requires choice == "" || choice in segments
      modifies this`vehicleSegment
      ensures Valid() && vehicleSegment == choice
    {
      vehicleSegment := choice;
    }

    /** The submit button (and the segment select) are disabled while a
        comparison is loading or while no segment has been loaded. */
    predicate SubmitDisabled(isLoading: bool): (disabled: bool)
      reads this
      ensures isLoading ==> disabled
      ensures segments == [] ==> disabled
      ensures disabled ==> isLoading || segments == []
    {
      isLoading || |segments| == 0
    }

    /** With no segment loaded (an empty list or a failed load) the choice
        is the blank option and submitting is disabled, so no comparison can
        be requested whatever the two numbers hold. */
    lemma EmptyCatalogueNeverSubmits(isLoading: bool)
      requires Valid() && segments == []
      ensures vehicleSegment == ""
      ensures SubmitDisabled(isLoading)
    {
    }
  }
}
