/** The results page: the request state behind a comparison (results,
    loading flag, error text, and the inputs of the last successful
    request), its transitions, and what the page derives from that state
    when it renders. */
module HomePage {
  import opened Wrappers
  import opened Ranking
  import opened Collections
  import opened Api

  /** The inputs shown in the summary cards. */
  datatype InputParams = InputParams(dailyMileage: real, ownershipYears: real, vehicleSegment: string)

  /** The outcome of the `/compare` call: the payload, or a rejection that
      may carry the response's `detail` text. */
  datatype CompareOutcome = Fetched(data: ComparisonResponse) | Rejected(detail: Option<string>)

  const FetchFailed: string := "Failed to fetch comparison results"

  /** `err.response?.data?.detail || 'Failed to fetch comparison results'`:
      a missing or empty detail falls back to the generic text. */
  function ErrorMessage(detail: Option<string>): (message: string)
    ensures message != ""
    ensures detail.Some? && detail.value != "" ==> message == detail.value
    ensures detail.None? || detail.value == "" ==> message == FetchFailed
  {
    if detail.Some? && detail.value != "" then detail.value else FetchFailed
  }

  class Home {
    var results: Option<ComparisonResponse>
    var isLoading: bool
    var error: string
    var inputParams: InputParams

    /** While a request is in flight there is neither a result nor an
        error, and a result and an error are never held together. */
    ghost predicate Valid()
      reads this
    {
      && (isLoading ==> results.None? && error == "")
      && (results.Some? ==> error == "")
    }

    /** The page's initial state. */
    constructor ()
      ensures Valid()
      ensures results == None && !isLoading && error == ""
      ensures inputParams == InputParams(0.0, 0.0, "")
    {
      results := None;
      isLoading := false;
      error := "";
      inputParams := InputParams(0.0, 0.0, "");
    }

    /** The start of `handleFormSubmit`: loading, with the previous result
        and error cleared before the request goes out. */
    method StartSubmit()
      modifies this
      ensures Valid()
      ensures isLoading && error == "" && results == None
      ensures inputParams == old(inputParams)
    {
      isLoading := true;
      error := "";
      results := None;
    }

    /** The end of `handleFormSubmit`: a payload becomes the result and the
        submitted inputs become the summary's; a rejection sets the error
        and keeps the old inputs; either way loading stops. */
    method Settle(dailyMileage: real, ownershipYears: real, vehicleSegment: string, outcome: CompareOutcome)
      requires Valid() && isLoading
      modifies this
      ensures Valid() && !isLoading
      ensures outcome.Fetched? ==>
                && results == Some(outcome.data) && error == ""
                && inputParams == InputParams(dailyMileage, ownershipYears, vehicleSegment)
      ensures outcome.Rejected? ==>
                && results == None && error == ErrorMessage(outcome.detail)
                && inputParams == old(inputParams)
    {
      match outcome {
        case Fetched(data) =>
          results := Some(data);
          inputParams := InputParams(dailyMileage, ownershipYears, vehicleSegment);
        case Rejected(detail) =>
          error := ErrorMessage(detail);
      }
      isLoading := false;
    }

    /** `handleFormSubmit` with the request resolved before the next event. */
    method HandleFormSubmit(dailyMileage: real, ownershipYears: real, vehicleSegment: string,
                            outcome: CompareOutcome)
      modifies this
      ensures Valid() && !isLoading
      ensures outcome.Fetched? ==>
                && results == Some(outcome.data) && error == ""
                && inputParams == InputParams(dailyMileage, ownershipYears, vehicleSegment)
      ensures outcome.Rejected? ==>
                && results == None && error == ErrorMessage(outcome.detail)
                && inputParams == old(inputParams)
    {
      StartSubmit();
      Settle(dailyMileage, ownershipYears, vehicleSegment, outcome);
    }

    /** The error panel's "Try Again" button: clears the error and the
        result, and leaves the loading flag and the inputs alone. */
    method Dismiss()
      requires Valid()
      modifies this
      ensures Valid()
      ensures error == "" && results == None
      ensures isLoading == old(isLoading) && inputParams == old(inputParams)
      ensures !isLoading ==> EmptyStateShown()
    {
      error := "";
      results := None;
    }

    /** The "Ready to Compare?" panel. */
    predicate EmptyStateShown()
      reads this
    {
      results.None? && !isLoading
    }

    /** The summary cards and the chart. */
    predicate ResultsShown()
      reads this
    {
      results.Some?
    }

    predicate ErrorShown()
      reads this
    {
      error != ""
    }

    /** In a valid state the loading panel shows alone, and the results
        show without the error or the empty state. The error panel is not
        exclusive: its condition leaves `results` empty and loading off, so
        the empty state is on screen beneath it. */
    lemma OnePanelAtATime()
      requires Valid()
      ensures isLoading ==> !ResultsShown() && !ErrorShown() && !EmptyStateShown()
      ensures ResultsShown() ==> !ErrorShown() && !EmptyStateShown()
      ensures ErrorShown() ==> EmptyStateShown() && !ResultsShown()
    {
    }
  }

  /** A list section is rendered exactly when its list is non-empty. */
  function SectionShown(cars: seq<CarResult>): (shown: bool)
  {
    |cars| > 0
  }

  /** A card carries the "lowest emissions" badge exactly at index 0. */
  function IsLowest(index: nat): bool
  {
    index == 0
  }

  /** The chart's bars: overall, petrol/diesel, EV and hybrid lists, in
      that order. */
  function ChartCars(r: ComparisonResponse): (cars: seq<CarResult>)
    ensures |cars| == |r.overallTop3| + |r.petrolDieselTop3| + |r.evTop3| + |r.hybridTop3|
    ensures forall c :: c in cars <==>
              c in r.overallTop3 || c in r.petrolDieselTop3 || c in r.evTop3 || c in r.hybridTop3
  {
    r.overallTop3 + r.petrolDieselTop3 + r.evTop3 + r.hybridTop3
  }

  /** The chart shows each list as a contiguous block, in the fixed order. */
  lemma ChartBlocks(r: ComparisonResponse)
    ensures var cars := ChartCars(r);
            var a := |r.overallTop3|;
            var b := a + |r.petrolDieselTop3|;
            var c := b + |r.evTop3|;
            && cars[..a] == r.overallTop3
            && cars[a..b] == r.petrolDieselTop3
            && cars[b..c] == r.evTop3
            && cars[c..] == r.hybridTop3
  {
  }

  /** The "Top Car CO2" summary value: the first overall entry's total, or
      zero when the overall list is empty. */
  function TopCarCo2(r: ComparisonResponse): (co2: real)
    ensures r.overallTop3 != [] ==> co2 == r.overallTop3[0].totalLifecycleCo2
    ensures r.overallTop3 == [] ==> co2 == 0.0
  {
    if |r.overallTop3| > 0 then r.overallTop3[0].totalLifecycleCo2 else 0.0
  }

  /** The badged card costs no more than any card of its section. */
  ghost predicate BadgeOnCheapest(section: seq<CarResult>)
  {
    forall i, j :: 0 <= i < |section| && 0 <= j < |section| && IsLowest(i) ==>
      section[i].totalLifecycleCo2 <= section[j].totalLifecycleCo2
  }

  /** Every list the service ranks puts its cheapest entry at index 0. */
  lemma BadgeOnCheapestRanked(vehicles: seq<Row>, lifetimeKm: real)
    ensures BadgeOnCheapest(Top3(vehicles, lifetimeKm))
  {
    var top := Top3(vehicles, lifetimeKm);
    Top3Ascending(vehicles, lifetimeKm);
    forall i, j | 0 <= i < |top| && 0 <= j < |top| && IsLowest(i)
      ensures top[i].totalLifecycleCo2 <= top[j].totalLifecycleCo2
    {
    }
  }

  /** On a response built by the service, the badged card of every section
      is the cheapest of that section, and the summary value is the lowest
      total of the overall list. */
  lemma LowestIsCheapest(rows: seq<Row>, request: ComparisonRequest)
    ensures var r := Comparison(rows, request);
            && BadgeOnCheapest(r.overallTop3) && BadgeOnCheapest(r.petrolDieselTop3)
            && BadgeOnCheapest(r.evTop3) && BadgeOnCheapest(r.hybridTop3)
            && forall c :: c in r.overallTop3 ==> TopCarCo2(r) <= c.totalLifecycleCo2
  {
    var r := Comparison(rows, request);
    var km := LifetimeKm(request.dailyMileage, request.ownershipYears);
    var segmentVehicles := SegmentVehicles(rows, request.vehicleSegment);
    BadgeOnCheapestRanked(Filter(segmentVehicles, IsRecent), km);
    BadgeOnCheapestRanked(Filter(segmentVehicles, IsPetrolOrDiesel), km);
    BadgeOnCheapestRanked(Filter(segmentVehicles, IsEv), km);
    BadgeOnCheapestRanked(Filter(segmentVehicles, IsHybrid), km);
    forall c | c in r.overallTop3
      ensures TopCarCo2(r) <= c.totalLifecycleCo2
    {
      var j :| 0 <= j < |r.overallTop3| && r.overallTop3[j] == c;
      assert IsLowest(0);
    }
  }

  /** On a response built by the service, a powertrain or year section is
      shown exactly when the requested segment has a row that qualifies for
      it. */
  lemma SectionShownIffCandidates(rows: seq<Row>, request: ComparisonRequest)
    ensures var r := Comparison(rows, request);
            var segment := request.vehicleSegment;
            && (SectionShown(r.overallTop3) <==> exists v :: v in rows && InSegment(segment, v) && IsRecent(v))
            && (SectionShown(r.petrolDieselTop3) <==>
                  exists v :: v in rows && InSegment(segment, v) && IsPetrolOrDiesel(v))
            && (SectionShown(r.evTop3) <==> exists v :: v in rows && InSegment(segment, v) && IsEv(v))
            && (SectionShown(r.hybridTop3) <==> exists v :: v in rows && InSegment(segment, v) && IsHybrid(v))
  {
    var km := LifetimeKm(request.dailyMileage, request.ownershipYears);
    var r := Comparison(rows, request);
    var segmentVehicles := SegmentVehicles(rows, request.vehicleSegment);
    assert r.overallTop3 == Top3(Filter(segmentVehicles, IsRecent), km);
    assert r.petrolDieselTop3 == Top3(Filter(segmentVehicles, IsPetrolOrDiesel), km);
    assert r.evTop3 == Top3(Filter(segmentVehicles, IsEv), km);
    assert r.hybridTop3 == Top3(Filter(segmentVehicles, IsHybrid), km);
    SectionNonEmpty(rows, request.vehicleSegment, IsRecent, km);
    SectionNonEmpty(rows, request.vehicleSegment, IsPetrolOrDiesel, km);
    SectionNonEmpty(rows, request.vehicleSegment, IsEv, km);
    SectionNonEmpty(rows, request.vehicleSegment, IsHybrid, km);
  }

  lemma SectionNonEmpty(rows: seq<Row>, segment: string, keep: Row -> bool, km: real)
    ensures Top3(Filter(SegmentVehicles(rows, segment), keep), km) != [] <==>
            exists v :: v in rows && InSegment(segment, v) && keep(v)
  {
    var selected := Filter(SegmentVehicles(rows, segment), keep);
    Top3EmptyExactly(selected, km);
    if selected != [] {
      assert selected[0] in selected;
    }
  }

  /** On a response built by the service the chart has at most twelve bars. */
  lemma ChartAtMostTwelve(rows: seq<Row>, request: ComparisonRequest)
    ensures |ChartCars(Comparison(rows, request))| <= 12
  {
    ListsAtMostThree(rows, request);
  }
}
