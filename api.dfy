/** The two request handlers of the comparison service that carry logic:
    `/compare`, which validates a request and fills four top-3 lists from
    the requested segment, and `/segments`, which lists the segments a
    request may name. The loaded dataset is a parameter: `None` before it
    was loaded. */
module Api {
  import opened Wrappers
  import opened Text
  import opened Collections
  import opened Classify
  import opened Ranking

  datatype ComparisonRequest = ComparisonRequest(
    dailyMileage: real,
    ownershipYears: real,
    vehicleSegment: string)

  datatype ComparisonResponse = ComparisonResponse(
    lifetimeKm: real,
    overallTop3: seq<CarResult>,
    petrolDieselTop3: seq<CarResult>,
    evTop3: seq<CarResult>,
    hybridTop3: seq<CarResult>)

  /** An `HTTPException`: status code and `detail` text. */
  datatype HttpError = HttpError(status: int, detail: string)

  const DatasetNotLoaded: string := "Dataset not loaded"
  const MileageNotPositive: string := "Daily mileage must be greater than 0"
  const YearsNotPositive: string := "Ownership years must be greater than 0"
  const SegmentRequired: string := "Vehicle segment is required"

  /** `df is not None and not df.empty`. */
  predicate Loaded(df: Option<seq<Row>>)
  {
    df.Some? && |df.value| > 0
  }

  /** Kilometres driven over the ownership period. */
  function LifetimeKm(dailyMileage: real, ownershipYears: real): (km: real)
    ensures dailyMileage > 0.0 && ownershipYears > 0.0 ==> km > 0.0
  {
    dailyMileage * 365.0 * ownershipYears
  }

  predicate InSegment(segment: string, r: Row)
  {
    SegmentCleaned(r) == segment
  }

  /** `df[df["Segment_Cleaned"] == segment]`. */
  function SegmentVehicles(rows: seq<Row>, segment: string): seq<Row>
  {
    Filter(rows, r => InSegment(segment, r))
  }

  /** Section 1 rows: model years 2023 to 2026. */
  predicate IsRecent(r: Row)
  {
    r.year in {2023, 2024, 2025, 2026}
  }

  /** The year list is the range 2023 to 2026. */
  lemma RecentRange(r: Row)
    ensures IsRecent(r) <==> 2023 <= r.year <= 2026
  {
  }

  /** Section 2 rows: the `Powertrain` column is "Petrol" or "Diesel". */
  predicate IsPetrolOrDiesel(r: Row)
  {
    PowertrainName(PowertrainOf(r)) in {"Petrol", "Diesel"}
  }

  /** Section 3 rows: the `Powertrain` column is "EV". */
  predicate IsEv(r: Row)
  {
    PowertrainName(PowertrainOf(r)) == "EV"
  }

  /** Section 4 rows: the `Powertrain` column is "Hybrid". */
  predicate IsHybrid(r: Row)
  {
    PowertrainName(PowertrainOf(r)) == "Hybrid"
  }

  /** Testing the name against "Petrol" and "Diesel" selects exactly those
      two labels. */
  lemma PetrolOrDieselByName(p: Powertrain)
    ensures PowertrainName(p) in {"Petrol", "Diesel"} <==> p in {Petrol, Diesel}
  {
  }

  /** Comparing the label with "EV" selects exactly the EV rows. */
  lemma EvByName(r: Row)
    ensures IsEv(r) <==> PowertrainOf(r) == EV
  {
    if IsEv(r) {
      PowertrainNameInjective(PowertrainOf(r), EV);
    }
  }

  /** Comparing the label with "Hybrid" selects exactly the Hybrid rows,
      not the plug-in ones. */
  lemma HybridByName(r: Row)
    ensures IsHybrid(r) <==> PowertrainOf(r) == Hybrid
  {
    if IsHybrid(r) {
      PowertrainNameInjective(PowertrainOf(r), Hybrid);
    }
  }

  /** The response `/compare` builds from a validated request. */
  function Comparison(rows: seq<Row>, request: ComparisonRequest): ComparisonResponse
  {
    var km := LifetimeKm(request.dailyMileage, request.ownershipYears);
    var segmentVehicles := SegmentVehicles(rows, request.vehicleSegment);
    ComparisonResponse(
      km,
      Top3(Filter(segmentVehicles, IsRecent), km),
      Top3(Filter(segmentVehicles, IsPetrolOrDiesel), km),
      Top3(Filter(segmentVehicles, IsEv), km),
      Top3(Filter(segmentVehicles, IsHybrid), km))
  }

  /** `compare_vehicles`: the checks run in a fixed order and the first
      failing one decides the error; a request that passes all of them gets
      the four lists. */
  method CompareVehicles(df: Option<seq<Row>>, request: ComparisonRequest)
    returns (response: Result<ComparisonResponse, HttpError>)
    ensures !Loaded(df) ==> response == Failure(HttpError(500, DatasetNotLoaded))
    ensures Loaded(df) && request.dailyMileage <= 0.0 ==>
              response == Failure(HttpError(400, MileageNotPositive))
    ensures Loaded(df) && request.dailyMileage > 0.0 && request.ownershipYears <= 0.0 ==>
              response == Failure(HttpError(400, YearsNotPositive))
    ensures Loaded(df) && request.dailyMileage > 0.0 && request.ownershipYears > 0.0 &&
            request.vehicleSegment == "" ==>
              response == Failure(HttpError(400, SegmentRequired))
    ensures response.Success? <==>
              Loaded(df) && request.dailyMileage > 0.0 && request.ownershipYears > 0.0 &&
              request.vehicleSegment != ""
    ensures response.Success? ==> response.value == Comparison(df.value, request)
  {
    if df.None? || |df.value| == 0 {
      return Failure(HttpError(500, DatasetNotLoaded));
    }
    if request.dailyMileage <= 0.0 {
      return Failure(HttpError(400, MileageNotPositive));
    }
    if request.ownershipYears <= 0.0 {
      return Failure(HttpError(400, YearsNotPositive));
    }
    if request.vehicleSegment == "" {
      return Failure(HttpError(400, SegmentRequired));
    }
    var lifetimeKm := LifetimeKm(request.dailyMileage, request.ownershipYears);
    var segmentVehicles := SegmentVehicles(df.value, request.vehicleSegment);
    var overallTop3 := GetTop3(Filter(segmentVehicles, IsRecent), lifetimeKm);
    var petrolDieselTop3 := GetTop3(Filter(segmentVehicles, IsPetrolOrDiesel), lifetimeKm);
    var evTop3 := GetTop3(Filter(segmentVehicles, IsEv), lifetimeKm);
    var hybridTop3 := GetTop3(Filter(segmentVehicles, IsHybrid), lifetimeKm);
    return Success(ComparisonResponse(lifetimeKm, overallTop3, petrolDieselTop3, evTop3, hybridTop3));
  }

  /** Every entry of a list drawn from `selected` prices a row of the
      requested segment that passes `keep`. */
  lemma {:induction false} SectionDrawsFrom(rows: seq<Row>, segment: string, keep: Row -> bool, km: real)
    ensures forall c :: c in Top3(Filter(SegmentVehicles(rows, segment), keep), km) ==>
              exists v :: v in rows && InSegment(segment, v) && keep(v) && CarOf(v, km) == c
  {
    Top3FromInput(Filter(SegmentVehicles(rows, segment), keep), km);
  }

  /** The overall list only ranks 2023-2026 vehicles of the segment. */
  lemma OverallIsRecent(rows: seq<Row>, request: ComparisonRequest)
    ensures var response := Comparison(rows, request);
            forall c :: c in response.overallTop3 ==>
              exists v :: v in rows && InSegment(request.vehicleSegment, v) &&
                          2023 <= v.year <= 2026 && CarOf(v, response.lifetimeKm) == c
  {
    var km := LifetimeKm(request.dailyMileage, request.ownershipYears);
    SectionDrawsFrom(rows, request.vehicleSegment, IsRecent, km);
    var response := Comparison(rows, request);
    assert response.overallTop3 == Top3(Filter(SegmentVehicles(rows, request.vehicleSegment), IsRecent), km);
    forall c | c in response.overallTop3
      ensures exists v :: v in rows && InSegment(request.vehicleSegment, v) &&
                          2023 <= v.year <= 2026 && CarOf(v, km) == c
    {
      var v :| v in rows && InSegment(request.vehicleSegment, v) && IsRecent(v) && CarOf(v, km) == c;
      RecentRange(v);
    }
  }

  /** The petrol/diesel list only ranks petrol and diesel rows. */
  lemma PetrolDieselIsCombustion(rows: seq<Row>, request: ComparisonRequest)
    ensures var response := Comparison(rows, request);
            forall c :: c in response.petrolDieselTop3 ==>
              exists v :: v in rows && InSegment(request.vehicleSegment, v) &&
                          PowertrainOf(v) in {Petrol, Diesel} && CarOf(v, response.lifetimeKm) == c
  {
    var km := LifetimeKm(request.dailyMileage, request.ownershipYears);
    SectionDrawsFrom(rows, request.vehicleSegment, IsPetrolOrDiesel, km);
    var response := Comparison(rows, request);
    assert response.petrolDieselTop3 == Top3(Filter(SegmentVehicles(rows, request.vehicleSegment), IsPetrolOrDiesel), km);
    forall c | c in response.petrolDieselTop3
      ensures exists v :: v in rows && InSegment(request.vehicleSegment, v) &&
                          PowertrainOf(v) in {Petrol, Diesel} && CarOf(v, km) == c
    {
      var v :| v in rows && InSegment(request.vehicleSegment, v) && IsPetrolOrDiesel(v) && CarOf(v, km) == c;
      PetrolOrDieselByName(PowertrainOf(v));
    }
  }

  /** The EV list only ranks battery-electric rows. */
  lemma EvIsElectric(rows: seq<Row>, request: ComparisonRequest)
    ensures var response := Comparison(rows, request);
            forall c :: c in response.evTop3 ==>
              exists v :: v in rows && InSegment(request.vehicleSegment, v) &&
                          PowertrainOf(v) == EV && CarOf(v, response.lifetimeKm) == c
  {
    var km := LifetimeKm(request.dailyMileage, request.ownershipYears);
    SectionDrawsFrom(rows, request.vehicleSegment, IsEv, km);
    var response := Comparison(rows, request);
    assert response.evTop3 == Top3(Filter(SegmentVehicles(rows, request.vehicleSegment), IsEv), km);
    forall c | c in response.evTop3
      ensures exists v :: v in rows && InSegment(request.vehicleSegment, v) &&
                          PowertrainOf(v) == EV && CarOf(v, km) == c
    {
      var v :| v in rows && InSegment(request.vehicleSegment, v) && IsEv(v) && CarOf(v, km) == c;
      EvByName(v);
    }
  }

  /** The hybrid list only ranks "Hybrid" rows: plug-in hybrids are in
      none of the powertrain lists. */
  lemma HybridExcludesPlugIn(rows: seq<Row>, request: ComparisonRequest)
    ensures var response := Comparison(rows, request);
            forall c :: c in response.hybridTop3 ==>
              exists v :: v in rows && InSegment(request.vehicleSegment, v) &&
                          PowertrainOf(v) == Hybrid && CarOf(v, response.lifetimeKm) == c
  {
    var km := LifetimeKm(request.dailyMileage, request.ownershipYears);
    SectionDrawsFrom(rows, request.vehicleSegment, IsHybrid, km);
    var response := Comparison(rows, request);
    assert response.hybridTop3 == Top3(Filter(SegmentVehicles(rows, request.vehicleSegment), IsHybrid), km);
    forall c | c in response.hybridTop3
      ensures exists v :: v in rows && InSegment(request.vehicleSegment, v) &&
                          PowertrainOf(v) == Hybrid && CarOf(v, km) == c
    {
      var v :| v in rows && InSegment(request.vehicleSegment, v) && IsHybrid(v) && CarOf(v, km) == c;
      HybridByName(v);
    }
  }

  /** Each of the four lists holds at most three entries. */
  lemma ListsAtMostThree(rows: seq<Row>, request: ComparisonRequest)
    ensures var response := Comparison(rows, request);
            && |response.overallTop3| <= 3 && |response.petrolDieselTop3| <= 3
            && |response.evTop3| <= 3 && |response.hybridTop3| <= 3
  {
    var km := LifetimeKm(request.dailyMileage, request.ownershipYears);
    var segmentVehicles := SegmentVehicles(rows, request.vehicleSegment);
    Top3Size(Filter(segmentVehicles, IsRecent), km);
    Top3Size(Filter(segmentVehicles, IsPetrolOrDiesel), km);
    Top3Size(Filter(segmentVehicles, IsEv), km);
    Top3Size(Filter(segmentVehicles, IsHybrid), km);
  }

  /** The `Segment_Cleaned` values other than "Other", in row order. */
  function NamedSegments(rows: seq<Row>): (names: seq<string>)
    ensures forall x :: x in names <==> x != OtherSegment && exists r :: r in rows && SegmentCleaned(r) == x
  {
    if rows == [] then []
    else
      var name := SegmentCleaned(rows[0]);
      assert rows == [rows[0]] + rows[1..];
      (if name != OtherSegment then [name] else []) + NamedSegments(rows[1..])
  }

  function SameText(x: string): string
  {
    x
  }

  /** `sorted(... .unique().tolist())` over the named segments. */
  function SegmentList(rows: seq<Row>): seq<string>
  {
    SortBy(DropDuplicates(NamedSegments(rows), SameText), StrLe)
  }

  /** `get_vehicle_segments`: the distinct segment names other than
      "Other", sorted. */
  function GetVehicleSegments(df: Option<seq<Row>>): (r: Result<seq<string>, HttpError>)
    ensures r.Failure? <==> !Loaded(df)
    ensures r.Failure? ==> r.error == HttpError(500, DatasetNotLoaded)
    ensures r.Success? ==> SortedBy(r.value, StrLe) && Distinct(r.value)
    ensures r.Success? ==> OtherSegment !in r.value
    ensures r.Success? ==> forall x :: x in r.value <==>
              x != OtherSegment && exists row :: row in df.value && SegmentCleaned(row) == x
  {
    if !Loaded(df) then Failure(HttpError(500, DatasetNotLoaded))
    else
      SegmentListSorted(df.value);
      SegmentListMembers(df.value);
      Success(SegmentList(df.value))
  }

  /** The list is in ascending order and repeats no name. */
  lemma SegmentListSorted(rows: seq<Row>)
    ensures SortedBy(SegmentList(rows), StrLe) && Distinct(SegmentList(rows))
  {
    var unique := DropDuplicates(NamedSegments(rows), SameText);
    KeepFirstDistinctKeys(NamedSegments(rows), SameText, {});
    assert Distinct(unique);
    StrLeTotalPreorder();
    SortBySorted(unique, StrLe);
    PermutationDistinct(unique, SegmentList(rows));
  }

  /** A name is listed exactly when some row has it and it is not "Other". */
  lemma SegmentListMembers(rows: seq<Row>)
    ensures forall x :: x in SegmentList(rows) <==>
              x != OtherSegment && exists row :: row in rows && SegmentCleaned(row) == x
  {
    var named := NamedSegments(rows);
    var unique := DropDuplicates(named, SameText);
    forall x | x in named
      ensures x in unique
    {
      var k :| 0 <= k < |named| && named[k] == x;
      KeepFirstCoversKeys(named, SameText, {}, k);
    }
    forall x
      ensures x in SegmentList(rows) <==> x in named
    {
      assert x in SegmentList(rows) <==> x in multiset(unique);
    }
  }
}
