/** The ranking step of the comparison service: one dataset row per vehicle
    variant, the gram-per-mile to kilogram-per-kilometre conversion, and
    `get_top_3`, which keeps the newest year of every (make, model), prices
    each in lifecycle CO2 over a given distance, and returns the three
    cheapest. */
module Ranking {
  import opened Text
  import opened Collections
  import opened Classify

  /** One row of the vehicle dataset (the columns the service reads). */
  datatype Row = Row(
    make: string,
    model: string,
    year: int,
    fuelType1: string,
    fuelType2: string,
    atvType: string,
    vClass: string,
    co2TailpipeGpm: real,
    totalManufacturingCo2Kg: real)

  /** The `Segment_Cleaned` column, derived from `VClass` at load time. */
  function SegmentCleaned(r: Row): string
  {
    SegmentName(CleanSegment(r.vClass))
  }

  /** The `Powertrain` column, derived from the fuel fields at load time. */
  function PowertrainOf(r: Row): Powertrain
  {
    ClassifyPowertrain(r.fuelType1, r.fuelType2, r.atvType)
  }

  /** One entry of a top-3 list. */
  datatype CarResult = CarResult(
    make: string,
    model: string,
    year: int,
    manufacturingCo2: real,
    usePhaseCo2: real,
    totalLifecycleCo2: real)

  const GramsPerKilogram: real := 1000.0
  const KmPerMile: real := 1.60934

  /** Tailpipe grams per mile to kilograms per kilometre. */
  function ConvertGpmToKgPerKm(gpm: real): (kgPerKm: real)
    ensures kgPerKm * GramsPerKilogram * KmPerMile == gpm
  {
    if gpm == 0.0 then 0.0 else (gpm / GramsPerKilogram) / KmPerMile
  }

  /** The zero short-cut agrees with the formula, and emissions never turn
      negative or decrease when the tailpipe figure grows. */
  lemma ConvertGpmMonotone(gpm1: real, gpm2: real)
    requires 0.0 <= gpm1 <= gpm2
    ensures ConvertGpmToKgPerKm(0.0) == 0.0
    ensures 0.0 <= ConvertGpmToKgPerKm(gpm1) <= ConvertGpmToKgPerKm(gpm2)
  {
    var k1, k2 := ConvertGpmToKgPerKm(gpm1), ConvertGpmToKgPerKm(gpm2);
    assert k1 * (GramsPerKilogram * KmPerMile) == gpm1;
    assert k2 * (GramsPerKilogram * KmPerMile) == gpm2;
  }

  /** The lifecycle figures of one row over `lifetimeKm` kilometres. */
  function CarOf(v: Row, lifetimeKm: real): (c: CarResult)
    ensures c.make == v.make && c.model == v.model && c.year == v.year
    ensures c.manufacturingCo2 == v.totalManufacturingCo2Kg
    ensures c.totalLifecycleCo2 == c.manufacturingCo2 + c.usePhaseCo2
    ensures c.usePhaseCo2 * GramsPerKilogram * KmPerMile == v.co2TailpipeGpm * lifetimeKm
  {
    var kgPerKm := ConvertGpmToKgPerKm(v.co2TailpipeGpm);
    var usePhase := kgPerKm * lifetimeKm;
    CarResult(v.make, v.model, v.year, v.totalManufacturingCo2Kg, usePhase,
              v.totalManufacturingCo2Kg + usePhase)
  }

  function Cars(rows: seq<Row>, lifetimeKm: real): (cs: seq<CarResult>)
    ensures |cs| == |rows|
    ensures forall i :: 0 <= i < |rows| ==> cs[i] == CarOf(rows[i], lifetimeKm)
  {
    seq(|rows|, i requires 0 <= i < |rows| => CarOf(rows[i], lifetimeKm))
  }

  function PairOf(r: Row): (string, string)
  {
    (r.make, r.model)
  }

  predicate SamePair(a: Row, b: Row)
  {
    a.make == b.make && a.model == b.model
  }

  /** `(make, model)` ascending in Python string order. */
  predicate PairLess(a: Row, b: Row)
  {
    StrLess(a.make, b.make) || (a.make == b.make && StrLess(a.model, b.model))
  }

  /** `sort_values(by=["make", "model", "year"], ascending=[True, True, False])`. */
  predicate NewestFirst(a: Row, b: Row)
  {
    PairLess(a, b) || (SamePair(a, b) && a.year >= b.year)
  }

  lemma NewestFirstTotalPreorder()
    ensures TotalPreorder(NewestFirst)
  {
    forall a: Row, b: Row
      ensures NewestFirst(a, b) || NewestFirst(b, a)
    {
      if a.make != b.make {
        StrLessTotal(a.make, b.make);
      } else if a.model != b.model {
        StrLessTotal(a.model, b.model);
      }
    }
    forall a: Row, b: Row, c: Row | NewestFirst(a, b) && NewestFirst(b, c)
      ensures NewestFirst(a, c)
    {
      if StrLess(a.make, b.make) && StrLess(b.make, c.make) {
        StrLessTransitive(a.make, b.make, c.make);
      }
      if a.make == b.make == c.make && StrLess(a.model, b.model) && StrLess(b.model, c.model) {
        StrLessTransitive(a.model, b.model, c.model);
      }
    }
  }

  /** The de-duplicated frame: sorted newest-first within each (make, model),
      then the first row of each pair kept. */
  function Latest(rows: seq<Row>): seq<Row>
  {
    DropDuplicates(SortBy(rows, NewestFirst), PairOf)
  }

  /** Every kept row is a row of the input. */
  lemma LatestFromInput(rows: seq<Row>)
    ensures forall r :: r in Latest(rows) ==> r in rows
  {
    var sorted := SortBy(rows, NewestFirst);
    forall r | r in Latest(rows)
      ensures r in rows
    {
      assert r in sorted;
      assert r in multiset(sorted);
    }
  }

  /** No two kept rows share (make, model). */
  lemma LatestDistinctPairs(rows: seq<Row>)
    ensures forall i, j :: 0 <= i < j < |Latest(rows)| ==> !SamePair(Latest(rows)[i], Latest(rows)[j])
  {
    KeepFirstDistinctKeys(SortBy(rows, NewestFirst), PairOf, {});
  }

  /** Every (make, model) of the input keeps a row. */
  lemma LatestCoversPairs(rows: seq<Row>)
    ensures forall q :: q in rows ==> exists r :: r in Latest(rows) && SamePair(r, q)
  {
    var sorted := SortBy(rows, NewestFirst);
    forall q | q in rows
      ensures exists r :: r in Latest(rows) && SamePair(r, q)
    {
      assert q in multiset(sorted);
      var k :| 0 <= k < |sorted| && sorted[k] == q;
      KeepFirstCoversKeys(sorted, PairOf, {}, k);
      var r :| r in Latest(rows) && PairOf(r) == PairOf(q);
      assert r.make == PairOf(r).0 == PairOf(q).0 == q.make;
      assert r.model == PairOf(r).1 == PairOf(q).1 == q.model;
    }
  }

  /** The kept row of a pair has the newest model year of that pair. */
  lemma LatestIsNewest(rows: seq<Row>)
    ensures forall r, q :: r in Latest(rows) && q in rows && SamePair(q, r) ==> q.year <= r.year
  {
    var sorted := SortBy(rows, NewestFirst);
    NewestFirstTotalPreorder();
    SortBySorted(rows, NewestFirst);
    forall r, q | r in Latest(rows) && q in rows && SamePair(q, r)
      ensures q.year <= r.year
    {
      KeepFirstIsFirst(sorted, PairOf, {}, r);
      var j :| 0 <= j < |sorted| && sorted[j] == r &&
                forall k :: 0 <= k < j ==> PairOf(sorted[k]) != PairOf(r);
      assert q in multiset(sorted);
      var m :| 0 <= m < |sorted| && sorted[m] == q;
      if m != j {
        assert PairOf(sorted[m]) == PairOf(r);
        assert j < m;
        assert NewestFirst(sorted[j], sorted[m]);
        StrLessIrreflexive(r.make);
        StrLessIrreflexive(r.model);
      }
    }
  }

  /** Ordering of `list.sort(key=lambda x: x["_sort"])`. */
  predicate TotalLe(a: CarResult, b: CarResult)
  {
    a.totalLifecycleCo2 <= b.totalLifecycleCo2
  }

  lemma TotalLeTotalPreorder()
    ensures TotalPreorder(TotalLe)
  {
  }

  function Take3<T>(s: seq<T>): (r: seq<T>)
  {
    if |s| <= 3 then s else s[..3]
  }

  /** What `get_top_3` returns: the newest row of every (make, model),
      ranked by unrounded lifecycle total, cut to three. */
  function Top3(vehicles: seq<Row>, lifetimeKm: real): seq<CarResult>
  {
    if |vehicles| == 0 then []
    else Take3(SortBy(Cars(Latest(vehicles), lifetimeKm), TotalLe))
  }

  /** `get_top_3`: the loop builds one result per de-duplicated row, the list
      is sorted by total in place, and the first three are returned. */
  method GetTop3(vehicles: seq<Row>, lifetimeKm: real) returns (top: seq<CarResult>)
    ensures top == Top3(vehicles, lifetimeKm)
  {
    if |vehicles| == 0 {
      return [];
    }
    var latest := Latest(vehicles);
    var results: seq<CarResult> := [];
    for i := 0 to |latest|
      invariant results == Cars(latest[..i], lifetimeKm)
    {
      var vehicle := latest[i];
      var kgPerKm := ConvertGpmToKgPerKm(vehicle.co2TailpipeGpm);
      var usePhaseCo2 := kgPerKm * lifetimeKm;
      var manufacturingCo2 := vehicle.totalManufacturingCo2Kg;
      var totalLifecycleCo2 := manufacturingCo2 + usePhaseCo2;
      assert Cars(latest[..i + 1], lifetimeKm) == Cars(latest[..i], lifetimeKm) + [CarOf(vehicle, lifetimeKm)];
      var car := CarResult(vehicle.make, vehicle.model, vehicle.year,
                           manufacturingCo2, usePhaseCo2, totalLifecycleCo2);
      assert car == CarOf(vehicle, lifetimeKm);
      results := results + [car];
    }
    assert latest[..|latest|] == latest;
    results := SortBy(results, TotalLe);
    top := Take3(results);
  }

  /** Every ranked entry prices some kept row. */
  lemma RankedFromLatest(vehicles: seq<Row>, lifetimeKm: real, c: CarResult)
    requires c in Top3(vehicles, lifetimeKm)
    ensures exists r :: r in Latest(vehicles) && CarOf(r, lifetimeKm) == c
  {
    var cars := Cars(Latest(vehicles), lifetimeKm);
    var sorted := SortBy(cars, TotalLe);
    assert c in sorted;
    assert c in multiset(cars);
    var i :| 0 <= i < |cars| && cars[i] == c;
    assert Latest(vehicles)[i] in Latest(vehicles);
  }

  /** An empty frame gives an empty list, and only an empty frame does. */
  lemma Top3EmptyExactly(vehicles: seq<Row>, lifetimeKm: real)
    ensures Top3(vehicles, lifetimeKm) == [] <==> vehicles == []
  {
    if vehicles != [] {
      LatestCoversPairs(vehicles);
      assert vehicles[0] in vehicles;
      var r :| r in Latest(vehicles) && SamePair(r, vehicles[0]);
      assert |SortBy(Cars(Latest(vehicles), lifetimeKm), TotalLe)| == |Latest(vehicles)|;
    }
  }

  /** At most three entries: three when the frame has three or more
      distinct (make, model) pairs, otherwise one per pair. */
  lemma Top3Size(vehicles: seq<Row>, lifetimeKm: real)
    ensures |Top3(vehicles, lifetimeKm)| <= 3
    ensures |Top3(vehicles, lifetimeKm)| == if |Latest(vehicles)| < 3 then |Latest(vehicles)| else 3
  {
    var sorted := SortBy(Cars(Latest(vehicles), lifetimeKm), TotalLe);
    assert |sorted| == |multiset(sorted)| == |Latest(vehicles)|;
  }

  /** Every entry is the lifecycle figure of an input row, so its
      (make, model, year) occurs in the input. */
  lemma Top3FromInput(vehicles: seq<Row>, lifetimeKm: real)
    ensures forall c :: c in Top3(vehicles, lifetimeKm) ==>
              exists v :: v in vehicles && CarOf(v, lifetimeKm) == c
  {
    LatestFromInput(vehicles);
    forall c | c in Top3(vehicles, lifetimeKm)
      ensures exists v :: v in vehicles && CarOf(v, lifetimeKm) == c
    {
      RankedFromLatest(vehicles, lifetimeKm, c);
    }
  }

  /** Every entry carries the newest model year of its (make, model). */
  lemma Top3NewestYear(vehicles: seq<Row>, lifetimeKm: real)
    ensures forall c, q ::
              (c in Top3(vehicles, lifetimeKm) && q in vehicles && q.make == c.make && q.model == c.model) ==>
              q.year <= c.year
  {
    LatestIsNewest(vehicles);
    forall c, q | c in Top3(vehicles, lifetimeKm) && q in vehicles && q.make == c.make && q.model == c.model
      ensures q.year <= c.year
    {
      RankedFromLatest(vehicles, lifetimeKm, c);
      var r :| r in Latest(vehicles) && CarOf(r, lifetimeKm) == c;
      assert SamePair(q, r);
    }
  }

  /** No two entries share (make, model). */
  ghost predicate DistinctPairs(cs: seq<CarResult>)
  {
    forall i, j :: 0 <= i < j < |cs| ==> (cs[i].make, cs[i].model) != (cs[j].make, cs[j].model)
  }

  /** Reordering keeps pairs distinct. */
  lemma PermutedPairsDistinct(cs: seq<CarResult>, ds: seq<CarResult>)
    requires multiset(cs) == multiset(ds)
    requires DistinctPairs(cs)
    ensures DistinctPairs(ds)
  {
    assert Distinct(cs);
    PermutationDistinct(cs, ds);
    forall i, j | 0 <= i < j < |ds|
      ensures (ds[i].make, ds[i].model) != (ds[j].make, ds[j].model)
    {
      assert ds[i] in multiset(cs) && ds[j] in multiset(cs);
      var a :| 0 <= a < |cs| && cs[a] == ds[i];
      var b :| 0 <= b < |cs| && cs[b] == ds[j];
      assert a != b;
    }
  }

  /** No (make, model) appears twice. */
  lemma Top3DistinctPairs(vehicles: seq<Row>, lifetimeKm: real)
    ensures DistinctPairs(Top3(vehicles, lifetimeKm))
  {
    if vehicles != [] {
      var latest := Latest(vehicles);
      var cars := Cars(latest, lifetimeKm);
      LatestDistinctPairs(vehicles);
      assert DistinctPairs(cars) by {
        forall a, b | 0 <= a < b < |cars|
          ensures (cars[a].make, cars[a].model) != (cars[b].make, cars[b].model)
        {
          assert !SamePair(latest[a], latest[b]);
        }
      }
      PermutedPairsDistinct(cars, SortBy(cars, TotalLe));
    }
  }

  /** Entries are in ascending order of (unrounded) lifecycle total. */
  lemma Top3Ascending(vehicles: seq<Row>, lifetimeKm: real)
    ensures var top := Top3(vehicles, lifetimeKm);
            forall i, j :: 0 <= i < j < |top| ==> top[i].totalLifecycleCo2 <= top[j].totalLifecycleCo2
  {
    if vehicles != [] {
      TotalLeTotalPreorder();
      SortBySorted(Cars(Latest(vehicles), lifetimeKm), TotalLe);
    }
  }

  /** A kept row left out of the list costs at least as much as every
      entry of it. */
  lemma Top3Cheapest(vehicles: seq<Row>, lifetimeKm: real, r: Row)
    requires r in Latest(vehicles)
    requires CarOf(r, lifetimeKm) !in Top3(vehicles, lifetimeKm)
    ensures forall c :: c in Top3(vehicles, lifetimeKm) ==>
              c.totalLifecycleCo2 <= CarOf(r, lifetimeKm).totalLifecycleCo2
  {
    var top := Top3(vehicles, lifetimeKm);
    var cars := Cars(Latest(vehicles), lifetimeKm);
    var sorted := SortBy(cars, TotalLe);
    var car := CarOf(r, lifetimeKm);
    LatestFromInput(vehicles);
    assert vehicles != [];
    var k :| 0 <= k < |Latest(vehicles)| && Latest(vehicles)[k] == r;
    assert cars[k] == car;
    TotalLeTotalPreorder();
    SortBySorted(cars, TotalLe);
    assert car in multiset(sorted);
    assert top == sorted[..|top|];
    SortedPrefixBelow(sorted, TotalLe, |top|, car);
  }

  /** The first entry is the cheapest of all kept rows. */
  lemma Top3FirstIsMinimum(vehicles: seq<Row>, lifetimeKm: real, r: Row)
    requires r in Latest(vehicles)
    ensures Top3(vehicles, lifetimeKm) != []
    ensures Top3(vehicles, lifetimeKm)[0].totalLifecycleCo2 <= CarOf(r, lifetimeKm).totalLifecycleCo2
  {
    var cars := Cars(Latest(vehicles), lifetimeKm);
    LatestFromInput(vehicles);
    assert vehicles != [];
    assert CarOf(r, lifetimeKm) in cars;
    TotalLeTotalPreorder();
    SortedFirstIsLeast(cars, TotalLe, CarOf(r, lifetimeKm));
  }
}
