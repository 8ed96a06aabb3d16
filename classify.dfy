/** The two classifiers the backend applies to every dataset row when it
    loads the data: the powertrain label from the fuel and vehicle-type
    fields, and the cleaned market segment from the EPA vehicle class. Both
    are chains of case-insensitive substring tests, first match wins. */
module Classify {
  import opened Text

  datatype Powertrain = EV | PlugInHybrid | Hybrid | Diesel | Petrol | Other

  /** The label written into the `Powertrain` column. */
  function PowertrainName(p: Powertrain): string
  {
    match p
    case EV => "EV"
    case PlugInHybrid => "Plug-in Hybrid"
    case Hybrid => "Hybrid"
    case Diesel => "Diesel"
    case Petrol => "Petrol"
    case Other => "Other"
  }

  /** `classify_powertrain` on a row's `fuelType1`, `fuelType2` and
      `atvType` fields (each already rendered as text). */
  function ClassifyPowertrain(fuelType1: string, fuelType2: string, atvType: string): Powertrain
  {
    ClassifyLowered(Lower(fuelType1), Lower(fuelType2), Lower(atvType))
  }

  /** The test chain on the lower-cased fields. */
  function ClassifyLowered(fuel1: string, fuel2: string, atv: string): Powertrain
  {
    if Contains(fuel1, "electricity") then EV
    else if Contains(atv, "plug-in") then PlugInHybrid
    else if Contains(fuel2, "electricity") then Hybrid
    else if Contains(fuel1, "diesel") then Diesel
    else if Contains(fuel1, "gasoline") then Petrol
    else Other
  }

  /** Distinct labels have distinct names, so comparing the `Powertrain`
      column against a name selects exactly one label. */
  lemma PowertrainNameInjective(a: Powertrain, b: Powertrain)
    requires PowertrainName(a) == PowertrainName(b)
    ensures a == b
  {
  }

  /** Electricity as the primary fuel makes a battery EV, whatever the
      vehicle type or secondary fuel say. */
  lemma ElectricPrimaryFuelIsEv(fuelType1: string, fuelType2: string, atvType: string)
    ensures ClassifyPowertrain(fuelType1, fuelType2, atvType) == EV <==>
            Contains(Lower(fuelType1), "electricity")
  {
  }

  /** The plug-in test comes before the secondary-fuel test: a plug-in with
      electricity as its second fuel is a plug-in hybrid, not a hybrid. */
  lemma PlugInBeforeSecondaryFuel(fuelType1: string, fuelType2: string, atvType: string)
    ensures ClassifyPowertrain(fuelType1, fuelType2, atvType) == PlugInHybrid <==>
            !Contains(Lower(fuelType1), "electricity") && Contains(Lower(atvType), "plug-in")
  {
  }

  /** A row is a (non-plug-in) hybrid exactly when electricity is only its
      secondary fuel and its vehicle type does not say plug-in. */
  lemma HybridExactly(fuelType1: string, fuelType2: string, atvType: string)
    ensures ClassifyPowertrain(fuelType1, fuelType2, atvType) == Hybrid <==>
            && !Contains(Lower(fuelType1), "electricity")
            && !Contains(Lower(atvType), "plug-in")
            && Contains(Lower(fuelType2), "electricity")
  {
  }

  /** Diesel is tested before gasoline; both need a non-electric row. */
  lemma CombustionLabels(fuelType1: string, fuelType2: string, atvType: string)
    ensures var p := ClassifyPowertrain(fuelType1, fuelType2, atvType);
            var plain := && !Contains(Lower(fuelType1), "electricity")
                         && !Contains(Lower(atvType), "plug-in")
                         && !Contains(Lower(fuelType2), "electricity");
            && (p == Diesel <==> plain && Contains(Lower(fuelType1), "diesel"))
            && (p == Petrol <==> plain && !Contains(Lower(fuelType1), "diesel") &&
                                 Contains(Lower(fuelType1), "gasoline"))
  {
  }

  /** The classification does not depend on letter case. */
  lemma ClassifyPowertrainIgnoresCase(fuelType1: string, fuelType2: string, atvType: string)
    ensures ClassifyPowertrain(Lower(fuelType1), Lower(fuelType2), Lower(atvType)) ==
            ClassifyPowertrain(fuelType1, fuelType2, atvType)
  {
    LowerIdempotent(fuelType1);
    LowerIdempotent(fuelType2);
    LowerIdempotent(atvType);
  }

  datatype Segment =
    | SuvSmall | SuvStandard
    | PickupSmall | PickupStandard
    | VanCargo | VanPassenger
    | SpecialPurpose
    | Unclassified

  /** The label written into the `Segment_Cleaned` column. */
  function SegmentName(s: Segment): string
  {
    match s
    case SuvSmall => "SUV (Small)"
    case SuvStandard => "SUV (Standard / Large)"
    case PickupSmall => "Pickup Truck (Small)"
    case PickupStandard => "Pickup Truck (Standard)"
    case VanCargo => "Van (Cargo)"
    case VanPassenger => "Van (Passenger / Minivan)"
    case SpecialPurpose => "Special Purpose Vehicle"
    case Unclassified => "Other"
  }

  const OtherSegment: string := "Other"

  /** The van test as written: "van" or "minivan". */
  predicate IsVanClass(lower: string)
  {
    Contains(lower, "van") || Contains(lower, "minivan")
  }

  /** `clean_segment` on the EPA `VClass` text. */
  function CleanSegment(vClass: string): Segment
  {
    CleanLowered(Lower(vClass))
  }

  /** The test chain on the lower-cased class. */
  function CleanLowered(lower: string): Segment
  {
    if Contains(lower, "sport utility") then
      if Contains(lower, "small") then SuvSmall else SuvStandard
    else if Contains(lower, "pickup") then
      if Contains(lower, "small") then PickupSmall else PickupStandard
    else if IsVanClass(lower) then
      if Contains(lower, "cargo") then VanCargo else VanPassenger
    else if Contains(lower, "special purpose") then SpecialPurpose
    else Unclassified
  }

  lemma SegmentNameInjective(a: Segment, b: Segment)
    requires SegmentName(a) == SegmentName(b)
    ensures a == b
  {
  }

  /** Only an unclassified vehicle class is named "Other". */
  lemma OtherNameOnlyForUnclassified(s: Segment)
    ensures SegmentName(s) == OtherSegment <==> s == Unclassified
  {
  }

  /** "sport utility" is tested first: it alone decides the SUV labels, and
      "small" picks the small one. */
  lemma SportUtilityFirst(vClass: string)
    ensures var s := CleanSegment(vClass);
            var lower := Lower(vClass);
            && ((s == SuvSmall || s == SuvStandard) <==> Contains(lower, "sport utility"))
            && (s == SuvSmall <==> Contains(lower, "sport utility") && Contains(lower, "small"))
  {
  }

  /** "pickup" is tested after "sport utility" and before the van test. */
  lemma PickupBeforeVan(vClass: string)
    ensures var s := CleanSegment(vClass);
            var lower := Lower(vClass);
            && ((s == PickupSmall || s == PickupStandard) <==>
                !Contains(lower, "sport utility") && Contains(lower, "pickup"))
            && (s == PickupSmall <==>
                !Contains(lower, "sport utility") && Contains(lower, "pickup") && Contains(lower, "small"))
  {
  }

  /** The "minivan" alternative of the van test never decides anything:
      every string containing "minivan" contains "van". */
  lemma {:induction false} MinivanTestRedundant(lower: string)
    ensures IsVanClass(lower) == Contains(lower, "van")
  {
    if Contains(lower, "minivan") {
      MinivanContainsVan(lower);
    }
  }

  /** Van labels need neither "sport utility" nor "pickup"; "cargo" picks
      the cargo van. */
  lemma VanAfterPickup(vClass: string)
    ensures var s := CleanSegment(vClass);
            var lower := Lower(vClass);
            var van := !Contains(lower, "sport utility") && !Contains(lower, "pickup") &&
                       Contains(lower, "van");
            && ((s == VanCargo || s == VanPassenger) <==> van)
            && (s == VanCargo <==> van && Contains(lower, "cargo"))
  {
    MinivanTestRedundant(Lower(vClass));
  }

  /** A class that matches none of the four tests is "Other". */
  lemma UnclassifiedExactly(vClass: string)
    ensures var lower := Lower(vClass);
            CleanSegment(vClass) == Unclassified <==>
            && !Contains(lower, "sport utility")
            && !Contains(lower, "pickup")
            && !Contains(lower, "van")
            && !Contains(lower, "special purpose")
  {
    MinivanTestRedundant(Lower(vClass));
  }

  /** The segment does not depend on letter case. */
  lemma CleanSegmentIgnoresCase(vClass: string)
    ensures CleanSegment(Lower(vClass)) == CleanSegment(vClass)
  {
    LowerIdempotent(vClass);
  }
}
