/**
 Exposure of a material to a nearby heat source: the coarse distance-to-flux
 step table and the four-band ignition-risk classifier with an absolute
 margin of 5 kW/m² around the material's critical flux.
 */
module Exposure {
  import opened Options
  import Catalog

  /** Incident radiative flux (kW/m²) at a distance (m) from the source. */
  function IncidentFlux(distance: real): (flux: real)
    ensures distance <= 1.0 <==> flux == 30.0
    ensures 1.0 < distance <= 2.0 <==> flux == 20.0
    ensures 2.0 < distance <= 3.0 <==> flux == 12.0
    ensures 3.0 < distance <==> flux == 8.0
  {
    if distance <= 1.0 then 30.0
    else if distance <= 2.0 then 20.0
    else if distance <= 3.0 then 12.0
    else 8.0
  }

  /** Moving away from the source never increases the incident flux. */
  lemma IncidentFluxNonIncreasing(d1: real, d2: real)
    requires d1 <= d2
    ensures IncidentFlux(d2) <= IncidentFlux(d1)
  {
  }

  /** The exact values at the slider positions 0.5, 2.0, 3.0 and 5.0 m. */
  lemma IncidentFluxExamples()
    ensures IncidentFlux(0.5) == 30.0
    ensures IncidentFlux(2.0) == 20.0
    ensures IncidentFlux(3.0) == 12.0
    ensures IncidentFlux(5.0) == 8.0
  {
  }

  /** Ignition risk, in increasing order of severity. */
  datatype Risk = Negligible | Low | Moderate | High
  {
    function Rank(): (n: nat)
      ensures n <= 3
    {
      match this
      case Negligible => 0
      case Low => 1
      case Moderate => 2
      case High => 3
    }

    predicate AtMost(other: Risk)
    {
      Rank() <= other.Rank()
    }
  }

  /** The width of each band either side of the critical flux (kW/m²). */
  const Margin: real := 5.0

  /** Risk of ignition of a material with critical flux `threshold` under flux `flux`. */
  function Classify(flux: real, threshold: real): (risk: Risk)
    ensures risk == High <==> threshold + Margin <= flux
    ensures risk == Moderate <==> threshold <= flux < threshold + Margin
    ensures risk == Low <==> threshold - Margin <= flux < threshold
    ensures risk == Negligible <==> flux < threshold - Margin
  {
    if flux >= threshold + Margin then High
    else if flux >= threshold then Moderate
    else if flux >= threshold - Margin then Low
    else Negligible
  }

  /** More flux never lowers the risk. */
  lemma ClassifyMonotoneInFlux(f1: real, f2: real, threshold: real)
    requires f1 <= f2
    ensures Classify(f1, threshold).AtMost(Classify(f2, threshold))
  {
  }

  /** A harder-to-ignite material (higher critical flux) never has the higher risk. */
  lemma ClassifyAntitoneInThreshold(flux: real, s1: real, s2: real)
    requires s1 <= s2
    ensures Classify(flux, s2).AtMost(Classify(flux, s1))
  {
  }

  /** Fluxes 5, 10, 15, 20, 25 against a critical flux of 15 give every band in order. */
  lemma ClassifyExample()
    ensures Classify(5.0, 15.0) == Negligible
    ensures Classify(10.0, 15.0) == Low
    ensures Classify(15.0, 15.0) == Moderate
    ensures Classify(20.0, 15.0) == High
    ensures Classify(25.0, 15.0) == High
  {
  }

  /**
   The risk shown for the selected choice at the given distance; there is no
   analysis when no material is selected.
   */
  function Assess(selected: string, distance: real): (r: Option<Risk>)
    requires Catalog.IsChoice(selected)
    ensures r.None? <==> selected == Catalog.NoMaterial
    ensures r.Some? ==>
      Catalog.Lookup(selected).Some? &&
      r.value == Classify(IncidentFlux(distance), Catalog.Lookup(selected).value.criticalFlux)
    ensures r.Some? && distance <= 1.0 ==> r.value == High
    ensures r.Some? && 3.0 < distance ==> r.value != High
  {
    if selected == Catalog.NoMaterial then None
    else
      var m := Catalog.Lookup(selected).value;
      Some(Classify(IncidentFlux(distance), m.criticalFlux))
  }

  /** Within one metre of the source every catalog material (the i-th entry) is at high risk. */
  lemma CloseRangeIsHighRisk(i: int, distance: real)
    requires 0 <= i < |Catalog.Entries|
    requires distance <= 1.0
    ensures Assess(Catalog.Entries[i].0, distance) == Some(High)
  {
    Catalog.LookupEntry(i);
    Catalog.NoMaterialIsNotAMaterial();
  }

  /** Moving a catalog material (the i-th entry) away from the source never raises its risk. */
  lemma AssessNonIncreasingWithDistance(i: int, d1: real, d2: real)
    requires 0 <= i < |Catalog.Entries|
    requires d1 <= d2
    ensures Assess(Catalog.Entries[i].0, d1).Some? && Assess(Catalog.Entries[i].0, d2).Some?
    ensures Assess(Catalog.Entries[i].0, d2).value.AtMost(Assess(Catalog.Entries[i].0, d1).value)
  {
    Catalog.LookupEntry(i);
    Catalog.NoMaterialIsNotAMaterial();
    IncidentFluxNonIncreasing(d1, d2);
    ClassifyMonotoneInFlux(IncidentFlux(d2), IncidentFlux(d1), Catalog.Entries[i].1.criticalFlux);
  }

  /** Wood (critical flux 12 kW/m²) three metres away receives exactly its critical flux. */
  lemma WoodAtThreeMetres()
    ensures Assess("Bois", 3.0) == Some(Moderate)
  {
    Catalog.LookupEntry(5);
  }
}
