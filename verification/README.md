# Tunnel fire-load calculator — a Dafny model of its arithmetic core

The calculator estimates the calorific load of combustible materials installed
in a tunnel and draws a cumulative heat-release-rate (HRR) curve. Under its
form widgets sits a small body of pure logic, modelled here over Dafny `real`s
and sequences:

- **Catalog** (`catalog.dfy`): the built-in material table in insertion order,
  reduced to the two figures used in computation, PCS (MJ/kg) and critical heat
  flux (kW/m²); lookup by name; the selector's choices ("-- Aucun --" first);
  the PCS and element name the entry form is pre-filled with.
- **Exposure** (`exposure.dfy`): the distance-to-flux step table
  (≤1 m → 30, ≤2 m → 20, ≤3 m → 12, otherwise 8 kW/m²) and the four-band
  ignition-risk classifier with an absolute ±5 kW/m² margin around the
  material's critical flux, as an ordered `Risk` datatype.
- **Loads** (`loads.dfy`): the element list as an explicit state value; the
  append guarded by a non-empty name; per-element load
  (quantity × unit mass × PCS) and gasoline litres (load / 34, rounded half to
  even as the results table's column rounding does); the two column totals; the
  results shown only when the list is non-empty.
- **Hrr** (`hrr.dfy`): one generic t-squared curve (growth alpha·t², plateau
  at the peak, linear decay clipped to [0, peak]) instantiated for the OSB
  panel (alpha 0.047, peak 10000 kW, plateau 300 s, decay 300 s) and the
  train-car fire (alpha 0.012, peak 7000 kW, plateau 400 s, decay 400 s); the
  cumulative curve as the pointwise sum of the active curves on one shared grid.

The time of peak, sqrt(peak / alpha), is irrational for both curves, so it is a
parameter of a profile tied to the other figures by `alpha·tPeak² == peak`
(`Profile.Valid`). From that equation alone the model derives that the OSB
curve peaks between 461 s and 462 s and is back to zero before the 1200 s
window closes, while the train-car curve peaks between 763.7 s and 763.8 s and
is still decaying, at about 6.36 MW, when the window closes.

The total gasoline figure is the sum of the per-element rounded litres, which
can differ from rounding total / 34 (`Loads.TotalLitresIsNotRoundedTotal`
exhibits two 17 MJ elements for which the two differ: 0 litres against 1).

## Model

| member | source | states |
|---|---|---|
| `Catalog.Find` | charge_calorifique_tunnel_DYNAMIC_PCS.py:13-22 | a table lookup finds something exactly when the name is one of the table's names, and what it finds is that name's entry |
| `Catalog.Lookup` | charge_calorifique_tunnel_DYNAMIC_PCS.py:30 | looking up a material succeeds exactly for catalog names, and every catalog material has a positive PCS and a critical flux in (10, 20] |
| `Catalog.FiguresInRange` | charge_calorifique_tunnel_DYNAMIC_PCS.py:13-22 | every entry of the table has positive PCS and a critical flux above 10 and at most 20 kW/m² |
| `Catalog.EntriesDistinct` | charge_calorifique_tunnel_DYNAMIC_PCS.py:13-22 | no material name occurs twice in the table |
| `Catalog.FindEntry` | charge_calorifique_tunnel_DYNAMIC_PCS.py:30 | in a table without repeated names, looking up an entry's name yields that entry's own figures |
| `Catalog.LookupEntry` | charge_calorifique_tunnel_DYNAMIC_PCS.py:30 | every entry of the built-in table is found under its own name with its own figures |
| `Catalog.Names` | charge_calorifique_tunnel_DYNAMIC_PCS.py:26 | the names of a table, one per entry, in table order, as the key list of the dictionary |
| `Catalog.Choices` | charge_calorifique_tunnel_DYNAMIC_PCS.py:26 | the selector lists "-- Aucun --" first, then every material in table order |
| `Catalog.ChoicesMatchIsChoice` | charge_calorifique_tunnel_DYNAMIC_PCS.py:26-30 | a value is admitted as a selector result exactly when the selector lists it: "-- Aucun --" or a catalog name |
| `Catalog.NoMaterialIsNotAMaterial` | charge_calorifique_tunnel_DYNAMIC_PCS.py:26-29 | the "no material" choice is not itself a material of the catalog |
| `Catalog.DefaultPcs` | charge_calorifique_tunnel_DYNAMIC_PCS.py:29-38 | the pre-filled PCS is 0 when no material is chosen and the chosen material's catalog PCS otherwise; it is never negative |
| `Catalog.DefaultElementName` | charge_calorifique_tunnel_DYNAMIC_PCS.py:29-39 | the pre-filled element name is the chosen material, or "Câble électrique" when none is chosen; it is never empty |
| `Catalog.DefaultPcsExamples` | charge_calorifique_tunnel_DYNAMIC_PCS.py:35-38 | no material pre-fills 0, wood 17 and PE cable 40 MJ/kg |
| `Exposure.IncidentFlux` | charge_calorifique_tunnel_DYNAMIC_PCS.py:44-51 | the flux is 30 exactly for d ≤ 1, 20 exactly for 1 < d ≤ 2, 12 exactly for 2 < d ≤ 3, and 8 exactly for d > 3 |
| `Exposure.IncidentFluxNonIncreasing` | charge_calorifique_tunnel_DYNAMIC_PCS.py:44-51 | moving away from the source never increases the flux |
| `Exposure.IncidentFluxExamples` | charge_calorifique_tunnel_DYNAMIC_PCS.py:43-51 | slider positions 0.5, 2.0, 3.0 and 5.0 m give 30, 20, 12 and 8 kW/m² |
| `Exposure.Classify` | charge_calorifique_tunnel_DYNAMIC_PCS.py:56-63 | High iff flux ≥ critical + 5; Moderate iff critical ≤ flux < critical + 5; Low iff critical − 5 ≤ flux < critical; Negligible iff flux < critical − 5 |
| `Exposure.ClassifyMonotoneInFlux` | charge_calorifique_tunnel_DYNAMIC_PCS.py:56-63 | for a fixed critical flux, more incident flux never gives a lower risk |
| `Exposure.ClassifyAntitoneInThreshold` | charge_calorifique_tunnel_DYNAMIC_PCS.py:56-63 | for a fixed incident flux, a higher critical flux never gives a higher risk |
| `Exposure.ClassifyExample` | charge_calorifique_tunnel_DYNAMIC_PCS.py:56-63 | fluxes 5, 10, 15, 20, 25 against critical flux 15 give Negligible, Low, Moderate, High, High |
| `Exposure.Assess` | charge_calorifique_tunnel_DYNAMIC_PCS.py:54-63 | there is a risk analysis exactly when a material is chosen; for a chosen material it is High within 1 m and never High beyond 3 m |
| `Exposure.CloseRangeIsHighRisk` | charge_calorifique_tunnel_DYNAMIC_PCS.py:44-63 | within one metre every entry of the catalog is at high risk |
| `Exposure.AssessNonIncreasingWithDistance` | charge_calorifique_tunnel_DYNAMIC_PCS.py:44-63 | for every entry of the catalog, a greater distance never gives a higher risk |
| `Exposure.WoodAtThreeMetres` | charge_calorifique_tunnel_DYNAMIC_PCS.py:54-61 | wood at three metres receives exactly its critical flux and is at moderate risk |
| `Loads.Submit` | charge_calorifique_tunnel_DYNAMIC_PCS.py:75-82 | without a submission or with an empty name the list is unchanged; otherwise it grows by exactly the submitted record at the end, earlier records unchanged and in order |
| `Loads.SubmitKeepsWellFormed` | charge_calorifique_tunnel_DYNAMIC_PCS.py:71-82 | form contents held non-negative by the form keep every record of the list non-negative |
| `Loads.Load` | charge_calorifique_tunnel_DYNAMIC_PCS.py:86 | an element's load is non-negative for non-negative inputs and zero when any factor is zero |
| `Loads.RoundHalfEven` | charge_calorifique_tunnel_DYNAMIC_PCS.py:87 | the rounded value is within 1/2 of its argument and, on a tie, is the even neighbour |
| `Loads.RoundHalfEvenUnique` | charge_calorifique_tunnel_DYNAMIC_PCS.py:87 | no other integer is within 1/2 of the argument with the tie-to-even rule, so the rounding is fully determined |
| `Loads.Litres` | charge_calorifique_tunnel_DYNAMIC_PCS.py:87 | an element's litre count is an integer within 1/2 of load / 34, non-negative for non-negative inputs |
| `Loads.LitresExample` | charge_calorifique_tunnel_DYNAMIC_PCS.py:86-87 | a 340 MJ element is exactly 10 litres |
| `Loads.TotalMj` | charge_calorifique_tunnel_DYNAMIC_PCS.py:90 | the total of the empty list is zero |
| `Loads.TotalMjNonNegative` | charge_calorifique_tunnel_DYNAMIC_PCS.py:86-90 | a list of non-negative records has a non-negative total load |
| `Loads.TotalMjAppend` | charge_calorifique_tunnel_DYNAMIC_PCS.py:90 | the total load of a concatenation is the sum of the two totals |
| `Loads.TotalMjRemove` | charge_calorifique_tunnel_DYNAMIC_PCS.py:90 | removing one record from a list removes exactly its load from the total |
| `Loads.TotalMjPermutation` | charge_calorifique_tunnel_DYNAMIC_PCS.py:90 | two lists with the same records in any order have the same total load |
| `Loads.TotalMjAfterSubmit` | charge_calorifique_tunnel_DYNAMIC_PCS.py:75-90 | an accepted submission adds exactly the new record's load to the total; a rejected one leaves it unchanged |
| `Loads.TotalLitres` | charge_calorifique_tunnel_DYNAMIC_PCS.py:91 | the total litre count is within n/2 of total load / 34 for a list of n records |
| `Loads.TotalLitresIsNotRoundedTotal` | charge_calorifique_tunnel_DYNAMIC_PCS.py:87-91 | the total litres is the sum of the rounded per-element litres, which can differ from rounding total / 34 (two 17 MJ records: 0 against 1) |
| `Loads.Results` | charge_calorifique_tunnel_DYNAMIC_PCS.py:84-91 | results exist exactly when the list is non-empty; the total load is non-negative for form-valid records, and the total litres lie within n/2 of total load / 34 for n records |
| `Hrr.Clip` | charge_calorifique_tunnel_DYNAMIC_PCS.py:107 | the clipped value lies in [lo, hi], is the value itself inside the interval, lo below it and hi above it |
| `Hrr.PeakNonNegative` | charge_calorifique_tunnel_DYNAMIC_PCS.py:105-106 | a well-formed profile has a non-negative peak |
| `Hrr.GrowthMonotone` | charge_calorifique_tunnel_DYNAMIC_PCS.py:106 | on [0, tPeak] the growth law alpha·t² rises from 0 and stays at most the peak |
| `Hrr.GrowthBounded` | charge_calorifique_tunnel_DYNAMIC_PCS.py:106 | during growth the curve stays within [0, peak] |
| `Hrr.DecayLineMonotone` | charge_calorifique_tunnel_DYNAMIC_PCS.py:107 | after the plateau the decay line falls, stays in [0, peak] until the end, and is at most zero afterwards |
| `Hrr.Rate` | charge_calorifique_tunnel_DYNAMIC_PCS.py:103-115 | for a well-formed profile and t ≥ 0, the heat release rate lies in [0, peak] |
| `Hrr.HrrPhases` | charge_calorifique_tunnel_DYNAMIC_PCS.py:103-115 | alpha·t² before tPeak; the peak on [tPeak, tPeak + plateau]; the decay line on the decay window; zero from tPeak + plateau + decay on |
| `Hrr.HrrContinuity` | charge_calorifique_tunnel_DYNAMIC_PCS.py:105-107 | growth reaches the plateau value at tPeak, the decay line starts at the plateau value, and reaches zero exactly at the end |
| `Hrr.HrrRising` | charge_calorifique_tunnel_DYNAMIC_PCS.py:105-107 | the curve never falls from time 0 to the end of the plateau |
| `Hrr.HrrFalling` | charge_calorifique_tunnel_DYNAMIC_PCS.py:107 | the curve never rises after the end of the plateau |
| `Hrr.OsbProfile` | charge_calorifique_tunnel_DYNAMIC_PCS.py:103-108 | the OSB profile is well formed exactly when tPeak is the non-negative root of 0.047·tPeak² = 10000 |
| `Hrr.RameProfile` | charge_calorifique_tunnel_DYNAMIC_PCS.py:110-115 | the train-car profile is well formed exactly when tPeak is the non-negative root of 0.012·tPeak² = 7000 |
| `Hrr.OsbOutWithinWindow` | charge_calorifique_tunnel_DYNAMIC_PCS.py:100-108 | the OSB curve peaks between 461 and 462 s and is zero at the 1200 s end of the window |
| `Hrr.RameDecayingAtWindowEnd` | charge_calorifique_tunnel_DYNAMIC_PCS.py:100-115 | the train-car curve peaks between 763.7 and 763.8 s and is still decaying at 1200 s, between 6364 and 6367 kW |
| `Hrr.Active` | charge_calorifique_tunnel_DYNAMIC_PCS.py:119-126 | an active source contributes a value between 0 and its peak at any t ≥ 0; an inactive one contributes nothing |
| `Hrr.AddCurve` | charge_calorifique_tunnel_DYNAMIC_PCS.py:122 | adding a curve to an accumulator adds its value at each grid time to the matching sample |
| `Hrr.Cumulative` | charge_calorifique_tunnel_DYNAMIC_PCS.py:117-126 | the cumulative curve has one sample per grid time, each the sum of the active sources' values at that time |
| `Hrr.CumulativeBounds` | charge_calorifique_tunnel_DYNAMIC_PCS.py:117-126 | at any t ≥ 0 the cumulative value is zero with no active source, at least each active source's value, and between 0 and the sum of the active sources' peaks (10000 kW for OSB, 7000 kW for the train car) |
| `Hrr.CumulativeSamplesBounded` | charge_calorifique_tunnel_DYNAMIC_PCS.py:117-126 | every sample of a cumulative curve on a non-negative grid obeys those bounds |

## Left out

- The Streamlit page: titles, selectors, slider, checkboxes, the form and its markdown output. Only the values they feed in are modelled; the chosen selector entry, the distance, the checkbox states and the form contents are parameters.
- Session persistence: the element list is an explicit value passed into and returned by `Loads.Submit` instead of surviving reruns in the session state.
- The display-only catalog fields (typical density, burn time, HRR range, ignition score): shown as text, never computed with.
- The element's unit ("m" or "m²") is carried in the record but takes part in no computation, as in the code.
- Plotting and the spreadsheet export of the cumulative curve: library I/O.
- Floating point: all arithmetic is over exact reals; 0.047 and 0.012 are exact decimals here. Rounding of load / 34 is modelled exactly (half to even), not its binary floating-point approximation.
- The square root of peak / alpha: not computed; the time of peak is a parameter constrained by `alpha·tPeak² == peak`.
- The exact 800-point linear spacing of the time grid over [0, 1200] s: the grid is any sequence of times shared by both curves; bounds lemmas ask only that its times be non-negative.
- The slider's range [0.5, 5.0] m in steps of 0.5: `Exposure.IncidentFlux` is defined for every real distance.
