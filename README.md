# Nuclear cross-section lookup, modelled in Dafny

This project models the nuclear cross-section module `lib/cross_sections.py` of a
beam-dynamics tracking repository. The module has three parts.

- **A fixed material registry.** There are eight `MP` records: carbon, aluminum, iron,
  copper, tantalum, tungsten, platinum and lead. Each one holds an atomic number, an
  atomic weight, a density, a radiation length, a nuclear-radius parameter and two
  cross-section curves, one elastic and one inelastic.
- **Selector accessors.** `get_z`, `get_a`, `get_rho` and `get_radlength` map an integer
  selector to a material. Selectors 0 to 6 name the first seven materials in that order.
  Every other integer, negative or not, falls through to lead.
- **Two lookups.** `get_elastic_crosssection` and `get_inelastic_crosssection` pick the
  material's curve. A linear scan over a 59-point energy grid then picks `ilow`: the
  first `i` in 0..57 with `e <= energy[i+1]`, or 57 when there is none. The curve is
  then interpolated linearly between `ilow` and `ilow + 1`, with no clamping.

Files:

- `cross_section_tables.dfy` (module `CrossSectionTables`) holds the literal tables as
  exact decimals.
- `materials.dfy` (module `Materials`) holds the records, the selector order and the
  accessors. The accessors keep the source's `if`/`elif` form.
- `interpolation.dfy` (module `Interpolation`) holds the scan and the interpolation.
  `FindLow` is the scan loop as a method, proved against the recursive function
  `LowIndex`. `Interpolate` is the formula of lines 189 and 191. `CrossSection` composes
  the two. The lemmas there hold for any energy table, usually one of at least 59
  strictly increasing points (`WellFormedTable`).
- `cross_sections.dfy` (module `CrossSections`) holds the two lookup methods. They take
  the energy table as a parameter that defaults to the embedded grid, as line 161 does.
  The lemmas there are about the embedded tables.

Errors are values, not preconditions. Every read past the end of a table, which is an
`IndexError` in Python, is an explicit `Err`. This gives:

- `EnergyIndexOutOfRange` when a caller passes an energy table shorter than the scan reads.
- `CurveIndexOutOfRange` when the curve is too short.
- `ZeroWidthBin` when two neighbouring energies are equal, so the fraction divides by zero.

**The copper elastic curve is one sample short.** `z29_elastic` (line 26) has 58 entries.
The energy grid and every other curve have 59. So every copper elastic request above
2.0 GeV selects bin 57 and reads sample 58, which does not exist.
`CrossSections.ElasticDefinedUnlessCopperAbove2GeV` proves that this is the only elastic
request on the embedded grid that fails. It fails with `CurveIndexOutOfRange(58)`.
`CrossSections.InelasticAlwaysDefined` proves that no inelastic request fails. Which
sample is missing cannot be told from the source, so the model keeps the table as
written.

Three consequences of the code are worth stating on their own:

- Tantalum inelastic at 0.0525 GeV lies between `energy[32] = 0.051` and
  `energy[33] = 0.055`, where the curve has 1.824 and 1.823 barn. The fraction is
  0.375 and the result is 1.823625 barn (`TantalumInelasticAt52MeV`).
- A tabulated point `k >= 1` is reached through bin `k - 1` with fraction 1, because
  the scan stops at the first `i` with `e <= energy[i+1]`. Only the first point is
  reached with fraction 0. Either way the tabulated sample is returned (`AtSample`).
- An energy below the first point selects bin 0 with a negative fraction, so the
  result is extrapolated rather than clamped (`ExtrapolatesBelow`).

## Model

| member | source | states |
|---|---|---|
| `Materials.Properties` | lib/cross_sections.py:56-74 | All physical constants of every record are positive. For every material except copper, R is 0.94 times the cube root of the atomic weight; copper's R uses 63.55, not its weight 63.546. Every inelastic curve has 59 samples, and so does every elastic curve except copper's, which has 58 |
| `Materials.Selected` | lib/cross_sections.py:77-95 | Selector 0 names carbon, 1 aluminum, 2 iron, 3 copper, 4 tantalum, 5 tungsten and 6 platinum. Lead is selected exactly when the selector is outside 0..6 |
| `Materials.GetZ` | lib/cross_sections.py:77-95 | The `if`/`elif` chain returns the atomic number of the selected material, for every integer |
| `Materials.GetA` | lib/cross_sections.py:98-116 | Each literal the chain returns equals the atomic-weight field of the material the other accessors select for the same selector |
| `Materials.GetRho` | lib/cross_sections.py:119-137 | The chain returns the density of the selected material |
| `Materials.GetRadLength` | lib/cross_sections.py:140-158 | The chain returns the radiation length of the selected material |
| `Materials.ElasticCurve` | lib/cross_sections.py:164-179 | The elastic lookup's chain picks the elastic curve of the selected material |
| `Materials.InelasticCurve` | lib/cross_sections.py:198-213 | The inelastic lookup's chain picks the inelastic curve of the selected material |
| `Interpolation.ScanFrom` | lib/cross_sections.py:183-187 | The scan from candidate `i` on. Any index it yields is at most 57 and has an energy sample after it |
| `Interpolation.LowIndex` | lib/cross_sections.py:183-187 | Any `ilow` the scan selects is at most 57, and `energy[ilow + 1]` exists |
| `Interpolation.FindLow` | lib/cross_sections.py:183-187 | The `for i in range(58)` loop with `break` returns exactly `LowIndex`, and its result is the least matching index or the default 57 |
| `Interpolation.ScanFromIsLeast` | lib/cross_sections.py:183-187 | By induction: the scan yields `k` if and only if no earlier candidate matched and `k` matched or is the default 57 |
| `Interpolation.ScanFromErr` | lib/cross_sections.py:183-187 | By induction: the scan fails if and only if the table has at most 58 points and none of the points it can read is at least `e`. It then fails at the first index past the end |
| `Interpolation.LowIndexIsLeast` | lib/cross_sections.py:183-187 | `LowIndex` returns `k` if and only if `k` is the least matching index in 0..57, or 57 when none matches |
| `Interpolation.LowIndexDefined` | lib/cross_sections.py:183-187 | On a table of at least 59 points, the scan always yields an index in 0..57 with that characterisation |
| `Interpolation.Fraction` | lib/cross_sections.py:189 | The fraction `efrac`. It has no contract of its own; `LerpEnds`, `LerpBetween` and `LerpBeyond` state that it is 0 and 1 at the bin's ends, in [0, 1] inside the bin and outside [0, 1] beyond it |
| `Interpolation.Lerp` | lib/cross_sections.py:191 | The interpolated value `ec[ilow] + efrac*(ec[ilow+1] - ec[ilow])`. It has no contract of its own; `LerpCollinear`, `LerpEnds`, `LerpBetween`, `LerpBeyond` and `LerpMonotone` state that it lies on the line through the two samples, passes through both, stays between them inside the bin, passes them outside and rises with a rising pair |
| `Interpolation.CrossSection` | lib/cross_sections.py:183-191 | The scan followed by the interpolation, on which both lookups' contracts are stated. It has no contract of its own; `Interpolate`, `Bracketing`, `AtSample`, `DefinedOnIncreasingTable` and `ValueInBin` state when it succeeds, which bin it uses and what value it yields |
| `Interpolation.Interpolate` | lib/cross_sections.py:189-191 | Succeeds if and only if the bin has non-zero width and the curve has sample `ilow + 1`. The result lies on the straight line through the bin's two samples. A zero-width bin is reported as such |
| `Interpolation.Lookup` | lib/cross_sections.py:183-191 | The scan followed by the interpolation computes `CrossSection` |
| `Interpolation.Bracketing` | lib/cross_sections.py:183-187 | For `energy[0] <= e <= energy[58]`, the selected bin holds `e`: `energy[ilow] <= e <= energy[ilow + 1]` |
| `Interpolation.LowIndexInBin` | lib/cross_sections.py:183-187 | On an increasing table, every `e` in `(energy[k], energy[k+1]]` selects bin `k`. Bin 0 also takes every `e` below, and bin 57 every `e` above |
| `Interpolation.LowIndexMonotone` | lib/cross_sections.py:183-187 | A higher energy never selects a lower bin |
| `Interpolation.DefinedOnIncreasingTable` | lib/cross_sections.py:189-191 | On a strictly increasing table the division never fails. The lookup fails exactly when the curve lacks sample `ilow + 1`, and then only with a curve-index error |
| `Interpolation.WithinTable` | lib/cross_sections.py:184-191 | Inside the grid, whenever the curve has sample `ilow + 1` (so also for a short curve up to its last sample), the fraction lies in [0, 1] and the result lies between `curve[ilow]` and `curve[ilow + 1]` |
| `Interpolation.AtSample` | lib/cross_sections.py:184-191 | Requesting a tabulated energy `energy[k]` returns `curve[k]` exactly. For `k >= 1` the scan selects bin `k - 1` and the fraction is 1; for the first point it selects bin 0 and the fraction is 0. This includes the last sample a short curve still has |
| `Interpolation.ExtrapolatesAbove` | lib/cross_sections.py:183-191 | Above the last point the scan keeps bin 57 and there is no clamping. The fraction exceeds 1, and the result continues the line through points 57 and 58 beyond `curve[58]` |
| `Interpolation.ExtrapolatesBelow` | lib/cross_sections.py:183-191 | Below the first point the scan selects bin 0, for any curve of at least two samples. The fraction is negative, and the result continues the line through points 0 and 1 beyond `curve[0]` |
| `Interpolation.ValueInBin` | lib/cross_sections.py:189-191 | For `e` in bin `k`, the result is the line through samples `k` and `k + 1`. This also holds at `energy[k]`, where the scan picks bin `k - 1` |
| `Interpolation.MonotoneOnRisingSegment` | lib/cross_sections.py:183-191 | Where the curve is non-decreasing over points `lo..hi`, the lookup is non-decreasing in the energy between `energy[lo]` and `energy[hi]` |
| `Interpolation.LerpCollinear` | lib/cross_sections.py:189-191 | The interpolated point lies on the line through the two samples |
| `Interpolation.LerpEnds` | lib/cross_sections.py:189-191 | The fraction is 0 at the left end and 1 at the right end, and the line passes through both samples |
| `Interpolation.LerpBetween` | lib/cross_sections.py:189-191 | Inside the bin, the fraction lies in [0, 1] and the value between the two samples |
| `Interpolation.LerpBeyond` | lib/cross_sections.py:189-191 | Outside the bin the fraction leaves [0, 1] and the value passes the nearer sample: no clamping |
| `Interpolation.LerpMonotone` | lib/cross_sections.py:189-191 | With a rising pair of samples, the interpolated value is non-decreasing in the energy |
| `CrossSections.GetElasticCrossSection` | lib/cross_sections.py:161-193 | Returns the lookup on the selected material's elastic curve, over the given energy table, which defaults to the embedded grid |
| `CrossSections.GetInelasticCrossSection` | lib/cross_sections.py:196-227 | Returns the lookup on the selected material's inelastic curve, over the given energy table, which defaults to the embedded grid |
| `CrossSections.EmbeddedEnergyTable` | lib/cross_sections.py:5 | The grid has 59 strictly increasing points, from 0.0005 GeV to 2.5 GeV, with 2.0 GeV at point 57 |
| `CrossSections.InelasticAlwaysDefined` | lib/cross_sections.py:196-227 | On the embedded grid, every inelastic request yields a value, for every selector and energy |
| `CrossSections.ElasticDefinedUnlessCopperAbove2GeV` | lib/cross_sections.py:183-191 | On the embedded grid, an elastic request fails if and only if it is copper above 2.0 GeV. It then fails reading `ec[58]` of the 58-sample copper curve (line 26) |
| `CrossSections.CarbonElasticAt6MeV` | lib/cross_sections.py:5-8 | Carbon elastic at 0.006 GeV gives the tabulated 0.395 barn |
| `CrossSections.TantalumInelasticAt52MeV` | lib/cross_sections.py:35 | Tantalum inelastic at 0.0525 GeV selects bin 32 and gives 1.823625 barn |
| `CrossSections.CopperElasticAt2GeV` | lib/cross_sections.py:26 | Copper elastic at exactly 2.0 GeV stays inside the short curve and gives 0.504 barn |
| `CrossSections.UnknownSelectorExtrapolatesLead` | lib/cross_sections.py:212-225 | Selector 99 falls through to lead. At 3.0 GeV the inelastic value is extrapolated to 1.850 barn, past the last sample of 1.845 |
| `CrossSections.CarbonElasticRisesBelow40MeV` | lib/cross_sections.py:8 | Carbon's elastic curve rises up to 0.04 GeV, and the lookup is non-decreasing in the energy there |

## Left out

- Floating point: energies and cross sections are exact `real`s. numpy's double rounding, and bit-identical results, are outside the model. So is a NaN request: every comparison of the scan is false, so it keeps bin 57 and the result is NaN, except for copper elastic, where reading sample 58 of the 58-sample curve raises `IndexError`, as it does for any copper elastic request above 2.0 GeV.
- The nuclear radius `R = 0.94 * pow(A, 1/3)` is kept as its two operands (`ScaledCubeRoot`), because Dafny has no real cube root.
- `Interpolation.Interpolate`: with numpy arrays, a zero-width bin gives `inf` or `nan` with a runtime warning instead of raising; with Python lists it raises `ZeroDivisionError`. Both are modelled as the one error `ZeroWidthBin`.
- `Materials.GetZ`: `get_z` returns a Python float for carbon and aluminum and an int for the other materials. The model returns a `real` for every material.
- The samples of the curves are not proved non-negative. Those facts are about data only, and proving them over all sixteen literal curves is costly.
- The missing copper elastic sample is not reconstructed: which of the 59 points is missing cannot be told from the source.
- Array-valued energy requests (numpy broadcasting) are not modelled: the scan's `if` needs a single truth value.
- Repeated calls return the same result. This is not stated as a lemma, because every member here is a function of its inputs by construction.
- The unused `energytracker` locals (lines 181 and 215) and the commented-out `print` (line 192) have no behaviour.
- `IBS_EXPORT.py`, `IBS_RUN.py` and `simulation_parameters.py` are not part of this model. They consist of lattice loading, twiss computation, tracking and IBS calls into external libraries, file output, and a configuration dictionary.
