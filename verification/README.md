# COP-initiative member downscaling: the share and reduction accounting

This project models the accounting core of the COP-initiatives downscaling
code in Dafny. The code takes IMAGE emission pathways per region, plus the
lists of countries that signed each international cooperative initiative
(ICI). From these it builds member pathways, which assume that the signatory
countries follow the initiative scenario and everyone else follows the
baseline. The model covers these steps:

- **Country shares** (`CountryShares`): each country's share of its IMAGE
  region in the historical year. Rows count only when the value is present,
  the country is known to both IMAGE and the history, the year is the
  historical year, and the region is not World (region 28). A region whose
  total is 0 has no shares. The modelled code does not check for this case.
- **Member coverage** (`MemberShares`): per region, the signatories' summed
  share. Missing membership counts as 0. A World row is appended as the
  code computes it. The initiative list is read from the signatory columns
  before the BT_Power and BT_Road columns are dropped, so a signatory table
  that has either column makes the melt fail (`MeltColumnMissing`). Flaring
  instead has a single World row holding the mean of the flaring membership
  values.
- **Pathway blending** (`Pathways`):
  - Each regional row becomes `(1-s)·baseline + s·mitigation`, where `s` is
    the region's member share.
  - World is the sum over the regions.
  - Flaring is blended at World level only.
- **Country reductions** (`Reductions`): a regional reduction times
  membership times country share.
- **Overlap resolvers** (`Overlap`): where several initiatives reduce the
  same subsector, their country reductions are combined by a decision table
  that `np.select` picks from membership flags. There are two tables:
  - a three-way table for Coal, Renewable and Cooling in Electricity and
    Heat;
  - a two-way table for Steel with Cement, and for cars/buses with trucks.
- **Subsector dispatch** (`SubsectorReductions`): each (sector, subsector)
  pair is routed to a resolver or passed straight through, and then summed
  per (sector, subsector, region, unit, year).
- **Flaring** (`FlaringReductions`): the global flaring membership
  percentage scales the regional reductions. This happens both for the World
  individual pathway and for the Fugitive|Oil Production subsector.
- **Reconciliation** (`Accounting`):
  - Member reductions are capped at the regional subsector reduction using a
    skip-NaN minimum.
  - They are subtracted from the summed baseline of each subsector variable.
  - The result is floored at the subsector scenario using a skip-NaN
    maximum.
  - World is added as the sum over the regions, and regional International
    Bunkers rows are dropped.
- **Kyoto gases** (`Kyoto`): the member Kyoto pathway is the uncovered
  baseline plus the summed member pathways of the subsector variables.
  Regional bunker variables do not count as covered.
- **CO2 equivalents** (`CO2Equivalent`): an initiative's indicator rows are
  converted with the global warming potentials and summed over variables.

Further details of the model:

- Pandas tables are sequences of rows (`Tables`).
- A missing cell (NaN) is `None`. Skip-NaN sums count a missing cell as 0.
- A left merge is a lookup of the merge key on the right table. It takes the
  first matching row, which is the only one when the merge is one-to-one, and
  is missing when no row matches. Where the right table is itself a group-by
  result (the Kyoto sums and the flaring reductions), the lookup is modelled
  as the sum of the matching rows, which is what that group holds.
- A comparison involving a missing cell is false, as in pandas.

## Model

| member | source | states |
|---|---|---|
| CountryShares.ShareTable | COP_initiatives/downscale_tool.py:112-125 | one share row per eligible history row (value present, known to IMAGE and the history, historical year, not World), carrying that row's country, region and value |
| CountryShares.ShareRowsAreEligible | COP_initiatives/downscale_members_sectors.py:105-118 | every eligible history row has a share row and every share row comes from an eligible history row |
| CountryShares.ShareTimesTotal | COP_initiatives/downscale_tool.py:122 | a share times its region's total is the country's value; the share is missing exactly when the region's total is 0 |
| CountryShares.SharesSumToOne | COP_initiatives/downscale_tool.py:117-122 | the shares of a region with a non-zero total add up to 1 |
| CountryShares.ShareWithinUnit | COP_initiatives/downscale_tool.py:122 | with non-negative historical values each share lies in [0, 1] |
| MemberShares.MemberPercInRegion | COP_initiatives/downscale_tool.py:127-175 | Flaring gives one World row with the mean flaring membership; any other initiative fails with a missing melt column exactly when the signatory table has a BT_Power or BT_Road column, and otherwise gives one row per region holding the summed share times membership, followed by a World row |
| MemberShares.Mean | COP_initiatives/downscale_tool.py:137 | the skip-NaN mean times the number of present values is their sum; no mean without present values |
| MemberShares.WorldShareAsWritten | COP_initiatives/downscale_tool.py:163-165 | the World share times the total value is the sum of value × share × membership; missing when the total value is 0 |
| MemberShares.RegionMemberShareBounds | COP_initiatives/downscale_tool.py:157-159 | a region's member share lies between 0 and the sum of its country shares |
| MemberShares.CoverageWithinUnit | COP_initiatives/downscale_tool.py:157-159 | with memberships in [0, 1] and non-negative history, a region's member share lies in [0, 1] |
| MemberShares.EmptyRegionSharesZero | COP_initiatives/downscale_tool.py:122 | a region whose historical total is 0 has shares summing to 0 |
| MemberShares.FullMembershipCoversRegion | COP_initiatives/downscale_tool.py:157-159 | when every country is a full member, a region with a non-zero total is fully covered |
| MemberShares.NoMembersNoCoverage | COP_initiatives/downscale_tool.py:157-158 | without members, a region's member share is 0 |
| MemberShares.WorldShareWithinUnit | COP_initiatives/downscale_tool.py:164-165 | the World share as written lies in [0, 1] for shares and memberships in [0, 1] |
| MemberShares.WorldShareFullMembershipExample | COP_initiatives/downscale_tool.py:164-165 | with full membership the region share is 1 while the World share as written is 0.5: the country share weights each value a second time |
| MemberShares.FlaringMeanWithinUnit | COP_initiatives/downscale_tool.py:137 | the mean of flaring memberships in [0, 1] is in [0, 1] |
| Pathways.Blend | COP_initiatives/downscale_tool.py:188-209 | share 0 gives the baseline and share 1 the mitigation value; for shares in [0, 1] the value lies between them; the deviation from the baseline is the share of the gap |
| Pathways.MemberValue | COP_initiatives/downscale_tool.py:186-209 | a member value exists exactly when the share and the mitigation value exist, and is their blend |
| Pathways.RegionalRows | COP_initiatives/downscale_tool.py:181-211 | one row per non-World baseline row, with its region, variable and year, valued by the blend with the region's share |
| Pathways.WorldRows | COP_initiatives/downscale_tool.py:214-217 | one World row per (year, variable), holding the sum of the regional rows with that key; every regional key gets a World row |
| Pathways.ConstructPathway | COP_initiatives/downscale_tool.py:177-244 | other initiatives give the regional rows followed by their World sums; Flaring gives World rows only, blended with the World share, and fails without a World share row |
| Pathways.RegionalValueIsBlend | COP_initiatives/downscale_tool.py:188-209 | a regional row with share and mitigation present is the baseline at share 0, the mitigation at share 1, and between them otherwise |
| Pathways.WorldRowsConserveVariable | COP_initiatives/downscale_tool.py:214-217 | the World rows of a variable add up to the regional rows of that variable |
| Pathways.FlaringWorldOnly | COP_initiatives/downscale_tool.py:219-242 | a Flaring pathway has World rows only |
| Pathways.NonFlaringRegionsAndWorld | COP_initiatives/downscale_tool.py:181-217 | for other initiatives every non-World baseline row has its blended row in the pathway |
| Reductions.CountryReductionOf | COP_initiatives/downscale_members_sectors.py:811-812 | a country reduction exists exactly when the regional reduction, membership and share all exist; a zero factor gives 0; a full member gets its share of the regional reduction |
| Reductions.CountryReductionRows | COP_initiatives/downscale_members_sectors.py:797-812 | one country row per country of the region, carrying the regional row's keys and both reductions split by membership and share |
| Reductions.CountryReductionsSplitRegional | COP_initiatives/downscale_members_sectors.py:811 | the country reductions of a region add up to the regional reduction times the region's coverage |
| Reductions.CountryReductionsWithinRegional | COP_initiatives/downscale_members_sectors.py:811 | with memberships in [0, 1] and shares summing to at most 1, the countries together reduce between 0 and the regional reduction |
| Overlap.ElecConditionsExactlyOne | COP_initiatives/downscale_members_sectors.py:247-256 | exactly one of the eight membership conditions of the three-way table holds |
| Overlap.ElecSelectIsTable | COP_initiatives/downscale_members_sectors.py:247-272 | the selected criterium is the decision table's entry for the membership combination, never the default 9999 |
| Overlap.ResolveElecCell | COP_initiatives/downscale_members_sectors.py:174-199 | the subsector reduction is the largest of the three; both Coal and Renewable members take the largest individual reduction; Coal and Cooling without Renewable add theirs; Coal alone keeps its own; Renewable or Cooling without Coal take the subsector reduction; no member gives 0 |
| Overlap.ResolveElecCellByTable | COP_initiatives/downscale_members_sectors.py:174-273 | a resolved cell is the decision table's criterium applied to the cell's reductions |
| Overlap.ElectricityHeatReductions | COP_initiatives/downscale_members_sectors.py:201-284 | one resolved row per distinct row key of the input, resolved from the first row of each cell |
| Overlap.AbsentInitiativeIsNonMember | COP_initiatives/downscale_members_sectors.py:226-245 | an initiative missing from the input fills with 0 and is not a member |
| Overlap.CellIsFirstRow | COP_initiatives/downscale_members_sectors.py:208-219 | a cell holds the first input row with its key; later duplicates are ignored |
| Overlap.ElectricityHeatDedupIdempotent | COP_initiatives/downscale_members_sectors.py:208-219 | resolving input whose duplicates were already dropped gives the same table |
| Overlap.PairConditionsExactlyOne | COP_initiatives/downscale_members_sectors.py:370-375 | exactly one of the four membership conditions of the two-way table holds |
| Overlap.PairSelectIsTable | COP_initiatives/downscale_members_sectors.py:370-386 | the selected criterium is the two-way table's entry, never the default |
| Overlap.ResolvePairCell | COP_initiatives/downscale_members_sectors.py:286-316 | two members take the smaller of the subsector reduction and the sum of their reductions; a single member keeps its own; no member gives 0; the subsector reduction is the larger of the two |
| Overlap.ResolvePairCellByTable | COP_initiatives/downscale_members_sectors.py:286-387 | a resolved cell is the two-way table's criterium applied to the cell's reductions |
| Overlap.TwoSubsectorReductions | COP_initiatives/downscale_members_sectors.py:318-400 | no table unless exactly two initiatives occur; otherwise one row per distinct row key, resolved with the first-seen initiative as first |
| SubsectorReductions.MemberReductions | COP_initiatives/downscale_members_sectors.py:402-515 | a known sector with an unknown subsector fails; an unknown sector gives nothing; with at most one initiative present the country rows pass straight through; otherwise they go through the route's resolver |
| SubsectorReductions.TwoWayIsPair | COP_initiatives/downscale_members_sectors.py:402-515 | a two-way route that sees more than one initiative sees exactly two, so its resolver always produces a table |
| SubsectorReductions.SubsectorTotalPreserved | COP_initiatives/downscale_members_sectors.py:402-515 | the group-by totals add up to the member reductions |
| SubsectorReductions.UnresolvedSumsIndividual | COP_initiatives/downscale_members_sectors.py:402-515 | without overlap each subsector total is the sum of the individual country reductions of the route's initiatives with that key |
| SubsectorReductions.UnknownPairs | COP_initiatives/downscale_members_sectors.py:402-515 | a sector the dispatch does not know (Chemicals) gives no rows; a known sector with an unknown subsector (Industry with subsector Steel) fails on the empty table; sector and subsector Total without Methane among the initiatives fails as well |
| SubsectorReductions.OtherInitiativesIgnored | COP_initiatives/downscale_members_sectors.py:402-515 | rows of initiatives outside the route do not change the result |
| FlaringReductions.FlaringIndividualWorld | COP_initiatives/downscale_members_sectors.py:836-850 | one World row per (year, unit) of the flaring baseline: the summed baseline less the percentage of the summed regional reduction over the rows that carry an individual reduction, missing when no such row matches |
| FlaringReductions.FlaringWorldMissingWithoutIndividual | COP_initiatives/downscale_members_sectors.py:839-847 | when every flaring reduction row of a (year, unit) lacks its individual reduction, the group-by drops them all and the World value is missing |
| FlaringReductions.FlaringWorldIsBlend | COP_initiatives/downscale_members_sectors.py:839-847 | when the regional reductions add up to baseline minus mitigation, the World flaring value is the blend of baseline and mitigation at the membership percentage |
| FlaringReductions.FlaringSubsectorRows | COP_initiatives/downscale_members_sectors.py:881-888 | one Fugitive or Oil Production member reduction per flaring reduction row, equal to its regional reduction times the percentage |
| FlaringReductions.FlaringSubsectorMatchesWorld | COP_initiatives/downscale_members_sectors.py:839-888 | when some flaring row of a (year, unit) carries an individual reduction, the World value exists and the subsector member reductions of that (year, unit) add up to exactly the reduction taken off the World individual flaring pathway |
| Accounting.Cap | COP_initiatives/downscale_members_sectors.py:898-900 | the capped value is one of the two inputs, never above either present one, missing only when both are; the check before flags exactly the present member reductions the cap changes; the check after flags nothing |
| Accounting.CapRows | COP_initiatives/downscale_members_sectors.py:896-900 | one row per member reduction with its key; the variable is found exactly when a regional subsector row matches; the value is never above the member reduction or the matched regional reduction |
| Accounting.Subtract | COP_initiatives/downscale_members_sectors.py:913 | the member value plus the reduction is the baseline; missing with the reduction |
| Accounting.Floor | COP_initiatives/downscale_members_sectors.py:917-920 | the floored value is one of the two inputs, at least each present one, missing only when both are; the flag marks exactly the present values the floor raised |
| Accounting.MemberSectorValue | COP_initiatives/downscale_members_sectors.py:912-920 | the member value is never below baseline minus reduction or below the scenario, and it equals one of them |
| Accounting.MemberSubsectorRows | COP_initiatives/downscale_members_sectors.py:907-921 | one row per distinct regional baseline key, with unique keys, valued from the summed baseline, the merged capped reduction and the merged scenario |
| Accounting.WorldRows | COP_initiatives/downscale_members_sectors.py:923-925 | one World row per (sector, subsector, variable, year, unit), holding the skip-NaN sum of the regional rows with that key |
| Accounting.WorldConservesTotal | COP_initiatives/downscale_members_sectors.py:923-925 | the World rows add up to the regional rows |
| Accounting.BunkerGuardRedundant | COP_initiatives/downscale_members_sectors.py:926-929 | the guard on International Bunkers being present changes nothing: the result is always the filtered table |
| Accounting.BunkersOnlyAtWorld | COP_initiatives/downscale_members_sectors.py:923-929 | every output row is a regional or World row, and none is a regional bunker row |
| Accounting.NonBunkerRowsKept | COP_initiatives/downscale_members_sectors.py:923-929 | every regional and World row other than a regional bunker row is kept |
| Kyoto.KyotoMemberValue | COP_initiatives/downscale_members_sectors.py:947-954 | the member Kyoto value exists exactly when both merges match; the baseline minus it is the covered baseline minus the member pathways |
| Kyoto.KyotoMembers | COP_initiatives/downscale_members_sectors.py:937-956 | one row per baseline Kyoto row: the baseline less the counted covered rows plus the member rows of that region and year, present exactly when both exist |
| Kyoto.KyotoFollowsBaseline | COP_initiatives/downscale_members_sectors.py:947-954 | where the members emit exactly the covered baseline, the member Kyoto pathway is the baseline Kyoto pathway |
| Kyoto.RegionalBunkerIgnored | COP_initiatives/downscale_members_sectors.py:943-944 | adding a regional row of a bunker variable does not change the member Kyoto pathway |
| Kyoto.WorldBunkerCounted | COP_initiatives/downscale_members_sectors.py:943-944 | a World row of a bunker variable counts as covered |
| CO2Equivalent.ToCO2Equivalent | COP_initiatives/downscale_members_individual.py:157-172 | one group per distinct (model, scenario, year, region, scenario type), all in Mt CO2-equiv/yr; every input row's group is present |
| CO2Equivalent.TotalPreserved | COP_initiatives/downscale_members_individual.py:167-172 | the groups add up to the converted amounts of all rows |
| CO2Equivalent.GroupHoldsItsRows | COP_initiatives/downscale_members_individual.py:167-172 | each group's total is the sum of the converted amounts of its rows, whatever their unit |
| CO2Equivalent.SameConversion | COP_initiatives/downscale_members_individual.py:162-172 | replacing a row by one that converts to the same CO2-equivalent row leaves the whole result unchanged |
| CO2Equivalent.UnitsConsistent | COP_initiatives/downscale_members_individual.py:158-172 | in the result, a row of x kt N2O counts as x/1000 Mt N2O, x Tg N as the nitrous oxide carrying it, x Mt CH4 and x Mt N2O as their GWP-weighted amounts of Mt CO2, and a row in an unknown unit as the same amount of Mt CO2 |

## Left out

- Reading and writing files (CSV, Excel, the run logs) and all plotting are
  left out. Every table is a parameter of the operation that reads it.
- `downscale_actors.py`, `log_downscaling_members.py`, and the company and
  urban downscaling in `downscale_tool.py` are not part of this model.
- `calcualte_member_share` (downscale_members_sectors.py:552-584) is left
  out. Nothing calls it.
- The mapping from region names to IMAGE region numbers is taken as already
  applied: regions are numbers, and World is 28.
- The global warming potentials, the nitrogen-to-nitrous-oxide factor and
  the flaring membership percentage are parameters. The code reads them from
  globals or from the input file.
- The signatory table is its list of initiative columns plus a map from
  country code to initiative flags. The melt itself is not modelled beyond
  its failure on a dropped BT_ column.
- Column order, column renaming and the Scenario label columns are left out.
  They carry no numbers.
- Left merges take the first matching right row, or the sum of the matching
  rows where the right table is a group-by result. A left merge that would
  duplicate left rows is not modelled. Such merges need duplicate right
  rows, which arise only when an initiative is routed under two pairs (see
  below).
- Groups and pivot rows are listed in the order in which their keys first
  appear, while pandas sorts group-by and pivot output by key. No later step
  depends on the row order.
- FlaringReductions.GroupedFlaring: a row whose scenario label is present
  but whose individual reduction is missing is treated like a row without a
  label, and is dropped by the group-by. The scenario labels are not
  modelled.
- The attachment of the subsector variable to the baseline rows (line 909)
  is taken as done: `Accounting.BaselineRow` carries its variable.
- The dispatch of each (sector, subsector) pair receives all country
  reduction rows and selects them by initiative alone, whatever their sector
  (`SubsectorReductions.Selected`); this is modelled. The upstream removal of
  Flaring and World rows (lines 793-794) is assumed.
- An initiative routed under two pairs is not guarded against. Efficiency is
  routed under both Energy Demand/Total (line 425) and Buildings/Total
  (line 479). If the initiative overview lists it under both pairs, both
  calls return the groups of both sectors, and the concatenation at line 894
  holds each group twice. The left merges at lines 896 and 912 would then
  duplicate baseline rows, and the World sum (line 923) and the Kyoto sum
  (line 952) would count them twice. The model's merges take the first
  matching row, so they do not reproduce this double count.
- Accounting.Cap: the check before the cap compares with NaN as pandas
  does, so a missing member reduction filled from the regional one is not
  flagged.
- Accounting.Floor: a missing member value filled from the scenario is
  likewise not flagged.
- MemberShares.WorldShareAsWritten: the World member share is modelled as
  written, with value × share × membership. Full membership therefore does
  not give 1 (see `MemberShares.WorldShareFullMembershipExample`). No
  pathway consumes it, because the non-Flaring World pathway is the sum of
  the regions.
- Overlap.ResolveElecCell: the "reduction_subsector" case takes the largest
  individual reduction, as written (line 184), not the subsector reduction.
- Division by a zero regional total gives a missing share, not the infinity
  or NaN of floating point. Reals are exact: rounding is not modelled.
- MemberShares.WorldShareAsWritten: a zero World denominator (line 165)
  gives a missing share. Floating point gives NaN when every value is 0, and
  plus or minus infinity when values of mixed sign cancel; the model does
  not tell these apart.
- The unit check in the CO2 conversion only reports unknown units. The
  report is left out, and unknown units keep factor 1.
