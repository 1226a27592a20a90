/**
 Overlap resolution. Where several initiatives cover one subsector, the
 country reduction table is pivoted so that each (region, sector, subsector,
 year, unit, country) row carries one individual and one subsector reduction
 per initiative; membership flags select a criterium from an exhaustive
 decision table, and the criterium picks the reduction that applies.
 */
module Overlap {
  import opened Tables
  import opened Domain

  /** One row of the long country reduction table. */
  datatype CountryReduction = CountryReduction(
    region: int,
    iso: string,
    sector: string,
    subsector: string,
    year: int,
    unit: string,
    ici: Initiative,
    individual: Option<real>,
    subsectorReduction: Option<real>)

  /** The pivot index. */
  datatype RowKey = RowKey(region: int, sector: string, subsector: string, year: int, unit: string, iso: string)

  /** The duplicate key: the pivot index and the initiative column. */
  datatype CellKey = CellKey(row: RowKey, ici: Initiative)

  /** One pivot cell after `fillna(0)`: the individual and the subsector
      reduction of one initiative for one row. */
  datatype Pair = Pair(individual: real, subsector: real)

  /** A resolved row: the reduction that applies and the subsector
      reduction (the largest of the initiatives'). The reduction is missing
      only for a criterium label the resolver does not know. */
  datatype Resolved = Resolved(individual: Option<real>, subsector: real)

  datatype ResolvedRow = ResolvedRow(key: RowKey, individual: Option<real>, subsector: real)

  function RowKeyOf(r: CountryReduction): RowKey
  {
    RowKey(r.region, r.sector, r.subsector, r.year, r.unit, r.iso)
  }

  function CellKeyOf(r: CountryReduction): CellKey
  {
    CellKey(RowKeyOf(r), r.ici)
  }

  function IciOf(r: CountryReduction): Initiative
  {
    r.ici
  }

  function CellRow(k: CellKey): RowKey
  {
    k.row
  }

  function CellIci(k: CellKey): Initiative
  {
    k.ici
  }

  function ResolvedKey(r: ResolvedRow): RowKey
  {
    r.key
  }

  /** The pivot cell of one row and initiative, missing cells and missing
      values read as 0. */
  function Cell(rows: seq<CountryReduction>, key: RowKey, ici: Initiative): (c: Pair)
    ensures !HasKey(rows, CellKeyOf, CellKey(key, ici)) ==> c == Pair(0.0, 0.0)
  {
    match Find(rows, CellKeyOf, CellKey(key, ici))
    case Some(r) => Pair(OrZero(r.individual), OrZero(r.subsectorReduction))
    case None => Pair(0.0, 0.0)
  }

  /** `Membership_X = Reduction_country_individual_X != 0`. */
  predicate Member(c: Pair)
  {
    c.individual != 0.0
  }

  /** `np.select`: the choice of the first condition that holds, else the
      default. */
  function Select(conds: seq<bool>, choices: seq<string>, default: string): (r: string)
    requires |conds| == |choices|
    ensures (forall i :: 0 <= i < |conds| ==> !conds[i]) ==> r == default
    ensures forall i :: 0 <= i < |conds| && conds[i] && (forall j :: 0 <= j < i ==> !conds[j]) ==> r == choices[i]
  {
    if |conds| == 0 then default
    else if conds[0] then choices[0]
    else
      var r := Select(conds[1..], choices[1..], default);
      assert forall i :: 1 <= i < |conds| ==> conds[i] == conds[1..][i - 1] && choices[i] == choices[1..][i - 1];
      r
  }

  /** Exactly one of the conditions holds. */
  predicate ExactlyOne(conds: seq<bool>)
  {
    (exists i :: 0 <= i < |conds| && conds[i])
    && forall i, j :: 0 <= i < |conds| && 0 <= j < |conds| && conds[i] && conds[j] ==> i == j
  }

  /** The label np.select falls back to. */
  const Default: string := "9999"

  // ---------------------------------------------------------------------------
  // Three-way table: Coal, Renewable, Cooling in Electricity and Heat

  datatype ElecCombo = ElecCombo(coal: bool, renewable: bool, cooling: bool)

  datatype ElecCriterium = ReductionSubsector | CoalPlusCooling | ReductionCoal | Cop28 | ReductionCooling | Baseline

  /** The decision table, one case per membership combination. */
  function ElecTable(c: ElecCombo): ElecCriterium
  {
    match c
    case ElecCombo(true, true, true) => ReductionSubsector
    case ElecCombo(true, true, false) => ReductionSubsector
    case ElecCombo(true, false, true) => CoalPlusCooling
    case ElecCombo(true, false, false) => ReductionCoal
    case ElecCombo(false, true, true) => Cop28
    case ElecCombo(false, true, false) => Cop28
    case ElecCombo(false, false, true) => ReductionCooling
    case ElecCombo(false, false, false) => Baseline
  }

  function ElecLabel(c: ElecCriterium): string
  {
    match c
    case ReductionSubsector => "reduction_subsector"
    case CoalPlusCooling => "reduction_coal + reduction_cooling"
    case ReductionCoal => "reduction_coal"
    case Cop28 => "COP28"
    case ReductionCooling => "reduction_cooling"
    case Baseline => "baseline"
  }

  /** The eight conditions in the order the source lists them. */
  function ElecConditions(c: ElecCombo): seq<bool>
  {
    [ c.coal && c.renewable && c.cooling,
      c.coal && c.renewable && !c.cooling,
      c.coal && !c.renewable && c.cooling,
      c.coal && !c.renewable && !c.cooling,
      !c.coal && c.renewable && c.cooling,
      !c.coal && c.renewable && !c.cooling,
      !c.coal && !c.renewable && c.cooling,
      !c.coal && !c.renewable && !c.cooling ]
  }

  const ElecChoices: seq<string> :=
    [ "reduction_subsector",
      "reduction_subsector",
      "reduction_coal + reduction_cooling",
      "reduction_coal",
      "COP28",
      "COP28",
      "reduction_cooling",
      "baseline" ]

  /** `_calc_reduction_elec`: the reduction a criterium label selects. The
      "reduction_subsector" label takes the largest of the three individual
      reductions; an unknown label gives no reduction. */
  function CalcReductionElec(choice: string, coal: real, renewable: real, cooling: real, subsector: real): (r: Option<real>)
    ensures r.None? <==> choice !in ElecChoices
    ensures choice == "reduction_subsector" ==>
              && r.Some? && r.value >= coal && r.value >= renewable && r.value >= cooling
              && (r.value == coal || r.value == renewable || r.value == cooling)
    ensures choice == "reduction_coal + reduction_cooling" ==> r == Some(coal + cooling)
    ensures choice == "reduction_coal" ==> r == Some(coal)
    ensures choice == "COP28" || choice == "reduction_cooling" ==> r == Some(subsector)
    ensures choice == "baseline" ==> r == Some(0.0)
  {
    if choice == "reduction_subsector" then Some(Max(Max(coal, renewable), cooling))
    else if choice == "reduction_coal + reduction_cooling" then Some(coal + cooling)
    else if choice == "reduction_coal" then Some(coal)
    else if choice == "COP28" then Some(subsector)
    else if choice == "reduction_cooling" then Some(subsector)
    else if choice == "baseline" then Some(0.0)
    else None
  }

  /** The reduction each criterium stands for, independent of labels. */
  function ApplyElec(k: ElecCriterium, coal: real, renewable: real, cooling: real, subsector: real): real
  {
    match k
    case ReductionSubsector => Max(Max(coal, renewable), cooling)
    case CoalPlusCooling => coal + cooling
    case ReductionCoal => coal
    case Cop28 => subsector
    case ReductionCooling => subsector
    case Baseline => 0.0
  }

  function Max3(a: real, b: real, c: real): (m: real)
    ensures m >= a && m >= b && m >= c
    ensures m == a || m == b || m == c
  {
    Max(Max(a, b), c)
  }

  /** One pivoted row of the three-way resolver. */
  function ResolveElecCell(coal: Pair, renewable: Pair, cooling: Pair): (r: Resolved)
    ensures r.individual.Some?
    ensures r.subsector == Max3(coal.subsector, renewable.subsector, cooling.subsector)
    ensures Member(coal) && Member(renewable) ==>
              r.individual.value == Max3(coal.individual, renewable.individual, cooling.individual)
    ensures Member(coal) && !Member(renewable) && Member(cooling) ==>
              r.individual.value == coal.individual + cooling.individual
    ensures Member(coal) && !Member(renewable) && !Member(cooling) ==> r.individual.value == coal.individual
    ensures !Member(coal) && (Member(renewable) || Member(cooling)) ==> r.individual.value == r.subsector
    ensures !Member(coal) && !Member(renewable) && !Member(cooling) ==> r.individual.value == 0.0
  {
    var combo := ElecCombo(Member(coal), Member(renewable), Member(cooling));
    var subsector := Max3(coal.subsector, renewable.subsector, cooling.subsector);
    var choice := Select(ElecConditions(combo), ElecChoices, Default);
    ElecSelectIsTable(combo);
    Resolved(CalcReductionElec(choice, coal.individual, renewable.individual, cooling.individual, subsector), subsector)
  }

  /** The eight conditions are exhaustive and mutually exclusive. */
  lemma ElecConditionsExactlyOne(c: ElecCombo)
    ensures ExactlyOne(ElecConditions(c))
  {
    var conds := ElecConditions(c);
    var i := (if c.coal then 0 else 4) + (if c.renewable then 0 else 2) + (if c.cooling then 0 else 1);
    assert conds[i];
  }

  /** np.select over the eight conditions picks the label of the decision
      table, so the 9999 default is never taken. */
  lemma ElecSelectIsTable(c: ElecCombo)
    ensures Select(ElecConditions(c), ElecChoices, Default) == ElecLabel(ElecTable(c))
    ensures Select(ElecConditions(c), ElecChoices, Default) != Default
  {
    var conds := ElecConditions(c);
    var i := (if c.coal then 0 else 4) + (if c.renewable then 0 else 2) + (if c.cooling then 0 else 1);
    assert conds[i];
    assert forall j :: 0 <= j < i ==> !conds[j];
  }

  /** The labels the table produces are read back as the criterium they name. */
  lemma ElecLabelRoundTrip(k: ElecCriterium, coal: real, renewable: real, cooling: real, subsector: real)
    ensures CalcReductionElec(ElecLabel(k), coal, renewable, cooling, subsector) == Some(ApplyElec(k, coal, renewable, cooling, subsector))
  {
  }

  /** The resolved reduction is the decision table's criterium applied to the
      cell's reductions. */
  lemma ResolveElecCellByTable(coal: Pair, renewable: Pair, cooling: Pair)
    ensures var combo := ElecCombo(Member(coal), Member(renewable), Member(cooling));
            var r := ResolveElecCell(coal, renewable, cooling);
            r.individual == Some(ApplyElec(ElecTable(combo), coal.individual, renewable.individual, cooling.individual, r.subsector))
  {
    var combo := ElecCombo(Member(coal), Member(renewable), Member(cooling));
    ElecSelectIsTable(combo);
    ElecLabelRoundTrip(ElecTable(combo), coal.individual, renewable.individual, cooling.individual,
                       Max3(coal.subsector, renewable.subsector, cooling.subsector));
  }

  /** `_calculate_electricity_heat_reductions`: drop duplicate cells keeping
      the first, pivot on the row key, and resolve every row. */
  function ElectricityHeatReductions(rows: seq<CountryReduction>): (out: seq<ResolvedRow>)
    ensures var d := DropDuplicates(rows, CellKeyOf);
            && |out| == |Keys(rows, RowKeyOf)|
            && UniqueKeys(out, ResolvedKey)
            && (forall j :: 0 <= j < |rows| ==> HasKey(out, ResolvedKey, RowKeyOf(rows[j])))
            && (forall i :: 0 <= i < |out| ==> HasKey(rows, RowKeyOf, out[i].key))
            && forall i :: 0 <= i < |out| ==>
                 var r := ResolveElecCell(Cell(d, out[i].key, Coal), Cell(d, out[i].key, Renewable), Cell(d, out[i].key, Cooling));
                 out[i].individual == r.individual && out[i].subsector == r.subsector
  {
    var d := DropDuplicates(rows, CellKeyOf);
    Resolve(PivotIndex(rows), (k: RowKey) => ResolveElecCell(Cell(d, k, Coal), Cell(d, k, Renewable), Cell(d, k, Cooling)))
  }

  /** The index of the pivot after duplicate cells are dropped: dropping
      duplicates loses no row key. */
  function PivotIndex(rows: seq<CountryReduction>): (ks: seq<RowKey>)
    ensures ks == Keys(rows, RowKeyOf)
  {
    KeysOfDropDuplicates(rows, CellKeyOf, RowKeyOf, CellRow);
    Keys(DropDuplicates(rows, CellKeyOf), RowKeyOf)
  }

  /** One resolved row per pivot key. */
  function Resolve(ks: seq<RowKey>, resolve: RowKey -> Resolved): (out: seq<ResolvedRow>)
    requires Distinct(ks)
    ensures |out| == |ks|
    ensures UniqueKeys(out, ResolvedKey)
    ensures forall k :: k in ks ==> HasKey(out, ResolvedKey, k)
    ensures forall i :: 0 <= i < |out| ==> out[i].key in ks
    ensures forall i :: 0 <= i < |out| ==>
              out[i].key == ks[i] && out[i].individual == resolve(ks[i]).individual && out[i].subsector == resolve(ks[i]).subsector
  {
    var out := seq(|ks|, i requires 0 <= i < |ks| => ResolvedRow(ks[i], resolve(ks[i]).individual, resolve(ks[i]).subsector));
    assert forall k :: k in ks ==> HasKey(out, ResolvedKey, k) by {
      forall k | k in ks ensures HasKey(out, ResolvedKey, k) {
        var i :| 0 <= i < |ks| && ks[i] == k;
        assert ResolvedKey(out[i]) == k;
      }
    }
    out
  }

  /** An initiative without any row counts as a non-member with zero
      reductions, as the source's fallback columns make it. */
  lemma AbsentInitiativeIsNonMember(rows: seq<CountryReduction>, key: RowKey, ici: Initiative)
    requires forall j :: 0 <= j < |rows| ==> rows[j].ici != ici
    ensures Cell(DropDuplicates(rows, CellKeyOf), key, ici) == Pair(0.0, 0.0)
    ensures !Member(Cell(DropDuplicates(rows, CellKeyOf), key, ici))
  {
    var d := DropDuplicates(rows, CellKeyOf);
    assert !HasKey(d, CellKeyOf, CellKey(key, ici)) by {
      forall i | 0 <= i < |d| ensures CellKeyOf(d[i]) != CellKey(key, ici) {
        assert d[i] in rows;
      }
    }
  }

  /** The cell of a row and initiative holds the first input row of that
      cell: duplicates after it are ignored. */
  lemma CellIsFirstRow(rows: seq<CountryReduction>, j: int)
    requires 0 <= j < |rows| && FirstOccurrence(rows, CellKeyOf, j)
    ensures Cell(DropDuplicates(rows, CellKeyOf), RowKeyOf(rows[j]), rows[j].ici)
         == Pair(OrZero(rows[j].individual), OrZero(rows[j].subsectorReduction))
  {
    var d := DropDuplicates(rows, CellKeyOf);
    DropDuplicatesKeepsFirst(rows, CellKeyOf, j);
    var i :| 0 <= i < |d| && d[i] == rows[j];
    FindUnique(d, CellKeyOf, i);
  }

  /** Resolving a table whose duplicates were already dropped gives the same
      rows. */
  lemma ElectricityHeatDedupIdempotent(rows: seq<CountryReduction>)
    ensures ElectricityHeatReductions(DropDuplicates(rows, CellKeyOf)) == ElectricityHeatReductions(rows)
  {
    DropDuplicatesIdempotent(rows, CellKeyOf);
  }

  // ---------------------------------------------------------------------------
  // Two-way table: Steel and Cement in Industry, cars/buses and trucks in
  // Transportation

  datatype PairCombo = PairCombo(first: bool, second: bool)

  datatype PairCriterium = PairSubsector | ReductionFirst | ReductionSecond | PairBaseline

  function PairTable(c: PairCombo): PairCriterium
  {
    match c
    case PairCombo(true, true) => PairSubsector
    case PairCombo(true, false) => ReductionFirst
    case PairCombo(false, true) => ReductionSecond
    case PairCombo(false, false) => PairBaseline
  }

  function PairLabel(c: PairCriterium): string
  {
    match c
    case PairSubsector => "reduction_subsector"
    case ReductionFirst => "reduction_first"
    case ReductionSecond => "reduction_second"
    case PairBaseline => "baseline"
  }

  function PairConditions(c: PairCombo): seq<bool>
  {
    [ c.first && c.second,
      c.first && !c.second,
      !c.first && c.second,
      !c.first && !c.second ]
  }

  const PairChoices: seq<string> := ["reduction_subsector", "reduction_first", "reduction_second", "baseline"]

  /** `_calc_reduction_two_subsectors`: "reduction_subsector" takes the
      subsector reduction, but no more than the two individual reductions
      together. */
  function CalcReductionPair(choice: string, first: real, second: real, subsector: real): (r: Option<real>)
    ensures r.None? <==> choice !in PairChoices
    ensures choice == "reduction_subsector" ==>
              && r.Some? && r.value <= subsector && r.value <= first + second
              && (r.value == subsector || r.value == first + second)
    ensures choice == "reduction_first" ==> r == Some(first)
    ensures choice == "reduction_second" ==> r == Some(second)
    ensures choice == "baseline" ==> r == Some(0.0)
  {
    if choice == "reduction_subsector" then Some(Min(subsector, first + second))
    else if choice == "reduction_first" then Some(first)
    else if choice == "reduction_second" then Some(second)
    else if choice == "baseline" then Some(0.0)
    else None
  }

  function ApplyPair(k: PairCriterium, first: real, second: real, subsector: real): real
  {
    match k
    case PairSubsector => Min(subsector, first + second)
    case ReductionFirst => first
    case ReductionSecond => second
    case PairBaseline => 0.0
  }

  /** One pivoted row of the two-way resolver. */
  function ResolvePairCell(first: Pair, second: Pair): (r: Resolved)
    ensures r.individual.Some?
    ensures r.subsector >= first.subsector && r.subsector >= second.subsector
    ensures r.subsector == first.subsector || r.subsector == second.subsector
    ensures Member(first) && Member(second) ==>
              && r.individual.value <= r.subsector
              && r.individual.value <= first.individual + second.individual
              && (r.individual.value == r.subsector || r.individual.value == first.individual + second.individual)
    ensures Member(first) && !Member(second) ==> r.individual.value == first.individual
    ensures !Member(first) && Member(second) ==> r.individual.value == second.individual
    ensures !Member(first) && !Member(second) ==> r.individual.value == 0.0
  {
    var combo := PairCombo(Member(first), Member(second));
    var subsector := Max(first.subsector, second.subsector);
    var choice := Select(PairConditions(combo), PairChoices, Default);
    PairSelectIsTable(combo);
    Resolved(CalcReductionPair(choice, first.individual, second.individual, subsector), subsector)
  }

  lemma PairConditionsExactlyOne(c: PairCombo)
    ensures ExactlyOne(PairConditions(c))
  {
    var i := (if c.first then 0 else 2) + (if c.second then 0 else 1);
    assert PairConditions(c)[i];
  }

  lemma PairSelectIsTable(c: PairCombo)
    ensures Select(PairConditions(c), PairChoices, Default) == PairLabel(PairTable(c))
    ensures Select(PairConditions(c), PairChoices, Default) != Default
  {
    var conds := PairConditions(c);
    var i := (if c.first then 0 else 2) + (if c.second then 0 else 1);
    assert conds[i];
    assert forall j :: 0 <= j < i ==> !conds[j];
  }

  lemma ResolvePairCellByTable(first: Pair, second: Pair)
    ensures var combo := PairCombo(Member(first), Member(second));
            var r := ResolvePairCell(first, second);
            r.individual == Some(ApplyPair(PairTable(combo), first.individual, second.individual, r.subsector))
  {
    PairSelectIsTable(PairCombo(Member(first), Member(second)));
  }

  /** `unique()` of the initiative column after duplicate cells are dropped:
      the initiatives of the input in order of first appearance. */
  function DistinctInitiatives(rows: seq<CountryReduction>): (two: seq<Initiative>)
    ensures two == Keys(rows, IciOf)
  {
    KeysOfDropDuplicates(rows, CellKeyOf, IciOf, CellIci);
    Keys(DropDuplicates(rows, CellKeyOf), IciOf)
  }

  /** `_calculate_reductions_two_subsectors`: no table unless exactly two
      initiatives occur; otherwise drop duplicate cells keeping the first,
      call the initiative seen first "first" and the other "second", and
      resolve every row. */
  function TwoSubsectorReductions(rows: seq<CountryReduction>): (out: Option<seq<ResolvedRow>>)
    ensures out.Some? <==> |Keys(rows, IciOf)| == 2
    ensures out.Some? ==>
              var d := DropDuplicates(rows, CellKeyOf);
              var two := Keys(rows, IciOf);
              && |out.value| == |Keys(rows, RowKeyOf)|
              && UniqueKeys(out.value, ResolvedKey)
              && (forall j :: 0 <= j < |rows| ==> HasKey(out.value, ResolvedKey, RowKeyOf(rows[j])))
              && (forall i :: 0 <= i < |out.value| ==> HasKey(rows, RowKeyOf, out.value[i].key))
              && forall i :: 0 <= i < |out.value| ==>
                   var r := ResolvePairCell(Cell(d, out.value[i].key, two[0]), Cell(d, out.value[i].key, two[1]));
                   out.value[i].individual == r.individual && out.value[i].subsector == r.subsector
  {
    if |Keys(rows, IciOf)| != 2 then None
    else
      var d := DropDuplicates(rows, CellKeyOf);
      var two := DistinctInitiatives(rows);
      Some(Resolve(PivotIndex(rows), (k: RowKey) => ResolvePairCell(Cell(d, k, two[0]), Cell(d, k, two[1]))))
  }
}
