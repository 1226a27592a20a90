/**
 Member reductions per subsector. Each (sector, subsector) pair routes the
 country reductions of its initiatives either through an overlap resolver
 (when more than one of them is present) or straight through, and the
 result is summed per (sector, subsector, region, unit, year).
 */
module SubsectorReductions {
  import opened Tables
  import opened Domain
  import opened Overlap

  /** How a (sector, subsector) pair is computed. */
  datatype Route =
    | ElectricityHeat
      /** Two initiatives sharing one subsector: the first and the second. */
    | TwoWay(first: Initiative, second: Initiative)
    | Single(ici: Initiative)
      /** A known sector with an unknown subsector. */
    | NoTable
    | UnknownSector

  /** The dispatch on sector and subsector. The "Total" sector counts only
      when Methane is among the initiatives of the pair. */
  function RouteOf(sector: string, subsector: string, initiatives: seq<Initiative>): Route
  {
    if sector == "Energy Supply" then
      if subsector == "Electricity and Heat" then ElectricityHeat
      else if subsector == "Fugitive|Oil Production" then Single(Flaring)
      else NoTable
    else if sector == "Energy Demand" then
      if subsector == "Total" then Single(Efficiency) else NoTable
    else if sector == "Industry" then
      if subsector == "Total" then TwoWay(Steel, Cement) else NoTable
    else if sector == "Transportation" then
      if subsector == "Total" then TwoWay(TransportCarsBuses, TransportTrucks) else NoTable
    else if sector == "International Bunkers" then
      if subsector == "Total" then Single(BunkersAviation) else NoTable
    else if sector == "Buildings" then
      if subsector == "Total" then Single(Efficiency) else NoTable
    else if sector == "LULUCF" then
      if subsector == "Deforestation" then Single(Deforestation) else NoTable
    else if sector == "Total" then
      if subsector == "Total" && Methane in initiatives then Single(Methane) else NoTable
    else UnknownSector
  }

  /** The initiatives whose rows a route reads. */
  function RouteInitiatives(r: Route): set<Initiative>
  {
    match r
    case ElectricityHeat => {Coal, Renewable, Cooling}
    case TwoWay(a, b) => {a, b}
    case Single(i) => {i}
    case NoTable => {}
    case UnknownSector => {}
  }

  /** The key of the final group-by. */
  datatype SubsectorKey = SubsectorKey(sector: string, subsector: string, region: int, unit: string, year: int)

  /** One member reduction before the group-by. */
  datatype MemberReduction = MemberReduction(key: SubsectorKey, reduction: Option<real>)

  function MemberKey(m: MemberReduction): SubsectorKey
  {
    m.key
  }

  function ReductionOrZero(m: MemberReduction): real
  {
    OrZero(m.reduction)
  }

  function CountryKey(r: CountryReduction): SubsectorKey
  {
    SubsectorKey(r.sector, r.subsector, r.region, r.unit, r.year)
  }

  function IndividualOrZero(r: CountryReduction): real
  {
    OrZero(r.individual)
  }

  /** A country reduction taken as it is: its individual reduction. */
  function PassThrough(r: CountryReduction): MemberReduction
  {
    MemberReduction(CountryKey(r), r.individual)
  }

  function FromResolved(r: ResolvedRow): MemberReduction
  {
    MemberReduction(SubsectorKey(r.key.sector, r.key.subsector, r.key.region, r.key.unit, r.key.year), r.individual)
  }

  /** The rows of the given initiatives, whatever their sector. */
  function Selected(rows: seq<CountryReduction>, icis: set<Initiative>): seq<CountryReduction>
  {
    Filter(rows, (r: CountryReduction) => r.ici in icis)
  }

  /** The number of distinct initiatives among the rows. */
  function InitiativeCount(rows: seq<CountryReduction>): nat
  {
    |Keys(rows, IciOf)|
  }

  /** Whether a route goes through an overlap resolver. */
  predicate Resolves(route: Route, rows: seq<CountryReduction>)
  {
    (route.ElectricityHeat? || route.TwoWay?) && InitiativeCount(Selected(rows, RouteInitiatives(route))) > 1
  }

  /** The member reductions of one route before the group-by. A known sector
      with an unknown subsector fails: the source builds a table without
      columns and its group-by raises. */
  function MemberReductions(route: Route, rows: seq<CountryReduction>): (res: Result<seq<MemberReduction>>)
    ensures res.Failure? <==> route.NoTable?
    ensures route.UnknownSector? ==> res == Success([])
    ensures (route.Single? || route.ElectricityHeat? || route.TwoWay?) && !Resolves(route, rows) ==>
              res.value == Project(Selected(rows, RouteInitiatives(route)), PassThrough)
    ensures res.Success? && Resolves(route, rows) && route.ElectricityHeat? ==>
              res.value == Project(ElectricityHeatReductions(Selected(rows, RouteInitiatives(route))), FromResolved)
    ensures res.Success? && Resolves(route, rows) && route.TwoWay? ==>
              var s := Selected(rows, RouteInitiatives(route));
              TwoSubsectorReductions(s).Some? && res.value == Project(TwoSubsectorReductions(s).value, FromResolved)
  {
    var s := Selected(rows, RouteInitiatives(route));
    match route
    case NoTable => Failure(TableWithoutColumns)
    case UnknownSector => Success([])
    case Single(_) => Success(Project(s, PassThrough))
    case ElectricityHeat =>
      if InitiativeCount(s) > 1 then Success(Project(ElectricityHeatReductions(s), FromResolved))
      else Success(Project(s, PassThrough))
    case TwoWay(a, b) =>
      if InitiativeCount(s) > 1 then
        TwoWayIsPair(a, b, rows);
        Success(Project(TwoSubsectorReductions(s).value, FromResolved))
      else Success(Project(s, PassThrough))
  }

  /** `_calculate_subsector_pathway_reductions`: the member reduction of a
      (sector, subsector) pair per (sector, subsector, region, unit, year). */
  function SubsectorPathwayReductions(sector: string, subsector: string, initiatives: seq<Initiative>, rows: seq<CountryReduction>)
    : (res: Result<seq<Group<SubsectorKey>>>)
    ensures res.Failure? <==> RouteOf(sector, subsector, initiatives).NoTable?
    ensures RouteOf(sector, subsector, initiatives).UnknownSector? ==> res == Success([])
  {
    match MemberReductions(RouteOf(sector, subsector, initiatives), rows)
    case Failure(e) => Failure(e)
    case Success(m) => Success(GroupSum(m, MemberKey, ReductionOrZero))
  }

  // ---------------------------------------------------------------------------
  // Properties

  /** Once a two-way route sees more than one of its initiatives it sees
      exactly two, so the two-way resolver always produces its table. */
  lemma TwoWayIsPair(a: Initiative, b: Initiative, rows: seq<CountryReduction>)
    ensures var s := Selected(rows, {a, b});
            InitiativeCount(s) > 1 ==> TwoSubsectorReductions(s).Some?
  {
    var s := Selected(rows, {a, b});
    var ks := Keys(s, IciOf);
    forall i | 0 <= i < |ks| ensures ks[i] in {a, b} {
      assert ks[i] in ks;
      var j :| 0 <= j < |s| && IciOf(s[j]) == ks[i];
    }
    DistinctWithin(ks, {a, b});
  }

  /** The group-by loses nothing: the totals add up to the member
      reductions, missing ones counting as 0. */
  lemma SubsectorTotalPreserved(sector: string, subsector: string, initiatives: seq<Initiative>, rows: seq<CountryReduction>)
    requires SubsectorPathwayReductions(sector, subsector, initiatives, rows).Success?
    ensures Sum(SubsectorPathwayReductions(sector, subsector, initiatives, rows).value, Total)
         == Sum(MemberReductions(RouteOf(sector, subsector, initiatives), rows).value, ReductionOrZero)
  {
    var m := MemberReductions(RouteOf(sector, subsector, initiatives), rows).value;
    assert SubsectorPathwayReductions(sector, subsector, initiatives, rows).value == GroupSum(m, MemberKey, ReductionOrZero);
    GroupSumTotal(m, MemberKey, ReductionOrZero);
  }

  /** Without overlap each subsector total is the sum of the individual
      country reductions of the route's initiatives with that key. */
  lemma UnresolvedSumsIndividual(sector: string, subsector: string, initiatives: seq<Initiative>, rows: seq<CountryReduction>, i: int)
    requires var route := RouteOf(sector, subsector, initiatives);
             !route.NoTable? && !Resolves(route, rows)
    requires 0 <= i < |SubsectorPathwayReductions(sector, subsector, initiatives, rows).value|
    ensures var g := SubsectorPathwayReductions(sector, subsector, initiatives, rows).value[i];
            var route := RouteOf(sector, subsector, initiatives);
            g.total == SumWhere(Selected(rows, RouteInitiatives(route)), CountryKey, g.key, IndividualOrZero)
  {
    var route := RouteOf(sector, subsector, initiatives);
    var s := Selected(rows, RouteInitiatives(route));
    var m := Project(s, PassThrough);
    var g := SubsectorPathwayReductions(sector, subsector, initiatives, rows).value[i];
    SumWhereTransport(m, MemberKey, ReductionOrZero, s, CountryKey, IndividualOrZero, g.key);
  }

  /** Rows of initiatives outside the route change nothing. */
  lemma OtherInitiativesIgnored(sector: string, subsector: string, initiatives: seq<Initiative>, rows: seq<CountryReduction>)
    ensures var kept := Selected(rows, RouteInitiatives(RouteOf(sector, subsector, initiatives)));
            SubsectorPathwayReductions(sector, subsector, initiatives, kept) == SubsectorPathwayReductions(sector, subsector, initiatives, rows)
  {
    var route := RouteOf(sector, subsector, initiatives);
    FilterIdempotent(rows, (r: CountryReduction) => r.ici in RouteInitiatives(route));
  }

  /** A sector the dispatch does not know contributes no rows, and a known
      sector with an unknown subsector fails. */
  lemma UnknownPairs(sector: string, subsector: string, initiatives: seq<Initiative>, rows: seq<CountryReduction>)
    ensures sector == "Chemicals" ==> SubsectorPathwayReductions(sector, subsector, initiatives, rows) == Success([])
    ensures sector == "Industry" && subsector == "Steel" ==> SubsectorPathwayReductions(sector, subsector, initiatives, rows).Failure?
    ensures sector == "Total" && subsector == "Total" && Methane !in initiatives ==>
              SubsectorPathwayReductions(sector, subsector, initiatives, rows).Failure?
  {
  }
}
