/**
 Regional accounting of the member pathways per subsector variable. The
 summed member reductions are capped at the regional subsector reduction,
 taken off the baseline, floored at the subsector scenario, extended with
 World rows, and International Bunkers are kept at World level only.
 */
module Accounting {
  import opened Tables
  import opened Domain
  import opened SubsectorReductions

  const BUNKERS := "International Bunkers"

  /** The key of a subsector variable in one region and year. */
  datatype VarKey = VarKey(sector: string, subsector: string, variable: string, region: int, year: int, unit: string)

  /** The merge key without the variable. */
  function SubsectorOf(k: VarKey): SubsectorKey
  {
    SubsectorKey(k.sector, k.subsector, k.region, k.unit, k.year)
  }

  // ---------------------------------------------------------------------------
  // The cap

  /** `a > b` on two cells: false when either is missing. */
  predicate Greater(a: Option<real>, b: Option<real>)
  {
    a.Some? && b.Some? && a.value > b.value
  }

  /** A capped member reduction with the two check columns. */
  datatype Capped = Capped(value: Option<real>, checkBefore: bool, checkAfter: bool)

  /** The member reduction capped at the regional subsector reduction with a
      skip-NaN minimum. The check before the cap flags exactly the present
      member reductions the cap changes; a missing member reduction is filled
      with the regional one without being flagged. After the cap nothing is
      flagged. */
  function Cap(members: Option<real>, regional: Option<real>): (c: Capped)
    ensures c.value.None? <==> members.None? && regional.None?
    ensures c.value == members || c.value == regional
    ensures members.Some? && c.value.Some? ==> c.value.value <= members.value
    ensures regional.Some? ==> c.value.Some? && c.value.value <= regional.value
    ensures c.checkBefore <==> members.Some? && c.value != members
    ensures !c.checkAfter
  {
    var v := MinSkipNa(members, regional);
    Capped(v, Greater(members, regional), Greater(v, regional))
  }

  /** One row of the regional subsector reduction table. */
  datatype RegionalSubsector = RegionalSubsector(key: VarKey, reduction: Option<real>)

  function RegionalSubsectorKey(r: RegionalSubsector): SubsectorKey
  {
    SubsectorOf(r.key)
  }

  /** A member reduction after the merge with the regional subsector
      reductions and the cap; the variable is missing where the merge found
      no regional row. */
  datatype CappedRow = CappedRow(key: SubsectorKey, variable: Option<string>, capped: Capped)

  /** The regional subsector reduction a left merge on the subsector key
      reads: missing where no row has the key or its reduction is missing. */
  function MergedRegional(regional: seq<RegionalSubsector>, k: SubsectorKey): Option<real>
  {
    match Find(regional, RegionalSubsectorKey, k)
    case Some(r) => r.reduction
    case None => None
  }

  /** The variable a left merge on the subsector key attaches. */
  function MergedVariable(regional: seq<RegionalSubsector>, k: SubsectorKey): Option<string>
  {
    match Find(regional, RegionalSubsectorKey, k)
    case Some(r) => Some(r.key.variable)
    case None => None
  }

  function CapRow(regional: seq<RegionalSubsector>): MemberReduction -> CappedRow
  {
    (m: MemberReduction) =>
      CappedRow(m.key, MergedVariable(regional, m.key), Cap(m.reduction, MergedRegional(regional, m.key)))
  }

  /** The capped member reductions, one per member reduction row: the cap
      never raises a present member reduction and never leaves one above the
      regional subsector reduction it was merged with. */
  function CapRows(members: seq<MemberReduction>, regional: seq<RegionalSubsector>): (rows: seq<CappedRow>)
    ensures |rows| == |members|
    ensures forall i :: 0 <= i < |rows| ==>
              && rows[i].key == members[i].key
              && (rows[i].variable.Some? <==> HasKey(regional, RegionalSubsectorKey, members[i].key))
              && (members[i].reduction.Some? ==>
                    rows[i].capped.value.Some? && rows[i].capped.value.value <= members[i].reduction.value)
              && (MergedRegional(regional, members[i].key).Some? ==>
                    rows[i].capped.value.Some? && rows[i].capped.value.value <= MergedRegional(regional, members[i].key).value)
              && !rows[i].capped.checkAfter
  {
    Project(members, CapRow(regional))
  }

  // ---------------------------------------------------------------------------
  // The member pathway of a subsector variable

  /** One baseline row of a subsector variable. */
  datatype BaselineRow = BaselineRow(key: VarKey, value: real)

  /** One row of the subsector scenario the member pathway may not undercut. */
  datatype ScenarioRow = ScenarioRow(key: VarKey, value: Option<real>)

  /** One row of a member pathway per subsector variable. */
  datatype SectorRow = SectorRow(key: VarKey, value: Option<real>)

  function BaselineKey(b: BaselineRow): VarKey
  {
    b.key
  }

  function BaselineValue(b: BaselineRow): real
  {
    b.value
  }

  function ScenarioKey(s: ScenarioRow): VarKey
  {
    s.key
  }

  function SectorKey(r: SectorRow): VarKey
  {
    r.key
  }

  function SectorValue(r: SectorRow): real
  {
    OrZero(r.value)
  }

  function CappedKey(c: CappedRow): (SubsectorKey, Option<string>)
  {
    (c.key, c.variable)
  }

  /** The capped member reduction of a subsector variable as the merge on
      sector, subsector, variable, region, year and unit reads it. */
  function MergedMembers(capped: seq<CappedRow>, k: VarKey): Option<real>
  {
    match Find(capped, CappedKey, (SubsectorOf(k), Some(k.variable)))
    case Some(c) => c.capped.value
    case None => None
  }

  /** The subsector scenario value of a key. */
  function MergedScenario(scenario: seq<ScenarioRow>, k: VarKey): Option<real>
  {
    match Find(scenario, ScenarioKey, k)
    case Some(s) => s.value
    case None => None
  }

  /** Baseline minus member reduction; missing with the reduction. */
  function Subtract(baseline: real, reduction: Option<real>): (v: Option<real>)
    ensures v.Some? <==> reduction.Some?
    ensures v.Some? ==> v.value + reduction.value == baseline
  {
    match reduction
    case Some(r) => Some(baseline - r)
    case None => None
  }

  /** A floored value with the flag of the rows the floor changed. */
  datatype Floored = Floored(value: Option<real>, change: bool)

  /** The member value floored at the subsector scenario with a skip-NaN
      maximum, so that negative emissions cannot take a member pathway below
      the scenario. The flag marks exactly the present values the floor
      changed; a missing value filled from the scenario is not flagged. */
  function Floor(value: Option<real>, scenario: Option<real>): (f: Floored)
    ensures f.value.None? <==> value.None? && scenario.None?
    ensures f.value == value || f.value == scenario
    ensures value.Some? ==> f.value.Some? && f.value.value >= value.value
    ensures scenario.Some? ==> f.value.Some? && f.value.value >= scenario.value
    ensures f.change <==> value.Some? && f.value != value
  {
    Floored(MaxSkipNa(value, scenario), Greater(scenario, value))
  }

  /** The member value of a subsector variable: the summed baseline less
      the capped member reduction, floored at the subsector scenario. It is
      missing only when both the reduction and the scenario are, it is never
      below either bound, and it is one of the two. */
  function MemberSectorValue(total: real, members: Option<real>, scenario: Option<real>): (v: Option<real>)
    ensures v.None? <==> members.None? && scenario.None?
    ensures members.Some? ==> v.Some? && v.value >= total - members.value
    ensures scenario.Some? ==> v.Some? && v.value >= scenario.value
    ensures v == scenario || (members.Some? && v == Some(total - members.value))
  {
    Floor(Subtract(total, members), scenario).value
  }

  function MemberSectorRow(capped: seq<CappedRow>, scenario: seq<ScenarioRow>): Group<VarKey> -> SectorRow
  {
    (g: Group<VarKey>) => SectorRow(g.key, MemberSectorValue(g.total, MergedMembers(capped, g.key), MergedScenario(scenario, g.key)))
  }

  function IsRegional(b: BaselineRow): bool
  {
    b.key.region != WORLD
  }

  /** The regional member pathway of every subsector variable, one row per
      regional baseline key. */
  function MemberSubsectorRows(baseline: seq<BaselineRow>, capped: seq<CappedRow>, scenario: seq<ScenarioRow>)
    : (rows: seq<SectorRow>)
    ensures var b := Filter(baseline, IsRegional);
            && |rows| == |Keys(b, BaselineKey)|
            && UniqueKeys(rows, SectorKey)
            && (forall j :: 0 <= j < |b| ==> HasKey(rows, SectorKey, b[j].key))
            && forall i :: 0 <= i < |rows| ==>
                 && HasKey(b, BaselineKey, rows[i].key)
                 && rows[i].key.region != WORLD
                 && rows[i].value == MemberSectorValue(SumWhere(b, BaselineKey, rows[i].key, BaselineValue),
                                                       MergedMembers(capped, rows[i].key), MergedScenario(scenario, rows[i].key))
  {
    var b := Filter(baseline, IsRegional);
    var gs := GroupSum(b, BaselineKey, BaselineValue);
    var rows := Project(gs, MemberSectorRow(capped, scenario));
    assert forall i :: 0 <= i < |gs| ==> SectorKey(rows[i]) == GroupKey(gs[i]);
    RegionalKeys(b, gs);
    rows
  }

  lemma RegionalKeys(b: seq<BaselineRow>, gs: seq<Group<VarKey>>)
    requires forall j :: 0 <= j < |b| ==> IsRegional(b[j])
    requires forall i :: 0 <= i < |gs| ==> HasKey(b, BaselineKey, gs[i].key)
    ensures forall i :: 0 <= i < |gs| ==> gs[i].key.region != WORLD
  {
    forall i | 0 <= i < |gs| ensures gs[i].key.region != WORLD {
      var j :| 0 <= j < |b| && BaselineKey(b[j]) == gs[i].key;
    }
  }

  // ---------------------------------------------------------------------------
  // World rows and International Bunkers

  /** The World group-by key: the row key without the region. */
  datatype WorldKey = WorldKey(sector: string, subsector: string, variable: string, year: int, unit: string)

  function WorldKeyOf(r: SectorRow): WorldKey
  {
    WorldKey(r.key.sector, r.key.subsector, r.key.variable, r.key.year, r.key.unit)
  }

  function WorldRow(g: Group<WorldKey>): SectorRow
  {
    SectorRow(VarKey(g.key.sector, g.key.subsector, g.key.variable, WORLD, g.key.year, g.key.unit), Some(g.total))
  }

  /** The World rows: per sector, subsector, variable, year and unit, the
      skip-NaN sum of the regional rows. */
  function WorldRows(regional: seq<SectorRow>): (world: seq<SectorRow>)
    ensures |world| == |Keys(regional, WorldKeyOf)|
    ensures forall i :: 0 <= i < |world| ==>
              && world[i].key.region == WORLD
              && HasKey(regional, WorldKeyOf, WorldKeyOf(world[i]))
              && world[i].value == Some(SumWhere(regional, WorldKeyOf, WorldKeyOf(world[i]), SectorValue))
    ensures forall j :: 0 <= j < |regional| ==> HasKey(world, WorldKeyOf, WorldKeyOf(regional[j]))
  {
    var gs := GroupSum(regional, WorldKeyOf, SectorValue);
    var world := Project(gs, WorldRow);
    assert forall i :: 0 <= i < |gs| ==> WorldKeyOf(world[i]) == GroupKey(gs[i]);
    world
  }

  /** A regional row of International Bunkers. */
  predicate RegionalBunker(r: SectorRow)
  {
    r.key.sector == BUNKERS && r.key.region != WORLD
  }

  predicate KeepRow(r: SectorRow)
  {
    !RegionalBunker(r)
  }

  /** Whether International Bunkers is among the sectors of the table. */
  predicate HasBunkers(rows: seq<SectorRow>)
  {
    exists i :: 0 <= i < |rows| && rows[i].key.sector == BUNKERS
  }

  /** The regional rows with the World rows appended; when the table has
      International Bunkers, its regional rows are dropped. */
  function WithWorld(regional: seq<SectorRow>): seq<SectorRow>
  {
    var all := regional + WorldRows(regional);
    if HasBunkers(all) then Filter(all, KeepRow) else all
  }

  // ---------------------------------------------------------------------------
  // Properties

  /** The guard on the presence of International Bunkers changes nothing:
      the result is always the filtered table. */
  lemma BunkerGuardRedundant(regional: seq<SectorRow>)
    ensures WithWorld(regional) == Filter(regional + WorldRows(regional), KeepRow)
  {
    var all := regional + WorldRows(regional);
    if !HasBunkers(all) {
      FilterAll(all, KeepRow);
    }
  }

  /** International Bunkers appear at World level only, and nothing is
      added beyond the regional and World rows. */
  lemma BunkersOnlyAtWorld(regional: seq<SectorRow>)
    ensures forall r :: r in WithWorld(regional) ==> r in regional + WorldRows(regional) && !RegionalBunker(r)
  {
    BunkerGuardRedundant(regional);
    var kept := Filter(regional + WorldRows(regional), KeepRow);
    forall r | r in kept ensures r in regional + WorldRows(regional) && !RegionalBunker(r) {
      var j :| 0 <= j < |kept| && kept[j] == r;
    }
  }

  /** Every row other than a regional bunker row is kept, World rows
      included. */
  lemma NonBunkerRowsKept(regional: seq<SectorRow>)
    ensures forall r :: r in regional + WorldRows(regional) && !RegionalBunker(r) ==> r in WithWorld(regional)
  {
    BunkerGuardRedundant(regional);
    var all := regional + WorldRows(regional);
    forall r | r in all && !RegionalBunker(r) ensures r in Filter(all, KeepRow) {
      var j :| 0 <= j < |all| && all[j] == r;
    }
  }

  /** The World rows add up to the regional rows: the roll-up neither loses
      nor double-counts a region, bunkers included. */
  lemma WorldConservesTotal(regional: seq<SectorRow>)
    ensures Sum(WorldRows(regional), SectorValue) == Sum(regional, SectorValue)
  {
    var gs := GroupSum(regional, WorldKeyOf, SectorValue);
    SumTransport(WorldRows(regional), SectorValue, gs, Total);
    GroupSumTotal(regional, WorldKeyOf, SectorValue);
  }
}
