/**
 Member pathways: within each region the signatories (a coverage fraction s)
 follow the mitigation scenario and everyone else the baseline, so the
 member pathway is the blend (1 - s) * baseline + s * mitigation; World rows
 are the sums of the regional rows. Flaring has only a World share and so
 only World rows.
 */
module Pathways {
  import opened Tables
  import opened Domain
  import opened MemberShares

  /** The merge key of two scenario tables. */
  datatype SeriesKey = SeriesKey(region: int, variable: string, year: int)

  /** One row of an IMAGE scenario (baseline or mitigation). */
  datatype SeriesRow = SeriesRow(region: int, variable: string, year: int, value: real)

  /** One row of a member pathway; the value is missing where a left merge
      found no share or no mitigation row. */
  datatype PathwayRow = PathwayRow(region: int, variable: string, year: int, value: Option<real>)

  /** The group-by key of the World rows. */
  datatype YearVariable = YearVariable(year: int, variable: string)

  function KeyOf(b: SeriesRow): SeriesKey
  {
    SeriesKey(b.region, b.variable, b.year)
  }

  function PathwayValue(r: PathwayRow): real
  {
    OrZero(r.value)
  }

  function PathwayRegion(r: PathwayRow): int
  {
    r.region
  }

  function PathwayGroup(r: PathwayRow): YearVariable
  {
    YearVariable(r.year, r.variable)
  }

  function PathwayVariable(r: PathwayRow): string
  {
    r.variable
  }

  function GroupVariable(g: Group<YearVariable>): string
  {
    g.key.variable
  }

  /** The convex blend of baseline b and mitigation m with member share s. */
  function Blend(s: real, b: real, m: real): (v: real)
    ensures s == 0.0 ==> v == b
    ensures s == 1.0 ==> v == m
    ensures 0.0 <= s <= 1.0 ==> Min(b, m) <= v <= Max(b, m)
    ensures v - b == s * (m - b)
  {
    BlendBetween(s, b, m);
    (1.0 - s) * b + s * m
  }

  lemma BlendBetween(s: real, b: real, m: real)
    ensures (1.0 - s) * b + s * m - b == s * (m - b)
    ensures 0.0 <= s <= 1.0 ==> Min(b, m) <= (1.0 - s) * b + s * m <= Max(b, m)
  {
    if 0.0 <= s <= 1.0 {
      if b <= m {
        MulMono(m - b, s, 1.0);
        MulMono(m - b, 0.0, s);
      } else {
        MulMono(b - m, s, 1.0);
        MulMono(b - m, 0.0, s);
      }
    }
  }

  /** The member share of a region after the left merge on the region
      number: missing when no row has that region or its share is missing. */
  function MergedShare(table: seq<RegionShare>, region: int): Option<real>
  {
    match Find(table, RegionOf, region)
    case Some(row) => row.share
    case None => None
  }

  /** The member value of one baseline row: `(1 - s) * baseline` plus
      `s * mitigation`, missing when either the share or the mitigation row
      is. */
  function MemberValue(b: SeriesRow, s: Option<real>, mitigation: map<SeriesKey, real>): (v: Option<real>)
    ensures v.Some? <==> s.Some? && KeyOf(b) in mitigation
    ensures v.Some? ==> v.value == Blend(s.value, b.value, mitigation[KeyOf(b)])
  {
    if s.Some? && KeyOf(b) in mitigation then
      var baselinePart := (1.0 - s.value) * b.value;
      var mitigationPart := s.value * mitigation[KeyOf(b)];
      Some(baselinePart + mitigationPart)
    else None
  }

  function MemberRow(b: SeriesRow, s: Option<real>, mitigation: map<SeriesKey, real>): PathwayRow
  {
    PathwayRow(b.region, b.variable, b.year, MemberValue(b, s, mitigation))
  }

  function NotWorld(b: SeriesRow): bool
  {
    b.region != WORLD
  }

  function IsWorld(b: SeriesRow): bool
  {
    b.region == WORLD
  }

  /** The regional rows of a non-Flaring pathway: every non-World baseline
      row blended with its region's share. */
  function RegionalRows(baseline: seq<SeriesRow>, mitigation: map<SeriesKey, real>, table: seq<RegionShare>)
    : (rows: seq<PathwayRow>)
    ensures var f := Filter(baseline, NotWorld);
            |rows| == |f|
            && forall i :: 0 <= i < |rows| ==>
                 && rows[i].region != WORLD
                 && KeyOf(f[i]) == SeriesKey(rows[i].region, rows[i].variable, rows[i].year)
                 && rows[i].value == MemberValue(f[i], MergedShare(table, f[i].region), mitigation)
  {
    var f := Filter(baseline, NotWorld);
    seq(|f|, i requires 0 <= i < |f| => MemberRow(f[i], MergedShare(table, f[i].region), mitigation))
  }

  /** World rows: per (year, variable), the skip-NaN sum of the regional rows. */
  function WorldRows(regional: seq<PathwayRow>): (world: seq<PathwayRow>)
    ensures |world| == |Keys(regional, PathwayGroup)|
    ensures forall i :: 0 <= i < |world| ==>
              && world[i].region == WORLD
              && HasKey(regional, PathwayGroup, PathwayGroup(world[i]))
              && world[i].value == Some(SumWhere(regional, PathwayGroup, PathwayGroup(world[i]), PathwayValue))
    ensures forall j :: 0 <= j < |regional| ==> HasKey(world, PathwayGroup, PathwayGroup(regional[j]))
  {
    var gs := GroupSum(regional, PathwayGroup, PathwayValue);
    var world := seq(|gs|, i requires 0 <= i < |gs| => WorldRow(gs[i]));
    assert forall j :: 0 <= j < |regional| ==> HasKey(world, PathwayGroup, PathwayGroup(regional[j])) by {
      forall j | 0 <= j < |regional| ensures HasKey(world, PathwayGroup, PathwayGroup(regional[j])) {
        var i :| 0 <= i < |gs| && GroupKey(gs[i]) == PathwayGroup(regional[j]);
        assert PathwayGroup(world[i]) == gs[i].key;
      }
    }
    world
  }

  function WorldRow(g: Group<YearVariable>): PathwayRow
  {
    PathwayRow(WORLD, g.key.variable, g.key.year, Some(g.total))
  }

  /** `_construct_new_pathway_initiatives`: the member pathway of one
      initiative. Flaring fails when the share table has no World row. */
  function ConstructPathway(ici: Initiative, baseline: seq<SeriesRow>, mitigation: map<SeriesKey, real>, table: seq<RegionShare>)
    : (res: Result<seq<PathwayRow>>)
    ensures ici != Flaring ==>
              && res.Success?
              && var regional := RegionalRows(baseline, mitigation, table);
                 res.value == regional + WorldRows(regional)
    ensures ici == Flaring ==>
              && (res.Failure? <==> !HasKey(table, RegionOf, WORLD))
              && (res.Success? ==>
                    var w := Filter(baseline, IsWorld);
                    |res.value| == |w|
                    && forall i :: 0 <= i < |w| ==>
                         && res.value[i].region == WORLD
                         && res.value[i].value == MemberValue(w[i], MergedShare(table, WORLD), mitigation))
  {
    if ici != Flaring then
      var regional := RegionalRows(baseline, mitigation, table);
      Success(regional + WorldRows(regional))
    else
      match Find(table, RegionOf, WORLD)
      case None => Failure(MissingWorldShare)
      case Some(row) =>
        var w := Filter(baseline, IsWorld);
        Success(seq(|w|, i requires 0 <= i < |w| => MemberRow(w[i], row.share, mitigation)))
  }

  // ---------------------------------------------------------------------------
  // Properties

  /** A regional member value is the blend of baseline and mitigation: the
      baseline when no country is a member, the mitigation when all are, and
      between the two otherwise. */
  lemma RegionalValueIsBlend(baseline: seq<SeriesRow>, mitigation: map<SeriesKey, real>, table: seq<RegionShare>, i: int)
    requires 0 <= i < |RegionalRows(baseline, mitigation, table)|
    requires var b := Filter(baseline, NotWorld)[i];
             MergedShare(table, b.region).Some? && KeyOf(b) in mitigation
    ensures var b := Filter(baseline, NotWorld)[i];
            var s := MergedShare(table, b.region).value;
            var m := mitigation[KeyOf(b)];
            var v := RegionalRows(baseline, mitigation, table)[i].value;
            && v.Some?
            && (s == 0.0 ==> v.value == b.value)
            && (s == 1.0 ==> v.value == m)
            && (0.0 <= s <= 1.0 ==> Min(b.value, m) <= v.value <= Max(b.value, m))
  {
  }

  /** The World rows of a variable add up to the regional rows of that
      variable: the roll-up neither loses nor double-counts a region. */
  lemma WorldRowsConserveVariable(regional: seq<PathwayRow>, variable: string)
    ensures SumWhere(WorldRows(regional), PathwayVariable, variable, PathwayValue)
         == SumWhere(regional, PathwayVariable, variable, PathwayValue)
  {
    var world := WorldRows(regional);
    var gs := GroupSum(regional, PathwayGroup, PathwayValue);
    forall i | 0 <= i < |regional| ensures PathwayVariable(regional[i]) == GroupVariable(Group(PathwayGroup(regional[i]), 0.0)) {
    }
    GroupSumWhere(regional, PathwayGroup, PathwayValue, (k: YearVariable) => k.variable, GroupVariable, PathwayVariable, variable);
    SumWhereTransport(world, PathwayVariable, PathwayValue, gs, GroupVariable, Total, variable);
  }

  /** A Flaring pathway has World rows only. */
  lemma FlaringWorldOnly(baseline: seq<SeriesRow>, mitigation: map<SeriesKey, real>, table: seq<RegionShare>)
    requires ConstructPathway(Flaring, baseline, mitigation, table).Success?
    ensures forall r :: r in ConstructPathway(Flaring, baseline, mitigation, table).value ==> r.region == WORLD
  {
  }

  /** A non-Flaring pathway keeps exactly one row per non-World baseline row
      and adds the World rows, so no World baseline row leaks through. */
  lemma NonFlaringRegionsAndWorld(ici: Initiative, baseline: seq<SeriesRow>, mitigation: map<SeriesKey, real>, table: seq<RegionShare>, j: int)
    requires ici != Flaring && 0 <= j < |baseline|
    ensures var rows := ConstructPathway(ici, baseline, mitigation, table).value;
            var b := baseline[j];
            b.region != WORLD ==>
              exists i :: 0 <= i < |rows| && rows[i].region == b.region && rows[i].variable == b.variable
                         && rows[i].year == b.year && rows[i].value == MemberValue(b, MergedShare(table, b.region), mitigation)
  {
    var regional := RegionalRows(baseline, mitigation, table);
    var rows := ConstructPathway(ici, baseline, mitigation, table).value;
    var b := baseline[j];
    if b.region != WORLD {
      var f := Filter(baseline, NotWorld);
      var i :| 0 <= i < |f| && f[i] == b;
      assert rows[i] == regional[i];
    }
  }
}
