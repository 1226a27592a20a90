/**
 Kyoto-gas member pathways. The baseline Kyoto emissions are split into the
 part the subsector variables cover and the rest; the rest follows the
 baseline and the covered part is replaced by the summed member pathways of
 the subsector variables. Regional rows of bunker variables are not counted
 as covered, since bunkers are only accounted at World level.
 */
module Kyoto {
  import opened Tables
  import opened Domain
  import opened Accounting

  /** The merge key of the Kyoto tables. */
  datatype RegionYear = RegionYear(region: int, year: int)

  /** One baseline row of a subsector variable, in CO2 equivalents. */
  datatype CoveredRow = CoveredRow(variable: string, region: int, year: int, value: real)

  /** One row of the baseline Kyoto-gas emissions. */
  datatype KyotoRow = KyotoRow(region: int, year: int, value: real)

  /** One row of the Kyoto-gas member pathway; missing where a merge found
      no covered or no member row. */
  datatype KyotoMember = KyotoMember(region: int, year: int, value: Option<real>)

  function CoveredKey(c: CoveredRow): RegionYear
  {
    RegionYear(c.region, c.year)
  }

  function CoveredValue(c: CoveredRow): real
  {
    c.value
  }

  function KyotoKey(k: KyotoRow): RegionYear
  {
    RegionYear(k.region, k.year)
  }

  function SectorRegionYear(r: SectorRow): RegionYear
  {
    RegionYear(r.key.region, r.key.year)
  }

  /** Whether a covered row counts: not a bunker variable outside World. */
  function CountsAsCovered(bunkers: set<string>): CoveredRow -> bool
  {
    (c: CoveredRow) => !(c.variable in bunkers && c.region != WORLD)
  }

  /** The covered baseline rows that count. */
  function Covered(covered: seq<CoveredRow>, bunkers: set<string>): seq<CoveredRow>
  {
    Filter(covered, CountsAsCovered(bunkers))
  }

  /** The Kyoto member value of one baseline Kyoto row: the part the
      subsector variables do not cover plus the member pathways of the part
      they do; missing when either merge finds nothing. The Kyoto value thus
      drops by exactly the amount the members reduce the covered part. */
  function KyotoMemberValue(kyoto: real, covered: Option<real>, members: Option<real>): (v: Option<real>)
    ensures v.Some? <==> covered.Some? && members.Some?
    ensures v.Some? ==> kyoto - v.value == covered.value - members.value
  {
    var notCovered := if covered.Some? then Some(kyoto - covered.value) else None;
    if notCovered.Some? && members.Some? then Some(notCovered.value + members.value) else None
  }

  function KyotoMemberRow(covered: seq<CoveredRow>, members: seq<SectorRow>): KyotoRow -> KyotoMember
  {
    (k: KyotoRow) =>
      KyotoMember(k.region, k.year,
                  KyotoMemberValue(k.value, MergedSum(covered, CoveredKey, CoveredValue, KyotoKey(k)),
                                   MergedSum(members, SectorRegionYear, SectorValue, KyotoKey(k))))
  }

  /** The Kyoto member pathway, one row per baseline Kyoto row. */
  function KyotoMembers(kyoto: seq<KyotoRow>, covered: seq<CoveredRow>, bunkers: set<string>, members: seq<SectorRow>)
    : (out: seq<KyotoMember>)
    ensures |out| == |kyoto|
    ensures forall i :: 0 <= i < |out| ==>
              var c := Covered(covered, bunkers);
              var k := KyotoKey(kyoto[i]);
              && out[i].region == kyoto[i].region && out[i].year == kyoto[i].year
              && (out[i].value.Some? <==> HasKey(c, CoveredKey, k) && HasKey(members, SectorRegionYear, k))
              && (out[i].value.Some? ==>
                    out[i].value.value == kyoto[i].value - SumWhere(c, CoveredKey, k, CoveredValue)
                                          + SumWhere(members, SectorRegionYear, k, SectorValue))
  {
    Project(kyoto, KyotoMemberRow(Covered(covered, bunkers), members))
  }

  // ---------------------------------------------------------------------------
  // Properties

  /** Where the members emit exactly what the covered baseline does, the
      Kyoto member pathway is the baseline Kyoto pathway. */
  lemma KyotoFollowsBaseline(kyoto: seq<KyotoRow>, covered: seq<CoveredRow>, bunkers: set<string>, members: seq<SectorRow>, i: int)
    requires 0 <= i < |kyoto|
    requires var k := KyotoKey(kyoto[i]);
             && HasKey(Covered(covered, bunkers), CoveredKey, k)
             && HasKey(members, SectorRegionYear, k)
             && SumWhere(members, SectorRegionYear, k, SectorValue) == SumWhere(Covered(covered, bunkers), CoveredKey, k, CoveredValue)
    ensures KyotoMembers(kyoto, covered, bunkers, members)[i].value == Some(kyoto[i].value)
  {
    var c := Covered(covered, bunkers);
    var k := KyotoKey(kyoto[i]);
    assert KyotoMembers(kyoto, covered, bunkers, members)[i] == KyotoMemberRow(c, members)(kyoto[i]);
    KyotoUnchanged(kyoto[i].value, MergedSum(c, CoveredKey, CoveredValue, k), MergedSum(members, SectorRegionYear, SectorValue, k));
  }

  lemma KyotoUnchanged(kyoto: real, covered: Option<real>, members: Option<real>)
    requires covered.Some? && members == covered
    ensures KyotoMemberValue(kyoto, covered, members) == Some(kyoto)
  {
  }

  /** A regional row of a bunker variable does not change the Kyoto member
      pathway. */
  lemma RegionalBunkerIgnored(kyoto: seq<KyotoRow>, covered: seq<CoveredRow>, bunkers: set<string>, members: seq<SectorRow>, r: CoveredRow)
    requires r.variable in bunkers && r.region != WORLD
    ensures KyotoMembers(kyoto, covered + [r], bunkers, members) == KyotoMembers(kyoto, covered, bunkers, members)
  {
    FilterRejected(covered, r, CountsAsCovered(bunkers));
  }

  /** A World row of a bunker variable does count as covered. */
  lemma WorldBunkerCounted(covered: seq<CoveredRow>, bunkers: set<string>, r: CoveredRow)
    requires r.region == WORLD
    ensures Covered(covered + [r], bunkers) == Covered(covered, bunkers) + [r]
  {
    assert (covered + [r])[..|covered|] == covered;
  }
}
