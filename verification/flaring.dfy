/**
 Flaring has no country members: its reduction is the regional one scaled by
 the global participation percentage, both for the World individual pathway
 and for the fugitive subsector.
 */
module FlaringReductions {
  import opened Tables
  import opened Domain
  import opened SubsectorReductions
  import opened Reductions
  import Pathways

  datatype YearUnit = YearUnit(year: int, unit: string)

  /** One regional row of the Flaring baseline. */
  datatype FlaringBaseline = FlaringBaseline(region: int, year: int, unit: string, value: real)

  /** One World row of the Flaring individual pathway; missing where no
      reduction row has its year and unit. */
  datatype WorldValue = WorldValue(key: YearUnit, value: Option<real>)

  /** The regional reduction rows that belong to Flaring. */
  function IsFlaringFugitive(r: ImageReduction): bool
  {
    r.ici == Flaring && r.sector == "Energy Supply" && r.subsector == "Fugitive|Oil Production"
  }

  function HasIndividual(r: ImageReduction): bool
  {
    r.individual.Some?
  }

  /** The Flaring rows the group-by of the individual reductions keeps. Its
      key includes the individual scenario label, which is missing exactly
      where no individual reduction was found, and pandas drops rows with a
      missing key. */
  function GroupedFlaring(reductions: seq<ImageReduction>): seq<ImageReduction>
  {
    Filter(Filter(reductions, IsFlaringFugitive), HasIndividual)
  }

  function ReductionYearUnit(r: ImageReduction): YearUnit
  {
    YearUnit(r.year, r.unit)
  }

  function RegionalIndividual(r: ImageReduction): real
  {
    OrZero(r.individual)
  }

  function BaselineYearUnit(b: FlaringBaseline): YearUnit
  {
    YearUnit(b.year, b.unit)
  }

  function BaselineValue(b: FlaringBaseline): real
  {
    b.value
  }

  /** The Flaring individual member pathway: per year and unit, the summed
      baseline minus the participation share of the summed regional
      reductions. */
  function FlaringIndividualWorld(baseline: seq<FlaringBaseline>, reductions: seq<ImageReduction>, perc: real)
    : (world: seq<WorldValue>)
    ensures |world| == |Keys(baseline, BaselineYearUnit)|
    ensures forall j :: 0 <= j < |baseline| ==> HasKey(world, WorldKey, BaselineYearUnit(baseline[j]))
    ensures forall i :: 0 <= i < |world| ==>
              && HasKey(baseline, BaselineYearUnit, world[i].key)
              && world[i].value == FlaringWorldValue(world[i].key, SumWhere(baseline, BaselineYearUnit, world[i].key, BaselineValue),
                                                     GroupedFlaring(reductions), perc)
  {
    var red := GroupedFlaring(reductions);
    var b := GroupSum(baseline, BaselineYearUnit, BaselineValue);
    var world := Project(b, (g: Group<YearUnit>) => WorldValue(g.key, FlaringWorldValue(g.key, g.total, red, perc)));
    assert forall i :: 0 <= i < |b| ==> WorldKey(world[i]) == GroupKey(b[i]);
    world
  }

  function WorldKey(w: WorldValue): YearUnit
  {
    w.key
  }

  /** The World value of one baseline group (year and unit k, summed
      baseline `total`) after the left merge with the summed and scaled
      Flaring reductions: missing when no reduction row has that year and
      unit. */
  function FlaringWorldValue(k: YearUnit, total: real, red: seq<ImageReduction>, perc: real): (v: Option<real>)
    ensures v.Some? <==> HasKey(red, ReductionYearUnit, k)
    ensures v.Some? ==> v.value == total - Scaled(SumWhere(red, ReductionYearUnit, k, RegionalIndividual), perc)
  {
    match MergedReduction(red, k)
    case Some(x) => Some(total - Scaled(x, perc))
    case None => None
  }

  /** An amount times a fraction, named so that the Flaring proofs can
      carry products around without unfolding them. */
  function Scaled(x: real, c: real): real
  {
    x * c
  }

  /** The summed Flaring reduction of year and unit k as the left merge
      reads it from the group-by. */
  function MergedReduction(red: seq<ImageReduction>, k: YearUnit): (x: Option<real>)
    ensures x.Some? <==> HasKey(red, ReductionYearUnit, k)
    ensures x.Some? ==> x.value == SumWhere(red, ReductionYearUnit, k, RegionalIndividual)
  {
    MergedSum(red, ReductionYearUnit, RegionalIndividual, k)
  }

  /** Where the regional reductions add up to baseline minus mitigation, the
      Flaring World value is the same convex blend the member pathways use,
      with the participation percentage as member share. */
  lemma FlaringWorldIsBlend(k: YearUnit, total: real, red: seq<ImageReduction>, perc: real, mitigation: real)
    requires HasKey(red, ReductionYearUnit, k)
    requires SumWhere(red, ReductionYearUnit, k, RegionalIndividual) == total - mitigation
    ensures FlaringWorldValue(k, total, red, perc) == Some(Pathways.Blend(perc, total, mitigation))
  {
    hide *;
    MergedReductionOf(k, red, total - mitigation);
    FlaringWorldValueOf(k, total, red, perc, total - mitigation);
    BlendOfReduction(total, mitigation, perc);
  }

  lemma FlaringWorldValueOf(k: YearUnit, total: real, red: seq<ImageReduction>, perc: real, reduction: real)
    requires MergedReduction(red, k) == Some(reduction)
    ensures FlaringWorldValue(k, total, red, perc) == Some(total - Scaled(reduction, perc))
  {
  }

  lemma MergedReductionOf(k: YearUnit, red: seq<ImageReduction>, reduction: real)
    requires HasKey(red, ReductionYearUnit, k)
    requires SumWhere(red, ReductionYearUnit, k, RegionalIndividual) == reduction
    ensures MergedReduction(red, k) == Some(reduction)
  {
  }

  /** Taking a share of the reduction baseline minus mitigation off the
      baseline is the blend of the two. */
  lemma BlendOfReduction(b: real, m: real, s: real)
    ensures b - Scaled(b - m, s) == Pathways.Blend(s, b, m)
  {
    assert (b - m) * s == s * (b - m);
  }

  /** A scaled cell; a missing cell stays missing. */
  function Scale(o: Option<real>, c: real): Option<real>
  {
    match o
    case Some(v) => Some(Scaled(v, c))
    case None => None
  }

  function FlaringMemberReduction(perc: real): ImageReduction -> MemberReduction
  {
    (r: ImageReduction) =>
      MemberReduction(SubsectorKey(r.sector, r.subsector, r.region, r.unit, r.year), Scale(r.individual, perc))
  }

  /** The member reductions of the fugitive subsector: every Flaring
      regional reduction row scaled by the participation percentage. */
  function FlaringSubsectorRows(reductions: seq<ImageReduction>, perc: real): (rows: seq<MemberReduction>)
    ensures var red := Filter(reductions, IsFlaringFugitive);
            && |rows| == |red|
            && forall i :: 0 <= i < |rows| ==>
                 && rows[i].key.sector == "Energy Supply" && rows[i].key.subsector == "Fugitive|Oil Production"
                 && rows[i].key.region == red[i].region && rows[i].key.year == red[i].year && rows[i].key.unit == red[i].unit
                 && (rows[i].reduction.Some? <==> red[i].individual.Some?)
                 && (rows[i].reduction.Some? ==> rows[i].reduction.value == Scaled(red[i].individual.value, perc))
  {
    Project(Filter(reductions, IsFlaringFugitive), FlaringMemberReduction(perc))
  }

  function MemberYearUnit(m: MemberReduction): YearUnit
  {
    YearUnit(m.key.year, m.key.unit)
  }

  /** Summed over the regions, the fugitive subsector reduction of a year and
      unit is exactly the amount by which the Flaring World value lies below
      the summed Flaring baseline, whenever some Flaring row of that year and
      unit has an individual reduction. */
  lemma FlaringSubsectorMatchesWorld(k: YearUnit, total: real, reductions: seq<ImageReduction>, perc: real)
    requires HasKey(GroupedFlaring(reductions), ReductionYearUnit, k)
    ensures var v := FlaringWorldValue(k, total, GroupedFlaring(reductions), perc);
            v.Some? && SumWhere(FlaringSubsectorRows(reductions, perc), MemberYearUnit, k, ReductionOrZero) == total - v.value
  {
    var red := Filter(reductions, IsFlaringFugitive);
    var grouped := GroupedFlaring(reductions);
    var reduction := SumWhere(grouped, ReductionYearUnit, k, RegionalIndividual);
    FlaringSubsectorSum(reductions, perc, k);
    SumWhereFilterZero(red, HasIndividual, ReductionYearUnit, k, RegionalIndividual);
    MergedReductionOf(k, grouped, reduction);
    FlaringWorldValueOf(k, total, grouped, perc, reduction);
  }

  /** A year and unit whose Flaring rows all lack an individual reduction
      has no group, so its World value is missing. */
  lemma FlaringWorldMissingWithoutIndividual(k: YearUnit, total: real, reductions: seq<ImageReduction>, perc: real)
    requires forall i :: 0 <= i < |reductions| && IsFlaringFugitive(reductions[i]) && ReductionYearUnit(reductions[i]) == k ==>
               reductions[i].individual.None?
    ensures FlaringWorldValue(k, total, GroupedFlaring(reductions), perc).None?
  {
    var red := Filter(reductions, IsFlaringFugitive);
    var grouped := GroupedFlaring(reductions);
    forall j | 0 <= j < |grouped| ensures ReductionYearUnit(grouped[j]) != k {
      assert grouped[j] in red && HasIndividual(grouped[j]);
      var i :| 0 <= i < |red| && red[i] == grouped[j];
      assert red[i] in reductions && IsFlaringFugitive(red[i]);
    }
  }

  /** The fugitive subsector reductions of a year and unit add up to the
      participation share of the Flaring regional reductions. */
  lemma FlaringSubsectorSum(reductions: seq<ImageReduction>, perc: real, k: YearUnit)
    ensures SumWhere(FlaringSubsectorRows(reductions, perc), MemberYearUnit, k, ReductionOrZero)
         == Scaled(SumWhere(Filter(reductions, IsFlaringFugitive), ReductionYearUnit, k, RegionalIndividual), perc)
  {
    var red := Filter(reductions, IsFlaringFugitive);
    var rows := FlaringSubsectorRows(reductions, perc);
    hide *;
    FlaringSubsectorTerms(reductions, perc);
    SumWhereTransport(rows, MemberYearUnit, ReductionOrZero, red, ReductionYearUnit, ScaledIndividual(perc), k);
    ScaledSum(red, perc, k);
  }

  lemma ScaledSum(red: seq<ImageReduction>, perc: real, k: YearUnit)
    ensures SumWhere(red, ReductionYearUnit, k, ScaledIndividual(perc)) == Scaled(SumWhere(red, ReductionYearUnit, k, RegionalIndividual), perc)
  {
    SumWhereScale(red, ReductionYearUnit, k, RegionalIndividual, ScaledIndividual(perc), perc);
  }

  function ScaledIndividual(perc: real): ImageReduction -> real
  {
    (r: ImageReduction) => Scaled(RegionalIndividual(r), perc)
  }

  lemma FlaringSubsectorTerms(reductions: seq<ImageReduction>, perc: real)
    ensures var red := Filter(reductions, IsFlaringFugitive);
            var rows := FlaringSubsectorRows(reductions, perc);
            forall i :: 0 <= i < |rows| ==>
              MemberYearUnit(rows[i]) == ReductionYearUnit(red[i]) && ReductionOrZero(rows[i]) == ScaledIndividual(perc)(red[i])
  {
    var red := Filter(reductions, IsFlaringFugitive);
    var rows := FlaringSubsectorRows(reductions, perc);
    forall i | 0 <= i < |rows|
      ensures ReductionOrZero(rows[i]) == ScaledIndividual(perc)(red[i])
    {
      if red[i].individual.None? {
        ScaledZero(perc);
      }
    }
  }

  lemma ScaledZero(c: real)
    ensures Scaled(0.0, c) == 0.0
  {
  }
}
