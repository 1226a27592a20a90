/**
 Reduction accounting. A regional reduction (baseline minus scenario) is
 split over the countries of its region in proportion to membership and
 country share.
 */
module Reductions {
  import opened Tables
  import opened Domain
  import opened Overlap
  import opened SubsectorReductions
  import MemberShares

  /** One row of the regional reduction table: the individual reduction (the
      initiative's own variable) and the subsector reduction, either missing
      where the right merge found no individual row. */
  datatype ImageReduction = ImageReduction(
    ici: Initiative,
    sector: string,
    subsector: string,
    region: int,
    unit: string,
    year: int,
    individual: Option<real>,
    subsectorReduction: Option<real>)

  /** Membership and country share of one country of the region, either
      missing where a left merge found nothing. */
  datatype CountryFactor = CountryFactor(iso: string, membership: Option<real>, share: Option<real>)

  /** The product of two cells; a missing cell makes it missing. */
  function Product(a: Option<real>, b: Option<real>): Option<real>
  {
    if a.Some? && b.Some? then Some(a.value * b.value) else None
  }

  /** `Reduction_region × Membership × Country_share`. */
  function CountryReductionOf(regional: Option<real>, c: CountryFactor): (r: Option<real>)
    ensures r.Some? <==> regional.Some? && c.membership.Some? && c.share.Some?
    ensures r.Some? && (c.membership.value == 0.0 || c.share.value == 0.0 || regional.value == 0.0) ==> r.value == 0.0
    ensures r.Some? && c.membership.value == 1.0 ==> r.value == regional.value * c.share.value
  {
    Product(Product(regional, c.membership), c.share)
  }

  /** The fraction of the region a country stands for: membership times
      share, 0 where either is missing. */
  function Coverage(c: CountryFactor): real
  {
    OrZero(Product(c.membership, c.share))
  }

  function FactorShare(c: CountryFactor): real
  {
    OrZero(c.share)
  }

  /** The country rows of one regional reduction row, one per country of its
      region. */
  function CountryReductionRows(r: ImageReduction, countries: seq<CountryFactor>): (rows: seq<CountryReduction>)
    ensures |rows| == |countries|
    ensures forall i :: 0 <= i < |rows| ==>
              && rows[i].iso == countries[i].iso
              && rows[i].region == r.region && rows[i].ici == r.ici && rows[i].year == r.year
              && rows[i].sector == r.sector && rows[i].subsector == r.subsector && rows[i].unit == r.unit
              && rows[i].individual == CountryReductionOf(r.individual, countries[i])
              && rows[i].subsectorReduction == CountryReductionOf(r.subsectorReduction, countries[i])
  {
    Project(countries, (c: CountryFactor) =>
      CountryReduction(r.region, c.iso, r.sector, r.subsector, r.year, r.unit, r.ici,
                       CountryReductionOf(r.individual, c), CountryReductionOf(r.subsectorReduction, c)))
  }

  /** The country reductions of a region add up to the regional reduction
      times the region's coverage. */
  lemma CountryReductionsSplitRegional(r: ImageReduction, countries: seq<CountryFactor>)
    requires r.individual.Some?
    ensures Sum(CountryReductionRows(r, countries), IndividualOrZero) == Sum(countries, Coverage) * r.individual.value
  {
    var rows := CountryReductionRows(r, countries);
    var reduction := ReductionAt(r.individual.value);
    forall i | 0 <= i < |countries| ensures IndividualOrZero(rows[i]) == reduction(countries[i]) {
      assert r.individual == Some(r.individual.value);
    }
    SumTransport(rows, IndividualOrZero, countries, reduction);
    CoverageSum(r.individual.value, countries);
  }

  function ReductionAt(regional: real): CountryFactor -> real
  {
    (c: CountryFactor) => OrZero(CountryReductionOf(Some(regional), c))
  }

  lemma CoverageSum(regional: real, countries: seq<CountryFactor>)
    ensures Sum(countries, ReductionAt(regional)) == Sum(countries, Coverage) * regional
  {
    CoverageTerms(regional, countries);
    SumScale(countries, Coverage, ReductionAt(regional), regional);
  }

  lemma CoverageTerms(regional: real, countries: seq<CountryFactor>)
    ensures forall i :: 0 <= i < |countries| ==> ReductionAt(regional)(countries[i]) == Coverage(countries[i]) * regional
  {
    forall i | 0 <= i < |countries|
      ensures ReductionAt(regional)(countries[i]) == Coverage(countries[i]) * regional
    {
      CoverageTerm(regional, countries[i]);
    }
  }

  /** With memberships in [0, 1] and non-negative shares summing to at most
      1, the countries together never reduce more than their region. */
  lemma CountryReductionsWithinRegional(r: ImageReduction, countries: seq<CountryFactor>)
    requires r.individual.Some? && r.individual.value >= 0.0
    requires forall i :: 0 <= i < |countries| ==>
               && (countries[i].membership.Some? ==> 0.0 <= countries[i].membership.value <= 1.0)
               && FactorShare(countries[i]) >= 0.0
    requires Sum(countries, FactorShare) <= 1.0
    ensures 0.0 <= Sum(CountryReductionRows(r, countries), IndividualOrZero) <= r.individual.value
  {
    CoverageWithinShares(countries);
    CountryReductionsSplitRegional(r, countries);
    var c := Sum(countries, Coverage);
    MemberShares.MulWithinUnit(r.individual.value, c);
    assert c * r.individual.value == r.individual.value * c;
  }

  /** Coverage is at most the share, so the region's coverage is at most the
      sum of its shares. */
  lemma CoverageWithinShares(countries: seq<CountryFactor>)
    requires forall i :: 0 <= i < |countries| ==>
               && (countries[i].membership.Some? ==> 0.0 <= countries[i].membership.value <= 1.0)
               && FactorShare(countries[i]) >= 0.0
    ensures 0.0 <= Sum(countries, Coverage) <= Sum(countries, FactorShare)
  {
    forall i | 0 <= i < |countries| ensures 0.0 <= Coverage(countries[i]) <= FactorShare(countries[i]) {
      CoverageWithinShare(countries[i]);
    }
    SumMono(countries, Coverage, FactorShare);
    SumNonNeg(countries, Coverage);
  }

  lemma CoverageWithinShare(c: CountryFactor)
    requires c.membership.Some? ==> 0.0 <= c.membership.value <= 1.0
    requires FactorShare(c) >= 0.0
    ensures 0.0 <= Coverage(c) <= FactorShare(c)
  {
    if c.membership.Some? && c.share.Some? {
      FractionWithin(c.membership.value, c.share.value);
    } else {
      assert Product(c.membership, c.share) == None;
    }
  }

  /** A fraction in [0, 1] of a non-negative amount lies between 0 and it. */
  lemma FractionWithin(fraction: real, amount: real)
    requires 0.0 <= fraction <= 1.0 && 0.0 <= amount
    ensures 0.0 <= fraction * amount <= amount
  {
    MemberShares.MulWithinUnit(amount, fraction);
  }

  /** One country's reduction is its coverage of the regional reduction. */
  lemma CoverageTerm(regional: real, c: CountryFactor)
    ensures OrZero(CountryReductionOf(Some(regional), c)) == Coverage(c) * regional
  {
    if c.membership.Some? && c.share.Some? {
      MulRearrange(regional, c.membership.value, c.share.value);
    }
  }

  lemma MulRearrange(a: real, b: real, c: real)
    ensures a * b * c == b * c * a
  {
  }

  /** A sum of non-negative terms is non-negative. */
  lemma {:induction false} SumNonNeg<T>(rows: seq<T>, f: T -> real)
    requires forall i :: 0 <= i < |rows| ==> f(rows[i]) >= 0.0
    ensures Sum(rows, f) >= 0.0
  {
    if |rows| > 0 {
      SumNonNeg(rows[..|rows| - 1], f);
    }
  }
}
