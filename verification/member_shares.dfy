/**
 Member coverage: the fraction of each IMAGE region's historical value that
 the signatories of one initiative account for, plus a World row.
 */
module MemberShares {
  import opened Tables
  import opened Domain
  import opened CountryShares

  /** One row of the signatories table: a country with one membership value
      per initiative column (a missing cell is an absent key). */
  datatype Signatory = Signatory(region: int, countryName: string, member: map<Initiative, real>)

  /** The signatories table: its initiative columns (every column after the
      four identifying ones, in table order) and its rows keyed by ISO code. */
  datatype Signatories = Signatories(columns: seq<Initiative>, rows: map<string, Signatory>)

  /** Whether the table has a BT_Power or BT_Road column. The melt names every
      initiative column, including these, after they were dropped from the
      table, so it raises. */
  predicate HasBuildingTechnologyColumn(sig: Signatories)
  {
    exists i :: 0 <= i < |sig.columns| && IsBuildingTechnology(sig.columns[i])
  }

  /** One row of the member share table: a region and its coverage fraction. */
  datatype RegionShare = RegionShare(region: int, share: Option<real>)

  function RegionOf(r: RegionShare): int
  {
    r.region
  }

  /** The `Member` cell a country gets for one initiative after the melt and
      the merge on ISO: missing when the initiative is no column of the
      table, when the country is not in the table, when its cell is empty, or
      when the initiative is a dropped BT_ column. */
  function MemberFlag(sig: Signatories, ici: Initiative, iso: string): (m: Option<real>)
    ensures IsBuildingTechnology(ici) ==> m.None?
    ensures ici !in sig.columns ==> m.None?
    ensures iso !in sig.rows ==> m.None?
  {
    if IsBuildingTechnology(ici) || ici !in sig.columns then None
    else if iso in sig.rows && ici in sig.rows[iso].member then Some(sig.rows[iso].member[ici])
    else None
  }

  /** `Country_share * Member` with a missing product read as 0 (`fillna(0)`). */
  function CountryMemberShare(s: ShareRow, m: Option<real>): real
  {
    match (s.share, m)
    case (Some(a), Some(b)) => a * b
    case _ => 0.0
  }

  function Covered(sig: Signatories, ici: Initiative): ShareRow -> real
  {
    (s: ShareRow) => CountryMemberShare(s, MemberFlag(sig, ici, s.iso))
  }

  /** Coverage fraction of region k: the group-by sum of the member shares. */
  function RegionMemberShare(shares: seq<ShareRow>, sig: Signatories, ici: Initiative, k: int): real
  {
    SumWhere(shares, ShareRegion, k, Covered(sig, ici))
  }

  /** The `w_value` column: `Value * Country_share * Member`, skipped by the
      sum when any factor is missing. */
  function WeightedValue(sig: Signatories, ici: Initiative): ShareRow -> real
  {
    (s: ShareRow) => s.value * CountryMemberShare(s, MemberFlag(sig, ici, s.iso))
  }

  /** The World row as the source computes it: the sum of
      `Value * Country_share * Member` over the sum of `Value`. */
  function WorldShareAsWritten(shares: seq<ShareRow>, sig: Signatories, ici: Initiative): (w: Option<real>)
    ensures w.None? <==> Sum(shares, ShareValue) == 0.0
    ensures w.Some? ==> w.value * Sum(shares, ShareValue) == Sum(shares, WeightedValue(sig, ici))
  {
    var total := Sum(shares, ShareValue);
    if total == 0.0 then None else Some(Sum(shares, WeightedValue(sig, ici)) / total)
  }

  function Present(v: Option<real>): real
  {
    if v.Some? then 1.0 else 0.0
  }

  /** Skip-NaN mean, missing when no value is present. */
  function Mean(values: seq<Option<real>>): (m: Option<real>)
    ensures m.None? <==> Sum(values, Present) == 0.0
    ensures m.Some? ==> m.value * Sum(values, Present) == Sum(values, OrZero)
  {
    var n := Sum(values, Present);
    if n == 0.0 then None else Some(Sum(values, OrZero) / n)
  }

  /** The member share table of one initiative. Flaring has no country
      members: its table is the single World row holding the mean of the
      flaring participation values. Every other initiative fails when the
      signatories table has a BT_ column, and otherwise gets one row per
      region of the share table, then the World row. */
  function MemberPercInRegion(ici: Initiative, shares: seq<ShareRow>, sig: Signatories, flaring: seq<Option<real>>)
    : (res: Result<seq<RegionShare>>)
    ensures ici == Flaring ==> res == Success([RegionShare(WORLD, Mean(flaring))])
    ensures ici != Flaring ==> (res.Failure? <==> HasBuildingTechnologyColumn(sig))
    ensures res.Failure? ==> res.error == MeltColumnMissing
    ensures ici != Flaring && res.Success? ==>
              var table := res.value;
              && |table| == |Keys(shares, ShareRegion)| + 1
              && table[|table| - 1] == RegionShare(WORLD, WorldShareAsWritten(shares, sig, ici))
              && (forall i :: 0 <= i < |table| - 1 ==>
                    HasKey(shares, ShareRegion, table[i].region)
                    && table[i].share == Some(RegionMemberShare(shares, sig, ici, table[i].region)))
              && (forall j :: 0 <= j < |shares| ==> HasKey(table[..|table| - 1], RegionOf, shares[j].region))
  {
    if ici == Flaring then Success([RegionShare(WORLD, Mean(flaring))])
    else if HasBuildingTechnologyColumn(sig) then Failure(MeltColumnMissing)
    else Success(MemberTable(ici, shares, sig))
  }

  /** The member share table of an initiative other than Flaring whose melt
      succeeds. */
  function MemberTable(ici: Initiative, shares: seq<ShareRow>, sig: Signatories): (table: seq<RegionShare>)
    ensures |table| == |Keys(shares, ShareRegion)| + 1
    ensures table[|table| - 1] == RegionShare(WORLD, WorldShareAsWritten(shares, sig, ici))
    ensures forall i :: 0 <= i < |table| - 1 ==>
              HasKey(shares, ShareRegion, table[i].region)
              && table[i].share == Some(RegionMemberShare(shares, sig, ici, table[i].region))
    ensures forall j :: 0 <= j < |shares| ==> HasKey(table[..|table| - 1], RegionOf, shares[j].region)
  {
    var gs := GroupSum(shares, ShareRegion, Covered(sig, ici));
    var regional := seq(|gs|, i requires 0 <= i < |gs| => RegionShare(gs[i].key, Some(gs[i].total)));
    assert forall j :: 0 <= j < |shares| ==> HasKey(regional, RegionOf, shares[j].region) by {
      forall j | 0 <= j < |shares| ensures HasKey(regional, RegionOf, shares[j].region) {
        var i :| 0 <= i < |gs| && GroupKey(gs[i]) == shares[j].region;
        assert RegionOf(regional[i]) == shares[j].region;
      }
    }
    var table := regional + [RegionShare(WORLD, WorldShareAsWritten(shares, sig, ici))];
    assert table[..|table| - 1] == regional;
    table
  }

  // ---------------------------------------------------------------------------
  // Properties

  /** Membership flags in [0, 1] and non-negative shares bound a region's
      coverage by the sum of its country shares. */
  lemma RegionMemberShareBounds(shares: seq<ShareRow>, sig: Signatories, ici: Initiative, k: int)
    requires forall i :: 0 <= i < |shares| ==> ShareOrZero(shares[i]) >= 0.0
    requires forall i :: 0 <= i < |shares| ==>
               var m := MemberFlag(sig, ici, shares[i].iso); m.Some? ==> 0.0 <= m.value <= 1.0
    ensures 0.0 <= RegionMemberShare(shares, sig, ici, k) <= SumWhere(shares, ShareRegion, k, ShareOrZero)
  {
    forall i | 0 <= i < |shares| ensures 0.0 <= Covered(sig, ici)(shares[i]) <= ShareOrZero(shares[i]) {
      CoveredBounds(shares[i], MemberFlag(sig, ici, shares[i].iso));
    }
    SumWhereNonNeg(shares, ShareRegion, k, Covered(sig, ici));
    SumWhereMono(shares, ShareRegion, k, Covered(sig, ici), ShareOrZero);
  }

  /** Every membership cell of the initiative lies in [0, 1]. */
  predicate FlagsWithinUnit(sig: Signatories, ici: Initiative)
  {
    forall iso :: iso in sig.rows && ici in sig.rows[iso].member ==> 0.0 <= sig.rows[iso].member[ici] <= 1.0
  }

  /** On the share table built from historical data with non-negative
      values, every region's coverage fraction lies in [0, 1]. */
  lemma CoverageWithinUnit(rows: seq<HistRow>, histYear: int, sig: Signatories, ici: Initiative, k: int)
    requires forall j :: 0 <= j < |rows| ==> OrZero(rows[j].value) >= 0.0
    requires FlagsWithinUnit(sig, ici)
    ensures 0.0 <= RegionMemberShare(ShareTable(rows, histYear), sig, ici, k) <= 1.0
  {
    var shares := ShareTable(rows, histYear);
    forall i | 0 <= i < |shares| ensures ShareOrZero(shares[i]) >= 0.0 {
      ShareWithinUnit(rows, histYear, i);
    }
    RegionMemberShareBounds(shares, sig, ici, k);
    if RegionTotal(EligibleRows(rows, histYear), k) != 0.0 {
      SharesSumToOne(rows, histYear, k);
    } else {
      EmptyRegionSharesZero(rows, histYear, k);
    }
  }

  /** A region whose eligible values add up to 0 has only missing shares. */
  lemma EmptyRegionSharesZero(rows: seq<HistRow>, histYear: int, k: int)
    requires RegionTotal(EligibleRows(rows, histYear), k) == 0.0
    ensures SumWhere(ShareTable(rows, histYear), ShareRegion, k, ShareOrZero) == 0.0
  {
    var shares := ShareTable(rows, histYear);
    forall i | 0 <= i < |shares| && ShareRegion(shares[i]) == k
      ensures ShareOrZero(shares[i]) == ShareOrZero(shares[i]) * 0.0
    {
      ShareTimesTotal(rows, histYear, i);
    }
    SumWhereScale(shares, ShareRegion, k, ShareOrZero, ShareOrZero, 0.0);
  }

  /** When every country is a full member, a region's coverage is the sum of
      its country shares: 1 for a region with a non-zero total. */
  lemma FullMembershipCoversRegion(rows: seq<HistRow>, histYear: int, sig: Signatories, ici: Initiative, k: int)
    requires forall j :: 0 <= j < |rows| ==> MemberFlag(sig, ici, rows[j].iso) == Some(1.0)
    requires RegionTotal(EligibleRows(rows, histYear), k) != 0.0
    ensures RegionMemberShare(ShareTable(rows, histYear), sig, ici, k) == 1.0
  {
    var shares := ShareTable(rows, histYear);
    var e := EligibleRows(rows, histYear);
    forall i | 0 <= i < |shares| ensures Covered(sig, ici)(shares[i]) == ShareOrZero(shares[i]) {
      assert e[i] in rows;
      var j :| 0 <= j < |rows| && rows[j] == e[i];
      assert MemberFlag(sig, ici, shares[i].iso) == Some(1.0);
    }
    SumWhereTransport(shares, ShareRegion, Covered(sig, ici), shares, ShareRegion, ShareOrZero, k);
    SharesSumToOne(rows, histYear, k);
  }

  /** A region none of whose countries is a member has coverage 0. */
  lemma NoMembersNoCoverage(shares: seq<ShareRow>, sig: Signatories, ici: Initiative, k: int)
    requires forall i :: 0 <= i < |shares| ==> MemberFlag(sig, ici, shares[i].iso) in {None, Some(0.0)}
    ensures RegionMemberShare(shares, sig, ici, k) == 0.0
  {
    forall i | 0 <= i < |shares| && ShareRegion(shares[i]) == k
      ensures Covered(sig, ici)(shares[i]) == Covered(sig, ici)(shares[i]) * 0.0
    {
    }
    SumWhereScale(shares, ShareRegion, k, Covered(sig, ici), Covered(sig, ici), 0.0);
  }

  /** With non-negative values and shares and membership in [0, 1], the
      World row lies in [0, 1]. */
  lemma WorldShareWithinUnit(shares: seq<ShareRow>, sig: Signatories, ici: Initiative)
    requires forall i :: 0 <= i < |shares| ==> shares[i].value >= 0.0 && 0.0 <= ShareOrZero(shares[i]) <= 1.0
    requires forall i :: 0 <= i < |shares| ==>
               var m := MemberFlag(sig, ici, shares[i].iso); m.Some? ==> 0.0 <= m.value <= 1.0
    ensures var w := WorldShareAsWritten(shares, sig, ici); w.Some? ==> 0.0 <= w.value <= 1.0
  {
    forall i | 0 <= i < |shares| ensures 0.0 <= WeightedValue(sig, ici)(shares[i]) <= ShareValue(shares[i]) {
      WeightedTerm(sig, ici, shares[i]);
    }
    var zero := (s: ShareRow) => 0.0;
    SumMono(shares, zero, WeightedValue(sig, ici));
    SumMono(shares, WeightedValue(sig, ici), ShareValue);
    SumScale(shares, zero, zero, 0.0);
    var w := WorldShareAsWritten(shares, sig, ici);
    if w.Some? {
      var t := Sum(shares, ShareValue);
      var n := Sum(shares, WeightedValue(sig, ici));
      assert 0.0 <= n <= t;
      DivideWithinUnit(n, t);
    }
  }

  function ExampleRows(): seq<HistRow>
  {
    [HistRow("AAA", "A", 1, 2020, Some(1.0), true, true),
     HistRow("BBB", "B", 1, 2020, Some(1.0), true, true)]
  }

  function ExampleSignatories(): Signatories
  {
    Signatories([Coal],
                map["AAA" := Signatory(1, "A", map[Coal := 1.0]),
                    "BBB" := Signatory(1, "B", map[Coal := 1.0])])
  }

  lemma ExampleShareTable()
    ensures ShareTable(ExampleRows(), 2020)
         == [ShareRow("AAA", "A", 1, 1.0, Some(0.5)), ShareRow("BBB", "B", 1, 1.0, Some(0.5))]
  {
    var rows := ExampleRows();
    var e := EligibleRows(rows, 2020);
    assert Filter(rows[..1], (r: HistRow) => Eligible(r, 2020)) == [rows[0]] by {
      assert rows[..1][..0] == [];
    }
    assert e == rows;
    assert RegionTotal(e, 1) == 2.0 by {
      assert e[..1] == [e[0]] && e[..1][..0] == [];
      assert SumWhere(e[..1], HistRegion, 1, HistValue) == 1.0;
    }
  }

  /** The World row weighs each country by `Value * Country_share`, not by
      `Value`: two equal countries of one region, both full members, cover
      their region fully, yet the World row is 0.5. */
  lemma WorldShareFullMembershipExample()
    ensures RegionMemberShare(ShareTable(ExampleRows(), 2020), ExampleSignatories(), Coal, 1) == 1.0
    ensures WorldShareAsWritten(ShareTable(ExampleRows(), 2020), ExampleSignatories(), Coal) == Some(0.5)
  {
    var shares := ShareTable(ExampleRows(), 2020);
    ExampleShareTable();
    assert shares[..1] == [shares[0]] && shares[..1][..0] == [];
    assert Sum(shares, ShareValue) == 2.0 by {
      assert Sum(shares[..1], ShareValue) == 1.0;
    }
    var w := WeightedValue(ExampleSignatories(), Coal);
    assert w(shares[0]) == 0.5 && w(shares[1]) == 0.5;
    assert Sum(shares, w) == 1.0 by {
      assert Sum(shares[..1], w) == 0.5;
    }
    var c := Covered(ExampleSignatories(), Coal);
    assert c(shares[0]) == 0.5 && c(shares[1]) == 0.5;
    assert SumWhere(shares, ShareRegion, 1, c) == 1.0 by {
      assert SumWhere(shares[..1], ShareRegion, 1, c) == 0.5;
    }
  }

  /** The flaring participation mean lies in [0, 1] when every present value does. */
  lemma FlaringMeanWithinUnit(flaring: seq<Option<real>>)
    requires forall i :: 0 <= i < |flaring| ==> flaring[i].Some? ==> 0.0 <= flaring[i].value <= 1.0
    ensures var m := Mean(flaring); m.Some? ==> 0.0 <= m.value <= 1.0
  {
    forall i | 0 <= i < |flaring| ensures 0.0 <= OrZero(flaring[i]) <= Present(flaring[i]) {
    }
    var zero := (v: Option<real>) => 0.0;
    SumMono(flaring, zero, OrZero);
    SumMono(flaring, OrZero, Present);
    SumScale(flaring, zero, zero, 0.0);
    var m := Mean(flaring);
    if m.Some? {
      DivideWithinUnit(Sum(flaring, OrZero), Sum(flaring, Present));
    }
  }

  lemma MulWithinUnit(a: real, b: real)
    requires 0.0 <= a && 0.0 <= b <= 1.0
    ensures 0.0 <= a * b <= a
  {
    MulMono(a, b, 1.0);
  }

  lemma MulMono(a: real, b: real, c: real)
    requires 0.0 <= a && b <= c
    ensures a * b <= a * c
  {
    assert a * c - a * b == a * (c - b);
  }

  lemma CoveredBounds(s: ShareRow, m: Option<real>)
    requires ShareOrZero(s) >= 0.0
    requires m.Some? ==> 0.0 <= m.value <= 1.0
    ensures 0.0 <= CountryMemberShare(s, m) <= ShareOrZero(s)
  {
    if s.share.Some? && m.Some? {
      MulWithinUnit(s.share.value, m.value);
    }
  }

  lemma WeightedTerm(sig: Signatories, ici: Initiative, s: ShareRow)
    requires s.value >= 0.0 && 0.0 <= ShareOrZero(s) <= 1.0
    requires var m := MemberFlag(sig, ici, s.iso); m.Some? ==> 0.0 <= m.value <= 1.0
    ensures 0.0 <= WeightedValue(sig, ici)(s) <= ShareValue(s)
  {
    var m := MemberFlag(sig, ici, s.iso);
    WeightedValueBounds(s, m);
    assert WeightedValue(sig, ici)(s) == s.value * CountryMemberShare(s, m);
  }

  lemma WeightedValueBounds(s: ShareRow, m: Option<real>)
    requires s.value >= 0.0 && 0.0 <= ShareOrZero(s) <= 1.0
    requires m.Some? ==> 0.0 <= m.value <= 1.0
    ensures 0.0 <= s.value * CountryMemberShare(s, m) <= s.value
  {
    CoveredBounds(s, m);
    MulWithinUnit(s.value, CountryMemberShare(s, m));
  }
}
