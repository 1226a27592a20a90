/**
 Country-share normalisation: each eligible country's historical value as a
 fraction of its IMAGE region's total.
 */
module CountryShares {
  import opened Tables
  import opened Domain

  /** One row of the historical country table. */
  datatype HistRow = HistRow(
    iso: string,
    countryName: string,
    region: int,
    year: int,
    value: Option<real>,
    isoImage: bool,
    isoHist: bool)

  /** One row of the share table: the country, its region, its historical
      value and its share of the region total (missing when that total is 0,
      where pandas would divide by zero). */
  datatype ShareRow = ShareRow(
    iso: string,
    countryName: string,
    region: int,
    value: real,
    share: Option<real>)

  /** Only rows with a value, flagged as both an IMAGE and a historical ISO
      code, of the historical year and outside the World aggregate count. */
  predicate Eligible(r: HistRow, histYear: int)
  {
    r.value.Some? && r.isoImage && r.isoHist && r.year == histYear && r.region != WORLD
  }

  function EligibleRows(rows: seq<HistRow>, histYear: int): seq<HistRow>
  {
    Filter(rows, (r: HistRow) => Eligible(r, histYear))
  }

  function HistRegion(r: HistRow): int
  {
    r.region
  }

  function HistValue(r: HistRow): real
  {
    OrZero(r.value)
  }

  function ShareRegion(s: ShareRow): int
  {
    s.region
  }

  function ShareValue(s: ShareRow): real
  {
    s.value
  }

  /** The share as a number, a missing share counting as 0 (`fillna(0)`). */
  function ShareOrZero(s: ShareRow): real
  {
    OrZero(s.share)
  }

  /** Sum of the eligible values in region k: `groupby(region).transform("sum")`. */
  function RegionTotal(eligible: seq<HistRow>, k: int): real
  {
    SumWhere(eligible, HistRegion, k, HistValue)
  }

  function Divide(x: real, total: real): Option<real>
  {
    if total == 0.0 then None else Some(x / total)
  }

  /** The share table: one row per eligible historical row, in order. */
  function ShareTable(rows: seq<HistRow>, histYear: int): (shares: seq<ShareRow>)
    ensures var e := EligibleRows(rows, histYear);
            |shares| == |e|
            && forall i :: 0 <= i < |shares| ==>
                 && Eligible(e[i], histYear)
                 && shares[i].iso == e[i].iso
                 && shares[i].countryName == e[i].countryName
                 && shares[i].region == e[i].region
                 && Some(shares[i].value) == e[i].value
                 && shares[i].region != WORLD
  {
    var e := EligibleRows(rows, histYear);
    seq(|e|, i requires 0 <= i < |e| =>
      ShareRow(e[i].iso, e[i].countryName, e[i].region, HistValue(e[i]),
               Divide(HistValue(e[i]), RegionTotal(e, e[i].region))))
  }

  /** A share row carries the country, region and value of its historical row. */
  predicate SharedFrom(s: ShareRow, r: HistRow)
  {
    s.iso == r.iso && s.countryName == r.countryName && s.region == r.region && Some(s.value) == r.value
  }

  /** An input row gets a share row exactly when it is eligible. */
  lemma ShareRowsAreEligible(rows: seq<HistRow>, histYear: int)
    ensures var shares := ShareTable(rows, histYear);
            && (forall j :: 0 <= j < |rows| && Eligible(rows[j], histYear) ==>
                  exists i :: 0 <= i < |shares| && SharedFrom(shares[i], rows[j]))
            && (forall i :: 0 <= i < |shares| ==>
                  exists j :: 0 <= j < |rows| && Eligible(rows[j], histYear) && SharedFrom(shares[i], rows[j]))
  {
    var e := EligibleRows(rows, histYear);
    var shares := ShareTable(rows, histYear);
    forall j | 0 <= j < |rows| && Eligible(rows[j], histYear)
      ensures exists i :: 0 <= i < |shares| && SharedFrom(shares[i], rows[j])
    {
      var i :| 0 <= i < |e| && e[i] == rows[j];
      assert SharedFrom(shares[i], rows[j]);
    }
    forall i | 0 <= i < |shares|
      ensures exists j :: 0 <= j < |rows| && Eligible(rows[j], histYear) && SharedFrom(shares[i], rows[j])
    {
      var j :| 0 <= j < |rows| && rows[j] == e[i];
      assert SharedFrom(shares[i], rows[j]);
    }
  }

  /** Each share is the country's value over its region total, and it is
      missing exactly when that total is 0. */
  lemma ShareTimesTotal(rows: seq<HistRow>, histYear: int, i: int)
    requires 0 <= i < |ShareTable(rows, histYear)|
    ensures var s := ShareTable(rows, histYear)[i];
            var t := RegionTotal(EligibleRows(rows, histYear), s.region);
            && (s.share.None? <==> t == 0.0)
            && (s.share.Some? ==> s.share.value * t == s.value)
  {
  }

  /** The shares of a region with a non-zero total add up to 1. */
  lemma {:induction false} SharesSumToOne(rows: seq<HistRow>, histYear: int, k: int)
    requires RegionTotal(EligibleRows(rows, histYear), k) != 0.0
    ensures SumWhere(ShareTable(rows, histYear), ShareRegion, k, ShareOrZero) == 1.0
  {
    var e := EligibleRows(rows, histYear);
    var shares := ShareTable(rows, histYear);
    var t := RegionTotal(e, k);
    SumWhereTransport(shares, ShareRegion, ShareOrZero, e, HistRegion, (r: HistRow) => HistValue(r) / t, k);
    SumWhereScale(e, HistRegion, k, HistValue, (r: HistRow) => HistValue(r) / t, 1.0 / t);
  }

  /** With non-negative historical values every share lies in [0, 1]. */
  lemma ShareWithinUnit(rows: seq<HistRow>, histYear: int, i: int)
    requires forall j :: 0 <= j < |rows| ==> OrZero(rows[j].value) >= 0.0
    requires 0 <= i < |ShareTable(rows, histYear)|
    ensures 0.0 <= ShareOrZero(ShareTable(rows, histYear)[i]) <= 1.0
  {
    var e := EligibleRows(rows, histYear);
    forall j | 0 <= j < |e| ensures HistValue(e[j]) >= 0.0 {
      assert e[j] in rows;
    }
    SumWhereBoundsTerm(e, HistRegion, HistValue, i);
    var v := HistValue(e[i]);
    var t := RegionTotal(e, e[i].region);
    if t != 0.0 {
      assert 0.0 <= v <= t;
      DivideWithinUnit(v, t);
    }
  }

  lemma DivideWithinUnit(v: real, t: real)
    requires 0.0 <= v <= t && t != 0.0
    ensures 0.0 <= v / t <= 1.0
  {
    assert v / t * t == v;
  }
}
