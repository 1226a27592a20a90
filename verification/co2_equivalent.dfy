/**
 Conversion of an initiative's indicator rows to CO2 equivalents before
 they are plotted: methane and nitrous oxide are weighted with their global
 warming potentials, kilotonnes are scaled to megatonnes and nitrogen to
 nitrous oxide, every row is relabelled to one unit, and the variables are
 summed per model, scenario, year, region and scenario type.
 */
module CO2Equivalent {
  import opened Tables

  const CO2 := "Mt CO2/yr"
  const CH4 := "Mt CH4/yr"
  const N2O_MT := "Mt N2O/yr"
  const N2O_KT := "kt N2O/yr"
  const TG_N := "Tg N/yr"
  const CO2_EQUIV := "Mt CO2-equiv/yr"

  /** The global warming potentials of methane and nitrous oxide. */
  datatype Gwp = Gwp(ch4: real, n2o: real)

  /** One indicator row of one variable. */
  datatype Indicator = Indicator(
    model: string,
    scenario: string,
    variable: string,
    year: int,
    unit: string,
    region: string,
    scenarioType: string,
    value: real)

  /** The group-by key: the row without variable and value. */
  datatype IndicatorKey = IndicatorKey(model: string, scenario: string, year: int, unit: string, region: string, scenarioType: string)

  function KeyOf(r: Indicator): IndicatorKey
  {
    IndicatorKey(r.model, r.scenario, r.year, r.unit, r.region, r.scenarioType)
  }

  function ValueOf(r: Indicator): real
  {
    r.value
  }

  /** The units the conversion knows. */
  predicate KnownUnit(u: string)
  {
    u == CO2 || u == CH4 || u == N2O_MT || u == N2O_KT || u == TG_N
  }

  /** A factor times an amount, named so that the proofs below can move
      products around without unfolding them. */
  function Times(c: real, x: real): real
  {
    c * x
  }

  /** The CO2-equivalence factor of a unit; `nToN2O` converts a mass of
      nitrogen to the mass of nitrous oxide that carries it. */
  function UnitFactor(unit: string, gwp: Gwp, nToN2O: real): real
  {
    if unit == CH4 then gwp.ch4
    else if unit == N2O_MT then gwp.n2o
    else if unit == N2O_KT then Times(0.001, gwp.n2o)
    else if unit == TG_N then Times(nToN2O, gwp.n2o)
    else 1.0
  }

  /** One row in CO2 equivalents. */
  function Convert(gwp: Gwp, nToN2O: real): Indicator -> Indicator
  {
    (r: Indicator) => r.(value := Times(UnitFactor(r.unit, gwp, nToN2O), r.value), unit := CO2_EQUIV)
  }

  /** The indicator in CO2 equivalents: per model, scenario, year, region
      and scenario type, the sum over the variables of the converted rows.
      Every group carries the one CO2-equivalent unit, and no two groups
      share a key. */
  function ToCO2Equivalent(rows: seq<Indicator>, gwp: Gwp, nToN2O: real): (out: seq<Group<IndicatorKey>>)
    ensures UniqueKeys(out, GroupKey)
    ensures forall i :: 0 <= i < |out| ==> out[i].key.unit == CO2_EQUIV
    ensures forall j :: 0 <= j < |rows| ==> HasKey(out, GroupKey, KeyOf(rows[j]).(unit := CO2_EQUIV))
  {
    var converted := Project(rows, Convert(gwp, nToN2O));
    var out := GroupSum(converted, KeyOf, ValueOf);
    forall i | 0 <= i < |out| ensures out[i].key.unit == CO2_EQUIV {
      var j :| 0 <= j < |converted| && KeyOf(converted[j]) == out[i].key;
    }
    forall j | 0 <= j < |rows| ensures HasKey(out, GroupKey, KeyOf(rows[j]).(unit := CO2_EQUIV)) {
      assert KeyOf(converted[j]) == KeyOf(rows[j]).(unit := CO2_EQUIV);
    }
    out
  }

  // ---------------------------------------------------------------------------
  // Properties

  /** The converted amount of one row. */
  function Equivalent(gwp: Gwp, nToN2O: real): Indicator -> real
  {
    (r: Indicator) => Times(UnitFactor(r.unit, gwp, nToN2O), r.value)
  }

  /** The conversion loses nothing: the groups add up to the converted
      amounts of all rows. */
  lemma TotalPreserved(rows: seq<Indicator>, gwp: Gwp, nToN2O: real)
    ensures Sum(ToCO2Equivalent(rows, gwp, nToN2O), Total) == Sum(rows, Equivalent(gwp, nToN2O))
  {
    var converted := Project(rows, Convert(gwp, nToN2O));
    GroupSumTotal(converted, KeyOf, ValueOf);
    SumTransport(converted, ValueOf, rows, Equivalent(gwp, nToN2O));
  }

  /** Each group holds the converted amounts of the rows with its model,
      scenario, year, region and scenario type, whatever their unit. */
  lemma GroupHoldsItsRows(rows: seq<Indicator>, gwp: Gwp, nToN2O: real, i: int)
    requires 0 <= i < |ToCO2Equivalent(rows, gwp, nToN2O)|
    ensures var g := ToCO2Equivalent(rows, gwp, nToN2O)[i];
            g.total == SumWhere(rows, ConvertedKey, g.key, Equivalent(gwp, nToN2O))
  {
    var converted := Project(rows, Convert(gwp, nToN2O));
    var g := ToCO2Equivalent(rows, gwp, nToN2O)[i];
    SumWhereTransport(converted, KeyOf, ValueOf, rows, ConvertedKey, Equivalent(gwp, nToN2O), g.key);
  }

  /** The key a row has after the relabelling of its unit. */
  function ConvertedKey(r: Indicator): IndicatorKey
  {
    KeyOf(r).(unit := CO2_EQUIV)
  }

  /** Rewriting one row into another that converts to the same CO2
      equivalent leaves the result unchanged. */
  lemma SameConversion(rows: seq<Indicator>, i: int, r: Indicator, gwp: Gwp, nToN2O: real)
    requires 0 <= i < |rows|
    requires Convert(gwp, nToN2O)(r) == Convert(gwp, nToN2O)(rows[i])
    ensures ToCO2Equivalent(rows[i := r], gwp, nToN2O) == ToCO2Equivalent(rows, gwp, nToN2O)
  {
    var rows' := rows[i := r];
    assert Project(rows', Convert(gwp, nToN2O)) == Project(rows, Convert(gwp, nToN2O));
  }

  /** The units agree with one another inside the conversion: a row in
      kilotonnes of nitrous oxide contributes what a thousandth of it in
      megatonnes does; a row in nitrogen what the nitrous oxide carrying it
      does; methane and megatonnes of nitrous oxide what their weighted
      amounts in CO2 do; and a row in an unknown unit what the same amount
      in CO2 does. */
  lemma UnitsConsistent(rows: seq<Indicator>, i: int, gwp: Gwp, nToN2O: real)
    requires 0 <= i < |rows|
    ensures var x := rows[i].value;
            rows[i].unit == N2O_KT ==>
              ToCO2Equivalent(rows[i := rows[i].(unit := N2O_MT, value := Times(0.001, x))], gwp, nToN2O) == ToCO2Equivalent(rows, gwp, nToN2O)
    ensures var x := rows[i].value;
            rows[i].unit == TG_N ==>
              ToCO2Equivalent(rows[i := rows[i].(unit := N2O_MT, value := Times(nToN2O, x))], gwp, nToN2O) == ToCO2Equivalent(rows, gwp, nToN2O)
    ensures var x := rows[i].value;
            rows[i].unit == CH4 ==>
              ToCO2Equivalent(rows[i := rows[i].(unit := CO2, value := Times(gwp.ch4, x))], gwp, nToN2O) == ToCO2Equivalent(rows, gwp, nToN2O)
    ensures var x := rows[i].value;
            rows[i].unit == N2O_MT ==>
              ToCO2Equivalent(rows[i := rows[i].(unit := CO2, value := Times(gwp.n2o, x))], gwp, nToN2O) == ToCO2Equivalent(rows, gwp, nToN2O)
    ensures !KnownUnit(rows[i].unit) ==>
              ToCO2Equivalent(rows[i := rows[i].(unit := CO2)], gwp, nToN2O) == ToCO2Equivalent(rows, gwp, nToN2O)
  {
    var r := rows[i];
    var x := r.value;
    if r.unit == N2O_KT {
      Associate(0.001, gwp.n2o, x);
      SameConversion(rows, i, r.(unit := N2O_MT, value := Times(0.001, x)), gwp, nToN2O);
    } else if r.unit == TG_N {
      Associate(nToN2O, gwp.n2o, x);
      SameConversion(rows, i, r.(unit := N2O_MT, value := Times(nToN2O, x)), gwp, nToN2O);
    } else if r.unit == CH4 {
      SameConversion(rows, i, r.(unit := CO2, value := Times(gwp.ch4, x)), gwp, nToN2O);
    } else if r.unit == N2O_MT {
      SameConversion(rows, i, r.(unit := CO2, value := Times(gwp.n2o, x)), gwp, nToN2O);
    } else if !KnownUnit(r.unit) {
      SameConversion(rows, i, r.(unit := CO2), gwp, nToN2O);
    }
  }

  /** Scaling twice is scaling by the product, in either order. */
  lemma Associate(a: real, b: real, x: real)
    ensures Times(Times(a, b), x) == Times(b, Times(a, x))
  {
    assert (a * b) * x == b * (a * x);
  }
}
