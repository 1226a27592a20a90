/**
 Vocabulary shared by every stage of the engine: the climate initiatives
 (ICIs), the IMAGE region numbering and the ways a stage can fail.
 */
module Domain {

  /** The international cooperative initiatives that appear as columns of the
      signatories table and as values of the `ICI` column. */
  datatype Initiative =
    | Coal | Renewable | Cooling
    | Steel | Cement
    | TransportCarsBuses | TransportTrucks
    | Flaring | Efficiency | Methane | Deforestation | BunkersAviation
    | BtPower | BtRoad

  /** IMAGE region number 28 is the World aggregate. */
  const WORLD: int := 28

  /** Columns of the signatories table whose name starts with `BT_Power` or
      `BT_Road`: they duplicate Coal and Transport_cars_buses and are dropped
      before membership is read. */
  predicate IsBuildingTechnology(ici: Initiative)
  {
    ici == BtPower || ici == BtRoad
  }

  /** Why a stage produced no table. */
  datatype Error =
      /** A Flaring pathway needs the World member share (region 28); `.values[0]`
          on an empty selection raises. */
    | MissingWorldShare
      /** A known sector with an unknown subsector yields a table without
          columns, and the group-by on its key columns raises KeyError. */
    | TableWithoutColumns
      /** The melt of the signatories table names a BT_ column that was
          dropped just before, and raises KeyError. */
    | MeltColumnMissing

  datatype Result<+T> = Success(value: T) | Failure(error: Error)
}
