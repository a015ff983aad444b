/**
 * The rows of the relational tables that the services read and write. Dates and
 * timestamps are opaque numbers (epoch days and instants), BigDecimal columns are reals,
 * and a nullable column is an Option.
 */
module Entities {
  import opened Wrappers

  /** A row of the `battery` table; `modelId` and `customerId` are its foreign keys. */
  datatype Battery = Battery(
    id: int,
    batteryCode: string,
    modelId: int,
    customerId: Option<int>,
    status: int,
    commissioningDate: Option<int>,
    ratedCapacityAh: Option<real>,
    sohPercent: Option<real>,
    cycleCount: Option<int>,
    lastRecordAt: Option<int>,
    deleted: Option<bool>)

  /** `Boolean.TRUE.equals(battery.getDeleted())`: a null flag reads as not deleted. */
  predicate IsDeleted(b: Battery) { b.deleted == Some(true) }

  /**
   * A row of the `battery_record` table. The entity declares no voltage field (its
   * `current` field is mapped to the `voltage` column), so a record carries none.
   * `id` is assigned by the database and is None until then.
   */
  datatype BatteryRecord = BatteryRecord(
    id: Option<int>,
    batteryId: Option<int>,
    cycle: int,
    timeMin: real,
    current: real,
    temp: Option<real>,
    capacity: Option<real>,
    sourceFile: Option<string>,
    uploadBatch: Option<string>)
}
