/**
 * How the two ISensorRepository implementations relate. When the in-memory
 * lists hold, per device, exactly the rows the database table holds for that
 * device (which adding the same reading to both keeps true while the device is
 * registered), the two return the same readings (with ties in insertion
 * order), and the same daily maxima for every device that has readings dated
 * within years 1 to 9999. They differ for a device without readings, for a
 * stored timestamp out of that range, and for an add to an unregistered device.
 */
module RepositoryAgreement {
  import opened Types
  import opened Storage
  import opened DailyMaxima
  import opened InMemoryStore
  import opened EFStore

  /** Each device's list is the table's rows for it, and no list is empty. */
  ghost predicate Corresponds(lists: map<string, seq<SensorRecord>>, table: seq<SensorRecord>) {
    && (forall id :: ListOf(lists, id) == ForDevice(table, id))
    && (forall id :: id in lists ==> lists[id] != [])
  }

  lemma EmptyCorresponds()
    ensures Corresponds(map[], [])
  {
  }

  /**
   * Adding the same reading to both repositories keeps them corresponding when
   * the device is registered in the database, whose save then succeeds.
   */
  lemma AddKeepsCorrespondence(lists: map<string, seq<SensorRecord>>, table: seq<SensorRecord>,
                               devices: map<string, Device>, deviceId: string, reading: SensorReading)
    requires Corresponds(lists, table)
    requires deviceId in devices
    ensures Saved(table, devices, deviceId, reading).Ok?
    ensures Corresponds(AppendAll(lists, deviceId, [ToStored(deviceId, reading)]), Saved(table, devices, deviceId, reading).value)
  {
    var row := ToStored(deviceId, reading);
    assert Saved(table, devices, deviceId, reading) == Ok(table + [row]);
    AppendRowKeepsCorrespondence(lists, table, row);
  }

  /** Appending a row to its device's list and to the end of the table keeps them corresponding. */
  lemma AppendRowKeepsCorrespondence(lists: map<string, seq<SensorRecord>>, table: seq<SensorRecord>, row: SensorRecord)
    requires Corresponds(lists, table)
    ensures Corresponds(AppendAll(lists, row.deviceId, [row]), table + [row])
  {
    var lists' := AppendAll(lists, row.deviceId, [row]);
    var table' := table + [row];
    assert table'[..|table|] == table;
    forall id ensures ListOf(lists', id) == ForDevice(table', id) {
      assert ForDevice(table', id) == ForDevice(table, id) + (if row.deviceId == id then [row] else []);
    }
  }

  /**
   * For a device the database does not know, the in-memory repository stores
   * the reading while the database save fails, and the two stop corresponding.
   */
  lemma AddToUnregisteredDeviceDiverges(lists: map<string, seq<SensorRecord>>, table: seq<SensorRecord>,
                                        devices: map<string, Device>, deviceId: string, reading: SensorReading)
    requires Corresponds(lists, table)
    requires deviceId !in devices
    ensures Saved(table, devices, deviceId, reading) == Err(DbUpdateException)
    ensures !Corresponds(AppendAll(lists, deviceId, [ToStored(deviceId, reading)]), table)
  {
    var lists' := AppendAll(lists, deviceId, [ToStored(deviceId, reading)]);
    assert |ListOf(lists', deviceId)| == |ListOf(lists, deviceId)| + 1;
  }

  /** Both repositories return the same newest readings for every device. */
  lemma SameReadings(mem: InMemorySensorRepository, db: EFSensorRepository, deviceId: string)
    requires Corresponds(mem.sensorReadings, db.sensorData)
    ensures mem.GetSensorReadings(deviceId) == db.GetSensorReadings(deviceId)
  {
    assert ListOf(mem.sensorReadings, deviceId) == ForDevice(db.sensorData, deviceId);
    if deviceId !in mem.sensorReadings {
      assert Latest([]) == [];
    }
  }

  /**
   * For a device with readings, all dated within years 1 to 9999, both
   * repositories return the same daily maxima.
   */
  lemma SameDailyMaximaForKnownDevice(mem: InMemorySensorRepository, db: EFSensorRepository,
                                      deviceId: string, days: int, today: int)
    requires Corresponds(mem.sensorReadings, db.sensorData)
    requires deviceId in mem.sensorReadings
    requires forall rec :: rec in mem.sensorReadings[deviceId] ==> Datable(rec)
    ensures mem.GetDailyMaximumReadings(deviceId, days, today) == db.GetDailyMaximumReadings(deviceId, days, today)
  {
    assert ListOf(mem.sensorReadings, deviceId) == ForDevice(db.sensorData, deviceId);
  }

  /**
   * One stored timestamp out of the datable range makes the in-memory query
   * throw, while the database selects by raw seconds and still answers.
   */
  lemma DailyMaximaDifferForUndatableRow(mem: InMemorySensorRepository, db: EFSensorRepository,
                                         deviceId: string, days: int, today: int, rec: SensorRecord)
    requires Corresponds(mem.sensorReadings, db.sensorData)
    requires rec in db.sensorData && rec.deviceId == deviceId && !Datable(rec)
    requires days >= 0
    ensures mem.GetDailyMaximumReadings(deviceId, days, today) == Err(ArgumentOutOfRangeException)
    ensures db.GetDailyMaximumReadings(deviceId, days, today).Ok?
  {
    assert ListOf(mem.sensorReadings, deviceId) == ForDevice(db.sensorData, deviceId);
    assert rec in ForDevice(db.sensorData, deviceId);
  }

  /**
   * For a device without readings the in-memory repository returns an empty
   * sequence, while the database one returns `days` zero entries.
   */
  lemma DailyMaximaDifferForUnknownDevice(mem: InMemorySensorRepository, db: EFSensorRepository,
                                          deviceId: string, days: int, today: int)
    requires Corresponds(mem.sensorReadings, db.sensorData)
    requires deviceId !in mem.sensorReadings
    requires days > 0
    ensures mem.GetDailyMaximumReadings(deviceId, days, today) == Ok([])
    ensures db.GetDailyMaximumReadings(deviceId, days, today).Ok?
    ensures |db.GetDailyMaximumReadings(deviceId, days, today).value| == days
    ensures forall i :: 0 <= i < days ==> db.GetDailyMaximumReadings(deviceId, days, today).value[i].maxValue == 0.0
  {
    assert ListOf(mem.sensorReadings, deviceId) == ForDevice(db.sensorData, deviceId);
    assert forall i :: 0 <= i < |db.sensorData| ==> db.sensorData[i].deviceId != deviceId;
    forall row | row in db.sensorData ensures row.deviceId != deviceId {
    }
    NoRowsGivesZeroWindow(db, deviceId, days, today);
  }
}
