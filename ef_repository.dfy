/**
 * The Entity Framework repository. The database context is the state: the
 * SensorData table, modelled as its rows in insertion order, and the Devices
 * table keyed by id. Queries are the functions over that state that the LINQ
 * expressions denote.
 */
module EFStore {
  import opened Types
  import opened Storage
  import opened DailyMaxima

  /** `Where(sd => sd.DeviceId == deviceId)` */
  function ForDevice(table: seq<SensorRecord>, deviceId: string): (r: seq<SensorRecord>)
    ensures |r| <= |table|
    ensures forall x :: x in r <==> x in table && x.deviceId == deviceId
    ensures r == [] <==> forall i :: 0 <= i < |table| ==> table[i].deviceId != deviceId
  {
    if table == [] then []
    else
      var row := table[|table| - 1];
      ForDevice(table[..|table| - 1], deviceId) + (if row.deviceId == deviceId then [row] else [])
  }

  /** `Where(sd => sd.DeviceId == deviceId && lo <= sd.Timestamp && sd.Timestamp < hi)` */
  function InSeconds(table: seq<SensorRecord>, deviceId: string, lo: int, hi: int): seq<SensorRecord> {
    if table == [] then []
    else
      var row := table[|table| - 1];
      InSeconds(table[..|table| - 1], deviceId, lo, hi)
        + (if row.deviceId == deviceId && lo <= row.timestamp < hi then [row] else [])
  }

  /**
   * The query's second bounds, from midnight of the first day of the window to
   * midnight after today, select the device's rows dated inside the window.
   */
  lemma {:induction false} SecondWindowIsDayWindow(table: seq<SensorRecord>, deviceId: string, first: int, last: int)
    ensures InSeconds(table, deviceId, SecondsPerDay * first, SecondsPerDay * (last + 1))
      == InWindow(ForDevice(table, deviceId), first, last)
  {
    if table != [] {
      var init := table[..|table| - 1];
      var row := table[|table| - 1];
      SecondWindowIsDayWindow(init, deviceId, first, last);
      SecondBoundsMatchDays(row.timestamp, first, last);
      var mine := ForDevice(init, deviceId);
      if row.deviceId == deviceId {
        assert ForDevice(table, deviceId) == mine + [row];
        assert (mine + [row])[..|mine|] == mine;
      } else {
        assert ForDevice(table, deviceId) == mine;
      }
    }
  }

  /**
   * The SensorData table after saving one added row. The foreign key from
   * SensorData.DeviceId to Devices.Id makes the save throw for a device id that
   * is not registered, and then the table is unchanged.
   */
  function Saved(table: seq<SensorRecord>, devices: map<string, Device>, deviceId: string, reading: SensorReading)
    : (r: Result<seq<SensorRecord>>)
    ensures r.Ok? <==> deviceId in devices
    ensures r.Err? ==> r.error == DbUpdateException
    ensures r.Ok? ==> |r.value| == |table| + 1 && r.value[..|table|] == table && r.value[|table|] == ToStored(deviceId, reading)
  {
    if deviceId in devices then Ok(table + [ToStored(deviceId, reading)]) else Err(DbUpdateException)
  }

  class EFSensorRepository {
    var sensorData: seq<SensorRecord>
    var devices: map<string, Device>

    constructor (rows: seq<SensorRecord>, registered: map<string, Device>)
      ensures sensorData == rows && devices == registered
    {
      sensorData := rows;
      devices := registered;
    }

    /**
     * Adds one SensorData row for the reading and saves it; the save fails on
     * the foreign key when the device is not registered.
     */
    method AddSensorReading(deviceId: string, reading: SensorReading) returns (outcome: Outcome)
      modifies this
      ensures var saved := Saved(old(sensorData), devices, deviceId, reading);
        && (outcome == Pass <==> saved.Ok?)
        && (outcome.Fail? ==> outcome.error == DbUpdateException)
        && sensorData == (if saved.Ok? then saved.value else old(sensorData))
      ensures devices == old(devices)
    {
      var row := SensorRecord(deviceId, reading.timestamp, reading.Kind(), GetSensorValue(reading));
      if deviceId !in devices {
        return Fail(DbUpdateException);
      }
      sensorData := sensorData + [row];
      return Pass;
    }

    /** The device's newest 100 rows, newest first, read back into concrete readings. */
    function GetSensorReadings(deviceId: string): (r: Result<seq<SensorReading>>)
      reads this
      ensures r == ReadBackAll(Latest(ForDevice(sensorData, deviceId)))
    {
      ReadBackAll(Latest(ForDevice(sensorData, deviceId)))
    }

    /**
     * Selects the device's rows by second bounds, then groups and fills exactly
     * as the in-memory repository does. There is no early exit for a device
     * without rows.
     */
    function GetDailyMaximumReadings(deviceId: string, days: int, today: int): (r: Result<seq<DailyMaximumReading>>)
      reads this
      ensures r == DailySeries(ForDevice(sensorData, deviceId), days, today)
    {
      SecondWindowIsDayWindow(sensorData, deviceId, today - days + 1, today);
      Aggregate(InSeconds(sensorData, deviceId, SecondsPerDay * (today - days + 1), SecondsPerDay * (today + 1)), days, today)
    }

    /** `Devices.FindAsync(deviceId)`: the device with that key, or null. */
    function GetDevice(deviceId: string): (r: Option<Device>)
      reads this
      ensures r == Lookup(devices, deviceId)
    {
      Lookup(devices, deviceId)
    }
  }

  /**
   * A device without rows still gets a full window of zero entries from the
   * database repository.
   */
  lemma NoRowsGivesZeroWindow(repo: EFSensorRepository, deviceId: string, days: int, today: int)
    requires forall row :: row in repo.sensorData ==> row.deviceId != deviceId
    requires days >= 0
    ensures repo.GetDailyMaximumReadings(deviceId, days, today).Ok?
    ensures IsWindow(repo.GetDailyMaximumReadings(deviceId, days, today).value, days, today)
    ensures forall i :: 0 <= i < days ==> repo.GetDailyMaximumReadings(deviceId, days, today).value[i].maxValue == 0.0
  {
    var rows := ForDevice(repo.sensorData, deviceId);
    DailySeriesSpec(rows, days, today);
    var r := repo.GetDailyMaximumReadings(deviceId, days, today).value;
    forall i | 0 <= i < days ensures r[i].maxValue == 0.0 {
      assert ValuesOn(rows, r[i].date) == [];
    }
  }
}
