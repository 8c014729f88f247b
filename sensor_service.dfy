/**
 * The sensor service over the in-memory repository: telemetry ingestion, the
 * "all data" query and the per-day statistics query. Logging is not modelled.
 */
module Telemetry {
  import opened Types
  import opened Mappings
  import opened Storage
  import opened DailyMaxima
  import opened InMemoryStore

  // ---------------------------------------------------------------------------
  // Ingestion

  /**
   * MapToSensorData: the concrete reading for the first present field in the
   * order illum, temp, hum; an item with none of the three throws.
   */
  function MapToSensorData(dto: SensorDataDto): (r: Result<SensorReading>)
    ensures r.Ok? <==> GetSensorType(dto).Ok?
    ensures r.Err? ==> r.error == ArgumentException
    ensures r.Ok? ==> r.value.IsTyped() && r.value.Kind() == GetSensorType(dto).value
    ensures r.Ok? ==> r.value.timestamp == dto.timestamp && r.value.Measured() == Mappings.GetSensorValue(dto).value
  {
    ValueFollowsType(dto);
    if dto.illuminance.Some? then Ok(DtoToTyped(dto, Light))
    else if dto.temperature.Some? then Ok(DtoToTyped(dto, Temperature))
    else if dto.humidity.Some? then Ok(DtoToTyped(dto, Humidity))
    else Err(ArgumentException)
  }

  /**
   * The rows ProcessTelemetry stores: one per item, in order, up to the first
   * item that cannot be classified.
   */
  function Ingested(deviceId: string, items: seq<SensorDataDto>): (rows: seq<SensorRecord>)
    ensures |rows| <= |items|
    ensures forall k :: 0 <= k < |rows| ==>
      MapToSensorData(items[k]).Ok? && rows[k] == ToStored(deviceId, MapToSensorData(items[k]).value)
    ensures |rows| < |items| ==> MapToSensorData(items[|rows|]).Err?
  {
    if items == [] then []
    else
      match MapToSensorData(items[0])
      case Err(_) => []
      case Ok(reading) => [ToStored(deviceId, reading)] + Ingested(deviceId, items[1..])
  }

  /** Appending the rows up to i and then row i is appending the rows up to i + 1. */
  lemma AppendNext(lists: map<string, seq<SensorRecord>>, deviceId: string, rows: seq<SensorRecord>, i: int)
    requires 0 <= i < |rows|
    ensures AppendAll(AppendAll(lists, deviceId, rows[..i]), deviceId, [rows[i]]) == AppendAll(lists, deviceId, rows[..i + 1])
  {
    AppendAllTwice(lists, deviceId, rows[..i], [rows[i]]);
    assert rows[..i] + [rows[i]] == rows[..i + 1];
  }

  /**
   * ProcessTelemetryAsync: maps and stores the items one by one under deviceId.
   * The first item with no value field throws; the items stored before it stay.
   */
  method ProcessTelemetry(repo: InMemorySensorRepository, deviceId: string, telemetry: seq<SensorDataDto>)
    returns (outcome: Outcome)
    modifies repo
    ensures repo.sensorReadings == AppendAll(old(repo.sensorReadings), deviceId, Ingested(deviceId, telemetry))
    ensures repo.devices == old(repo.devices)
    ensures outcome == Pass <==> |Ingested(deviceId, telemetry)| == |telemetry|
    ensures outcome.Fail? ==> outcome.error == ArgumentException
  {
    var rows := Ingested(deviceId, telemetry);
    var i := 0;
    while i < |telemetry|
      invariant 0 <= i <= |rows|
      invariant repo.sensorReadings == AppendAll(old(repo.sensorReadings), deviceId, rows[..i])
      invariant repo.devices == old(repo.devices)
    {
      var mapped := MapToSensorData(telemetry[i]);
      if mapped.Err? {
        assert rows[..i] == rows;
        return Fail(mapped.error);
      }
      assert rows[i] == ToStored(deviceId, mapped.value);
      AppendNext(old(repo.sensorReadings), deviceId, rows, i);
      repo.AddSensorReading(deviceId, mapped.value);
      i := i + 1;
    }
    assert rows[..i] == rows;
    return Pass;
  }

  /**
   * Every stored row reads back as the reading its item was mapped to: kind,
   * timestamp and value of the item's first present field.
   */
  lemma IngestedReadsBack(deviceId: string, items: seq<SensorDataDto>, k: int)
    requires 0 <= k < |Ingested(deviceId, items)|
    ensures GetSensorType(items[k]).Ok?
    ensures CreateSensorData(Ingested(deviceId, items)[k])
      == Ok(TypedReading(GetSensorType(items[k]).value, items[k].timestamp, Mappings.GetSensorValue(items[k]).value))
  {
    var reading := MapToSensorData(items[k]).value;
    StoreReadBack(deviceId, reading);
  }

  /** An all-valid list stores one row per item; a list with an unclassifiable item stores only those before it. */
  lemma IngestedCount(deviceId: string, items: seq<SensorDataDto>)
    ensures |Ingested(deviceId, items)| == |items| <==> forall k :: 0 <= k < |items| ==> GetSensorType(items[k]).Ok?
  {
    var n := |Ingested(deviceId, items)|;
    if n < |items| {
      assert GetSensorType(items[n]).Err?;
    }
  }

  // ---------------------------------------------------------------------------
  // GetAllDataAsync

  /** The dictionary key of a kind's value. */
  function Key(kind: NamedType): string {
    match kind
    case Light => "illum"
    case Temperature => "temp"
    case Humidity => "hum"
  }

  /** A dictionary with the entry "time" and one value entry under `key`. */
  datatype Entry = Entry(time: int, key: string, value: real)

  /**
   * One reading shaped: the named kinds cast the object to their class (which
   * fails for any other implementation), any other kind gives null.
   */
  function Shape(reading: SensorReading): (r: Result<Option<Entry>>)
    ensures r.Err? <==> !reading.IsTyped() && reading.Kind().IsNamed()
    ensures r.Err? ==> r.error == InvalidCastException
    ensures r == Ok(None) <==> !reading.Kind().IsNamed()
    ensures reading.IsTyped() ==> r == Ok(Some(Entry(reading.timestamp, Key(reading.Kind()), reading.Measured())))
  {
    match reading.Kind()
    case Unnamed(_) => Ok(None)
    case _ =>
      if reading.IsTyped() then Ok(Some(Entry(reading.timestamp, Key(reading.Kind()), reading.Measured())))
      else Err(InvalidCastException)
  }

  /** `readings.Select(shape).Where(d => d != null).ToList()` */
  function ShapeAll(readings: seq<SensorReading>): (r: Result<seq<Entry>>)
    ensures r.Err? <==> exists k :: 0 <= k < |readings| && Shape(readings[k]).Err?
    ensures r.Err? ==> r.error == InvalidCastException
    ensures r.Ok? ==> |r.value| <= |readings|
  {
    if readings == [] then Ok([])
    else
      match Shape(readings[0])
      case Err(e) => Err(e)
      case Ok(first) =>
        match ShapeAll(readings[1..])
        case Err(e) =>
          var k :| 0 <= k < |readings[1..]| && Shape(readings[1..][k]).Err?;
          assert Shape(readings[k + 1]).Err?;
          Err(e)
        case Ok(rest) =>
          assert forall k :: 0 < k < |readings| ==> readings[k] == readings[1..][k - 1];
          Ok((if first.Some? then [first.value] else []) + rest)
  }

  /**
   * A successful shaping holds exactly the entries of the readings that shape
   * to one: the readings of an unnamed kind are dropped and nothing else is.
   */
  lemma {:induction false} ShapeAllMembers(readings: seq<SensorReading>, e: Entry)
    requires ShapeAll(readings).Ok?
    ensures e in ShapeAll(readings).value <==> exists k :: 0 <= k < |readings| && Shape(readings[k]) == Ok(Some(e))
  {
    if readings != [] {
      var rest := readings[1..];
      ShapeAllMembers(rest, e);
      var first := Shape(readings[0]);
      var head := if first.value.Some? then [first.value.value] else [];
      assert ShapeAll(readings).value == head + ShapeAll(rest).value;
      if exists k :: 0 <= k < |readings| && Shape(readings[k]) == Ok(Some(e)) {
        var k :| 0 <= k < |readings| && Shape(readings[k]) == Ok(Some(e));
        if k > 0 {
          assert rest[k - 1] == readings[k];
        }
      }
      if exists k :: 0 <= k < |rest| && Shape(rest[k]) == Ok(Some(e)) {
        var k :| 0 <= k < |rest| && Shape(rest[k]) == Ok(Some(e));
        assert readings[k + 1] == rest[k];
      }
    }
  }

  /**
   * Shaping keeps the readings' order: shaping two lists one after the other
   * gives the first list's entries followed by the second's.
   */
  lemma {:induction false} ShapeAllAppend(a: seq<SensorReading>, b: seq<SensorReading>)
    requires ShapeAll(a).Ok? && ShapeAll(b).Ok?
    ensures ShapeAll(a + b) == Ok(ShapeAll(a).value + ShapeAll(b).value)
  {
    var ab := a + b;
    if a == [] {
      assert ab == b;
      assert ShapeAll(a).value + ShapeAll(b).value == ShapeAll(b).value;
    } else {
      assert ab[1..] == a[1..] + b;
      assert ab[0] == a[0];
      var first := Shape(a[0]);
      var head := if first.value.Some? then [first.value.value] else [];
      assert ShapeAll(a).value == head + ShapeAll(a[1..]).value;
      ShapeAllAppend(a[1..], b);
      assert ShapeAll(ab).value == head + ShapeAll(ab[1..]).value;
      assert head + (ShapeAll(a[1..]).value + ShapeAll(b).value) == (head + ShapeAll(a[1..]).value) + ShapeAll(b).value;
    }
  }

  /** The concrete readings keep their order, each with its time, its kind's key and its value. */
  lemma {:induction false} ShapeAllTyped(readings: seq<SensorReading>)
    requires forall k :: 0 <= k < |readings| ==> readings[k].IsTyped()
    ensures ShapeAll(readings).Ok?
    ensures |ShapeAll(readings).value| == |readings|
    ensures forall k :: 0 <= k < |readings| ==>
      ShapeAll(readings).value[k] == Entry(readings[k].timestamp, Key(readings[k].Kind()), readings[k].Measured())
  {
    if readings != [] {
      ShapeAllTyped(readings[1..]);
      var rest := ShapeAll(readings[1..]).value;
      var first := Entry(readings[0].timestamp, Key(readings[0].Kind()), readings[0].Measured());
      assert Shape(readings[0]) == Ok(Some(first));
      assert ShapeAll(readings).value == [first] + rest;
    }
  }

  /** GetAllDataAsync: an empty repository result gives an empty list, else the shaped readings. */
  function GetAllData(repo: InMemorySensorRepository, deviceId: string): (r: Result<seq<Entry>>)
    reads repo
    ensures repo.GetSensorReadings(deviceId) == Ok([]) ==> r == Ok([])
    ensures repo.GetSensorReadings(deviceId).Err? ==> r == Err(repo.GetSensorReadings(deviceId).error)
  {
    match repo.GetSensorReadings(deviceId)
    case Err(e) => Err(e)
    case Ok(readings) => if readings == [] then Ok([]) else ShapeAll(readings)
  }

  /**
   * Over the in-memory repository the query never fails on a cast: each of the
   * device's newest readings gives one entry, in repository order.
   */
  lemma GetAllDataSpec(repo: InMemorySensorRepository, deviceId: string)
    requires repo.GetSensorReadings(deviceId).Ok?
    ensures GetAllData(repo, deviceId).Ok?
    ensures |GetAllData(repo, deviceId).value| == |repo.GetSensorReadings(deviceId).value|
    ensures forall k :: 0 <= k < |repo.GetSensorReadings(deviceId).value| ==>
      var reading := repo.GetSensorReadings(deviceId).value[k];
      GetAllData(repo, deviceId).value[k] == Entry(reading.timestamp, Key(reading.Kind()), reading.Measured())
  {
    var readings := repo.GetSensorReadings(deviceId).value;
    if deviceId in repo.sensorReadings {
      var rows := Latest(repo.sensorReadings[deviceId]);
      forall k | 0 <= k < |readings| ensures readings[k].IsTyped() {
        assert CreateSensorData(rows[k]) == Ok(readings[k]);
      }
    }
    ShapeAllTyped(readings);
  }

  // ---------------------------------------------------------------------------
  // GetDeviceStatisticsAsync

  /** How many days of maxima the statistics ask for. */
  const StatisticsDays: int := 30

  /** The name of the maximum's field in a statistics item, by device type. */
  function StatField(kind: SensorType): string {
    match kind
    case Light => "maxIlluminance"
    case Temperature => "maxTemperature"
    case Humidity => "maxHumidity"
    case Unnamed(_) => "maxValue"
  }

  /** A statistics item; the date is the day number the "yyyy-MM-dd" string is formatted from. */
  datatype StatItem = StatItem(date: int, field: string, maxValue: real)

  /**
   * GetDeviceStatisticsAsync: null for an unregistered device and for an empty
   * list of maxima, otherwise one item per daily maximum, in order, its field
   * named by the device's type. An exception of the repository's query passes
   * through.
   */
  method GetDeviceStatistics(repo: InMemorySensorRepository, deviceId: string, today: int)
    returns (r: Result<Option<seq<StatItem>>>)
    ensures repo.GetDevice(deviceId).None? ==> r == Ok(None)
    ensures repo.GetDevice(deviceId).Some? ==>
      var maxima := repo.GetDailyMaximumReadings(deviceId, StatisticsDays, today);
      (maxima.Err? ==> r == Err(maxima.error))
      && (r == Ok(None) <==> maxima == Ok([]))
      && (r.Ok? && r.value.Some? ==>
            maxima.Ok? && |r.value.value| == |maxima.value|
            && forall k :: 0 <= k < |r.value.value| ==>
                 r.value.value[k] == StatItem(maxima.value[k].date, StatField(repo.devices[deviceId].kind), maxima.value[k].maxValue))
  {
    var device := repo.GetDevice(deviceId);
    if device.None? {
      return Ok(None);
    }
    var maxReadings := repo.GetDailyMaximumReadings(deviceId, StatisticsDays, today);
    if maxReadings.Err? {
      return Err(maxReadings.error);
    }
    if maxReadings.value == [] {
      return Ok(None);
    }
    var field := StatField(device.value.kind);
    var result := [];
    for i := 0 to |maxReadings.value|
      invariant |result| == i
      invariant forall k :: 0 <= k < i ==>
        result[k] == StatItem(maxReadings.value[k].date, field, maxReadings.value[k].maxValue)
    {
      var m := maxReadings.value[i];
      result := result + [StatItem(m.date, field, m.maxValue)];
    }
    return Ok(Some(result));
  }

  /**
   * For a registered device the statistics are null exactly when the device has
   * no stored readings. A device with readings gets the 30 days ending today,
   * in order, unless a stored timestamp cannot be dated, which throws.
   */
  lemma StatisticsNullOnlyWithoutReadings(repo: InMemorySensorRepository, deviceId: string, today: int)
    requires deviceId in repo.devices
    ensures deviceId !in repo.sensorReadings <==> repo.GetDailyMaximumReadings(deviceId, StatisticsDays, today) == Ok([])
    ensures deviceId in repo.sensorReadings ==>
      var maxima := repo.GetDailyMaximumReadings(deviceId, StatisticsDays, today);
      && (maxima.Ok? <==> forall rec :: rec in repo.sensorReadings[deviceId] ==> Datable(rec))
      && (maxima.Ok? ==> IsWindow(maxima.value, StatisticsDays, today))
  {
    if deviceId in repo.sensorReadings {
      DailySeriesSpec(repo.sensorReadings[deviceId], StatisticsDays, today);
    }
  }
}
