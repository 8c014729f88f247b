/**
 * The worker-side API client: readings are converted to wire DTOs and posted
 * to the device's telemetry endpoint. The HTTP transport is a parameter: the
 * caller says whether the post succeeds. `posts` records the posts the server
 * accepted.
 */
module Api {
  import opened Types
  import opened Mappings

  /** The DTO for one reading, by its runtime class; none for any other ISensorData. */
  function DtoOf(reading: SensorReading): (r: Option<SensorDataDto>)
    ensures r.Some? <==> reading.IsTyped()
    ensures r.Some? ==> r.value.timestamp == reading.timestamp
    ensures r.Some? ==> FieldOf(r.value, reading.Kind()) == Some(reading.Measured())
    ensures r.Some? ==> forall k: NamedType :: k != reading.Kind() ==> FieldOf(r.value, k) == None
  {
    match reading
    case LightSensorData(ts, illuminance) => Some(SensorDataDto(ts, Some(illuminance), None, None))
    case TemperatureSensorData(ts, temperature) => Some(SensorDataDto(ts, None, Some(temperature), None))
    case HumiditySensorData(ts, humidity) => Some(SensorDataDto(ts, None, None, Some(humidity)))
    case OtherSensorData(_, _) => None
  }

  /** The client's conversion agrees with the typed-reading map of the mapping profile. */
  lemma DtoOfIsProfileMap(reading: SensorReading)
    requires reading.IsTyped()
    ensures DtoOf(reading) == Some(TypedToDto(reading))
  {
    var a, b := DtoOf(reading).value, TypedToDto(reading);
    assert FieldOf(a, Light) == FieldOf(b, Light);
    assert FieldOf(a, Temperature) == FieldOf(b, Temperature);
    assert FieldOf(a, Humidity) == FieldOf(b, Humidity);
  }

  /** The DTOs of the concrete readings, in input order; other readings are skipped. */
  function KnownDtos(readings: seq<SensorReading>): seq<SensorDataDto> {
    if readings == [] then []
    else
      var last := readings[|readings| - 1];
      KnownDtos(readings[..|readings| - 1]) + (if last.IsTyped() then [DtoOf(last).value] else [])
  }

  /** ConvertToSensorDataDtos: the foreach that skips unknown reading classes with `continue`. */
  method ConvertToSensorDataDtos(sensorData: seq<SensorReading>) returns (dtos: seq<SensorDataDto>)
    ensures dtos == KnownDtos(sensorData)
  {
    dtos := [];
    for i := 0 to |sensorData|
      invariant dtos == KnownDtos(sensorData[..i])
    {
      assert sensorData[..i + 1][..i] == sensorData[..i];
      var data := sensorData[i];
      var dto := SensorDataDto(data.timestamp, None, None, None);
      match data {
        case LightSensorData(_, illuminance) =>
          dto := dto.(illuminance := Some(illuminance));
        case TemperatureSensorData(_, temperature) =>
          dto := dto.(temperature := Some(temperature));
        case HumiditySensorData(_, humidity) =>
          dto := dto.(humidity := Some(humidity));
        case OtherSensorData(_, _) =>
          continue;
      }
      dtos := dtos + [dto];
    }
    assert sensorData[..|sensorData|] == sensorData;
  }

  /** The readings KnownDtos keeps: the concrete ones, in order. */
  function Typed(readings: seq<SensorReading>): (r: seq<SensorReading>)
    ensures |r| <= |readings|
    ensures forall k :: 0 <= k < |r| ==> r[k].IsTyped()
    ensures forall x :: x in r <==> x in readings && x.IsTyped()
  {
    if readings == [] then []
    else
      var last := readings[|readings| - 1];
      Typed(readings[..|readings| - 1]) + (if last.IsTyped() then [last] else [])
  }

  /**
   * One DTO per concrete reading, in input order, each carrying only that
   * reading's time and its own kind's value.
   */
  lemma {:induction false} KnownDtosSpec(readings: seq<SensorReading>)
    ensures |KnownDtos(readings)| == |Typed(readings)|
    ensures forall k :: 0 <= k < |Typed(readings)| ==> KnownDtos(readings)[k] == DtoOf(Typed(readings)[k]).value
  {
    if readings != [] {
      KnownDtosSpec(readings[..|readings| - 1]);
    }
  }

  /** With only concrete readings nothing is skipped. */
  lemma {:induction false} TypedOfAllTyped(readings: seq<SensorReading>)
    requires forall k :: 0 <= k < |readings| ==> readings[k].IsTyped()
    ensures Typed(readings) == readings
  {
    if readings != [] {
      var init := readings[..|readings| - 1];
      TypedOfAllTyped(init);
      assert init + [readings[|readings| - 1]] == readings;
    }
  }

  /** A post: the request path and the serialised DTO list. */
  datatype Post = Post(path: string, body: seq<SensorDataDto>)

  function TelemetryPath(deviceId: string): string {
    "devices/" + deviceId + "/telemetry"
  }

  class ApiClient {
    var posts: seq<Post>

    constructor ()
      ensures posts == []
    {
      posts := [];
    }

    /**
     * SendDataAsync: converts and posts the readings. A transport failure or a
     * non-success status is rethrown to the caller, and nothing is recorded.
     */
    method SendData(deviceId: string, data: seq<SensorReading>, transportSucceeds: bool) returns (outcome: Outcome)
      modifies this
      ensures outcome == Pass <==> transportSucceeds
      ensures outcome.Fail? ==> outcome.error == SendFailed
      ensures posts == old(posts) + (if transportSucceeds then [Post(TelemetryPath(deviceId), KnownDtos(data))] else [])
    {
      var sensorDataDtos := ConvertToSensorDataDtos(data);
      if !transportSucceeds {
        return Fail(SendFailed);
      }
      posts := posts + [Post(TelemetryPath(deviceId), sensorDataDtos)];
      return Pass;
    }
  }
}
