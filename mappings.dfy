/**
 * The AutoMapper profile, with every declared map written as an explicit
 * function. Members the profile does not configure are mapped by name
 * (Timestamp) or left at their default.
 */
module Mappings {
  import opened Types

  /** The kind a DTO stands for: the first present field in the order illum, temp, hum. */
  function GetSensorType(dto: SensorDataDto): (r: Result<SensorType>)
    ensures r == Ok(Light) <==> dto.illuminance.Some?
    ensures r == Ok(Temperature) <==> dto.illuminance.None? && dto.temperature.Some?
    ensures r == Ok(Humidity) <==> dto.illuminance.None? && dto.temperature.None? && dto.humidity.Some?
    ensures r.Err? <==> dto.illuminance.None? && dto.temperature.None? && dto.humidity.None?
    ensures r.Err? ==> r.error == ArgumentException
  {
    if dto.illuminance.Some? then Ok(Light)
    else if dto.temperature.Some? then Ok(Temperature)
    else if dto.humidity.Some? then Ok(Humidity)
    else Err(ArgumentException)
  }

  /** `dto.Illuminance ?? dto.Temperature ?? dto.Humidity` */
  function GetSensorValue(dto: SensorDataDto): Option<real> {
    if dto.illuminance.Some? then dto.illuminance
    else if dto.temperature.Some? then dto.temperature
    else dto.humidity
  }

  /** The value GetSensorValue picks is the field of the kind GetSensorType picks. */
  lemma ValueFollowsType(dto: SensorDataDto)
    ensures GetSensorType(dto).Ok? ==> GetSensorValue(dto) == FieldOf(dto, GetSensorType(dto).value)
    ensures GetSensorType(dto).Ok? ==> GetSensorValue(dto).Some?
    ensures GetSensorType(dto).Err? ==> GetSensorValue(dto) == None
  {
  }

  /**
   * SensorDataDto -> SensorData. The DTO carries no device id, so DeviceId keeps
   * its default (written here as the empty string). The mapper wraps what the
   * GetSensorType resolver throws in its own mapping exception.
   */
  function DtoToSensorData(dto: SensorDataDto): (r: Result<SensorRecord>)
    ensures r.Ok? <==> GetSensorType(dto).Ok?
    ensures r.Err? ==> r.error == AutoMapperMappingException(ArgumentException)
    ensures r.Ok? ==> r.value == SensorRecord("", dto.timestamp, GetSensorType(dto).value, GetSensorValue(dto))
  {
    match GetSensorType(dto)
    case Err(e) => Err(AutoMapperMappingException(e))
    case Ok(kind) => Ok(SensorRecord("", dto.timestamp, kind, GetSensorValue(dto)))
  }

  /** SensorData -> SensorDataDto: only the field of the record's own kind gets the value. */
  function SensorDataToDto(rec: SensorRecord): (dto: SensorDataDto)
    ensures dto.timestamp == rec.timestamp
    ensures rec.sensorType.IsNamed() ==> FieldOf(dto, rec.sensorType) == rec.value
    ensures forall k: NamedType :: k != rec.sensorType ==> FieldOf(dto, k) == None
  {
    SensorDataDto(
      rec.timestamp,
      if rec.sensorType == Light then rec.value else None,
      if rec.sensorType == Temperature then rec.value else None,
      if rec.sensorType == Humidity then rec.value else None)
  }

  /**
   * SensorData -> DTO -> SensorData keeps timestamp, kind and value exactly when
   * the record has a named kind and a value; otherwise the DTO has no field set
   * and the way back throws.
   */
  lemma RecordRoundTrip(rec: SensorRecord)
    ensures DtoToSensorData(SensorDataToDto(rec)).Ok? <==> rec.sensorType.IsNamed() && rec.value.Some?
    ensures rec.sensorType.IsNamed() && rec.value.Some? ==>
      DtoToSensorData(SensorDataToDto(rec)) == Ok(rec.(deviceId := ""))
  {
    var dto := SensorDataToDto(rec);
    if rec.sensorType.IsNamed() && rec.value.Some? {
      assert GetSensorType(dto) == Ok(rec.sensorType);
    }
  }

  /** SensorDataDto -> Light/Temperature/HumiditySensorData: a missing value becomes 0. */
  function DtoToTyped(dto: SensorDataDto, kind: NamedType): (r: SensorReading)
    ensures r.IsTyped() && r.Kind() == kind && r.timestamp == dto.timestamp
    ensures r.Measured() == FieldOf(dto, kind).GetOr(0.0)
  {
    TypedReading(kind, dto.timestamp, FieldOf(dto, kind).GetOr(0.0))
  }

  /** Light/Temperature/HumiditySensorData -> SensorDataDto: only the reading's own field is set. */
  function TypedToDto(reading: SensorReading): (dto: SensorDataDto)
    requires reading.IsTyped()
    ensures dto.timestamp == reading.timestamp
    ensures FieldOf(dto, reading.Kind()) == Some(reading.Measured())
    ensures forall k: NamedType :: k != reading.Kind() ==> FieldOf(dto, k) == None
  {
    DtoWith(reading.timestamp, reading.Kind(), Some(reading.Measured()))
  }

  /** Typed reading -> DTO -> typed reading of the kind the DTO names gives back the reading. */
  lemma TypedRoundTrip(reading: SensorReading)
    requires reading.IsTyped()
    ensures GetSensorType(TypedToDto(reading)) == Ok(reading.Kind())
    ensures DtoToTyped(TypedToDto(reading), reading.Kind()) == reading
  {
    var dto := TypedToDto(reading);
    assert FieldOf(dto, Light) == dto.illuminance;
    assert FieldOf(dto, Temperature) == dto.temperature;
  }
}
