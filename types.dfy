/**
 * Value types shared by every component: the sensor kind enum, the readings the
 * sensors produce (the ISensorData implementations), the stored record, the
 * wire DTO, device and configuration records, and the daily-maximum entry.
 */
module Types {

  datatype Option<+T> = None | Some(value: T) {
    /** `x ?? d` */
    function GetOr(default: T): T {
      match this
      case Some(v) => v
      case None => default
    }
  }

  /** The exceptions the modelled code raises (or rethrows). */
  datatype Error =
    | ArgumentException
    | ArgumentOutOfRangeException
    | InvalidCastException
    | SendFailed
    | DbUpdateException
    | AutoMapperMappingException(inner: Error)

  datatype Result<+T> = Ok(value: T) | Err(error: Error)

  datatype Outcome = Pass | Fail(error: Error)

  /**
   * The SensorType enum. Its three named members, plus `Unnamed(code)` for any
   * other value a variable of the enum type can hold (C# enums are not closed),
   * which is what the `_ =>` branches of the switches deal with. The code of
   * an `Unnamed` value stands for a number that is none of the three members'
   * own values (which are not part of this model); the model never builds an
   * `Unnamed` value from a named member's number.
   */
  datatype SensorType = Light | Temperature | Humidity | Unnamed(code: int) {
    predicate IsNamed() { !Unnamed? }
  }

  type NamedType = t: SensorType | t.IsNamed() witness Light

  /**
   * An ISensorData object: one of the three concrete reading classes, or some
   * other implementation of the interface, which only has a timestamp and the
   * SensorType it declares.
   */
  datatype SensorReading =
    | LightSensorData(timestamp: int, illuminance: real)
    | TemperatureSensorData(timestamp: int, temperature: real)
    | HumiditySensorData(timestamp: int, humidity: real)
    | OtherSensorData(timestamp: int, declaredType: SensorType)
  {
    /** The SensorType property of the object. */
    function Kind(): SensorType {
      match this
      case LightSensorData(_, _) => Light
      case TemperatureSensorData(_, _) => Temperature
      case HumiditySensorData(_, _) => Humidity
      case OtherSensorData(_, t) => t
    }

    /** True for the three concrete reading classes. */
    predicate IsTyped() { !OtherSensorData? }

    /** The physical value held by a concrete reading. */
    function Measured(): real
      requires IsTyped()
    {
      match this
      case LightSensorData(_, v) => v
      case TemperatureSensorData(_, v) => v
      case HumiditySensorData(_, v) => v
    }
  }

  /** The concrete reading class for a named kind. */
  function TypedReading(kind: NamedType, timestamp: int, value: real): (r: SensorReading)
    ensures r.IsTyped() && r.Kind() == kind
    ensures r.timestamp == timestamp && r.Measured() == value
  {
    match kind
    case Light => LightSensorData(timestamp, value)
    case Temperature => TemperatureSensorData(timestamp, value)
    case Humidity => HumiditySensorData(timestamp, value)
  }

  /** The SensorData row kept by a repository (the integer key is not modelled). */
  datatype SensorRecord = SensorRecord(deviceId: string, timestamp: int, sensorType: SensorType, value: Option<real>)

  /** The telemetry item on the wire: a time and up to three optional values. */
  datatype SensorDataDto = SensorDataDto(
    timestamp: int,
    illuminance: Option<real>,
    temperature: Option<real>,
    humidity: Option<real>)

  /** The value field of a DTO that belongs to a named kind. */
  function FieldOf(dto: SensorDataDto, kind: NamedType): Option<real> {
    match kind
    case Light => dto.illuminance
    case Temperature => dto.temperature
    case Humidity => dto.humidity
  }

  /** A DTO whose only value field is the one of `kind`. */
  function DtoWith(timestamp: int, kind: NamedType, value: Option<real>): (dto: SensorDataDto)
    ensures dto.timestamp == timestamp && FieldOf(dto, kind) == value
    ensures forall k: NamedType :: k != kind ==> FieldOf(dto, k) == None
  {
    match kind
    case Light => SensorDataDto(timestamp, value, None, None)
    case Temperature => SensorDataDto(timestamp, None, value, None)
    case Humidity => SensorDataDto(timestamp, None, None, value)
  }

  /** A registered device. Intervals are TimeSpans, kept as integer ticks. */
  datatype Device = Device(id: string, kind: SensorType, readingInterval: int, reportingInterval: int)

  /** The device registered under an id, or null: the registry lookup of both repositories. */
  function Lookup(devices: map<string, Device>, id: string): (r: Option<Device>)
    ensures r.Some? <==> id in devices
    ensures r.Some? ==> r.value == devices[id]
  {
    if id in devices then Some(devices[id]) else None
  }

  /** One entry of the sensor configuration file. */
  datatype SensorConfiguration = SensorConfiguration(
    deviceId: string,
    kind: SensorType,
    readingInterval: int,
    reportingInterval: int)

  /** A daily maximum; the date is a UTC day number (days since 1970-01-01). */
  datatype DailyMaximumReading = DailyMaximumReading(date: int, maxValue: real)

  function Min(a: int, b: int): int { if a <= b then a else b }

  function Max(a: real, b: real): real { if a >= b then a else b }
}
