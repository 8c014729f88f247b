/**
 * WorkerFactory: creates the sensor from the configuration first (which throws
 * for an unnamed type), then the worker class matching the type, sharing the
 * factory's one ApiClient among all workers.
 */
module WorkerFactories {
  import opened Types
  import opened Sensors
  import opened SensorFactories
  import opened Api
  import opened Workers

  /** The worker class for a named type. */
  function VariantOf(kind: NamedType): WorkerKind {
    match kind
    case Light => LightWorker
    case Temperature => TemperatureWorker
    case Humidity => HumidityWorker
  }

  /** Each named type has its own worker class. */
  lemma VariantOfIsInjective(a: NamedType, b: NamedType)
    ensures VariantOf(a) == VariantOf(b) <==> a == b
  {
  }

  class WorkerFactory {
    const apiClient: ApiClient

    constructor (apiClient: ApiClient)
      ensures this.apiClient == apiClient
    {
      this.apiClient := apiClient;
    }

    method CreateWorker(config: SensorConfiguration) returns (r: Result<SensorWorker>)
      ensures r.Ok? <==> config.kind.IsNamed()
      ensures r.Err? ==> r.error == ArgumentException
      ensures r.Ok? ==> fresh(r.value) && fresh(r.value.sensor)
      ensures r.Ok? ==> r.value.config == config && r.value.variant == VariantOf(config.kind)
      ensures r.Ok? ==> r.value.apiClient == apiClient
      ensures r.Ok? ==> r.value.sensor.kind == config.kind && r.value.sensor.deviceId == config.deviceId
      ensures r.Ok? ==> r.value.sensor.readingInterval == config.readingInterval
      ensures r.Ok? ==> r.value.sensor.reportingInterval == config.reportingInterval
      ensures r.Ok? ==> r.value.sensor.buffer == [] && !r.value.running && r.value.Valid()
    {
      var sensor := CreateSensor(config);
      if sensor.Err? {
        return Err(sensor.error);
      }
      var worker := new SensorWorker(sensor.value, apiClient, config, VariantOf(config.kind));
      return Ok(worker);
    }
  }
}
