/** SensorFactory: one concrete sensor per named type, built from the configuration. */
module SensorFactories {
  import opened Types
  import opened Sensors

  method CreateSensor(config: SensorConfiguration) returns (r: Result<BaseSensor>)
    ensures r.Ok? <==> config.kind.IsNamed()
    ensures r.Err? ==> r.error == ArgumentException
    ensures r.Ok? ==> fresh(r.value) && r.value.kind == config.kind && r.value.deviceId == config.deviceId
    ensures r.Ok? ==> r.value.readingInterval == config.readingInterval && r.value.reportingInterval == config.reportingInterval
    ensures r.Ok? ==> r.value.buffer == []
  {
    match config.kind {
      case Unnamed(_) =>
        return Err(ArgumentException);
      case _ =>
        var sensor := new BaseSensor(config.deviceId, config.kind, config.readingInterval, config.reportingInterval);
        return Ok(sensor);
    }
  }
}
