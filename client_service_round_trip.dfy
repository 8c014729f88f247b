/**
 * The two ends of the telemetry path composed: what the client posts, the
 * service ingests back into the readings the sensor produced.
 */
module ClientServiceRoundTrip {
  import opened Types
  import opened Mappings
  import opened Storage
  import opened Api
  import opened Telemetry

  /** Classifying a produced DTO recovers the reading: kind, timestamp and value. */
  lemma ClassifyRecoversReading(reading: SensorReading)
    requires reading.IsTyped()
    ensures MapToSensorData(DtoOf(reading).value) == Ok(reading)
  {
    DtoOfIsProfileMap(reading);
    TypedRoundTrip(reading);
  }

  /**
   * Posting a batch of concrete readings and ingesting the body stores exactly
   * those readings under the device id, in order, and accepts every item.
   */
  lemma PostedBatchIsStoredAsRead(deviceId: string, readings: seq<SensorReading>)
    requires forall k :: 0 <= k < |readings| ==> readings[k].IsTyped()
    ensures |Ingested(deviceId, KnownDtos(readings))| == |readings|
    ensures forall k :: 0 <= k < |readings| ==> Ingested(deviceId, KnownDtos(readings))[k] == ToStored(deviceId, readings[k])
  {
    var dtos := KnownDtos(readings);
    KnownDtosSpec(readings);
    TypedOfAllTyped(readings);
    forall k | 0 <= k < |dtos| ensures MapToSensorData(dtos[k]) == Ok(readings[k]) {
      ClassifyRecoversReading(readings[k]);
    }
    IngestedCount(deviceId, dtos);
  }
}
