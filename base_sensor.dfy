/**
 * The sensor base class: identity fixed at construction and a FIFO buffer of
 * the readings generated since the last successful report. Value generation
 * (simulated physics, clock) is replaced by parameters.
 */
module Sensors {
  import opened Types

  class BaseSensor {
    const deviceId: string
    /** The `Type` each concrete sensor class overrides. */
    const kind: NamedType
    const readingInterval: int
    const reportingInterval: int
    var buffer: seq<SensorReading>

    constructor (deviceId: string, kind: NamedType, readingInterval: int, reportingInterval: int)
      ensures this.deviceId == deviceId && this.kind == kind
      ensures this.readingInterval == readingInterval && this.reportingInterval == reportingInterval
      ensures buffer == []
    {
      this.deviceId := deviceId;
      this.kind := kind;
      this.readingInterval := readingInterval;
      this.reportingInterval := reportingInterval;
      buffer := [];
    }

    /** Enqueues one reading at the back. */
    method BufferReading(data: SensorReading)
      modifies this
      ensures buffer == old(buffer) + [data]
    {
      buffer := buffer + [data];
    }

    /** A snapshot of the buffer, front first; the buffer is not changed. */
    method GetBufferedData() returns (snapshot: seq<SensorReading>)
      ensures snapshot == buffer
    {
      snapshot := buffer;
    }

    /** Dequeues until the queue is empty. */
    method ClearBuffer()
      modifies this
      ensures buffer == []
    {
      while buffer != []
        decreases |buffer|
      {
        buffer := buffer[1..];
      }
    }

    /**
     * GenerateDataAsync of a concrete sensor: the reading of this sensor's kind
     * with the simulated value and the current time, buffered and returned.
     */
    method GenerateData(value: real, now: int) returns (data: SensorReading)
      modifies this
      ensures data == TypedReading(kind, now, value)
      ensures buffer == old(buffer) + [data]
    {
      data := TypedReading(kind, now, value);
      BufferReading(data);
    }
  }
}
