/**
 * The sensor worker: one read-timer tick and one report-timer tick, and the
 * ExecuteAsync loop driven by a sequence of timer events, one at a time. The
 * timers' outcomes, the simulated values, the clock and the HTTP transport are
 * parameters. Ghost bookkeeping records every reading generated and every
 * reading handed to a successful send.
 */
module Workers {
  import opened Types
  import opened Sensors
  import opened Api

  /** The concrete worker class, one per named sensor type. */
  datatype WorkerKind = LightWorker | TemperatureWorker | HumidityWorker

  /** One timer event: a read tick (with the simulated value and time) or a report tick. */
  datatype Tick =
    | ReadTimer(fired: bool, value: real, now: int)
    | ReportTimer(fired: bool, transportSucceeds: bool)

  /** TimeSpan ticks per millisecond. */
  const TicksPerMillisecond: int := 10000

  /** The longest period a PeriodicTimer takes, in milliseconds: 2^32 - 2. */
  const MaxTimerMilliseconds: int := 0xFFFF_FFFE

  /**
   * Whether `new PeriodicTimer(period)` accepts a period given in ticks: its
   * whole milliseconds (TotalMilliseconds truncated) lie in 1 .. 2^32 - 2, or it
   * is the infinite period of -1 ms. Any other period, TimeSpan.Zero included,
   * throws ArgumentOutOfRangeException. A negative period has fewer than one
   * whole millisecond under either rounding, so Dafny's division serves.
   */
  predicate TimerAccepts(period: int) {
    var ms := period / TicksPerMillisecond;
    (1 <= ms <= MaxTimerMilliseconds) || period == -TicksPerMillisecond
  }

  function FiredReads(events: seq<Tick>): nat {
    if events == [] then 0
    else
      var e := events[|events| - 1];
      FiredReads(events[..|events| - 1]) + (if e.ReadTimer? && e.fired then 1 else 0)
  }

  function FiredReports(events: seq<Tick>): nat {
    if events == [] then 0
    else
      var e := events[|events| - 1];
      FiredReports(events[..|events| - 1]) + (if e.ReportTimer? && e.fired then 1 else 0)
  }

  class SensorWorker {
    const sensor: BaseSensor
    const apiClient: ApiClient
    const config: SensorConfiguration
    const variant: WorkerKind
    /** Whether the hosted service has been started and not stopped. */
    var running: bool

    ghost var generated: seq<SensorReading>
    ghost var delivered: seq<SensorReading>
    ghost var generateCalls: nat
    ghost var sendCalls: nat

    /** Every generated reading has been delivered or is still buffered, in order. */
    ghost predicate Valid()
      reads this, sensor
    {
      && delivered + sensor.buffer == generated
      && generateCalls <= |generated|
    }

    constructor (sensor: BaseSensor, apiClient: ApiClient, config: SensorConfiguration, variant: WorkerKind)
      ensures this.sensor == sensor && this.apiClient == apiClient
      ensures this.config == config && this.variant == variant
      ensures !running && generateCalls == 0 && sendCalls == 0
      ensures Valid()
    {
      this.sensor := sensor;
      this.apiClient := apiClient;
      this.config := config;
      this.variant := variant;
      running := false;
      generated := sensor.buffer;
      delivered := [];
      generateCalls := 0;
      sendCalls := 0;
    }

    /**
     * BackgroundService.StartAsync. ExecuteAsync builds the read timer and the
     * report timer before its first await, so a period the timer rejects faults
     * the execute task at once; StartAsync hands that task back and the start
     * throws, leaving the worker not running. Otherwise the loop is running.
     */
    method Start() returns (outcome: Outcome)
      modifies this
      ensures TimerAccepts(sensor.readingInterval) && TimerAccepts(sensor.reportingInterval) ==> outcome == Pass
      ensures !TimerAccepts(sensor.readingInterval) || !TimerAccepts(sensor.reportingInterval) ==>
        outcome == Fail(ArgumentOutOfRangeException)
      ensures running <==> outcome == Pass
      ensures generated == old(generated) && delivered == old(delivered)
      ensures generateCalls == old(generateCalls) && sendCalls == old(sendCalls)
    {
      if !TimerAccepts(sensor.readingInterval) || !TimerAccepts(sensor.reportingInterval) {
        running := false;
        return Fail(ArgumentOutOfRangeException);
      }
      running := true;
      return Pass;
    }

    method Stop()
      modifies this
      ensures !running
      ensures generated == old(generated) && delivered == old(delivered)
      ensures generateCalls == old(generateCalls) && sendCalls == old(sendCalls)
    {
      running := false;
    }

    /** ReadDataAsync: when the timer fires, the sensor generates (and buffers) exactly one reading. */
    method ReadTick(fired: bool, value: real, now: int) returns (data: Option<SensorReading>)
      requires Valid()
      modifies this, sensor
      ensures Valid()
      ensures fired ==> data == Some(TypedReading(sensor.kind, now, value))
      ensures fired ==> sensor.buffer == old(sensor.buffer) + [data.value] && generated == old(generated) + [data.value]
      ensures fired ==> generateCalls == old(generateCalls) + 1
      ensures !fired ==> data == None && sensor.buffer == old(sensor.buffer)
      ensures !fired ==> generated == old(generated) && generateCalls == old(generateCalls)
      ensures delivered == old(delivered) && sendCalls == old(sendCalls) && running == old(running)
    {
      if !fired {
        return None;
      }
      var reading := sensor.GenerateData(value, now);
      generated := generated + [reading];
      generateCalls := generateCalls + 1;
      return Some(reading);
    }

    /**
     * ReportDataAsync: when the timer fires and the buffer is not empty, the
     * snapshot is sent once under the sensor's id; only a successful send is
     * followed by clearing the buffer, so a failed send keeps every reading.
     */
    method ReportTick(fired: bool, transportSucceeds: bool) returns (outcome: Outcome)
      requires Valid()
      modifies this, sensor, apiClient
      ensures Valid()
      ensures generated == old(generated) && generateCalls == old(generateCalls) && running == old(running)
      ensures !fired || old(sensor.buffer) == [] ==>
        && outcome == Pass
        && sensor.buffer == old(sensor.buffer)
        && apiClient.posts == old(apiClient.posts)
        && delivered == old(delivered)
        && sendCalls == old(sendCalls)
      ensures fired && old(sensor.buffer) != [] ==>
        && sendCalls == old(sendCalls) + 1
        && outcome == (if transportSucceeds then Pass else Fail(SendFailed))
        && apiClient.posts == old(apiClient.posts)
             + (if transportSucceeds then [Post(TelemetryPath(sensor.deviceId), KnownDtos(old(sensor.buffer)))] else [])
        && sensor.buffer == (if transportSucceeds then [] else old(sensor.buffer))
        && delivered == old(delivered) + (if transportSucceeds then old(sensor.buffer) else [])
    {
      if !fired {
        return Pass;
      }
      var bufferedData := sensor.GetBufferedData();
      if |bufferedData| > 0 {
        sendCalls := sendCalls + 1;
        outcome := apiClient.SendData(sensor.deviceId, bufferedData, transportSucceeds);
        if outcome.Fail? {
          return;
        }
        sensor.ClearBuffer();
        delivered := delivered + bufferedData;
      } else {
        outcome := Pass;
      }
    }

    /**
     * The ExecuteAsync loop over a sequence of timer events, one at a time; a
     * failed report is caught and the loop goes on. Generation happens exactly
     * once per fired read tick, and sends never outnumber fired report ticks.
     */
    method Execute(events: seq<Tick>)
      requires Valid()
      modifies this, sensor, apiClient
      ensures Valid()
      ensures generateCalls == old(generateCalls) + FiredReads(events)
      ensures sendCalls <= old(sendCalls) + FiredReports(events)
      ensures |generated| == |old(generated)| + FiredReads(events) && old(generated) <= generated
      ensures old(delivered) <= delivered
    {
      for i := 0 to |events|
        invariant Valid()
        invariant generateCalls == old(generateCalls) + FiredReads(events[..i])
        invariant sendCalls <= old(sendCalls) + FiredReports(events[..i])
        invariant |generated| == |old(generated)| + FiredReads(events[..i]) && old(generated) <= generated
        invariant old(delivered) <= delivered
      {
        assert events[..i + 1][..i] == events[..i];
        match events[i] {
          case ReadTimer(fired, value, now) =>
            var _ := ReadTick(fired, value, now);
          case ReportTimer(fired, transportSucceeds) =>
            var _ := ReportTick(fired, transportSucceeds);
        }
      }
      assert events[..|events|] == events;
    }
  }
}
