/**
 * WorkerManager: one worker per sensor configuration, created and started in
 * configuration order and recorded in a list that only grows; stopping stops
 * the recorded workers in that order. Ghost logs record the start and stop
 * calls.
 */
module WorkerManagement {
  import opened Types
  import opened Workers
  import opened WorkerFactories

  /**
   * A configuration a worker can be built and started from: a named type (the
   * sensor factory throws otherwise) and two periods the timers accept.
   */
  predicate Startable(config: SensorConfiguration) {
    && config.kind.IsNamed()
    && TimerAccepts(config.readingInterval)
    && TimerAccepts(config.reportingInterval)
  }

  /**
   * How many configurations StartAsync gets through: all of them, or those
   * before the first one a worker cannot be built or started from.
   */
  function StartedCount(configs: seq<SensorConfiguration>): (n: nat)
    ensures n <= |configs|
    ensures forall k :: 0 <= k < n ==> Startable(configs[k])
    ensures n < |configs| ==> !Startable(configs[n])
  {
    if configs == [] || !Startable(configs[0]) then 0
    else 1 + StartedCount(configs[1..])
  }

  class WorkerManager {
    const workerFactory: WorkerFactory
    var workers: seq<SensorWorker>
    ghost var startLog: seq<SensorWorker>
    ghost var stopLog: seq<SensorWorker>

    constructor (workerFactory: WorkerFactory)
      ensures this.workerFactory == workerFactory
      ensures workers == [] && startLog == [] && stopLog == []
    {
      this.workerFactory := workerFactory;
      workers := [];
      startLog := [];
      stopLog := [];
    }

    /**
     * StartAsync: for each configuration, creates a worker, records it and
     * starts it. A type the factory rejects ends the loop with
     * ArgumentException before the worker is recorded; a timer period the
     * runtime rejects ends it with ArgumentOutOfRangeException after the worker
     * is recorded, not running. The workers started before either stay. A
     * worker is added to the list before it is started, which is why one whose
     * start fails is recorded.
     */
    method Start(configs: seq<SensorConfiguration>) returns (outcome: Outcome)
      modifies this
      ensures |old(workers)| <= |workers| && workers[..|old(workers)|] == old(workers)
      ensures var n, added := StartedCount(configs), workers[|old(workers)|..];
        && |added| == (if n < |configs| && configs[n].kind.IsNamed() then n + 1 else n)
        && startLog == old(startLog) + added
        && (forall k :: 0 <= k < |added| ==>
              && fresh(added[k])
              && added[k].config == configs[k] && added[k].variant == VariantOf(configs[k].kind)
              && added[k].apiClient == workerFactory.apiClient
              && (added[k].running <==> k < n))
        && (outcome == Pass <==> n == |configs|)
        && (n < |configs| ==>
              outcome == Fail(if configs[n].kind.IsNamed() then ArgumentOutOfRangeException else ArgumentException))
      ensures stopLog == old(stopLog)
    {
      ghost var before := |workers|;
      ghost var n := StartedCount(configs);
      var i := 0;
      while i < |configs|
        invariant 0 <= i <= n
        invariant before <= |workers| && workers[..before] == old(workers)
        invariant |workers[before..]| == i
        invariant startLog == old(startLog) + workers[before..]
        invariant stopLog == old(stopLog)
        invariant forall k :: 0 <= k < i ==>
          && fresh(workers[before..][k]) && workers[before..][k].running
          && workers[before..][k].config == configs[k] && workers[before..][k].variant == VariantOf(configs[k].kind)
          && workers[before..][k].apiClient == workerFactory.apiClient
      {
        var worker := workerFactory.CreateWorker(configs[i]);
        if worker.Err? {
          return Fail(worker.error);
        }
        var w := worker.value;
        ghost var added := workers[before..];
        workers := workers + [w];
        assert workers[before..] == added + [w];
        var started := w.Start();
        startLog := startLog + [w];
        if started.Fail? {
          return started;
        }
        i := i + 1;
      }
      return Pass;
    }

    /** StopAsync: stops every recorded worker once, in the order they were recorded. */
    method Stop()
      modifies this, set w | w in workers
      ensures workers == old(workers) && startLog == old(startLog)
      ensures stopLog == old(stopLog) + workers
      ensures forall w :: w in workers ==> !w.running
    {
      for i := 0 to |workers|
        invariant workers == old(workers) && startLog == old(startLog)
        invariant stopLog == old(stopLog) + workers[..i]
        invariant forall k :: 0 <= k < i ==> !workers[k].running
      {
        workers[i].Stop();
        stopLog := stopLog + [workers[i]];
        assert workers[..i + 1] == workers[..i] + [workers[i]];
      }
      assert workers[..|workers|] == workers;
    }
  }
}
