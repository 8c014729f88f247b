/**
 * The in-memory repository: per-device lists of stored readings and a device
 * registry, both dictionaries keyed by id. Concurrent-dictionary thread safety
 * is not modelled; the dictionaries are plain maps.
 */
module InMemoryStore {
  import opened Types
  import opened Storage
  import opened DailyMaxima

  /** The device's list, or the empty list when it has none. */
  function ListOf(lists: map<string, seq<SensorRecord>>, deviceId: string): seq<SensorRecord> {
    if deviceId in lists then lists[deviceId] else []
  }

  /**
   * The lists after appending `recs` to one device's list: the list is created
   * by the first append, so appending nothing leaves the map as it was.
   */
  function AppendAll(lists: map<string, seq<SensorRecord>>, deviceId: string, recs: seq<SensorRecord>)
    : (r: map<string, seq<SensorRecord>>)
    ensures forall id :: id != deviceId ==> (id in r <==> id in lists) && (id in r ==> r[id] == lists[id])
    ensures recs != [] ==> deviceId in r && r[deviceId] == ListOf(lists, deviceId) + recs
    ensures recs == [] ==> r == lists
  {
    if recs == [] then lists else lists[deviceId := ListOf(lists, deviceId) + recs]
  }

  /** Appending in two steps is appending once. */
  lemma AppendAllTwice(lists: map<string, seq<SensorRecord>>, deviceId: string, a: seq<SensorRecord>, b: seq<SensorRecord>)
    ensures AppendAll(AppendAll(lists, deviceId, a), deviceId, b) == AppendAll(lists, deviceId, a + b)
  {
    if a == [] {
      assert a + b == b;
    } else if b == [] {
      assert a + b == a;
    } else {
      assert ListOf(lists, deviceId) + a + b == ListOf(lists, deviceId) + (a + b);
    }
  }

  /** `foreach device: _devices[device.Id] = device` — a later device with the same id wins. */
  function IndexById(devices: seq<Device>): map<string, Device> {
    if devices == [] then map[]
    else
      var d := devices[|devices| - 1];
      IndexById(devices[..|devices| - 1])[d.id := d]
  }

  /** The registry built from a list holds exactly the ids of the list. */
  lemma {:induction false} IndexByIdMembers(devices: seq<Device>, id: string)
    ensures id in IndexById(devices) <==> exists i :: 0 <= i < |devices| && devices[i].id == id
  {
    if devices != [] {
      var init := devices[..|devices| - 1];
      IndexByIdMembers(init, id);
      if exists i :: 0 <= i < |devices| && devices[i].id == id {
        var i :| 0 <= i < |devices| && devices[i].id == id;
        if i < |init| { assert init[i].id == id; }
      }
    }
  }

  /** A device that no later device shares its id with is the one registered under that id. */
  lemma {:induction false} IndexByIdLastWins(devices: seq<Device>, i: int)
    requires 0 <= i < |devices|
    requires forall j :: i < j < |devices| ==> devices[j].id != devices[i].id
    ensures devices[i].id in IndexById(devices) && IndexById(devices)[devices[i].id] == devices[i]
  {
    if i < |devices| - 1 {
      var init := devices[..|devices| - 1];
      assert init[i] == devices[i];
      IndexByIdLastWins(init, i);
    }
  }

  /** The Unix seconds of 0001-01-01T00:00:00Z and 9999-12-31T23:59:59Z. */
  const MinUnixSeconds: int := -62135596800
  const MaxUnixSeconds: int := 253402300799

  /** DateTimeOffset.FromUnixTimeSeconds accepts the row's timestamp (it throws outside years 1 to 9999). */
  predicate Datable(rec: SensorRecord) {
    MinUnixSeconds <= rec.timestamp <= MaxUnixSeconds
  }

  class InMemorySensorRepository {
    var sensorReadings: map<string, seq<SensorRecord>>
    var devices: map<string, Device>

    /** The constructor registers the initial devices (none when the argument is null). */
    constructor (initialDevices: Option<seq<Device>>)
      ensures sensorReadings == map[]
      ensures devices == if initialDevices.Some? then IndexById(initialDevices.value) else map[]
    {
      var index := map[];
      if initialDevices.Some? {
        var list := initialDevices.value;
        var i := 0;
        while i < |list|
          invariant 0 <= i <= |list|
          invariant index == IndexById(list[..i])
        {
          assert list[..i + 1][..i] == list[..i];
          index := index[list[i].id := list[i]];
          i := i + 1;
        }
        assert list[..i] == list;
      }
      sensorReadings := map[];
      devices := index;
    }

    /**
     * Appends one SensorData row (deviceId, timestamp, kind, value) to the end of
     * the device's list, creating the list if it is absent.
     */
    method AddSensorReading(deviceId: string, reading: SensorReading)
      modifies this
      ensures sensorReadings == AppendAll(old(sensorReadings), deviceId, [ToStored(deviceId, reading)])
      ensures devices == old(devices)
    {
      var readings: seq<SensorRecord>;
      if deviceId in sensorReadings {
        readings := sensorReadings[deviceId];
      } else {
        readings := [];
        sensorReadings := sensorReadings[deviceId := readings];
      }
      var sensorData := SensorRecord(deviceId, reading.timestamp, reading.Kind(), GetSensorValue(reading));
      sensorReadings := sensorReadings[deviceId := readings + [sensorData]];
    }

    /**
     * The device's newest 100 readings, newest first, read back into concrete
     * readings; nothing for a device without a list.
     */
    function GetSensorReadings(deviceId: string): (r: Result<seq<SensorReading>>)
      reads this
      ensures deviceId !in sensorReadings ==> r == Ok([])
      ensures deviceId in sensorReadings ==> r == ReadBackAll(Latest(sensorReadings[deviceId]))
    {
      if deviceId in sensorReadings then ReadBackAll(Latest(sensorReadings[deviceId])) else Ok([])
    }

    /**
     * Empty for a device without a list; otherwise the daily-maximum series of
     * its list. The date filter converts every row of the list, inside the
     * window or not, so one row whose timestamp is out of range makes the
     * query throw.
     */
    function GetDailyMaximumReadings(deviceId: string, days: int, today: int): (r: Result<seq<DailyMaximumReading>>)
      reads this
      ensures deviceId !in sensorReadings ==> r == Ok([])
      ensures deviceId in sensorReadings && (exists rec :: rec in sensorReadings[deviceId] && !Datable(rec)) ==>
        r == Err(ArgumentOutOfRangeException)
      ensures deviceId in sensorReadings && (forall rec :: rec in sensorReadings[deviceId] ==> Datable(rec)) ==>
        r == DailySeries(sensorReadings[deviceId], days, today)
    {
      if deviceId !in sensorReadings then Ok([])
      else if exists rec :: rec in sensorReadings[deviceId] && !Datable(rec) then Err(ArgumentOutOfRangeException)
      else DailySeries(sensorReadings[deviceId], days, today)
    }

    /** `TryGetValue` on the registry: the device or null. */
    function GetDevice(deviceId: string): (r: Option<Device>)
      reads this
      ensures r == Lookup(devices, deviceId)
    {
      Lookup(devices, deviceId)
    }

    /** Registers the device under its id, replacing any device with that id. */
    method AddOrUpdateDevice(device: Device)
      modifies this
      ensures devices == old(devices)[device.id := device]
      ensures sensorReadings == old(sensorReadings)
      ensures GetDevice(device.id) == Some(device)
    {
      devices := devices[device.id := device];
    }
  }

  /**
   * What GetSensorReadings returns when every stored kind is named: min(100, n)
   * concrete readings, each the read-back of the row at that place in the
   * newest-first order.
   */
  lemma GetSensorReadingsSpec(repo: InMemorySensorRepository, deviceId: string)
    requires deviceId in repo.sensorReadings
    requires forall rec :: rec in repo.sensorReadings[deviceId] ==> rec.sensorType.IsNamed()
    ensures repo.GetSensorReadings(deviceId).Ok?
    ensures |repo.GetSensorReadings(deviceId).value| == Min(MaxReadings, |repo.sensorReadings[deviceId]|)
    ensures forall i :: 0 <= i < |repo.GetSensorReadings(deviceId).value| ==>
      CreateSensorData(Latest(repo.sensorReadings[deviceId])[i]) == Ok(repo.GetSensorReadings(deviceId).value[i])
  {
    var list := repo.sensorReadings[deviceId];
    LatestSpec(list);
    forall i | 0 <= i < |Latest(list)| ensures Latest(list)[i].sensorType.IsNamed() {
      assert Latest(list)[i] in multiset(list);
    }
  }

  /**
   * Readings added through AddSensorReading always read back: a stored row's kind
   * is the reading's own, and the three concrete classes have named kinds.
   */
  lemma StoredTypedReadingsReadBack(deviceId: string, readings: seq<SensorReading>)
    requires forall r :: r in readings ==> r.IsTyped()
    ensures ReadBackAll(seq(|readings|, i requires 0 <= i < |readings| => ToStored(deviceId, readings[i])))
      == Ok(readings)
  {
    var recs := seq(|readings|, i requires 0 <= i < |readings| => ToStored(deviceId, readings[i]));
    forall i | 0 <= i < |readings| ensures CreateSensorData(recs[i]) == Ok(readings[i]) {
      assert readings[i] in readings;
      StoreReadBack(deviceId, readings[i]);
    }
    var r := ReadBackAll(recs);
    assert r.Ok?;
    assert forall i :: 0 <= i < |readings| ==> r.value[i] == readings[i];
    assert r.value == readings;
  }
}
