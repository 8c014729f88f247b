/**
 * What both repositories do to a reading on the way in and on the way out:
 * GetSensorValue / CreateSensorData, and the "newest 100 first" query
 * (OrderByDescending on the timestamp, a stable sort, then Take(100)).
 */
module Storage {
  import opened Types

  /** How many readings GetSensorReadingsAsync returns at most. */
  const MaxReadings: nat := 100

  /** GetSensorValue: the reading's own value by its class; null for any other ISensorData. */
  function GetSensorValue(reading: SensorReading): (v: Option<real>)
    ensures v.Some? <==> reading.IsTyped()
    ensures v.Some? ==> v.value == reading.Measured()
  {
    match reading
    case LightSensorData(_, illuminance) => Some(illuminance)
    case TemperatureSensorData(_, temperature) => Some(temperature)
    case HumiditySensorData(_, humidity) => Some(humidity)
    case OtherSensorData(_, _) => None
  }

  /** The SensorData row AddSensorReadingAsync builds for a reading. */
  function ToStored(deviceId: string, reading: SensorReading): SensorRecord {
    SensorRecord(deviceId, reading.timestamp, reading.Kind(), GetSensorValue(reading))
  }

  /** CreateSensorData: the concrete reading for the row's kind; null becomes 0; an unnamed kind throws. */
  function CreateSensorData(rec: SensorRecord): (r: Result<SensorReading>)
    ensures r.Ok? <==> rec.sensorType.IsNamed()
    ensures r.Ok? ==> r.value.IsTyped() && r.value.Kind() == rec.sensorType
    ensures r.Ok? ==> r.value.timestamp == rec.timestamp && r.value.Measured() == rec.value.GetOr(0.0)
    ensures r.Err? ==> r.error == ArgumentException
  {
    match rec.sensorType
    case Unnamed(_) => Err(ArgumentException)
    case _ => Ok(TypedReading(rec.sensorType, rec.timestamp, rec.value.GetOr(0.0)))
  }

  /**
   * Storing a reading and reading it back: a concrete reading comes back equal;
   * any other ISensorData of a named kind comes back as that kind's class with value 0.
   */
  lemma StoreReadBack(deviceId: string, reading: SensorReading)
    ensures reading.IsTyped() ==> CreateSensorData(ToStored(deviceId, reading)) == Ok(reading)
    ensures !reading.IsTyped() && reading.Kind().IsNamed() ==>
      CreateSensorData(ToStored(deviceId, reading)) == Ok(TypedReading(reading.Kind(), reading.timestamp, 0.0))
    ensures !reading.Kind().IsNamed() ==> CreateSensorData(ToStored(deviceId, reading)) == Err(ArgumentException)
  {
  }

  /** `.Select(CreateSensorData).ToList()`: the first row of an unnamed kind throws. */
  function ReadBackAll(recs: seq<SensorRecord>): (r: Result<seq<SensorReading>>)
    ensures r.Ok? <==> forall i :: 0 <= i < |recs| ==> recs[i].sensorType.IsNamed()
    ensures r.Ok? ==> |r.value| == |recs| && forall i :: 0 <= i < |recs| ==> CreateSensorData(recs[i]) == Ok(r.value[i])
    ensures r.Err? ==> r.error == ArgumentException
  {
    if recs == [] then Ok([])
    else
      match CreateSensorData(recs[0])
      case Err(e) => Err(e)
      case Ok(first) =>
        match ReadBackAll(recs[1..])
        case Err(e) => Err(e)
        case Ok(rest) => Ok([first] + rest)
  }

  // ---------------------------------------------------------------------------
  // OrderByDescending(r => r.Timestamp): a stable sort, newest first

  predicate NewestFirstOrder(s: seq<SensorRecord>) {
    forall i, j :: 0 <= i < j < |s| ==> s[i].timestamp >= s[j].timestamp
  }

  /** The records of `s` with timestamp `t`, in their order in `s`. */
  function WithTimestamp(s: seq<SensorRecord>, t: int): seq<SensorRecord> {
    if s == [] then []
    else (if s[0].timestamp == t then [s[0]] else []) + WithTimestamp(s[1..], t)
  }

  /** Places `x` before the first record that is not newer than it. */
  function Insert(x: SensorRecord, s: seq<SensorRecord>): (r: seq<SensorRecord>)
    ensures |r| == |s| + 1 && multiset(r) == multiset(s) + multiset{x}
    ensures s == [] ==> r == [x]
    ensures s != [] ==> r[0] == x || r[0] == s[0]
  {
    if s == [] then [x]
    else if s[0].timestamp > x.timestamp then
      assert s == [s[0]] + s[1..];
      [s[0]] + Insert(x, s[1..])
    else [x] + s
  }

  function NewestFirst(s: seq<SensorRecord>): (r: seq<SensorRecord>)
    ensures |r| == |s| && multiset(r) == multiset(s)
  {
    if s == [] then []
    else
      assert s == [s[0]] + s[1..];
      Insert(s[0], NewestFirst(s[1..]))
  }

  lemma ConsOrdered(a: SensorRecord, s: seq<SensorRecord>)
    requires NewestFirstOrder(s)
    requires s != [] ==> a.timestamp >= s[0].timestamp
    ensures NewestFirstOrder([a] + s)
  {
  }

  lemma {:induction false} InsertOrdered(x: SensorRecord, s: seq<SensorRecord>)
    requires NewestFirstOrder(s)
    ensures NewestFirstOrder(Insert(x, s))
  {
    if s != [] {
      if s[0].timestamp > x.timestamp {
        InsertOrdered(x, s[1..]);
        ConsOrdered(s[0], Insert(x, s[1..]));
      } else {
        ConsOrdered(x, s);
      }
    }
  }

  /** Filtering a sequence with a known first record. */
  lemma WithTimestampCons(a: SensorRecord, s: seq<SensorRecord>, t: int)
    ensures WithTimestamp([a] + s, t) == (if a.timestamp == t then [a] else []) + WithTimestamp(s, t)
  {
    assert ([a] + s)[0] == a;
    assert ([a] + s)[1..] == s;
  }

  /** The filter of `[a] + (m + w)` when at most one of `a` and the records in `m` has timestamp t. */
  lemma SwapFiltered(a: SensorRecord, m: seq<SensorRecord>, w: seq<SensorRecord>, t: int)
    requires a.timestamp != t || m == []
    ensures (if a.timestamp == t then [a] else []) + (m + w) == m + ((if a.timestamp == t then [a] else []) + w)
  {
  }

  /** The inductive step of InsertKeepsTies, when `x` goes behind the newer first record. */
  lemma InsertBehindKeepsTies(x: SensorRecord, s: seq<SensorRecord>, t: int)
    requires s != [] && s[0].timestamp > x.timestamp
    requires WithTimestamp(Insert(x, s[1..]), t) == (if x.timestamp == t then [x] else []) + WithTimestamp(s[1..], t)
    ensures WithTimestamp(Insert(x, s), t) == (if x.timestamp == t then [x] else []) + WithTimestamp(s, t)
  {
    var rest := Insert(x, s[1..]);
    assert Insert(x, s) == [s[0]] + rest;
    WithTimestampCons(s[0], rest, t);
    WithTimestampCons(s[0], s[1..], t);
    assert [s[0]] + s[1..] == s;
    SwapFiltered(s[0], if x.timestamp == t then [x] else [], WithTimestamp(s[1..], t), t);
  }

  lemma {:induction false} InsertKeepsTies(x: SensorRecord, s: seq<SensorRecord>, t: int)
    ensures WithTimestamp(Insert(x, s), t) == (if x.timestamp == t then [x] else []) + WithTimestamp(s, t)
  {
    if s == [] {
      WithTimestampCons(x, [], t);
      assert [x] + [] == [x];
    } else if s[0].timestamp > x.timestamp {
      InsertKeepsTies(x, s[1..], t);
      InsertBehindKeepsTies(x, s, t);
    } else {
      assert Insert(x, s) == [x] + s;
      WithTimestampCons(x, s, t);
    }
  }

  /**
   * NewestFirst is OrderByDescending on the timestamp: the result is ordered
   * newest first, is a permutation of the input, and records with equal
   * timestamps keep their input order.
   */
  lemma {:induction false} NewestFirstIsStableSort(s: seq<SensorRecord>)
    ensures NewestFirstOrder(NewestFirst(s))
    ensures multiset(NewestFirst(s)) == multiset(s)
    ensures forall t :: WithTimestamp(NewestFirst(s), t) == WithTimestamp(s, t)
  {
    if s != [] {
      NewestFirstIsStableSort(s[1..]);
      InsertOrdered(s[0], NewestFirst(s[1..]));
      forall t ensures WithTimestamp(NewestFirst(s), t) == WithTimestamp(s, t) {
        InsertKeepsTies(s[0], NewestFirst(s[1..]), t);
        WithTimestampCons(s[0], s[1..], t);
        assert [s[0]] + s[1..] == s;
      }
    }
  }

  /** `.OrderByDescending(r => r.Timestamp).Take(100)` */
  function Latest(s: seq<SensorRecord>): seq<SensorRecord> {
    NewestFirst(s)[..Min(MaxReadings, |s|)]
  }

  /**
   * Latest returns min(100, |s|) of the records, newest first, taken from the
   * input; when there are at most 100, records with equal timestamps keep their
   * input order.
   */
  lemma LatestSpec(s: seq<SensorRecord>)
    ensures |Latest(s)| == Min(MaxReadings, |s|) <= MaxReadings
    ensures NewestFirstOrder(Latest(s))
    ensures multiset(Latest(s)) <= multiset(s)
    ensures |s| <= MaxReadings ==> forall t :: WithTimestamp(Latest(s), t) == WithTimestamp(s, t)
  {
    NewestFirstIsStableSort(s);
    var sorted := NewestFirst(s);
    var n := Min(MaxReadings, |s|);
    assert sorted == sorted[..n] + sorted[n..];
    assert multiset(sorted) == multiset(sorted[..n]) + multiset(sorted[n..]);
    if |s| <= MaxReadings {
      assert Latest(s) == sorted;
    }
  }

  /** The records Take(100) drops. */
  function LeftOut(s: seq<SensorRecord>): seq<SensorRecord> {
    NewestFirst(s)[Min(MaxReadings, |s|)..]
  }

  /**
   * Latest and LeftOut split the input, and every record left out is no newer
   * than any record returned.
   */
  lemma LatestLeavesOutOnlyOlder(s: seq<SensorRecord>)
    ensures multiset(Latest(s)) + multiset(LeftOut(s)) == multiset(s)
    ensures forall i, j :: 0 <= i < |Latest(s)| && 0 <= j < |LeftOut(s)| ==>
      Latest(s)[i].timestamp >= LeftOut(s)[j].timestamp
  {
    NewestFirstIsStableSort(s);
    var sorted := NewestFirst(s);
    var n := Min(MaxReadings, |s|);
    assert sorted == Latest(s) + LeftOut(s);
    forall i, j | 0 <= i < |Latest(s)| && 0 <= j < |LeftOut(s)|
      ensures Latest(s)[i].timestamp >= LeftOut(s)[j].timestamp
    {
      assert Latest(s)[i] == sorted[i] && LeftOut(s)[j] == sorted[n + j];
    }
  }
}
