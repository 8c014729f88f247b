/**
 * The trailing-window daily-maximum aggregation both repositories run after
 * selecting a device's readings: group by UTC calendar day, take each group's
 * maximum (a null value counts as 0), and join the window's days against the
 * groups, giving 0 to a day without readings.
 *
 * A UTC date is a day number: DateTimeOffset.FromUnixTimeSeconds(ts).Date is
 * day ts / 86400, Dafny's division rounding down for a positive divisor just
 * as the calendar does for times before 1970. "Today" is a parameter.
 */
module DailyMaxima {
  import opened Types

  const SecondsPerDay: int := 86400

  function DayOf(ts: int): int { ts / SecondsPerDay }

  /** `r.Value ?? 0` */
  function StoredValue(rec: SensorRecord): real { rec.value.GetOr(0.0) }

  // ---------------------------------------------------------------------------
  // The pipeline, step by step

  /** `Where(r => startDate <= date(r) <= endDate)` */
  function InWindow(recs: seq<SensorRecord>, first: int, last: int): seq<SensorRecord> {
    if recs == [] then []
    else
      var r := recs[|recs| - 1];
      InWindow(recs[..|recs| - 1], first, last) + (if first <= DayOf(r.timestamp) <= last then [r] else [])
  }

  /**
   * `GroupBy(date).Select(g => g.Max(r => r.Value ?? 0))`, folded over the
   * records in order into a map from each day that has records to its maximum.
   */
  function DayMaxima(recs: seq<SensorRecord>): map<int, real> {
    if recs == [] then map[]
    else
      var m := DayMaxima(recs[..|recs| - 1]);
      var r := recs[|recs| - 1];
      var d := DayOf(r.timestamp);
      m[d := if d in m then Max(m[d], StoredValue(r)) else StoredValue(r)]
  }

  function Reverse(s: seq<int>): (r: seq<int>)
    ensures |r| == |s| && forall i :: 0 <= i < |s| ==> r[i] == s[|s| - 1 - i]
  {
    seq(|s|, i requires 0 <= i < |s| => s[|s| - 1 - i])
  }

  /** `Enumerable.Range(0, days).Select(offset => endDate.AddDays(-offset)).Reverse()` */
  function WindowDays(days: nat, today: int): (ds: seq<int>)
    ensures |ds| == days && forall i :: 0 <= i < days ==> ds[i] == today - days + 1 + i
  {
    Reverse(seq(days, offset => today - offset))
  }

  /** The GroupJoin: every day of the window with its group's maximum, or 0 without a group. */
  function FillDays(days: seq<int>, maxima: map<int, real>): seq<DailyMaximumReading> {
    seq(|days|, i requires 0 <= i < |days| =>
      if days[i] in maxima then DailyMaximumReading(days[i], maxima[days[i]])
      else DailyMaximumReading(days[i], 0.0))
  }

  /**
   * Grouping and filling over the readings already selected for the window;
   * Enumerable.Range throws for a negative day count.
   */
  function Aggregate(selected: seq<SensorRecord>, days: int, today: int): Result<seq<DailyMaximumReading>> {
    if days < 0 then Err(ArgumentOutOfRangeException)
    else Ok(FillDays(WindowDays(days, today), DayMaxima(selected)))
  }

  /** The in-memory repository's aggregation over one device's stored list. */
  function DailySeries(recs: seq<SensorRecord>, days: int, today: int): Result<seq<DailyMaximumReading>> {
    Aggregate(InWindow(recs, today - days + 1, today), days, today)
  }

  // ---------------------------------------------------------------------------
  // What the result should be, stated independently of the pipeline

  /** The stored values (null as 0) of the records dated day `d`, in order. */
  function ValuesOn(recs: seq<SensorRecord>, d: int): seq<real> {
    if recs == [] then []
    else
      var r := recs[|recs| - 1];
      ValuesOn(recs[..|recs| - 1], d) + (if DayOf(r.timestamp) == d then [StoredValue(r)] else [])
  }

  predicate IsMaxOf(vs: seq<real>, v: real) {
    (forall i :: 0 <= i < |vs| ==> vs[i] <= v) && (exists i :: 0 <= i < |vs| && vs[i] == v)
  }

  /** The maximum of day `d`'s values, or 0 when the day has no readings. */
  predicate IsDailyMax(recs: seq<SensorRecord>, d: int, v: real) {
    if ValuesOn(recs, d) == [] then v == 0.0 else IsMaxOf(ValuesOn(recs, d), v)
  }

  /** The shape every successful result has: `days` consecutive days ending today, ascending. */
  predicate IsWindow(r: seq<DailyMaximumReading>, days: nat, today: int) {
    && |r| == days
    && (forall i :: 0 <= i < |r| ==> r[i].date == today - days + 1 + i)
    && (forall i, j :: 0 <= i < j < |r| ==> r[i].date < r[j].date)
    && (days > 0 ==> r[days - 1].date == today)
  }

  // ---------------------------------------------------------------------------
  // Proofs

  lemma MaxIsUnique(vs: seq<real>, a: real, b: real)
    requires IsMaxOf(vs, a) && IsMaxOf(vs, b)
    ensures a == b
  {
    var i :| 0 <= i < |vs| && vs[i] == a;
    var j :| 0 <= j < |vs| && vs[j] == b;
  }

  /** A day is a key of DayMaxima exactly when it has readings, and its value is their maximum. */
  lemma {:induction false} DayMaximaSpec(recs: seq<SensorRecord>, d: int)
    ensures d in DayMaxima(recs) <==> ValuesOn(recs, d) != []
    ensures d in DayMaxima(recs) ==> IsMaxOf(ValuesOn(recs, d), DayMaxima(recs)[d])
  {
    if recs != [] {
      var init := recs[..|recs| - 1];
      var r := recs[|recs| - 1];
      DayMaximaSpec(init, d);
      var before := ValuesOn(init, d);
      if DayOf(r.timestamp) == d {
        var v := StoredValue(r);
        var vs := before + [v];
        assert ValuesOn(recs, d) == vs;
        var m := DayMaxima(recs)[d];
        if before == [] {
          assert m == v && vs == [v] && vs[0] == m;
        } else {
          var old_m := DayMaxima(init)[d];
          assert m == Max(old_m, v);
          var k :| 0 <= k < |before| && before[k] == old_m;
          if old_m >= v {
            assert vs[k] == m;
          } else {
            assert vs[|before|] == m;
          }
        }
      } else {
        assert ValuesOn(recs, d) == before;
      }
    }
  }

  /** Filtering to the window keeps a window day's values and drops every other day's. */
  lemma {:induction false} InWindowValues(recs: seq<SensorRecord>, first: int, last: int, d: int)
    ensures ValuesOn(InWindow(recs, first, last), d) == if first <= d <= last then ValuesOn(recs, d) else []
  {
    if recs != [] {
      var init := recs[..|recs| - 1];
      var r := recs[|recs| - 1];
      InWindowValues(init, first, last, d);
      var w := InWindow(init, first, last);
      if first <= DayOf(r.timestamp) <= last {
        assert InWindow(recs, first, last) == w + [r];
        assert (w + [r])[..|w|] == w;
      } else {
        assert InWindow(recs, first, last) == w;
      }
    }
  }

  lemma FillDaysShape(days: nat, today: int, maxima: map<int, real>)
    ensures IsWindow(FillDays(WindowDays(days, today), maxima), days, today)
  {
  }

  /**
   * For days >= 0 the series has exactly `days` entries dated today-(days-1)
   * .. today, strictly ascending, and each entry holds its day's maximum (0 for
   * a day without readings); a negative day count throws.
   */
  lemma DailySeriesSpec(recs: seq<SensorRecord>, days: int, today: int)
    ensures days < 0 <==> DailySeries(recs, days, today) == Err(ArgumentOutOfRangeException)
    ensures days >= 0 ==> DailySeries(recs, days, today).Ok?
    ensures days >= 0 ==> IsWindow(DailySeries(recs, days, today).value, days, today)
    ensures days >= 0 ==> forall i :: 0 <= i < days ==>
      IsDailyMax(recs, DailySeries(recs, days, today).value[i].date, DailySeries(recs, days, today).value[i].maxValue)
  {
    if days >= 0 {
      var selected := InWindow(recs, today - days + 1, today);
      var maxima := DayMaxima(selected);
      var r := FillDays(WindowDays(days, today), maxima);
      assert DailySeries(recs, days, today) == Ok(r);
      FillDaysShape(days, today, maxima);
      forall i | 0 <= i < days ensures IsDailyMax(recs, r[i].date, r[i].maxValue) {
        var d := r[i].date;
        InWindowValues(recs, today - days + 1, today, d);
        DayMaximaSpec(selected, d);
        assert today - days + 1 <= d <= today;
      }
    }
  }

  /** Readings dated outside the window never affect the result. */
  lemma SeriesDependsOnlyOnWindow(a: seq<SensorRecord>, b: seq<SensorRecord>, days: int, today: int)
    requires forall d :: today - days + 1 <= d <= today ==> ValuesOn(a, d) == ValuesOn(b, d)
    ensures DailySeries(a, days, today) == DailySeries(b, days, today)
  {
    DailySeriesSpec(a, days, today);
    DailySeriesSpec(b, days, today);
    if days >= 0 {
      var ra, rb := DailySeries(a, days, today).value, DailySeries(b, days, today).value;
      forall i | 0 <= i < days ensures ra[i] == rb[i] {
        assert ra[i].date == rb[i].date;
        var d := ra[i].date;
        assert ValuesOn(a, d) == ValuesOn(b, d);
        if ValuesOn(a, d) != [] {
          MaxIsUnique(ValuesOn(a, d), ra[i].maxValue, rb[i].maxValue);
        }
      }
      assert ra == rb;
    }
  }

  /** The second bounds 86400*first <= ts < 86400*(last+1) select exactly the days first..last. */
  lemma SecondBoundsMatchDays(ts: int, first: int, last: int)
    ensures SecondsPerDay * first <= ts < SecondsPerDay * (last + 1) <==> first <= DayOf(ts) <= last
  {
    var q := DayOf(ts);
    assert SecondsPerDay * q <= ts < SecondsPerDay * q + SecondsPerDay;
    if first <= q { assert SecondsPerDay * first <= SecondsPerDay * q; }
    if q < first { assert SecondsPerDay * (q + 1) <= SecondsPerDay * first; }
    if q <= last { assert SecondsPerDay * (q + 1) <= SecondsPerDay * (last + 1); }
    if last < q { assert SecondsPerDay * (last + 1) <= SecondsPerDay * q; }
  }
}
