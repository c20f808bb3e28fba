/**
 `flatten` of src/pages/Today.jsx: turns the NASA POWER hourly payload
 (parameter name -> YYYYMMDD date key -> array of hourly readings) into three
 time-ordered series of cleaned samples: temperature (T2M), precipitation
 (PRECTOTCORR) and wind speed (WS2M).

 The source fills the three series in one loop over (date, hour); since each
 push only ever appends to its own series, each series is modelled here as
 its own pass over the same (date, hour) grid.
 */
module PowerSeries {
  import opened Numbers
  import opened Text

  /** What a payload holds under one parameter for one date: an array of
      hourly readings (already passed through `Number`), or something that is
      not an array. */
  datatype Entry = Hourly(values: seq<Raw>) | NotArray

  /** One parameter's table: date key -> entry. */
  type Grid = map<string, Entry>

  /** The payload as far as `flatten` reads it: `properties.parameter`,
      absent when either `properties` or `parameter` is missing. */
  datatype Payload = Payload(parameter: Option<map<string, Grid>>)

  /** The three quantities requested from POWER. */
  datatype Quantity = Temperature | Precipitation | WindSpeed

  function ParameterName(q: Quantity): string
  {
    match q
    case Temperature => "T2M"
    case Precipitation => "PRECTOTCORR"
    case WindSpeed => "WS2M"
  }

  /** One emitted sample: the (date key, hour) it was read at and its
      cleaned value. `Time` renders the timestamp string the source stores. */
  datatype Sample = Sample(date: string, hour: nat, value: real)

  datatype Shaped = Shaped(temp: seq<Sample>, precip: seq<Sample>, wind: seq<Sample>)

  /** `p[name] || {}`. */
  function GridOf(p: Payload, name: string): Grid
  {
    if p.parameter.Some? && name in p.parameter.value then p.parameter.value[name] else map[]
  }

  /** `Array.isArray(g[d]) ? g[d] : []`. */
  function Row(g: Grid, d: string): seq<Raw>
  {
    if d in g && g[d].Hourly? then g[d].values else []
  }

  /** `row[h]`: past the end it is `undefined`, which is not finite. */
  function At(row: seq<Raw>, h: nat): Raw
  {
    if h < |row| then row[h] else NonFinite
  }

  function Max3(a: nat, b: nat, c: nat): (m: nat)
    ensures m >= a && m >= b && m >= c
    ensures m == a || m == b || m == c
  {
    if a >= b && a >= c then a else if b >= c then b else c
  }

  /** Number of hours visited for date d: the longest of the three rows. */
  function Span(p: Payload, d: string): nat
  {
    Max3(|Row(GridOf(p, "T2M"), d)|,
         |Row(GridOf(p, "PRECTOTCORR"), d)|,
         |Row(GridOf(p, "WS2M"), d)|)
  }

  /** The cleaned reading of quantity q at (d, h). */
  function Reading(p: Payload, q: Quantity, d: string, h: nat): Option<real>
  {
    Clean(At(Row(GridOf(p, ParameterName(q)), d), h))
  }

  /** The dates visited: the temperature table's keys, sorted. */
  function Dates(p: Payload): seq<string>
  {
    SortedKeys(GridOf(p, "T2M").Keys)
  }

  /** (date, hour) order of samples. */
  predicate Before(a: Sample, b: Sample)
  {
    LexLess(a.date, b.date) || (a.date == b.date && a.hour < b.hour)
  }

  predicate Chronological(xs: seq<Sample>)
  {
    forall i, j :: 0 <= i < j < |xs| ==> Before(xs[i], xs[j])
  }

  /** The samples of quantity q at date d for hours h up to n - 1, in hour
      order; hours whose reading cleans to absent are skipped. */
  function HourSamples(p: Payload, q: Quantity, d: string, h: nat, n: nat): (r: seq<Sample>)
    ensures forall s :: s in r <==>
      s.date == d && h <= s.hour < n && Reading(p, q, d, s.hour) == Some(s.value)
    ensures forall i, j :: 0 <= i < j < |r| ==> r[i].hour < r[j].hour
    decreases n - h
  {
    if h >= n then []
    else
      var v := Reading(p, q, d, h);
      var rest := HourSamples(p, q, d, h + 1, n);
      if v.Some? then [Sample(d, h, v.value)] + rest else rest
  }

  /** The samples of quantity q over the given dates, date by date. */
  function DateSamples(p: Payload, q: Quantity, dates: seq<string>): (r: seq<Sample>)
    ensures forall s :: s in r <==>
      s.date in dates && s.hour < Span(p, s.date) && Reading(p, q, s.date, s.hour) == Some(s.value)
  {
    if |dates| == 0 then []
    else HourSamples(p, q, dates[0], 0, Span(p, dates[0])) + DateSamples(p, q, dates[1..])
  }

  /** One output series of `flatten`. */
  function Series(p: Payload, q: Quantity): seq<Sample>
  {
    DateSamples(p, q, Dates(p))
  }

  /** The reading the source records as a sample of quantity q: the date is
      a temperature date, the hour is below that date's span, and the
      cleaned reading there is present and equal to the sample's value. */
  predicate Recorded(p: Payload, q: Quantity, s: Sample)
  {
    && s.date in GridOf(p, "T2M")
    && s.hour < Span(p, s.date)
    && Clean(At(Row(GridOf(p, ParameterName(q)), s.date), s.hour)) == Some(s.value)
  }

  /** A sample is in a series exactly when it is recorded. In particular
      dates found only under PRECTOTCORR or WS2M never appear, and every value
      is above the sentinel. */
  lemma SeriesMembership(p: Payload, q: Quantity)
    ensures forall s :: s in Series(p, q) <==> Recorded(p, q, s)
    ensures forall s :: s in Series(p, q) ==> s.value > Sentinel
  {
  }

  /** A series comes out in strictly increasing (date, hour) order. */
  lemma SeriesChronological(p: Payload, q: Quantity)
    ensures Chronological(Series(p, q))
  {
    DateSamplesChronological(p, q, Dates(p));
  }

  /** `flatten`: each output series holds exactly the recorded readings of
      its quantity, in strictly increasing (date, hour) order. */
  function Flatten(p: Payload): (r: Shaped)
    ensures forall s :: s in r.temp <==> Recorded(p, Temperature, s)
    ensures forall s :: s in r.precip <==> Recorded(p, Precipitation, s)
    ensures forall s :: s in r.wind <==> Recorded(p, WindSpeed, s)
    ensures Chronological(r.temp) && Chronological(r.precip) && Chronological(r.wind)
  {
    SeriesMembership(p, Temperature);
    SeriesMembership(p, Precipitation);
    SeriesMembership(p, WindSpeed);
    SeriesChronological(p, Temperature);
    SeriesChronological(p, Precipitation);
    SeriesChronological(p, WindSpeed);
    Shaped(Series(p, Temperature), Series(p, Precipitation), Series(p, WindSpeed))
  }

  /** Concatenating two chronological runs, the first wholly before the
      second, is chronological. */
  lemma ChronologicalConcat(a: seq<Sample>, b: seq<Sample>)
    requires Chronological(a) && Chronological(b)
    requires forall x, y :: x in a && y in b ==> Before(x, y)
    ensures Chronological(a + b)
  {
    var c := a + b;
    forall i, j | 0 <= i < j < |c| ensures Before(c[i], c[j]) {
      if j < |a| {
        assert c[i] == a[i] && c[j] == a[j];
      } else if i >= |a| {
        assert c[i] == b[i - |a|] && c[j] == b[j - |a|];
      } else {
        assert c[i] in a && c[j] in b;
      }
    }
  }

  /** Over strictly increasing dates, the samples come out in strictly
      increasing (date, hour) order. */
  lemma {:induction false} DateSamplesChronological(p: Payload, q: Quantity, dates: seq<string>)
    requires StrictlySorted(dates)
    ensures Chronological(DateSamples(p, q, dates))
  {
    if |dates| > 0 {
      var d := dates[0];
      var day := HourSamples(p, q, d, 0, Span(p, d));
      var rest := DateSamples(p, q, dates[1..]);
      DateSamplesChronological(p, q, dates[1..]);
      forall x, y | x in day && y in rest ensures Before(x, y) {
        var k :| 0 <= k < |dates[1..]| && dates[1..][k] == y.date;
        assert LexLess(dates[0], dates[k + 1]);
      }
      ChronologicalConcat(day, rest);
    }
  }

  /** Within a series of `flatten` no two samples share a (date, hour)
      timestamp. */
  lemma FlattenTimesDistinct(p: Payload)
    ensures forall i, j :: 0 <= i < j < |Flatten(p).temp| ==>
      (Flatten(p).temp[i].date, Flatten(p).temp[i].hour) != (Flatten(p).temp[j].date, Flatten(p).temp[j].hour)
    ensures forall i, j :: 0 <= i < j < |Flatten(p).precip| ==>
      (Flatten(p).precip[i].date, Flatten(p).precip[i].hour) != (Flatten(p).precip[j].date, Flatten(p).precip[j].hour)
    ensures forall i, j :: 0 <= i < j < |Flatten(p).wind| ==>
      (Flatten(p).wind[i].date, Flatten(p).wind[i].hour) != (Flatten(p).wind[j].date, Flatten(p).wind[j].hour)
  {
    var r := Flatten(p);
    ChronologicalDistinct(r.temp);
    ChronologicalDistinct(r.precip);
    ChronologicalDistinct(r.wind);
  }

  lemma ChronologicalDistinct(xs: seq<Sample>)
    requires Chronological(xs)
    ensures forall i, j :: 0 <= i < j < |xs| ==> (xs[i].date, xs[i].hour) != (xs[j].date, xs[j].hour)
  {
    forall i, j | 0 <= i < j < |xs| ensures (xs[i].date, xs[i].hour) != (xs[j].date, xs[j].hour) {
      assert Before(xs[i], xs[j]);
      if xs[i].date == xs[j].date {
        LexIrreflexive(xs[i].date);
      }
    }
  }

  /** A payload without `properties.parameter` flattens to three empty
      series rather than failing. */
  lemma MissingParameterIsEmpty(p: Payload)
    requires p.parameter.None?
    ensures Flatten(p) == Shaped([], [], [])
  {
    assert GridOf(p, "T2M").Keys == {};
  }

  // ---------------------------------------------------------------------
  // Timestamps
  // ---------------------------------------------------------------------

  /** `d.slice(a, b)`: indices past the end are clamped. */
  function Slice(d: string, a: nat, b: nat): (r: string)
    requires a <= b
    ensures |r| <= b - a
  {
    var lo := if a <= |d| then a else |d|;
    var hi := if b <= |d| then b else |d|;
    d[lo..hi]
  }

  /** The sample's `time`: `YYYY-MM-DDTHH:00:00Z` built from the date key and
      the zero-padded hour. */
  function Time(s: Sample): string
  {
    Slice(s.date, 0, 4) + "-" + Slice(s.date, 4, 6) + "-" + Slice(s.date, 6, 8)
      + "T" + Pad2(s.hour) + ":00:00Z"
  }

  /** For an eight-character date key and an hour below 100 the timestamp
      is `YYYY-MM-DDTHH:00:00Z`: the key's year, month and day digits in
      order, separated as ISO 8601 writes them, and two digits whose value is
      the hour. */
  lemma TimeLayout(s: Sample)
    requires |s.date| == 8 && s.hour < 100
    ensures var t := Time(s);
      && |t| == 20
      && t[0..4] == s.date[0..4] && t[4] == '-'
      && t[5..7] == s.date[4..6] && t[7] == '-'
      && t[8..10] == s.date[6..8] && t[10] == 'T'
      && t[11..13] == Pad2(s.hour) && DecimalValue(t[11..13]) == s.hour
      && t[13..] == ":00:00Z"
  {
    var t := Time(s);
    assert Slice(s.date, 0, 4) == s.date[0..4];
    assert Slice(s.date, 4, 6) == s.date[4..6];
    assert Slice(s.date, 6, 8) == s.date[6..8];
  }

  /** For eight-character date keys and hours below 100, distinct (date,
      hour) pairs render as distinct `time` strings. */
  lemma TimeInjective(a: Sample, b: Sample)
    requires |a.date| == 8 && |b.date| == 8 && a.hour < 100 && b.hour < 100
    requires Time(a) == Time(b)
    ensures a.date == b.date && a.hour == b.hour
  {
    TimeLayout(a);
    TimeLayout(b);
    assert a.date == a.date[0..4] + a.date[4..6] + a.date[6..8];
    assert b.date == b.date[0..4] + b.date[4..6] + b.date[6..8];
  }
}
