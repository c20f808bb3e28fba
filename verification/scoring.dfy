/**
 `rainRiskFromSeries` of src/lib/scoring.js: a second rain-risk heuristic
 that looks at the tail of a series of rows rather than at one average.
 A row's value is present (a number) or absent (null, undefined or NaN);
 `r.value || 0` reads an absent value as 0.
 */
module Scoring {
  import opened Numbers
  import opened Classify

  /** Mean of the last three values at or above this is High. */
  const WetMean: real := 0.2
  /** Any of the last six values at or above this is Moderate. */
  const WetReading: real := 0.1

  /** `r.value || 0`. */
  function ValueOrZero(v: Option<real>): real
  {
    if v.Some? then v.value else 0.0
  }

  function Amounts(rows: seq<Option<real>>): (xs: seq<real>)
    ensures |xs| == |rows|
    ensures forall i :: 0 <= i < |rows| ==> xs[i] == ValueOrZero(rows[i])
  {
    seq(|rows|, i requires 0 <= i < |rows| => ValueOrZero(rows[i]))
  }

  /** `rows.some(r => (r.value || 0) >= t)`, scanning from the front. */
  function AnyAtLeast(rows: seq<Option<real>>, t: real): (b: bool)
    ensures b <==> exists i :: 0 <= i < |rows| && ValueOrZero(rows[i]) >= t
  {
    if |rows| == 0 then false
    else ValueOrZero(rows[0]) >= t || AnyAtLeast(rows[1..], t)
  }

  /** `rainRiskFromSeries(rows)`; `rows` is None when it is null or undefined. */
  function RiskFromSeries(rows: Option<seq<Option<real>>>): (r: RainRisk)
    ensures r != Unknown
    ensures (rows.None? || |rows.value| == 0) ==> r == Low
  {
    if rows.None? || |rows.value| == 0 then Low
    else
      var last3 := Amounts(Last(rows.value, 3));
      if Mean(last3) >= WetMean then High
      else if AnyAtLeast(Last(rows.value, 6), WetReading) then Moderate
      else Low
  }

  /** Some value among the last min(6, n) rows reaches 0.1. */
  predicate RecentlyWet(rows: seq<Option<real>>)
  {
    exists i :: |rows| - 6 <= i < |rows| && 0 <= i && ValueOrZero(rows[i]) >= WetReading
  }

  lemma RecentlyWetIsScan(rows: seq<Option<real>>)
    ensures AnyAtLeast(Last(rows, 6), WetReading) <==> RecentlyWet(rows)
  {
    var tail := Last(rows, 6);
    var off := |rows| - |tail|;
    assert off == if |rows| < 6 then 0 else |rows| - 6;
    if RecentlyWet(rows) {
      var i :| |rows| - 6 <= i < |rows| && 0 <= i && ValueOrZero(rows[i]) >= WetReading;
      var k := i - off;
      assert 0 <= k < |tail| && tail[k] == rows[i];
      assert ValueOrZero(tail[k]) >= WetReading;
    }
    if AnyAtLeast(tail, WetReading) {
      var k :| 0 <= k < |tail| && ValueOrZero(tail[k]) >= WetReading;
      var i := k + off;
      assert |rows| - 6 <= i < |rows| && 0 <= i && rows[i] == tail[k];
      assert ValueOrZero(rows[i]) >= WetReading;
    }
  }

  /** High exactly when the mean of the last min(3, n) values (absent read as
      0) reaches 0.2; Moderate exactly when that fails but some value among
      the last min(6, n) reaches 0.1. */
  lemma RiskFromSeriesBands(rows: seq<Option<real>>)
    requires |rows| > 0
    ensures RiskFromSeries(Some(rows)) == High <==> Mean(Amounts(Last(rows, 3))) >= WetMean
    ensures RiskFromSeries(Some(rows)) == Moderate <==>
      Mean(Amounts(Last(rows, 3))) < WetMean && RecentlyWet(rows)
  {
    RecentlyWetIsScan(rows);
  }

  /** A Low result means every one of the last six values is below 0.1. */
  lemma LowMeansDry(rows: seq<Option<real>>)
    requires RiskFromSeries(Some(rows)) == Low
    ensures forall i :: |rows| - 6 <= i < |rows| && 0 <= i ==> ValueOrZero(rows[i]) < WetReading
  {
    RecentlyWetIsScan(rows);
  }

  /** The result depends only on the last six rows. */
  lemma RecentRowsOnly(older: seq<Option<real>>, rows: seq<Option<real>>)
    requires |rows| >= 6
    ensures RiskFromSeries(Some(older + rows)) == RiskFromSeries(Some(rows))
  {
    LastIgnoresPrefix(older, rows, 3);
    LastIgnoresPrefix(older, rows, 6);
  }
}
