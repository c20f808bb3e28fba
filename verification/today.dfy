/**
 The values the Today page derives from the flattened series: unit
 conversion, the latest sample, the rounded 3-hour rain mean and the rain
 risk built on it, the displayed temperature, the chart rows, and the
 headline, badges and tip it hands to the hero card.
 */
module TodayView {
  import opened Numbers
  import opened Classify
  import opened Narrative
  import opened PowerSeries

  // ---------------------------------------------------------------------
  // Units
  // ---------------------------------------------------------------------

  /** `toF`: Celsius to Fahrenheit; absent stays absent. */
  function ToF(c: Option<real>): (f: Option<real>)
    ensures f.None? <==> c.None?
  {
    match c
    case None => None
    case Some(x) => Some(x * 9.0 / 5.0 + 32.0)
  }

  /** Fahrenheit back to Celsius. */
  function ToC(f: Option<real>): Option<real>
  {
    match f
    case None => None
    case Some(x) => Some((x - 32.0) * 5.0 / 9.0)
  }

  /** Converting to Fahrenheit loses nothing: converting back gives the
      original reading. */
  lemma ToFRoundTrip(c: Option<real>)
    ensures ToC(ToF(c)) == c
  {
  }

  /** The conversion is strictly increasing, so it keeps the order of
      readings. */
  lemma ToFStrictlyIncreasing(a: real, b: real)
    requires a < b
    ensures ToF(Some(a)).value < ToF(Some(b)).value
  {
  }

  /** The page's units setting: "F" converts, anything else shows Celsius.
      Either way an absent reading stays absent and the Celsius reading can
      be recovered. */
  function Display(units: string, c: Option<real>): (r: Option<real>)
    ensures r.None? <==> c.None?
    ensures units != "F" ==> r == c
    ensures units == "F" ==> ToC(r) == c
  {
    ToFRoundTrip(c);
    if units == "F" then ToF(c) else c
  }

  // ---------------------------------------------------------------------
  // Derived values
  // ---------------------------------------------------------------------

  /** `latest(rows)`: the last sample's value, absent for no samples. */
  function Latest(rows: seq<Sample>): (v: Option<real>)
    ensures v.None? <==> |rows| == 0
    ensures v.Some? ==> v.value == rows[|rows| - 1].value
  {
    if |rows| > 0 then Some(rows[|rows| - 1].value) else None
  }

  function Values(rows: seq<Sample>): (vs: seq<real>)
    ensures |vs| == |rows|
    ensures forall i :: 0 <= i < |rows| ==> vs[i] == rows[i].value
  {
    seq(|rows|, i requires 0 <= i < |rows| => rows[i].value)
  }

  /** `rainAvg3h`: the mean of the last min(3, n) precipitation values,
      rounded to hundredths; 0 when there are none. (`Number(v) || 0` is the
      identity here: flattened values are finite numbers.) */
  function RainAvg3h(precip: seq<Sample>): (r: real)
    ensures |precip| == 0 ==> r == 0.0
    ensures |precip| > 0 ==>
      var m := Mean(Values(Last(precip, 3)));
      m - 0.005 < r <= m + 0.005
  {
    var last3 := Values(Last(precip, 3));
    if |last3| > 0 then
      var m := Mean(last3);
      var n := Round(m * 100.0);
      assert m * 100.0 - 0.5 < n as real <= m * 100.0 + 0.5;
      n as real / 100.0
    else 0.0
  }

  /** The page's rain risk: the classifier applied to `rainAvg3h`. The
      average is never absent, so the risk is never Unknown; with no
      precipitation samples it is Low. */
  function PageRainRisk(precip: seq<Sample>): (r: RainRisk)
    ensures r != Unknown
    ensures |precip| == 0 ==> r == Low
    ensures r == High <==> RainAvg3h(precip) >= HighRainAt
  {
    RainRiskFromAvg(Some(RainAvg3h(precip)))
  }

  /** Only the last three precipitation samples matter for the page's risk. */
  lemma PageRainRiskRecentOnly(older: seq<Sample>, recent: seq<Sample>)
    requires |recent| >= 3
    ensures PageRainRisk(older + recent) == PageRainRisk(recent)
  {
    LastIgnoresPrefix(older, recent, 3);
    assert Values(Last(older + recent, 3)) == Values(Last(recent, 3));
    assert RainAvg3h(older + recent) == RainAvg3h(recent);
  }

  /** `hoursCount`: the length of the longest series. */
  function HoursCount(sh: Shaped): (n: nat)
    ensures n >= |sh.temp| && n >= |sh.precip| && n >= |sh.wind|
    ensures n == |sh.temp| || n == |sh.precip| || n == |sh.wind|
  {
    Max3(|sh.temp|, |sh.precip|, |sh.wind|)
  }

  /** `tempDisplayLatest`: the rounded latest temperature in the chosen
      units, absent when there is no temperature sample. */
  function TempDisplayLatest(temp: seq<Sample>, units: string): (r: Option<int>)
    ensures r.None? <==> |temp| == 0
    ensures r.Some? && units == "F" ==> r.value == Round(temp[|temp| - 1].value * 9.0 / 5.0 + 32.0)
    ensures r.Some? && units != "F" ==> r.value == Round(temp[|temp| - 1].value)
  {
    var t := Display(units, Latest(temp));
    if t.Some? then Some(Round(t.value)) else None
  }

  /** `tempRowsForChart`: each temperature sample with its value in the
      chosen units; no sample is dropped or reordered. */
  function TempRowsForChart(temp: seq<Sample>, units: string): (r: seq<Sample>)
    ensures |r| == |temp|
    ensures forall i :: 0 <= i < |r| ==> r[i].date == temp[i].date && r[i].hour == temp[i].hour
    ensures forall i :: 0 <= i < |r| ==>
      Some(r[i].value) == Display(units, Some(temp[i].value))
  {
    seq(|temp|, i requires 0 <= i < |temp| =>
      temp[i].(value := if units == "F" then temp[i].value * 9.0 / 5.0 + 32.0 else temp[i].value))
  }

  // ---------------------------------------------------------------------
  // The hero card
  // ---------------------------------------------------------------------

  datatype HeroCard = HeroCard(sentence: string, badges: seq<Badge>, tip: string)

  /** The chips the page shows: the temperature chip is in the chosen units,
      the headline and tip below are chosen on Celsius readings. */
  function PageBadges(sh: Shaped, units: string): seq<Badge>
  {
    MakeBadges(PageRainRisk(sh.precip), HoursCount(sh), Display(units, Latest(sh.temp)), Latest(sh.wind), units)
  }

  /** What the page hands to the hero and tips cards for the current series
      and units setting. */
  function TodayCard(sh: Shaped, units: string): HeroCard
  {
    var risk := PageRainRisk(sh.precip);
    var tempC := Latest(sh.temp);
    var wind := Latest(sh.wind);
    HeroCard(
      MakeHero(TodayPage, risk, tempC, wind),
      PageBadges(sh, units),
      MakeTip(TodayPage, risk, tempC, wind))
  }

  /** The page's first chips: the rain chip carries the page's (never
      Unknown) risk, and the hours chip, present when any series is
      non-empty, counts the longest series. */
  lemma TodayRainAndHours(sh: Shaped, units: string)
    ensures var bs := PageBadges(sh, units);
      && bs[0] == RainBadge(PageRainRisk(sh.precip)) && bs[0].risk != Unknown
      && (HoursCount(sh) > 0 ==> bs[1] == HoursBadge(HoursCount(sh)))
      && (forall i :: 0 <= i < |bs| && bs[i].HoursBadge? ==>
            bs[i].count >= |sh.temp| && bs[i].count >= |sh.precip| && bs[i].count >= |sh.wind|)
  {
    var risk := PageRainRisk(sh.precip);
    var n := HoursCount(sh);
    var t := Display(units, Latest(sh.temp));
    var bs := PageBadges(sh, units);
    assert bs == MakeBadges(risk, n, t, Latest(sh.wind), units);
    BadgeContents(risk, n, t, Latest(sh.wind), units);
    forall i | 0 <= i < |bs| && bs[i].HoursBadge?
      ensures bs[i].count >= |sh.temp| && bs[i].count >= |sh.precip| && bs[i].count >= |sh.wind|
    {
      assert bs[i].count == n;
    }
  }

  /** With units "F" the temperature chip shows the rounded Fahrenheit
      reading of the latest sample, marked F. */
  lemma TodayFahrenheitChip(sh: Shaped)
    ensures var bs := PageBadges(sh, "F");
      forall i :: 0 <= i < |bs| && bs[i].TempBadge? ==>
        |sh.temp| > 0 && bs[i].unit == "F"
        && bs[i].degrees == Round(sh.temp[|sh.temp| - 1].value * 9.0 / 5.0 + 32.0)
  {
    var risk := PageRainRisk(sh.precip);
    var t := Display("F", Latest(sh.temp));
    var bs := MakeBadges(risk, HoursCount(sh), t, Latest(sh.wind), "F");
    BadgeContents(risk, HoursCount(sh), t, Latest(sh.wind), "F");
    if t.Some? {
      assert |sh.temp| > 0;
      assert t.value == sh.temp[|sh.temp| - 1].value * 9.0 / 5.0 + 32.0;
    }
  }

  /** The headline and the tip are chosen on Celsius readings: the units
      setting changes only the badges. */
  lemma UnitsOnlyAffectBadges(sh: Shaped)
    ensures TodayCard(sh, "F").sentence == TodayCard(sh, "C").sentence
    ensures TodayCard(sh, "F").tip == TodayCard(sh, "C").tip
  {
  }

  /** The page's headline and tip on its own readings: the rain sentences
      follow the rounded 3-hour average (at least 1.5, then at least 0.3);
      below 0.3 the heat sentence is chosen iff the latest temperature is at
      least 32 °C, else the wind sentence iff the latest wind is at least
      14 m/s, else the generic one; the tip always belongs to the headline's
      rule. */
  lemma TodayHeadline(sh: Shaped, units: string)
    ensures var card := TodayCard(sh, units);
      var avg := RainAvg3h(sh.precip);
      var hot := |sh.temp| > 0 && sh.temp[|sh.temp| - 1].value >= 32.0;
      var windy := |sh.wind| > 0 && sh.wind[|sh.wind| - 1].value >= 14.0;
      && (card.sentence == HeroRain <==> avg >= HighRainAt)
      && (card.sentence == HeroShowers <==> ModerateRainAt <= avg < HighRainAt)
      && (card.sentence == HeroHot <==> avg < ModerateRainAt && hot)
      && (card.sentence == HeroWindyPage <==> avg < ModerateRainAt && !hot && windy)
      && (card.sentence == HeroFair <==> avg < ModerateRainAt && !hot && !windy)
      && (card.tip == TipRain <==> card.sentence == HeroRain)
      && (card.tip == TipShowers <==> card.sentence == HeroShowers)
      && (card.tip == TipHotPage <==> card.sentence == HeroHot)
      && (card.tip == TipWindy <==> card.sentence == HeroWindyPage)
      && (card.tip == TipFair <==> card.sentence == HeroFair)
  {
    var avg := RainAvg3h(sh.precip);
    var tempC := Latest(sh.temp);
    var wind := Latest(sh.wind);
    var card := TodayCard(sh, units);
    assert card.sentence == MakeHero(TodayPage, RainRiskFromAvg(Some(avg)), tempC, wind);
    assert card.tip == MakeTip(TodayPage, RainRiskFromAvg(Some(avg)), tempC, wind);
    assert HotReading(tempC) <==> |sh.temp| > 0 && sh.temp[|sh.temp| - 1].value >= 32.0;
    assert WindyReading(wind) <==> |sh.wind| > 0 && sh.wind[|sh.wind| - 1].value >= 14.0;
    PageHeroOnAverage(avg, tempC, wind);
    PageTipOnAverage(avg, tempC, wind);
  }

  /** The page copy's headline for a present rain average. */
  lemma PageHeroOnAverage(avg: real, tempC: Option<real>, windMs: Option<real>)
    ensures var h := MakeHero(TodayPage, RainRiskFromAvg(Some(avg)), tempC, windMs);
      var hot := HotReading(tempC);
      var windy := WindyReading(windMs);
      && (h == HeroRain <==> avg >= HighRainAt)
      && (h == HeroShowers <==> ModerateRainAt <= avg < HighRainAt)
      && (h == HeroHot <==> avg < ModerateRainAt && hot)
      && (h == HeroWindyPage <==> avg < ModerateRainAt && !hot && windy)
      && (h == HeroFair <==> avg < ModerateRainAt && !hot && !windy)
  {
    var risk := RainRiskFromAvg(Some(avg));
    assert risk != High && risk != Moderate <==> avg < ModerateRainAt;
  }

  /** The page copy's tip for a present rain average: each tip goes with the
      headline of the same rule. */
  lemma PageTipOnAverage(avg: real, tempC: Option<real>, windMs: Option<real>)
    ensures var risk := RainRiskFromAvg(Some(avg));
      var h := MakeHero(TodayPage, risk, tempC, windMs);
      var t := MakeTip(TodayPage, risk, tempC, windMs);
      && (t == TipRain <==> h == HeroRain)
      && (t == TipShowers <==> h == HeroShowers)
      && (t == TipHotPage <==> h == HeroHot)
      && (t == TipWindy <==> h == HeroWindyPage)
      && (t == TipFair <==> h == HeroFair)
  {
  }
}
