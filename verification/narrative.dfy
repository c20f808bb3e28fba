/**
 The narrative layer: the fixed-priority cascade that picks the headline
 ("hero") and the tip, the additive badge list, and the week sentence.

 The cascade exists twice in the source (src/insights.js and the page-local
 copy in src/pages/Today.jsx) with the same branches and slightly different
 wording; it is modelled once as a `Branch`, and each copy's wording is a
 table from branches to sentences.
 */
module Narrative {
  import opened Numbers
  import opened Text
  import opened Classify

  // ---------------------------------------------------------------------
  // Cascade
  // ---------------------------------------------------------------------

  /** The five outcomes of the cascade, in priority order. */
  datatype Branch = RainLikely | Showers | Hot | Windy | Fair

  /** Which copy of the narrative helpers is speaking. */
  datatype Copy = InsightsModule | TodayPage

  /** The heat test of the cascade: at least 32 °C ("Very hot" or
      "Extreme heat"). */
  predicate HotReading(tempC: Option<real>)
  {
    tempC.Some? && tempC.value >= 32.0
  }

  /** The wind test of the cascade: at least 14 m/s ("Strong wind"). */
  predicate WindyReading(windMs: Option<real>)
  {
    windMs.Some? && windMs.value >= 14.0
  }

  /** `makeHero` / `makeTip` branch selection: the first rule that matches
      wins. High rain risk wins whatever the heat and wind, then moderate
      risk; for Low or Unknown risk the heat sentence is chosen iff the
      temperature is at least 32 °C, else the wind sentence iff the wind is at
      least 14 m/s, else the generic one. The source compares the tier
      labels; `HeatLabelInjective` and `WindNameInjective` make comparing
      tiers equivalent. */
  function Cascade(risk: RainRisk, tempC: Option<real>, windMs: Option<real>): (b: Branch)
    ensures b == RainLikely <==> risk == High
    ensures b == Showers <==> risk == Moderate
    ensures b == Hot <==> risk != High && risk != Moderate && HotReading(tempC)
    ensures b == Windy <==> risk != High && risk != Moderate && !HotReading(tempC) && WindyReading(windMs)
    ensures b == Fair <==> risk != High && risk != Moderate && !HotReading(tempC) && !WindyReading(windMs)
  {
    var h := HeatLevel(tempC);
    var w := WindLevel(windMs);
    assert (h == VeryHot || h == ExtremeHeat) <==> HotReading(tempC);
    assert w == StrongWind <==> WindyReading(windMs);
    if risk == High then RainLikely
    else if risk == Moderate then Showers
    else if h == VeryHot || h == ExtremeHeat then Hot
    else if w == StrongWind then Windy
    else Fair
  }

  // The headlines and tips. Where the two copies differ, the first
  // constant is src/insights.js's wording and the second Today.jsx's.
  const HeroRain := "Rain likely in the next few hours — plan for cover or pick an indoor slot."
  const HeroShowers := "Spotty showers possible — keep plans flexible and check an hour before."
  const HeroHot := "Low rain risk — but it’ll be hot. Hydrate and favor shade."
  const HeroWindy := "Low rain risk — strong winds though, secure light items."
  const HeroWindyPage := "Low rain risk — strong winds though; secure light items."
  const HeroFair := "Low rain risk — good window for outdoor plans."

  const TipRain := "Provide covered areas, non-slip mats, and send a rain alert 30 minutes before."
  const TipShowers := "Pick a flexible time window and set a nearby indoor fallback."
  const TipHot := "Shift to morning/evening, carry water, and add shade breaks."
  const TipHotPage := "Shift to morning/evening, carry water, and plan shade breaks."
  const TipWindy := "Avoid tall signage; secure lightweight objects and tents."
  const TipFair := "Looks good — recheck an hour before in case conditions shift."

  function HeroLine(copy: Copy, b: Branch): string
  {
    match b
    case RainLikely => HeroRain
    case Showers => HeroShowers
    case Hot => HeroHot
    case Windy => if copy == InsightsModule then HeroWindy else HeroWindyPage
    case Fair => HeroFair
  }

  function TipLine(copy: Copy, b: Branch): string
  {
    match b
    case RainLikely => TipRain
    case Showers => TipShowers
    case Hot => if copy == InsightsModule then TipHot else TipHotPage
    case Windy => TipWindy
    case Fair => TipFair
  }

  /** Different branches have different headlines, in each copy (the five
      sentences even differ in length). */
  lemma HeroLineInjective(copy: Copy, a: Branch, b: Branch)
    requires a != b
    ensures HeroLine(copy, a) != HeroLine(copy, b)
  {
    assert |HeroRain| == 74 && |HeroShowers| == 71 && |HeroHot| == 58;
    assert |HeroWindy| == 56 && |HeroWindyPage| == 56 && |HeroFair| == 46;
  }

  /** Different branches have different tips, in each copy. */
  lemma TipLineInjective(copy: Copy, a: Branch, b: Branch)
    requires a != b
    ensures TipLine(copy, a) != TipLine(copy, b)
  {
    assert |TipRain| == 78 && |TipShowers| == 61 && |TipHot| == 60;
    assert |TipHotPage| == 61 && |TipWindy| == 57 && |TipFair| == 61;
    assert TipShowers != TipHotPage && TipShowers != TipFair && TipHotPage != TipFair;
  }

  lemma LinesDistinct(copy: Copy, b: Branch)
    ensures forall c :: c != b ==> HeroLine(copy, c) != HeroLine(copy, b)
    ensures forall c :: c != b ==> TipLine(copy, c) != TipLine(copy, b)
  {
    forall c | c != b
      ensures HeroLine(copy, c) != HeroLine(copy, b) && TipLine(copy, c) != TipLine(copy, b)
    {
      HeroLineInjective(copy, c, b);
      TipLineInjective(copy, c, b);
    }
  }

  /** `makeHero`: each headline is returned exactly when its rule is the
      first to match; only the windy headline's wording depends on the
      copy. */
  function MakeHero(copy: Copy, risk: RainRisk, tempC: Option<real>, windMs: Option<real>): (r: string)
    ensures r == HeroRain <==> risk == High
    ensures r == HeroShowers <==> risk == Moderate
    ensures r == HeroHot <==> risk != High && risk != Moderate && HotReading(tempC)
    ensures r == (if copy == InsightsModule then HeroWindy else HeroWindyPage) <==>
      risk != High && risk != Moderate && !HotReading(tempC) && WindyReading(windMs)
    ensures r == HeroFair <==>
      risk != High && risk != Moderate && !HotReading(tempC) && !WindyReading(windMs)
  {
    var b := Cascade(risk, tempC, windMs);
    LinesDistinct(copy, b);
    assert HeroLine(copy, RainLikely) == HeroRain && HeroLine(copy, Showers) == HeroShowers;
    assert HeroLine(copy, Hot) == HeroHot && HeroLine(copy, Fair) == HeroFair;
    HeroLine(copy, b)
  }

  /** `makeTip`: the tip follows the same rules as the headline; only the
      heat tip's wording depends on the copy. */
  function MakeTip(copy: Copy, risk: RainRisk, tempC: Option<real>, windMs: Option<real>): (r: string)
    ensures r == TipRain <==> risk == High
    ensures r == TipShowers <==> risk == Moderate
    ensures r == (if copy == InsightsModule then TipHot else TipHotPage) <==>
      risk != High && risk != Moderate && HotReading(tempC)
    ensures r == TipWindy <==>
      risk != High && risk != Moderate && !HotReading(tempC) && WindyReading(windMs)
    ensures r == TipFair <==>
      risk != High && risk != Moderate && !HotReading(tempC) && !WindyReading(windMs)
  {
    var b := Cascade(risk, tempC, windMs);
    LinesDistinct(copy, b);
    assert TipLine(copy, RainLikely) == TipRain && TipLine(copy, Showers) == TipShowers;
    assert TipLine(copy, Windy) == TipWindy && TipLine(copy, Fair) == TipFair;
    TipLine(copy, b)
  }

  /** The tip always comes from the same branch as the headline: two inputs
      with the same headline get the same tip. */
  lemma TipFollowsHero(copy: Copy, r1: RainRisk, t1: Option<real>, w1: Option<real>,
                       r2: RainRisk, t2: Option<real>, w2: Option<real>)
    requires MakeHero(copy, r1, t1, w1) == MakeHero(copy, r2, t2, w2)
    ensures Cascade(r1, t1, w1) == Cascade(r2, t2, w2)
    ensures MakeTip(copy, r1, t1, w1) == MakeTip(copy, r2, t2, w2)
  {
    if Cascade(r1, t1, w1) != Cascade(r2, t2, w2) {
      HeroLineInjective(copy, Cascade(r1, t1, w1), Cascade(r2, t2, w2));
    }
  }

  // ---------------------------------------------------------------------
  // Badges
  // ---------------------------------------------------------------------

  /** One status chip. */
  datatype Badge =
    | RainBadge(risk: RainRisk)
    | HoursBadge(count: nat)
    | TempBadge(degrees: int, unit: string)
    | WindBadge(speed: int)

  /** Position of each kind of chip in the list. */
  function Slot(b: Badge): nat
  {
    match b
    case RainBadge(_) => 0
    case HoursBadge(_) => 1
    case TempBadge(_, _) => 2
    case WindBadge(_) => 3
  }

  /** The chip's text. */
  function BadgeText(b: Badge): string
  {
    match b
    case RainBadge(r) => "Rain: " + RiskName(r)
    case HoursBadge(n) => NatText(n) + "h data"
    case TempBadge(d, u) => IntText(d) + "°" + u + " now"
    case WindBadge(s) => IntText(s) + " m/s wind"
  }

  function Count(c: bool): nat
  {
    if c then 1 else 0
  }

  /** The optional chips: one element when the input is present. */
  function HoursChip(hoursCount: nat): seq<Badge>
  {
    if hoursCount > 0 then [HoursBadge(hoursCount)] else []
  }

  function TempChip(latestTemp: Option<real>, unit: string): seq<Badge>
  {
    if latestTemp.Some? then [TempBadge(Round(latestTemp.value), unit)] else []
  }

  function WindChip(latestWind: Option<real>): seq<Badge>
  {
    if latestWind.Some? then [WindBadge(Round(latestWind.value))] else []
  }

  /** `makeBadges`: the rain chip always comes first; the hours, temperature
      and wind chips follow in that order, each present exactly when its
      input is (a zero hour count counts as absent). `unit` is "C" in
      src/insights.js and the page's units setting in src/pages/Today.jsx. */
  function MakeBadges(risk: RainRisk, hoursCount: nat, latestTemp: Option<real>,
                      latestWind: Option<real>, unit: string): (r: seq<Badge>)
    ensures |r| == 1 + Count(hoursCount > 0) + Count(latestTemp.Some?) + Count(latestWind.Some?)
    ensures 1 <= |r| <= 4
    ensures r[0] == RainBadge(risk)
    ensures hoursCount > 0 ==> r[1] == HoursBadge(hoursCount)
  {
    [RainBadge(risk)] + HoursChip(hoursCount) + TempChip(latestTemp, unit) + WindChip(latestWind)
  }

  /** Every chip of the list comes from one of its four parts. */
  lemma BadgeSources(risk: RainRisk, hoursCount: nat, latestTemp: Option<real>,
                     latestWind: Option<real>, unit: string)
    ensures var r := MakeBadges(risk, hoursCount, latestTemp, latestWind, unit);
      forall i :: 0 <= i < |r| ==>
        r[i] == RainBadge(risk) || r[i] in HoursChip(hoursCount)
        || r[i] in TempChip(latestTemp, unit) || r[i] in WindChip(latestWind)
  {
    var hours := HoursChip(hoursCount);
    var temp := TempChip(latestTemp, unit);
    var wind := WindChip(latestWind);
    var r := [RainBadge(risk)] + hours + temp + wind;
    forall i | 0 <= i < |r|
      ensures r[i] == RainBadge(risk) || r[i] in hours || r[i] in temp || r[i] in wind
    {
      if i == 0 {
      } else if i < 1 + |hours| {
        assert r[i] == hours[i - 1];
      } else if i < 1 + |hours| + |temp| {
        assert r[i] == temp[i - 1 - |hours|];
      } else {
        assert r[i] == wind[i - 1 - |hours| - |temp|];
      }
    }
  }

  /** The chips keep the fixed order rain, hours, temperature, wind, so no
      kind appears twice. */
  lemma BadgeOrder(risk: RainRisk, hoursCount: nat, latestTemp: Option<real>,
                   latestWind: Option<real>, unit: string)
    ensures var r := MakeBadges(risk, hoursCount, latestTemp, latestWind, unit);
      forall i, j :: 0 <= i < j < |r| ==> Slot(r[i]) < Slot(r[j])
  {
    var hours := HoursChip(hoursCount);
    var temp := TempChip(latestTemp, unit);
    var wind := WindChip(latestWind);
    var r := [RainBadge(risk)] + hours + temp + wind;
    assert forall i :: 0 < i < 1 + |hours| ==> r[i] == hours[i - 1];
    assert forall i :: 1 + |hours| <= i < 1 + |hours| + |temp| ==> r[i] == temp[i - 1 - |hours|];
    assert forall i :: 1 + |hours| + |temp| <= i < |r| ==> r[i] == wind[i - 1 - |hours| - |temp|];
  }

  /** A chip of each optional kind is present exactly when its input is, and
      carries that input: the hour count, the rounded temperature with the
      unit, the rounded wind speed. */
  lemma BadgeContents(risk: RainRisk, hoursCount: nat, latestTemp: Option<real>,
                      latestWind: Option<real>, unit: string)
    ensures var r := MakeBadges(risk, hoursCount, latestTemp, latestWind, unit);
      && ((exists i :: 0 <= i < |r| && r[i].HoursBadge?) <==> hoursCount > 0)
      && ((exists i :: 0 <= i < |r| && r[i].TempBadge?) <==> latestTemp.Some?)
      && ((exists i :: 0 <= i < |r| && r[i].WindBadge?) <==> latestWind.Some?)
      && (forall i :: 0 <= i < |r| && r[i].HoursBadge? ==> r[i].count == hoursCount)
      && (forall i :: 0 <= i < |r| && r[i].TempBadge? ==>
            latestTemp.Some? && r[i].degrees == Round(latestTemp.value) && r[i].unit == unit)
      && (forall i :: 0 <= i < |r| && r[i].WindBadge? ==>
            latestWind.Some? && r[i].speed == Round(latestWind.value))
  {
    var hours := HoursChip(hoursCount);
    var temp := TempChip(latestTemp, unit);
    var wind := WindChip(latestWind);
    var r := [RainBadge(risk)] + hours + temp + wind;
    BadgeSources(risk, hoursCount, latestTemp, latestWind, unit);
    if hoursCount > 0 {
      assert r[1].HoursBadge?;
    }
    if latestTemp.Some? {
      assert r[1 + |hours|].TempBadge?;
    }
    if latestWind.Some? {
      assert r[|r| - 1].WindBadge?;
    }
  }

  /** The rendered chip list of src/insights.js: "Rain: " and the risk
      label first, then "<n>h data" when the hour count is non-zero, the
      rounded temperature with "°C now" when there is one, and the rounded
      wind with " m/s wind" when there is one, in that order. */
  function InsightBadgeTexts(risk: RainRisk, hoursCount: nat, latestTemp: Option<real>,
                             latestWind: Option<real>): (r: seq<string>)
    ensures r ==
      ["Rain: " + RiskName(risk)]
      + (if hoursCount > 0 then [NatText(hoursCount) + "h data"] else [])
      + (if latestTemp.Some? then [IntText(Round(latestTemp.value)) + "°C now"] else [])
      + (if latestWind.Some? then [IntText(Round(latestWind.value)) + " m/s wind"] else [])
  {
    var hours := HoursChip(hoursCount);
    var temp := TempChip(latestTemp, "C");
    var wind := WindChip(latestWind);
    TextsConcat([RainBadge(risk)], hours, temp, wind);
    ChipTexts(risk, hoursCount, latestTemp, latestWind);
    Texts([RainBadge(risk)] + hours + temp + wind)
  }

  lemma ChipTexts(risk: RainRisk, hoursCount: nat, latestTemp: Option<real>, latestWind: Option<real>)
    ensures Texts([RainBadge(risk)]) == ["Rain: " + RiskName(risk)]
    ensures Texts(HoursChip(hoursCount)) == if hoursCount > 0 then [NatText(hoursCount) + "h data"] else []
    ensures Texts(TempChip(latestTemp, "C")) ==
      if latestTemp.Some? then [IntText(Round(latestTemp.value)) + "°C now"] else []
    ensures Texts(WindChip(latestWind)) ==
      if latestWind.Some? then [IntText(Round(latestWind.value)) + " m/s wind"] else []
  {
    if latestTemp.Some? {
      var i := IntText(Round(latestTemp.value));
      assert i + "°" + "C" + " now" == i + "°C now";
    }
  }

  /** The text of each chip, in order. */
  function Texts(bs: seq<Badge>): (r: seq<string>)
    ensures |r| == |bs|
    ensures forall i :: 0 <= i < |bs| ==> r[i] == BadgeText(bs[i])
  {
    seq(|bs|, i requires 0 <= i < |bs| => BadgeText(bs[i]))
  }

  lemma TextsConcat(a: seq<Badge>, b: seq<Badge>, c: seq<Badge>, d: seq<Badge>)
    ensures Texts(a + b + c + d) == Texts(a) + Texts(b) + Texts(c) + Texts(d)
  {
    var l := Texts(a + b + c + d);
    var r := Texts(a) + Texts(b) + Texts(c) + Texts(d);
    assert |l| == |r|;
    forall i | 0 <= i < |l| ensures l[i] == r[i] {
      if i < |a| {
      } else if i < |a| + |b| {
        assert (a + b + c + d)[i] == b[i - |a|];
      } else if i < |a| + |b| + |c| {
        assert (a + b + c + d)[i] == c[i - |a| - |b|];
      } else {
        assert (a + b + c + d)[i] == d[i - |a| - |b| - |c|];
      }
    }
  }

  // ---------------------------------------------------------------------
  // Week summary
  // ---------------------------------------------------------------------

  /** One day of the outlook, as `summarizeWeek` receives it. */
  datatype Day = Day(temp: Option<real>, rain: Option<real>)

  /** `(d.rain ?? 0) >= 5`: an absent rain amount counts as zero, so never
      wet; the temperature plays no part. */
  predicate IsWet(d: Day)
  {
    (if d.rain.Some? then d.rain.value else 0.0) >= 5.0
  }

  function WetCount(days: seq<Day>): (n: nat)
    ensures n <= |days|
  {
    if |days| == 0 then 0
    else WetCount(days[..|days| - 1]) + Count(IsWet(days[|days| - 1]))
  }

  /** The temperatures of the days that have one, in order. */
  function Temps(days: seq<Day>): (ts: seq<real>)
    ensures |ts| <= |days|
    ensures |ts| == 0 <==> forall i :: 0 <= i < |days| ==> days[i].temp.None?
  {
    if |days| == 0 then []
    else
      var init := Temps(days[..|days| - 1]);
      var d := days[|days| - 1];
      if d.temp.Some? then init + [d.temp.value] else init
  }

  /** A single day contributes its temperature when it has one. */
  lemma TempsOfDay(d: Day)
    ensures Temps([d]) == if d.temp.Some? then [d.temp.value] else []
  {
    assert [d][..0] == [];
  }

  /** `filter` works day by day: the kept temperatures of two stretches of
      days, one after the other, are those of the first stretch followed by
      those of the second. With `TempsOfDay` this pins `Temps` to the present
      temperatures in day order. */
  lemma {:induction false} TempsAppend(a: seq<Day>, b: seq<Day>)
    ensures Temps(a + b) == Temps(a) + Temps(b)
    decreases |b|
  {
    if |b| == 0 {
      assert a + b == a;
    } else {
      var ab := a + b;
      var b' := b[..|b| - 1];
      assert ab[..|ab| - 1] == a + b';
      assert ab[|ab| - 1] == b[|b| - 1];
      TempsAppend(a, b');
      var d := b[|b| - 1];
      if d.temp.Some? {
        assert Temps(a) + Temps(b') + [d.temp.value] == Temps(a) + (Temps(b') + [d.temp.value]);
      }
    }
  }

  datatype WeekSummary = NoSummary | Summary(avgC: int, wetDays: nat)

  /** `summarizeWeek`: no summary exactly when no day has a temperature;
      otherwise the rounded mean of the present temperatures and the number
      of wet days among all days. */
  function SummarizeWeek(days: seq<Day>): (r: WeekSummary)
    ensures r.NoSummary? <==> forall i :: 0 <= i < |days| ==> days[i].temp.None?
    ensures r.Summary? ==> r.avgC == Round(Mean(Temps(days))) && r.wetDays == WetCount(days)
  {
    var ts := Temps(days);
    if |ts| == 0 then NoSummary else Summary(Round(Mean(ts)), WetCount(days))
  }

  /** The wet-day count is the number of wet days, whether or not they have a
      temperature. */
  lemma {:induction false} WetCountIsCardinality(days: seq<Day>)
    ensures WetCount(days) == |set i | 0 <= i < |days| && IsWet(days[i])|
  {
    if |days| > 0 {
      var init := days[..|days| - 1];
      WetCountIsCardinality(init);
      var last := |days| - 1;
      var a := set i | 0 <= i < |init| && IsWet(init[i]);
      var s := set i | 0 <= i < |days| && IsWet(days[i]);
      if IsWet(days[last]) {
        assert s == a + {last};
      } else {
        assert s == a;
      }
    }
  }

  /** The reported average lies between the rounded coldest and warmest
      temperature of the week. */
  lemma WeekAverageBetween(days: seq<Day>, lo: real, hi: real)
    requires exists i :: 0 <= i < |days| && days[i].temp.Some?
    requires forall i :: 0 <= i < |days| && days[i].temp.Some? ==> lo <= days[i].temp.value <= hi
    ensures SummarizeWeek(days).Summary?
    ensures Round(lo) <= SummarizeWeek(days).avgC <= Round(hi)
  {
    var ts := Temps(days);
    TempsBounded(days, lo, hi);
    MeanBounds(ts, lo, hi);
    RoundMonotone(lo, Mean(ts));
    RoundMonotone(Mean(ts), hi);
  }

  lemma {:induction false} TempsBounded(days: seq<Day>, lo: real, hi: real)
    requires forall i :: 0 <= i < |days| && days[i].temp.Some? ==> lo <= days[i].temp.value <= hi
    ensures forall j :: 0 <= j < |Temps(days)| ==> lo <= Temps(days)[j] <= hi
  {
    if |days| > 0 {
      TempsBounded(days[..|days| - 1], lo, hi);
    }
  }

  lemma RoundMonotone(a: real, b: real)
    requires a <= b
    ensures Round(a) <= Round(b)
  {
  }

  const NoWeekSummary := "No week summary available."
  const OneWetDay := " wet day expected."
  const ManyWetDays := " wet days expected."

  /** The sentence `summarizeWeek` returns. */
  function WeekText(s: WeekSummary): string
  {
    match s
    case NoSummary => NoWeekSummary
    case Summary(avg, wet) =>
      "Avg ~" + (IntText(avg) + ("°C, " + (NatText(wet) + WetTail(wet))))
  }

  /** The sentence's closing words: singular for exactly one wet day. */
  function WetTail(wet: nat): string
  {
    if wet == 1 then OneWetDay else ManyWetDays
  }

  lemma SuffixOfConcat(a: string, b: string, k: nat)
    requires k <= |b|
    ensures (a + b)[|a + b| - k..] == b[|b| - k..]
  {
  }

  /** "day" is singular exactly when one day is wet, and a real summary never
      reads like the fallback sentence. */
  lemma WeekTextPlural(s: WeekSummary)
    requires s.Summary?
    ensures var t := WeekText(s);
      |t| >= 18 && (t[|t| - 18..] == " wet day expected." <==> s.wetDays == 1)
    ensures WeekText(s) != NoWeekSummary
  {
    var i := IntText(s.avgC);
    var n := NatText(s.wetDays);
    var tail := WetTail(s.wetDays);
    var t := WeekText(s);
    assert |OneWetDay| == 18 && |ManyWetDays| == 19;
    assert ManyWetDays[1..][0] == 'w';
    SuffixOfConcat(n, tail, 18);
    SuffixOfConcat("°C, ", n + tail, 18);
    SuffixOfConcat(i, "°C, " + (n + tail), 18);
    SuffixOfConcat("Avg ~", i + ("°C, " + (n + tail)), 18);
    assert t[0] == 'A';
    assert NoWeekSummary[0] == 'N';
  }

  /** In `x + c`, where no character of x is m and c starts with m, the
      first m sits at index |x|. */
  lemma FirstMark(x: string, c: string, m: char)
    requires forall i :: 0 <= i < |x| ==> x[i] != m
    requires |c| > 0 && c[0] == m
    ensures (x + c)[|x|] == m
    ensures forall i :: 0 <= i < |x| ==> (x + c)[i] != m
  {
  }

  /** A string none of whose characters is m, followed by text starting with
      m, splits only one way. */
  lemma SplitAtMark(x: string, c: string, y: string, d: string, m: char)
    requires forall i :: 0 <= i < |x| ==> x[i] != m
    requires forall i :: 0 <= i < |y| ==> y[i] != m
    requires |c| > 0 && c[0] == m && |d| > 0 && d[0] == m
    requires x + c == y + d
    ensures x == y && c == d
  {
    FirstMark(x, c, m);
    FirstMark(y, d, m);
    assert |x| == |y|;
    assert x == (x + c)[..|x|] && y == (y + d)[..|y|];
    assert c == (x + c)[|x|..] && d == (y + d)[|y|..];
  }

  /** The rendering of an integer is made of digits and '-'. */
  lemma IntTextChars(i: int)
    ensures forall k :: 0 <= k < |IntText(i)| ==> IsDigit(IntText(i)[k]) || IntText(i)[k] == '-'
  {
    var t := IntText(i);
    if i < 0 {
      forall k | 0 <= k < |t| ensures IsDigit(t[k]) || t[k] == '-' {
        if k > 0 {
          assert t[k] == t[1..][k - 1];
        }
      }
    }
  }

  lemma IntTextInjective(i: int, j: int)
    requires IntText(i) == IntText(j)
    ensures i == j
  {
    if i >= 0 && j >= 0 {
      NatTextInjective(i, j);
    } else if i < 0 && j < 0 {
      NatTextInjective(-i, -j);
    }
  }

  /** Two summary sentences agree only for equal summaries. */
  lemma SummaryTextInjective(a: int, x: nat, b: int, y: nat)
    requires WeekText(Summary(a, x)) == WeekText(Summary(b, y))
    ensures a == b && x == y
  {
    var ra := "°C, " + (NatText(x) + WetTail(x));
    var rb := "°C, " + (NatText(y) + WetTail(y));
    assert WeekText(Summary(a, x))[5..] == IntText(a) + ra;
    assert WeekText(Summary(b, y))[5..] == IntText(b) + rb;
    IntTextChars(a);
    IntTextChars(b);
    SplitAtMark(IntText(a), ra, IntText(b), rb, '°');
    IntTextInjective(a, b);
    assert ra[4..] == NatText(x) + WetTail(x) && rb[4..] == NatText(y) + WetTail(y);
    assert WetTail(x)[0] == ' ' && WetTail(y)[0] == ' ';
    SplitAtMark(NatText(x), WetTail(x), NatText(y), WetTail(y), ' ');
    NatTextInjective(x, y);
  }

  /** Different summaries read differently: the average and the wet-day
      count can be read back from the sentence, and the fallback sentence
      is never a summary's. */
  lemma WeekTextInjective(a: WeekSummary, b: WeekSummary)
    requires WeekText(a) == WeekText(b)
    ensures a == b
  {
    if a.Summary? && b.Summary? {
      SummaryTextInjective(a.avgC, a.wetDays, b.avgC, b.wetDays);
    } else if a.Summary? {
      WeekTextPlural(a);
    } else if b.Summary? {
      WeekTextPlural(b);
    }
  }
}
