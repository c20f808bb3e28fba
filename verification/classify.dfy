/**
 Threshold classifiers for rain risk, heat and wind (identical copies live in
 src/insights.js and src/pages/Today.jsx). Absent inputs get their own tier,
 distinct from the lowest real tier.
 */
module Classify {
  import opened Numbers

  // ---------------------------------------------------------------------
  // Rain risk
  // ---------------------------------------------------------------------

  datatype RainRisk = Unknown | Low | Moderate | High

  /** Ordinal severity: Unknown < Low < Moderate < High. */
  function Severity(r: RainRisk): nat
  {
    match r
    case Unknown => 0
    case Low => 1
    case Moderate => 2
    case High => 3
  }

  /** The label the source returns and shows. */
  function RiskName(r: RainRisk): string
  {
    match r
    case Unknown => "Unknown"
    case Low => "Low"
    case Moderate => "Moderate"
    case High => "High"
  }

  /** Cut-points on the mean precipitation rate, in mm/hr. */
  const HighRainAt: real := 1.5
  const ModerateRainAt: real := 0.3

  /** `rainRiskFromAvgMmPerHr`: each tier covers a half-open band of the
      average, and only an absent average is Unknown. */
  function RainRiskFromAvg(avg: Option<real>): (r: RainRisk)
    ensures r == Unknown <==> avg.None?
    ensures r == High <==> avg.Some? && avg.value >= HighRainAt
    ensures r == Moderate <==> avg.Some? && ModerateRainAt <= avg.value < HighRainAt
    ensures r == Low <==> avg.Some? && avg.value < ModerateRainAt
  {
    match avg
    case None => Unknown
    case Some(a) =>
      if a >= HighRainAt then High
      else if a >= ModerateRainAt then Moderate
      else Low
  }

  /** A larger average never gives a less severe risk. */
  lemma RainRiskMonotone(a: real, b: real)
    requires a <= b
    ensures Severity(RainRiskFromAvg(Some(a))) <= Severity(RainRiskFromAvg(Some(b)))
    ensures Severity(RainRiskFromAvg(Some(a))) >= Severity(Low)
  {
  }

  /** Distinct risks carry distinct labels, so comparing labels (as the
      source does) is the same as comparing risks. */
  lemma RiskNameInjective(a: RainRisk, b: RainRisk)
    requires RiskName(a) == RiskName(b)
    ensures a == b
  {
  }

  // ---------------------------------------------------------------------
  // Heat
  // ---------------------------------------------------------------------

  datatype Heat = NoTemp | Cold | Cool | Mild | Warm | VeryHot | ExtremeHeat

  function HeatRank(h: Heat): nat
  {
    match h
    case NoTemp => 0
    case Cold => 1
    case Cool => 2
    case Mild => 3
    case Warm => 4
    case VeryHot => 5
    case ExtremeHeat => 6
  }

  function HeatLabel(h: Heat): string
  {
    match h
    case NoTemp => "—"
    case Cold => "Cold"
    case Cool => "Cool"
    case Mild => "Mild"
    case Warm => "Warm"
    case VeryHot => "Very hot"
    case ExtremeHeat => "Extreme heat"
  }

  /** `heatLevelFromTempC`: inclusive lower bounds 37, 32, 27, 18 and 10 °C;
      only an absent temperature gives the "—" tier. */
  function HeatLevel(t: Option<real>): (h: Heat)
    ensures h == NoTemp <==> t.None?
    ensures h == ExtremeHeat <==> t.Some? && t.value >= 37.0
    ensures h == VeryHot <==> t.Some? && 32.0 <= t.value < 37.0
    ensures h == Warm <==> t.Some? && 27.0 <= t.value < 32.0
    ensures h == Mild <==> t.Some? && 18.0 <= t.value < 27.0
    ensures h == Cool <==> t.Some? && 10.0 <= t.value < 18.0
    ensures h == Cold <==> t.Some? && t.value < 10.0
  {
    match t
    case None => NoTemp
    case Some(c) =>
      if c >= 37.0 then ExtremeHeat
      else if c >= 32.0 then VeryHot
      else if c >= 27.0 then Warm
      else if c >= 18.0 then Mild
      else if c >= 10.0 then Cool
      else Cold
  }

  /** A warmer reading never lands in a cooler tier. */
  lemma HeatMonotone(a: real, b: real)
    requires a <= b
    ensures HeatRank(HeatLevel(Some(a))) <= HeatRank(HeatLevel(Some(b)))
  {
  }

  /** Every tier has its own label; in particular "—" is not "Cold". */
  lemma HeatLabelInjective(a: Heat, b: Heat)
    requires HeatLabel(a) == HeatLabel(b)
    ensures a == b
  {
  }

  // ---------------------------------------------------------------------
  // Wind
  // ---------------------------------------------------------------------

  datatype Wind = NoWind | Calm | LightWind | Breezy | StrongWind

  function WindRank(w: Wind): nat
  {
    match w
    case NoWind => 0
    case Calm => 1
    case LightWind => 2
    case Breezy => 3
    case StrongWind => 4
  }

  function WindName(w: Wind): string
  {
    match w
    case NoWind => "—"
    case Calm => "Calm"
    case LightWind => "Light wind"
    case Breezy => "Breezy"
    case StrongWind => "Strong wind"
  }

  /** `windLabel`: inclusive lower bounds 14, 8 and 4 m/s; only an absent
      speed gives the "—" tier. */
  function WindLevel(ms: Option<real>): (w: Wind)
    ensures w == NoWind <==> ms.None?
    ensures w == StrongWind <==> ms.Some? && ms.value >= 14.0
    ensures w == Breezy <==> ms.Some? && 8.0 <= ms.value < 14.0
    ensures w == LightWind <==> ms.Some? && 4.0 <= ms.value < 8.0
    ensures w == Calm <==> ms.Some? && ms.value < 4.0
  {
    match ms
    case None => NoWind
    case Some(v) =>
      if v >= 14.0 then StrongWind
      else if v >= 8.0 then Breezy
      else if v >= 4.0 then LightWind
      else Calm
  }

  /** A faster wind never lands in a calmer tier. */
  lemma WindMonotone(a: real, b: real)
    requires a <= b
    ensures WindRank(WindLevel(Some(a))) <= WindRank(WindLevel(Some(b)))
  {
  }

  lemma WindNameInjective(a: Wind, b: Wind)
    requires WindName(a) == WindName(b)
    ensures a == b
  {
  }
}
