# climamuse core, modelled in Dafny

climamuse is a small weather dashboard. The Today page fetches hourly NASA
POWER data for a location: 2 m temperature (T2M), corrected precipitation
(PRECTOTCORR) and 2 m wind speed (WS2M). It flattens the payload into three
time-ordered series and derives several values from them:

- a 3-hour rain average and the rain risk built on it;
- a one-line headline (the "hero"), a list of badges ("chips") and a tip;
- two sparkline charts.

Beside the page sit three other pieces:

- a shared insights module holding the same classifiers, plus a
  week-summary sentence;
- a series-based rain-risk heuristic;
- a serverless handler that proxies the NASA GES DISC Data Rods time-series
  service and parses its plain-text answer into rows.

This project models those pieces as pure Dafny functions over immutable
datatypes and proves properties about them.

| file | module | what it models |
|---|---|---|
| `numbers.dfy` | `Numbers` | the shared `clean` (the -900 missing-value sentinel), `Math.round`, means and `slice(-k)` |
| `text.dfy` | `Text` | decimal rendering, `padStart(2, "0")`, ECMAScript `trim`, and the sorted key order of `Object.keys(...).sort()` |
| `classify.dfy` | `Classify` | the rain-risk, heat and wind tiers |
| `narrative.dfy` | `Narrative` | the hero and tip cascade, the badges, and the week sentence |
| `flatten.dfy` | `PowerSeries` | the POWER payload and `flatten` |
| `today.dfy` | `TodayView` | the Today page's derived values and the cards it fills |
| `scoring.dfy` | `Scoring` | `rainRiskFromSeries` |
| `sparkline.dfy` | `Sparkline` | the sparkline's points, its projection and its SVG path |
| `datarods.dfy` | `DataRods` | the Data Rods handler: parameter check, upstream outcomes, and the line, token and row parsing |

How the model represents the program:

- **Numbers are mathematical reals.** A value that went through JavaScript's
  `Number(...)` is a `Raw`: either `Num(x)` or `NonFinite`, where `NonFinite`
  stands for NaN and the infinities.
- **`Math.round(x)`** is `floor(x + 0.5)`, which is what JavaScript does,
  including at halves of negative numbers.
- **`Number(s)` on text is a parameter.** The Data Rods parser receives the
  abstract conversion `num: string -> Raw`. It fixes only what ECMAScript
  fixes without a grammar: a blank string converts to 0.
- **Upstream answers are inputs.** The page's fetches and the handler's
  upstream request become values passed in. For the handler, an upstream call
  either answered with (ok, status, body text) or threw with a message.

Behaviours of the code worth noting:

- **The sparkline needs at least two plotted points.** A single valid reading
  shows "No data" (src/components/Sparkline.jsx:19).
- **A row's time can be empty.** A Data Rods row takes its time from the
  trimmed line. If that line starts with a comma, the first token is empty
  (`RowTime`).
- **A trailing comma gives the value 0.** `"t,"` yields the value 0, not
  null, because `Number("")` is 0 (`RowOfPair`).
- **Indented comment lines are kept.** A line is dropped as a comment only
  when its first character, before trimming, is `#`.
- **The two hero/tip copies differ in wording.** The Today page's copy says
  "; secure light items" and "plan shade breaks". The insights module says
  ", secure light items" and "add shade breaks". Both share one cascade
  (`Narrative.Cascade`).
- **Only `clean` drops missing values.** `tempRowsForChart` filters
  `value != null`, but no flattened value is null, so the filter drops
  nothing (`TodayView.TempRowsForChart`).

## Model

| member | source | states |
|---|---|---|
| Numbers.Clean | src/insights.js:4-8 | a reading is dropped exactly when it is not a finite number or is at or below the -900 sentinel; a kept reading is returned unchanged |
| Numbers.Round | src/pages/Today.jsx:173 | `Math.round` lands within half a unit of its argument, rounding halves up |
| Numbers.Last | src/lib/scoring.js:5 | `slice(-k)` keeps the last min(k, n) elements, in order |
| Numbers.LastIgnoresPrefix | src/lib/scoring.js:5 | once a sequence has k elements, anything in front of it does not change its last k |
| Numbers.MeanBounds | src/insights.js:90 | the mean of values between lo and hi is between lo and hi |
| Numbers.SumBounds | src/insights.js:90 | the running sum of n values between lo and hi lies between n*lo and n*hi |
| Text.NatText | src/pages/Today.jsx:100-102 | the decimal text of a natural number is a non-empty digit string without a leading zero |
| Text.NatTextRoundTrip | src/pages/Today.jsx:100-102 | reading the decimal text of n back as digits gives n |
| Text.NatTextInjective | src/insights.js:92-94 | distinct counts render as distinct texts |
| Text.IntText | src/insights.js:92 | a rounded average renders with a minus sign exactly when it is negative, followed by the digits of its magnitude |
| Text.Pad2 | src/pages/Today.jsx:100-102 | `padStart(2, "0")` of an hour gives digits whose value is the hour, exactly two of them below 100 |
| Text.DigitChar | src/pages/Today.jsx:100-102 | a digit below ten renders as a digit character |
| Text.TrimStart | src/api/datarods.js:37 | leading trimming returns a suffix that does not start with whitespace |
| Text.TrimStartDropsSpace | src/api/datarods.js:37 | everything leading trimming removes is whitespace |
| Text.TrimEnd | src/api/datarods.js:37 | trailing trimming returns a prefix that does not end with whitespace |
| Text.TrimEndDropsSpace | src/api/datarods.js:37 | everything trailing trimming removes is whitespace |
| Text.Trim | src/api/datarods.js:33 | `trim()` neither starts nor ends with whitespace and is no longer than its input |
| Text.TrimIsInfix | src/api/datarods.js:37 | the trimmed line is a contiguous piece of the line, with only whitespace cut on either side |
| Text.TrimEmptyIffBlank | src/api/datarods.js:33 | `l.trim()` is empty exactly when the line is all whitespace, which is when the filter drops it |
| Text.TrimFixpoint | src/api/datarods.js:37 | a string with non-whitespace ends is its own trim |
| Text.TrimIdempotent | src/api/datarods.js:37 | trimming twice is trimming once |
| Text.LexIrreflexive | src/pages/Today.jsx:92 | the default sort's string order is irreflexive |
| Text.LexAsymmetric | src/pages/Today.jsx:92 | the default sort's string order is asymmetric |
| Text.LexTransitive | src/pages/Today.jsx:92 | the default sort's string order is transitive |
| Text.LexTotal | src/pages/Today.jsx:92 | any two distinct date keys are ordered one way or the other |
| Text.LeastExists | src/pages/Today.jsx:92 | every non-empty key set has a least key |
| Text.LeastUnique | src/pages/Today.jsx:92 | that least key is unique |
| Text.PrependLeast | src/pages/Today.jsx:92 | putting the least key before a sorted listing of the other keys gives a sorted listing of all of them |
| Text.SortedKeys | src/pages/Today.jsx:92 | `Object.keys(p.T2M).sort()` lists every key exactly once, in strictly increasing order |
| Classify.RainRiskFromAvg | src/insights.js:11-16 | Unknown iff there is no average; High iff the average is at least 1.5; Moderate iff it is in [0.3, 1.5); Low iff it is below 0.3 |
| Classify.RainRiskMonotone | src/insights.js:11-16 | a wetter average never gives a lower risk, and a present average is never Unknown |
| Classify.RiskNameInjective | src/insights.js:12-15 | the four risk labels are distinct, so comparing labels is comparing risks |
| Classify.HeatLevel | src/insights.js:18-26 | each heat tier holds exactly for its band: at least 37, [32, 37), [27, 32), [18, 27), [10, 18), below 10; no reading gives "—" |
| Classify.HeatMonotone | src/insights.js:18-26 | a hotter reading never gives a cooler tier |
| Classify.HeatLabelInjective | src/insights.js:19-25 | the heat labels are distinct, so the cascade's label tests are tier tests |
| Classify.WindLevel | src/insights.js:28-34 | each wind tier holds exactly for its band: at least 14, [8, 14), [4, 8), below 4; no reading gives "—" |
| Classify.WindMonotone | src/insights.js:28-34 | a stronger wind never gives a calmer tier |
| Classify.WindNameInjective | src/insights.js:29-33 | the wind labels are distinct |
| Narrative.Cascade | src/insights.js:37-55 | the headline branch on the readings: rain iff risk is High; showers iff Moderate; otherwise hot iff temperature ≥ 32 °C, else windy iff wind ≥ 14 m/s, else fair |
| Narrative.HeroLineInjective | src/pages/Today.jsx:38-50 | each branch has its own headline in each copy |
| Narrative.TipLineInjective | src/pages/Today.jsx:58-69 | each branch has its own tip in each copy |
| Narrative.LinesDistinct | src/insights.js:37-84 | two different branches never share a headline or a tip |
| Narrative.MakeHero | src/insights.js:37-55 | the rain sentence iff risk is High, the showers sentence iff Moderate, the heat sentence iff neither and temperature ≥ 32 °C, the wind sentence (in the copy's wording) iff also not hot and wind ≥ 14 m/s, the generic sentence otherwise |
| Narrative.MakeTip | src/insights.js:68-84 | the same five-way choice for the tip, with the heat tip in the copy's wording |
| Narrative.TipFollowsHero | src/pages/Today.jsx:58-69 | the tip is determined by the headline: equal headlines mean the same branch and equal tips |
| Narrative.MakeBadges | src/pages/Today.jsx:51-57 | the rain chip comes first and is always present, then the hours chip when the count is non-zero; one to four chips, one per present part |
| Narrative.BadgeSources | src/insights.js:58-65 | every chip comes from one of the four parts: the rain chip or one of the optional chips |
| Narrative.BadgeOrder | src/insights.js:58-65 | chips appear in the fixed order rain, hours, temperature, wind, never repeated |
| Narrative.BadgeContents | src/pages/Today.jsx:51-57 | a chip of each optional kind is present iff its input is, and carries the count, the rounded temperature with its unit, or the rounded wind |
| Narrative.InsightBadgeTexts | src/insights.js:58-65 | the insights copy's chips are exactly "Rain: " and the risk label, then "<n>h data" iff the count is non-zero, "<t>°C now" iff a temperature is given, "<w> m/s wind" iff a wind is given, with t and w rounded |
| Narrative.Texts | src/insights.js:58-65 | one chip text per chip, in chip order |
| Narrative.ChipTexts | src/insights.js:60-63 | each optional chip renders to its template text |
| Narrative.WetCount | src/insights.js:91 | the wet-day count never exceeds the number of days |
| Narrative.WetCountIsCardinality | src/insights.js:91 | the wet-day count is the number of days whose rain (absent read as 0) is at least 5 |
| Narrative.Temps | src/insights.js:88 | the kept temperatures are empty exactly when no day has one |
| Narrative.TempsOfDay | src/insights.js:88 | a single day contributes its temperature iff it has one |
| Narrative.TempsAppend | src/insights.js:88 | the kept temperatures of two stretches of days are those of the first followed by those of the second, so with `TempsOfDay` they are the present temperatures in day order |
| Narrative.SummarizeWeek | src/insights.js:87-95 | there is no summary iff no day has a temperature; otherwise the summary holds the rounded mean of the present temperatures and the wet count |
| Narrative.WeekAverageBetween | src/insights.js:88-92 | when all present temperatures are in [lo, hi], the reported average is between round(lo) and round(hi) |
| Narrative.TempsBounded | src/insights.js:88 | filtering keeps the bounds of the temperatures |
| Narrative.RoundMonotone | src/insights.js:92 | `Math.round` preserves order |
| Narrative.WeekTextPlural | src/insights.js:92-94 | the sentence ends " wet day expected." exactly when one day is wet, and never equals the fallback sentence |
| Narrative.IntTextInjective | src/insights.js:92 | distinct rounded averages render as distinct texts |
| Narrative.SummaryTextInjective | src/insights.js:92-94 | two summary sentences are equal only for the same average and wet count |
| Narrative.WeekTextInjective | src/insights.js:87-95 | the week sentence determines the summary: equal sentences come from equal summaries |
| PowerSeries.Max3 | src/pages/Today.jsx:98 | the hour span is the longest of the three arrays |
| PowerSeries.HourSamples | src/pages/Today.jsx:99-108 | a date's samples are exactly the hours below the span whose cleaned reading is present, in increasing hour order |
| PowerSeries.DateSamples | src/pages/Today.jsx:94-108 | the samples over a date list are exactly those of its dates |
| PowerSeries.Flatten | src/pages/Today.jsx:90-112 | a sample is in the temperature, precipitation or wind series iff it is recorded for T2M, PRECTOTCORR or WS2M at a T2M date and an hour below that date's span; each series is in strictly increasing (date, hour) order |
| PowerSeries.SeriesChronological | src/pages/Today.jsx:92-110 | one parameter's pass is in strictly increasing (date, hour) order |
| PowerSeries.SeriesMembership | src/pages/Today.jsx:90-112 | a sample is in a series iff its date is a T2M date, its hour is below that date's span and its cleaned reading is present and equal; every value is above the sentinel |
| PowerSeries.ChronologicalConcat | src/pages/Today.jsx:94-110 | appending a later date's samples keeps a series in time order |
| PowerSeries.DateSamplesChronological | src/pages/Today.jsx:92-110 | for sorted dates, samples come in strictly increasing (date, hour) order |
| PowerSeries.FlattenTimesDistinct | src/pages/Today.jsx:90-112 | no (date, hour) pair appears twice in any of the three series |
| PowerSeries.ChronologicalDistinct | src/pages/Today.jsx:94-110 | a strictly time ordered series repeats no (date, hour) pair |
| PowerSeries.MissingParameterIsEmpty | src/pages/Today.jsx:91 | a payload without `properties.parameter` flattens to three empty series |
| PowerSeries.Slice | src/pages/Today.jsx:100 | `slice(a, b)` returns at most b - a characters |
| PowerSeries.TimeLayout | src/pages/Today.jsx:100-102 | the timestamp is "YYYY-MM-DDTHH:00:00Z": twenty characters, the date key's year, month and day around dashes, a "T", the two-digit hour that reads back as the hour, and ":00:00Z" |
| PowerSeries.TimeInjective | src/pages/Today.jsx:100-102 | for eight-character date keys, distinct (date, hour) pairs give distinct timestamps |
| TodayView.ToF | src/pages/Today.jsx:14 | `toF` is absent exactly when its input is |
| TodayView.ToFRoundTrip | src/pages/Today.jsx:14 | converting to Fahrenheit and back gives the original reading |
| TodayView.ToFStrictlyIncreasing | src/pages/Today.jsx:14 | the conversion keeps the order of readings |
| TodayView.Display | src/pages/Today.jsx:203 | the units setting "F" converts to Fahrenheit and any other value keeps Celsius; absent stays absent, and the Celsius reading can be recovered |
| TodayView.Latest | src/pages/Today.jsx:167-168 | the latest value is absent iff the series is empty, else it is the last sample's value |
| TodayView.Values | src/pages/Today.jsx:171 | the value list has one entry per sample, in order |
| TodayView.RainAvg3h | src/pages/Today.jsx:170-176 | with samples, the 3-hour average is within 0.005 of the mean of the last min(3, n) values; it is 0 without samples |
| TodayView.PageRainRisk | src/pages/Today.jsx:178 | the page's risk is never Unknown, is Low without samples, and is High iff the rounded average is at least 1.5 |
| TodayView.PageRainRiskRecentOnly | src/pages/Today.jsx:170-178 | only the last three precipitation samples affect the page's risk |
| TodayView.HoursCount | src/pages/Today.jsx:202 | the hour count is the length of the longest series |
| TodayView.TempDisplayLatest | src/pages/Today.jsx:182-189 | the shown temperature is absent iff there is no sample, else it is the rounded latest value in the chosen unit |
| TodayView.TempRowsForChart | src/pages/Today.jsx:191-197 | the chart rows keep every sample's timestamp, order and count, with each value converted to the chosen unit |
| TodayView.TodayRainAndHours | src/pages/Today.jsx:199-206 | the page's first chip carries its never-Unknown risk, and the hours chip counts at least every series' length |
| TodayView.TodayFahrenheitChip | src/pages/Today.jsx:200-206 | in Fahrenheit mode the temperature chip shows the rounded converted latest reading, marked F |
| TodayView.UnitsOnlyAffectBadges | src/pages/Today.jsx:199-207 | the headline and the tip use Celsius readings, so the unit setting changes neither |
| TodayView.PageHeroOnAverage | src/pages/Today.jsx:38-50 | the page copy's headline for a rain average: rain iff ≥ 1.5, showers iff in [0.3, 1.5), heat iff below 0.3 and hot, wind iff also not hot and windy, fair otherwise |
| TodayView.PageTipOnAverage | src/pages/Today.jsx:58-69 | the page copy's tip for a rain average goes with the headline of the same rule |
| TodayView.TodayHeadline | src/pages/Today.jsx:199-207 | the page's headline is the rain sentence iff the rounded 3-hour average is ≥ 1.5, showers iff in [0.3, 1.5), heat iff below 0.3 and the latest temperature is ≥ 32 °C, wind iff also not hot and the latest wind is ≥ 14 m/s, fair otherwise; each tip appears iff its headline does |
| Scoring.Amounts | src/lib/scoring.js:6 | each row contributes its value, or 0 when the value is absent |
| Scoring.AnyAtLeast | src/lib/scoring.js:8 | `some` holds iff some row's value (absent read as 0) reaches the threshold |
| Scoring.RiskFromSeries | src/lib/scoring.js:3-10 | the heuristic never answers Unknown, and answers Low for a missing or empty series |
| Scoring.RecentlyWetIsScan | src/lib/scoring.js:8 | scanning `slice(-6)` finds a wet reading iff one of the last min(6, n) rows has one |
| Scoring.RiskFromSeriesBands | src/lib/scoring.js:5-9 | High iff the last-three mean is at least 0.2; Moderate iff it is below 0.2 and one of the last six values reaches 0.1 |
| Scoring.LowMeansDry | src/lib/scoring.js:8-9 | a Low answer means each of the last six values is below 0.1 |
| Scoring.RecentRowsOnly | src/lib/scoring.js:5-8 | rows before the last six do not affect the answer |
| Sparkline.PointsFrom | src/components/Sparkline.jsx:15-17 | the plotted points are the rows whose value cleans to a number, each at its original index, in index order |
| Sparkline.Points | src/components/Sparkline.jsx:15-17 | a point is plotted iff its index is a row whose value cleans to that point's value; points are in increasing index order |
| Sparkline.PointsMembers | src/components/Sparkline.jsx:15-17 | the points from index 0 are exactly the rows with a clean value |
| Sparkline.PointsComplete | src/components/Sparkline.jsx:15-17 | every row with a clean value is plotted |
| Sparkline.Ys | src/components/Sparkline.jsx:32-33 | the y list has one entry per point, in order |
| Sparkline.Min | src/components/Sparkline.jsx:32 | `Math.min(...)` is one of the values and at most each of them |
| Sparkline.Max | src/components/Sparkline.jsx:33 | `Math.max(...)` is one of the values and at least each of them |
| Sparkline.FrameOf | src/components/Sparkline.jsx:30-33 | x runs from the first to the last point's index; the value range runs from a smallest to a largest plotted value and holds every plotted value |
| Sparkline.LinePath | src/components/Sparkline.jsx:40-42 | the line has one command per point: a move for the first, lines after, each at the projected point |
| Sparkline.Render | src/components/Sparkline.jsx:15-45 | "No data" iff fewer than two points are plotted; otherwise the area is the line closed down to the baseline at the last and first x |
| Sparkline.ScaleBounds | src/components/Sparkline.jsx:36-38 | the scaled offset stays within the drawable extent |
| Sparkline.ScaleMonotone | src/components/Sparkline.jsx:36-38 | scaling keeps order |
| Sparkline.ScaleStrict | src/components/Sparkline.jsx:36 | scaling by a positive extent keeps strict order |
| Sparkline.XEnds | src/components/Sparkline.jsx:35-36 | the first and last indices map to the left and right padding edges |
| Sparkline.XInBox | src/components/Sparkline.jsx:35-36 | every plotted index lands between the horizontal padding edges |
| Sparkline.XStrict | src/components/Sparkline.jsx:35-36 | later indices land strictly further right |
| Sparkline.YEnds | src/components/Sparkline.jsx:37-38 | the minimum maps to the bottom padding edge, and the maximum to the top unless the span was clamped to 1e-6 |
| Sparkline.YMonotone | src/components/Sparkline.jsx:37-38 | larger values are drawn higher (smaller y) |
| Sparkline.YInBox | src/components/Sparkline.jsx:37-38 | every value between min and max lands between the vertical padding edges |
| Sparkline.FrameSpans | src/components/Sparkline.jsx:30-33 | the frame's x range is the first to last index and its y range covers every plotted value |
| Sparkline.LineRunsLeftToRight | src/components/Sparkline.jsx:40-42 | the line path starts at the left padding edge, ends at the right one and moves strictly rightwards |
| Sparkline.LineInBox | src/components/Sparkline.jsx:35-42 | every point of the line lies inside the padded box |
| Sparkline.DrawnGeometry | src/components/Sparkline.jsx:27-45 | a drawn chart's line runs left to right and stays within the padded box |
| Sparkline.ConstantSeriesIsFlat | src/components/Sparkline.jsx:37-38 | a constant series is drawn as a flat line on the bottom padding edge |
| Sparkline.FlatLine | src/components/Sparkline.jsx:37-42 | points whose value is the frame's lowest all lie on the bottom padding edge |
| Sparkline.DefaultBoxGeometry | src/components/Sparkline.jsx:4-5 | in the default 560 x 160 box, two or more points give a chart that runs left to right inside the padding |
| DataRods.ToNumber | src/api/datarods.js:39 | a blank token converts to 0; any other token goes through the number conversion |
| DataRods.Finite | src/api/datarods.js:40 | a value is kept iff it is a finite number, and is then that number |
| DataRods.Excerpt | src/api/datarods.js:25 | `slice(0, 240)` is the prefix of length min(240, n) |
| DataRods.DropCR | src/api/datarods.js:32 | removing an optional CR returns a prefix, and leaves a line without a final CR unchanged |
| DataRods.SplitLinesShape | src/api/datarods.js:32 | the pieces number one more than the line feeds, and none holds a line feed |
| DataRods.Lines | src/api/datarods.js:32 | `split(/\r?\n/)` gives one more piece than there are line feeds, none containing one |
| DataRods.SplitLinesJoin | src/api/datarods.js:32 | for CR-free text, joining the pieces with line feeds rebuilds the input |
| DataRods.LinesRoundTrip | src/api/datarods.js:32 | CR-free text is exactly its lines joined with line feeds |
| DataRods.SplitLinesCRLF | src/api/datarods.js:32 | CRLF and LF endings split alike |
| DataRods.LinesCRLF | src/api/datarods.js:32 | a CR-free text and its CRLF version have the same lines |
| DataRods.SplitLinesAppend | src/api/datarods.js:32 | splitting across a line feed splits the two sides independently, when the left side does not end in CR |
| DataRods.LinesAppend | src/api/datarods.js:32 | the lines of a + "\n" + b are the lines of a followed by the lines of b, when a does not end in CR |
| DataRods.Filter | src/api/datarods.js:33 | filtering never lengthens a list |
| DataRods.FilterMembers | src/api/datarods.js:33 | a line survives the filter iff it was there and passes the test |
| DataRods.FilterAppend | src/api/datarods.js:33 | filtering distributes over concatenation |
| DataRods.Kept | src/api/datarods.js:33 | a line survives iff it has a non-whitespace character and does not start with '#' |
| DataRods.SkipSeps | src/api/datarods.js:37 | skipping a separator run removes only commas and whitespace and stops at a non-separator |
| DataRods.FirstSep | src/api/datarods.js:37 | the first separator position has no separator before it |
| DataRods.FieldsFirst | src/api/datarods.js:37-38 | the first field is the text up to the first separator |
| DataRods.FieldsNoSep | src/api/datarods.js:37 | no field contains a comma or whitespace |
| DataRods.FieldsShape | src/api/datarods.js:37 | interior fields are non-empty, and there is one field iff there is no separator |
| DataRods.Tokens | src/api/datarods.js:37 | `split(/[,\s]+/)`: the first token runs to the first separator, no token holds a separator, interior tokens are non-empty, one token iff no separator |
| DataRods.FieldsRest | src/api/datarods.js:37 | with a separator present, the first field ends at it and the other fields are those after the whole separator run |
| DataRods.TokensRest | src/api/datarods.js:37 | with a separator present, the tokens are the text before the first separator followed by the tokens after the whole run of commas and whitespace |
| DataRods.CutAfterWordChar | src/api/datarods.js:37 | moving a word character into the pending field leaves the cut where it was |
| DataRods.FirstSepAfterWord | src/api/datarods.js:37 | a separator-free word followed by a separator or the end has its first separator right after the word |
| DataRods.SkipSepsRun | src/api/datarods.js:37 | a run of commas and whitespace is skipped entirely and nothing after it |
| DataRods.WholeWord | src/api/datarods.js:37 | a separator-free word is a single whole token |
| DataRods.SkipSepsRemoves | src/api/datarods.js:37 | skipping separators loses no non-separator character |
| DataRods.FieldsConcat | src/api/datarods.js:37 | the fields, concatenated, are the input with its separators removed |
| DataRods.TokensConcat | src/api/datarods.js:37 | splitting loses exactly the separators: the tokens concatenated are the line without commas or whitespace |
| DataRods.FieldsSkipWord | src/api/datarods.js:37 | a separator-free run is accumulated into the current field |
| DataRods.TokensOfPair | src/api/datarods.js:37 | "d,v" with separator-free d and v splits into exactly [d, v] |
| DataRods.FieldsWordCommaWord | src/api/datarods.js:37 | after a comma, a separator-free word is the next field |
| DataRods.TokensAfterPair | src/api/datarods.js:37-39 | "d,v,e" splits into d, v and then the tokens of e |
| DataRods.ParseRow | src/api/datarods.js:36-41 | a row's time is the trimmed line up to its first comma or whitespace and holds no separator; without a separator the value is null; otherwise it is the finite number of the token after the first run of commas and whitespace |
| DataRods.Rows | src/api/datarods.js:36-41 | there is one row per kept line, in order |
| DataRods.Parse | src/api/datarods.js:31-41 | the parsed rows are the rows of the lines that survive the comment and blank filter, in order |
| DataRods.RowTime | src/api/datarods.js:37-38 | a row's time is the trimmed line up to its first comma or whitespace, and is empty iff the trimmed line starts with a comma |
| DataRods.SingleColumnHasNoValue | src/api/datarods.js:39-40 | a line with a single column gets a null value |
| DataRods.RowOfPair | src/api/datarods.js:36-41 | "d,v" becomes the row (d, finite value of v), also for an empty d; a trailing comma gives the value 0 |
| DataRods.PairIsTrimmed | src/api/datarods.js:37 | a "d,v" line has nothing to trim |
| DataRods.RowOfSeparatedPair | src/api/datarods.js:36-41 | a time and a value separated by any run of commas and whitespace (a tab, spaces, ", ") give the row (time, finite value) |
| DataRods.SeparatedPairCuts | src/api/datarods.js:37 | such a line has nothing to trim, its first separator right after the time, and the value after the separator run |
| DataRods.SeparatedPairTrimmed | src/api/datarods.js:37 | a line whose ends are separator-free words has nothing to trim |
| DataRods.RowIgnoresLaterColumns | src/api/datarods.js:35-41 | columns after the second do not change the row |
| DataRods.ParseLine | src/api/datarods.js:31-41 | a single line yields one row iff it is non-blank and does not start with '#', otherwise none |
| DataRods.SplitLinesNoLF | src/api/datarods.js:32 | a text without line feeds is a single line |
| DataRods.ParseAppend | src/api/datarods.js:31-41 | parsing a + "\n" + b is parsing a and b separately and concatenating the rows, when a does not end in CR |
| DataRods.RowsAppend | src/api/datarods.js:36 | mapping lines to rows distributes over concatenation |
| DataRods.ParseCRLF | src/api/datarods.js:32 | CRLF line endings parse exactly like LF endings |
| DataRods.Handle | src/api/datarods.js:1-49 | 400 iff a parameter is missing or empty; 200 iff all are given and the upstream answered ok, with the dataset, variable, numeric lat and lon, and parsed rows; a thrown upstream call gives 500 with its message; every other outcome is 500 |
| DataRods.EachParamRequired | src/api/datarods.js:5-11 | leaving out any one of the six parameters, or passing it empty, gives the 400 answer, and only then |
| DataRods.MissingParamsShortCircuit | src/api/datarods.js:5-11 | a missing parameter gives the fixed message, whatever the upstream would have done |
| DataRods.UpstreamFailureMessage | src/api/datarods.js:22-27 | a non-ok answer becomes "Data Rods request failed (status): " followed by the first min(240, n) characters of the body |

## Left out

- The page's data fetching is left out: `fetchPowerHourly`, the effect
  hook, its loading and error state, and the widening retry when fewer than
  six samples arrive (src/pages/Today.jsx:74-89, 123-165). These are network
  I/O and React state, so the POWER payload is an input to `Flatten`.
- The date arithmetic is left out: `yyyymmdd` and the `Date` objects that
  pick the requested window (src/pages/Today.jsx:71-73). They depend on the
  clock and time zone.
- The grammar of JavaScript's `Number(...)` on text is left out. It is the
  parameter `num`; only "blank text is 0" is fixed.
- IEEE-754 floating point is left out, including its rounding: the model
  computes on exact reals.
- The SVG path is kept as a list of commands with real coordinates. The
  text form of the numbers in the path string is not modelled.
- The sparkline's tone colours, markup and class names are left out
  (src/components/Sparkline.jsx:47-63). This is presentation only.
- The React components and the `useSettings` context are left out. The unit
  setting is a parameter.
- The Data Rods request URL and its `encodeURIComponent` escaping are left
  out (src/api/datarods.js:13-21). No parsed value depends on them.
- The message of a thrown exception, `e.message || String(e)`, is kept
  abstract as the text carried by `Threw` (src/api/datarods.js:47).
- A query parameter given more than once, which arrives as an array, is not
  modelled. Each parameter is an optional string.
- The handler's `lat` and `lon` are carried as `Raw` values. The JSON
  serialisation of a non-finite number as `null` is not modelled.
- `Object.keys` order is modelled as code-point order on characters, which
  is the same as JavaScript's UTF-16 order for the ASCII date keys the
  payload uses.
- The pages outside Today (the week and plan views), settings storage and
  the other components are not part of this model.
- DataRods.LinesRoundTrip: stated only for text without carriage returns,
  because the split drops a CR that precedes a line feed, so CRLF text does
  not round-trip byte for byte (`LinesCRLF` covers that case instead).
- DataRods.RowIgnoresLaterColumns: stated for a third part that does not end
  in whitespace, because trailing whitespace is removed by the trim before
  splitting; and for a non-empty second column, because ",," is a single
  separator run, so after an empty second column the third becomes the value.
- DataRods.Excerpt: counts characters, while JavaScript's `slice(0, 240)`
  counts UTF-16 code units, so for text outside the Basic Multilingual Plane
  the source may cut a surrogate pair in half and return fewer characters.
- TodayView.RainAvg3h: states the result to within 0.005 of the mean rather
  than as an exact decimal, because `/ 100` in floating point is not exact.
