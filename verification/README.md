# Cyberpunk 2077 review dashboard: the data core in Dafny

The dashboard draws four D3 charts from CSV exports of Steam data. This project
models what each chart computes from its rows, leaving the drawing aside, and
proves what those computations promise.

- **Reviews** (`js/animation.js`): review rows are validated. A row without a
  timestamp or a rating is dropped, and a counter goes up once per accepted
  row. Each accepted row becomes a review with a date and a vote. Reviews are
  grouped under a `"<year>-Q<quarter>"` key, and each key is decoded back to
  the first day of its quarter with the positive and negative counts of its
  group. The aggregates use the corrected decoding listed under Findings,
  which differs from the code as written only for years 0..99.
- **Playtime** (`js/vis_bar.js`): playtime is summed per language. The totals
  are sorted largest first with a stable sort. The top three are kept and the
  rest are folded into an "Other" bar. Four legend slots are labelled from the
  bars.
- **Timeline** (`js/timeline.js`): each player-count row becomes a point with
  its month label, the label's year token and the player count with commas
  removed. The year buttons and the brush choose the points the focus chart
  redraws. The focus axis keeps every `ceil(n/10)`-th domain value as a tick
  and labels every other tick.
- **LanguageMap** (`js/map.js`): reviews are counted per language. A marker is
  placed for each counted language that the fixed language-to-location table
  knows.

The supporting modules are:

- **Rollups**: models `d3.rollups` as groups in first-seen key order. Each
  group holds exactly the elements with its key, in input order, and an
  additive measure of the whole input is the sum over the groups.
- **Seqs**: `filter`, `map` to a key, de-duplication in first-seen order,
  sub-sequences.
- **Text**: digit strings, `split`, `Number(...)` and `parseInt` on digit text.
- **Wrappers**: `Option`, which stands for `undefined`, `null`, `NaN` and
  Invalid Date.

These JavaScript behaviours are modelled explicitly:

- A cell is truthy when it is present and non-empty.
- `s.split(" ")[1]` is `undefined` when there is no space.
- `Number("")` is 0.
- `parseInt` reads only the leading digits.
- `new Date(y, m, 1)` carries an out-of-range month into the year.
- `d3.sum` skips a cell that is not a number.
- `i % 0` is `NaN`, and `!NaN` is true, so a step of 0 keeps every tick.
- `Array.prototype.sort` is stable.
- `finalData[i]?.language || "Other"` also turns an empty name into "Other".
- A band scale keeps each domain value once.

A review's vote is read by comparing the rating with `"positive"` and nothing
else, and the model does the same.

## Model

| member | source | states |
|---|---|---|
| Reviews.IngestRow | js/animation.js:23-37 | A row is dropped exactly when its timestamp or rating cell is missing or empty. Otherwise the review recommends the game exactly when the rating is "positive". |
| Reviews.Ingest | js/animation.js:23-38 | The loaded records are the accepted rows, normalised and in file order. The conversion counter ends equal to the number of accepted rows. |
| Reviews.TimeOfDayIgnored | js/animation.js:35 | Text after the first space of the timestamp never changes the review. |
| Reviews.IsoDateRoundTrip | js/animation.js:35 | Parsing the canonical YYYY-MM-DD text of a date (four-digit year, day 1..31) gives that date back. |
| Reviews.IsoDateCanonical | js/animation.js:35 | A ten-character date token that parses is the canonical text of its date, so the date text and the date determine each other. |
| Reviews.Quarter | js/animation.js:51 | The quarter is 1..4, and the date's month lies in that quarter's three months. |
| Reviews.MarkerIndex | js/animation.js:57 | The position found is the first occurrence of "-Q". When there is none, no position matches. |
| Reviews.MakeDate | js/animation.js:60 | The built date has a month in 0..11, and year*12 + month is unchanged, so an overflowing month carries into the year. |
| Reviews.InvalidKeyParts | js/animation.js:52-58 | The key of an Invalid Date, "NaN-QNaN", yields no year and no quarter. |
| Reviews.ValidKeyParts | js/animation.js:52-58 | The key of a valid date splits back into exactly its year and its quarter. |
| Reviews.KeyRoundTrip | js/animation.js:50-60 | Decoding the key of a date gives the first day of the date's quarter. The key of an Invalid Date decodes to an Invalid Date. |
| Reviews.KeyInjective | js/animation.js:50-60 | Two dates share a key exactly when they share a quarter start. |
| Reviews.SelectByStart | js/animation.js:44-54 | The reviews grouped under a date's key are exactly the reviews whose quarter start is that date's. |
| Reviews.AggregateConserves | js/animation.js:44-49 | The positive counts add up to the number of positive reviews and the negative counts to the number of negative ones. Together they add up to the number of reviews. |
| Reviews.AggregateStarts | js/animation.js:44-64 | There is one aggregate per quarter present, in the order the quarters are first met, with no chronological sort. |
| Reviews.AggregateCounts | js/animation.js:44-64 | Each aggregate counts the positive and negative reviews of exactly its quarter. No aggregate is empty. |
| Reviews.PipelineCountsAcceptedRows | js/animation.js:23-64 | From file rows to chart, every accepted row is counted in exactly one bar. |
| Reviews.AsWrittenShiftsSmallYears | js/animation.js:60 | As written, a key with a year below 100 decodes 1900 years late, away from its quarter. From year 100 on, it decodes as intended. |
| Reviews.AsWrittenCounterexample | js/animation.js:57-60 | As written, a review dated 0050-02-10 lands in the first quarter of 1950 instead of year 50. |
| Text.FirstTokenIgnoresRest | js/animation.js:35 | `split(" ")[0]` of "date rest" is "date" whatever the rest is. |
| Text.SecondTokenOf | js/timeline.js:6 | `split(" ")[1]` of "w y" and of "w y z" is y. |
| Text.StripCommasIdempotent | js/timeline.js:7 | Removing commas twice is removing them once. The text is unchanged exactly when it has no comma. |
| Rollups.RollupGroups | js/map.js:18-22 | The groups' keys are the distinct keys of the input in first-seen order. Each group holds exactly the elements with its key, in input order. |
| Rollups.RollupConserves | js/vis_bar.js:6-10 | For an additive reduce, such as a count or a sum, the group results add up to the result over the whole input. |
| Playtime.LanguageTotalsSpec | js/vis_bar.js:6-11 | There is one total per distinct language, in first-seen order, and each total is the playtime of exactly that language's rows. |
| Playtime.SortDesc | js/vis_bar.js:12 | The sorted list has the input's length and is in non-increasing order of playtime. |
| Playtime.SortPermutes | js/vis_bar.js:12 | Sorting permutes its input: the multiset of entries is unchanged. |
| Playtime.SortStable | js/vis_bar.js:12 | Sorting is stable: entries of equal playtime keep their input order. |
| Playtime.AggregatedDataSpec | js/vis_bar.js:6-12 | The aggregated data is sorted largest first. Each entry carries the summed playtime of exactly its language's rows. Ties stay in first-seen order. |
| Playtime.AggregatedDataNames | js/vis_bar.js:6-12 | The aggregated data names every language of the input exactly once and no other. |
| Playtime.FinalDataShape | js/vis_bar.js:15-23 | The chart data is the first min(k, 3) entries unchanged, then an "Other" bar holding the playtime of the rest. The "Other" bar is 0 when there are at most three languages. |
| Playtime.FinalDataConserves | js/vis_bar.js:15-23 | Folding the tail into "Other" neither adds nor loses playtime. |
| Playtime.TopDominatesOther | js/vis_bar.js:12-18 | Each kept bar has at least the playtime of every language folded into "Other". |
| Playtime.ChartConservesPlaytime | js/vis_bar.js:6-23 | The bars together carry exactly the playtime of all input rows. |
| Playtime.LegendSpec | js/vis_bar.js:135-136 | Legend slot i shows bar i's language when that name is non-empty, and "Other" when there is no bar i or its name is empty. There are never more bars than slots, and the last bar is labelled "Other". |
| Timeline.ParsePlayers | js/timeline.js:7 | The count is NaN exactly when the text without commas is not all digits. Plain digit text reads as its number. |
| Timeline.ParseRows | js/timeline.js:4-8 | There is one point per row, in row order, each keeping its month label. |
| Timeline.YearOfMonth | js/timeline.js:6 | The year of "Month YYYY" (with or without more tokens) is YYYY. |
| Timeline.LastThirtyDaysHasNoYear | js/timeline.js:6 | "Last 30 Days" gets year "30", which no year button matches. |
| Timeline.NoSpaceNoYear | js/timeline.js:6 | A label without a space has an undefined year. |
| Timeline.PlayersIgnoreComma | js/timeline.js:7 | A comma anywhere in the count never changes it. |
| Timeline.DomainCovers | js/timeline.js:52 | Every point's month is in the band domain, and every domain value is some point's month. |
| Timeline.FilterByYearSpec | js/timeline.js:224-226 | The year filter keeps every copy of each point of that year and nothing else, in order. Its domain lists their months, each once, ordered by where each month first occurs among the kept points. |
| Timeline.YearsDisjoint | js/timeline.js:225 | Two different years select disjoint points. |
| Timeline.BrushDomain | js/timeline.js:136-142 | A brush selection keeps a sub-sequence of the domain, without repeats. |
| Timeline.BrushPoints | js/timeline.js:136-143 | The brushed points are, in order, exactly those whose band midpoint lies inside the selection. |
| Timeline.TickStep | js/timeline.js:79 | The step is the least s with s*10 >= n, i.e. ceil(n/10), which is 0 for an empty chart. |
| Timeline.EveryStepSpec | js/timeline.js:79 | With step 0 every value is a tick. Otherwise there are ceil(|domain|/step) ticks, and tick j is domain value j*step. |
| Timeline.FirstTickKept | js/timeline.js:79 | The first domain value is always a tick. |
| Timeline.AtMostTenTicks | js/timeline.js:79 | When the chart shows at least as many points as the domain has values, at most ten ticks remain. |
| Timeline.AxisLabels | js/timeline.js:79-80 | Even-numbered ticks show their value and odd-numbered ticks are blank. |
| Timeline.InitialAxisTicks | js/timeline.js:78-80 | The initial axis has at most ten ticks. |
| Timeline.YearAxisTicks | js/timeline.js:224-245 | After a year button, the axis has at most ten ticks. |
| Timeline.BrushAxisTicks | js/timeline.js:134-145 | After a brush, every selected month has a point, so the axis has at most ten ticks. |
| LanguageMap.LanguageCountsSpec | js/map.js:18-22 | There is one count per distinct language, in first-seen order. Each count is that language's number of reviews and at least 1, and the counts add up to the number of reviews. |
| LanguageMap.Markers | js/map.js:109-112 | Each marker is for a language of the table and is placed at the table's coordinates for it. |
| LanguageMap.MarkersSpec | js/map.js:109-118 | The markers are the counted languages the table knows, in order, with their counts. |
| LanguageMap.MarkerIffKnown | js/map.js:109-111 | A counted language gets a marker exactly when the table knows it. |
| LanguageMap.MarkerCount | js/map.js:78-111 | The number of markers is the number of distinct review languages that the table knows. |
| LanguageMap.TableShape | js/map.js:78-106 | Every table entry is a valid longitude and latitude. |

## Left out

- Rendering: SVG, scales' pixel ranges, axes, transitions, tooltips and the animation controls are DOM side effects. The brush's band-midpoint pixel position is a parameter `mid`.
- Fetching: `d3.csv`/`d3.json` and the GeoJSON map are I/O. The model starts from the parsed rows.
- Time zones: a date-only ISO string is read as UTC, but `getMonth`/`getFullYear` read local time. The model takes the calendar fields as written.
- Date strings other than `YYYY`, `YYYY-MM` and `YYYY-MM-DD` (legacy forms, times with offsets) are taken as Invalid Dates. Day overflow within a month (31 February) and the Date range limit are not modelled.
- Playtime.Playtime: a playtime cell is read as a whole number of digits. A decimal, a sign, an exponent or surrounding white space, all of which `+` accepts, counts as 0, because the model has no floating point.
- Timeline.ParsePlayers: only digit text after comma removal gives a count. Decimals and signs read as NaN for the same reason.
- The Playtime order: playtime is compared by subtraction on JavaScript numbers. The model uses unbounded integers, so no rounding happens.
- `languageMapping[language]` also finds inherited object keys such as `constructor`. For such a key the value is a function, so `const [long, lat] = coord` (js/map.js:112) throws a TypeError and the `forEach` draws no further markers. The model looks only at the table's own entries and does not model this failure.
- Marker radius, the million-hours axis formatting and the players' y-scale maximum are floating-point presentation.
- The context chart's key-node ticks and the hover effects only draw.
- LanguageMap.TableShape: states the coordinate ranges but not that the table has 27 entries.

## Findings

| source | as written | input that shows it | evidently intended | confidence | as-written member | corrected member |
|---|---|---|---|---|---|---|
| js/animation.js:60 | `new Date(year, month, 1)` treats years 0..99 as 1900..1999 | a review dated 0050-02-10 gets key "50-Q1", which decodes to 1950-01-01 | the first day of the key's own quarter, 0050-01-01 | not executed | Reviews.AsWrittenCounterexample | Reviews.KeyRoundTrip |
