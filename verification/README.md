# Epidemic curves: a Dafny model

The two browser scripts of the epicurve repository turn the rows of an
uploaded spreadsheet into a bar chart of cases over time with three
horizontal lines: the mean, the alert line (mean + 1 SD) and the action line
(mean + 2 SD).

- `epicurve/app.js` counts notifications per epidemiological week
  (`aggregateEpi`).
- `epicurve/foodpoisoning/app.js` counts food-poisoning cases either per
  week of onset (`aggregateWeeklyOnset`) or per day of onset
  (`aggregateDailyOnset`). It colours every bar above the action line red and
  writes an English and a Malay summary naming those bars
  (`generateSummary`).

This project models that pipeline, from decoded rows to chart data, as pure
Dafny functions and proves what the scripts promise about it.

| module | file | models |
|---|---|---|
| `Wrappers` | wrappers.dfy | `Option` |
| `JsValues` | js_values.dfy | spreadsheet cells and rows, JavaScript truthiness, `${cell}` text, numbers with NaN |
| `Strings` | strings.dfy | integer text, `parseInt`, `Number`, `split`/`join` on a two-character separator, one-character `replace` |
| `Sorting` | sorting.dfy | `Array.prototype.sort` with a `key(a) - key(b)` comparator (stable, NaN counts as 0) |
| `Grouping` | grouping.dfy | the `map[key] = (map[key] \|\| 0) + 1` counting object, `Object.entries` order, the map-then-sort shape all three aggregations share |
| `Weekly` | weekly.dfy | `aggregateWeeklyOnset` and `aggregateEpi` |
| `Dates` | dates.dfy | the UTC calendar of `Date`, `toISOString`, parsing `YYYY-MM-DD` |
| `Daily` | daily.dfy | `aggregateDailyOnset` |
| `Stats` | stats.dfy | `mean`, the quantity under `sd`'s square root, and the three lines |
| `Narrative` | narrative.dfy | `generateSummary` and reading its sentences back |
| `Chart` | chart.dfy | the data both `plotEpi` functions hand to the plotting library |

Some choices follow the JavaScript closely:

- **Cells.** A cell is missing, text, an integral number or a boolean.
  Missing, `""`, `0` and `false` are falsy, as `!year || !week` and `!rawDate` treat them.
- **Keys.** The weekly key is the literal text `` `${year}-W${week}` ``, so grouping is by text identity.
- **Tally order.** The keys are never integer-like (they contain `-W` or `-`), so `Object.entries` lists them in first-insertion order. The tally is a sequence in that order.
- **Sorting.** Array sorting is stable, and a NaN comparator result counts as 0. The model is the stable insertion sort by an optional integer key: `None` stands for NaN.
- **Empty and single-bucket series.** The mean of an empty series is NaN (0 / 0). For a single bucket, the quantity under `sd`'s square root is NaN (0 / 0). NaN propagates through `m + s` and `m + 2 * s`, and no value is `>` NaN.
- **The year in the weekly modes.** Both scripts sort by the week number alone. Rows from two years with the same week give two records, kept in arrival order. In the food-poisoning chart these become two bars with the same label (`Weekly.EpiYearIgnored`, `Weekly.OnsetYearDropped`).

The weekly output depends on row order. Same-week records from different years keep the order in which their rows first arrive (`Weekly.EpiYearIgnored`).

## Model

| member | source | states |
|---|---|---|
| Weekly.RowKeyOf | epicurve/foodpoisoning/app.js:57-62 | a row is skipped exactly when its year or week cell is falsy; otherwise its key splits back at "-W" into the row's year and week texts whenever neither contains "-W" |
| Weekly.AggregateWeeklyOnset | epicurve/foodpoisoning/app.js:54-75 | one bucket per distinct key of the kept rows, labelled "W" plus the key's week piece, holding the number of kept rows with that key; a bucket occurs once for every distinct key that gives it, so two years' keys of the same week and count give two equal buckets; sorted by week whenever every label's week parses |
| Weekly.WeeklyOnsetConservesRows | epicurve/foodpoisoning/app.js:57-66 | the bucket values add up to the number of kept rows and every bucket holds at least one row |
| Weekly.WeeklyOnsetRowCountsIff | epicurve/foodpoisoning/app.js:57-60 | removing a row leaves the buckets unchanged if and only if that row's year or week cell is falsy |
| Weekly.KeyPieces | epicurve/foodpoisoning/app.js:62-68 | a key built from cell texts without "-W" splits back at "-W" into exactly the year text and the week text |
| Weekly.WeeklyOnsetNumericOrder | epicurve/foodpoisoning/app.js:66-74 | with integral week cells and year texts that do not contain "-W", every label is "W" followed by the week number and the buckets are in non-decreasing week order |
| Weekly.OnsetSameWeekTwoYears | epicurve/foodpoisoning/app.js:62-74 | two rows of the same week in different years give two identical buckets, both labelled "W" plus the week (the order of such records is shown by `Weekly.EpiSameWeekTwoYears`) |
| Weekly.OnsetYearDropped | epicurve/foodpoisoning/app.js:68-74 | week 5 of 2024 and week 5 of 2023 give two bars both labelled "W5" |
| Weekly.AggregateEpi | epicurve/app.js:38-56 | one record per distinct key of the kept rows, carrying the key's year piece, `Number` of its week piece and the number of kept rows with that key; a record occurs once for every distinct key that gives it (keys "2023-W5" and "2023-W05" with equal counts give two equal records); sorted by week whenever every week is a number |
| Weekly.EpiConservesRows | epicurve/app.js:41-48 | the case counts add up to the number of kept rows and every record has at least one case |
| Weekly.EpiRowCountsIff | epicurve/app.js:41-44 | removing a row leaves the records unchanged if and only if that row's year or week cell is falsy |
| Weekly.EpiNumericRecords | epicurve/app.js:50-55 | with integral week cells and year texts that do not contain "-W", each record carries the year text and week number of some kept row, and the records are sorted by week |
| Weekly.EpiSameWeekTwoYears | epicurve/app.js:50-55 | two rows of the same week in different years give two records in row order, whatever the years |
| Weekly.EpiYearIgnored | epicurve/app.js:55 | swapping a 2024 row and a 2023 row of the same week swaps the two records: the order comes from the rows, not the year |
| Daily.RowDay | epicurve/foodpoisoning/app.js:84-90 | a row is skipped exactly when its date cell is falsy or not a valid date; otherwise its key is the ISO text of its UTC day |
| Daily.AggregateDailyOnset | epicurve/foodpoisoning/app.js:80-97 | one bucket per distinct day key of the counted rows, holding the number of counted rows with that key |
| Daily.SameDayRows | epicurve/foodpoisoning/app.js:90-91 | the rows counted under a day's key are exactly the counted rows falling on that day |
| Daily.DailyConservesRows | epicurve/foodpoisoning/app.js:83-92 | the bucket values add up to the number of counted rows and every bucket holds at least one row |
| Daily.DailyRowCountsIff | epicurve/foodpoisoning/app.js:84-88 | removing a row leaves the buckets unchanged if and only if its date cell is falsy or not a valid date |
| Daily.DailyBuckets | epicurve/foodpoisoning/app.js:87-95 | each bucket's label is the ISO text of a valid day and its value the number of counted rows on that day; every counted row's day has a bucket |
| Daily.DailyChronological | epicurve/foodpoisoning/app.js:94-96 | the buckets are in strictly increasing date order |
| Dates.DayKeyOfInstant | epicurve/foodpoisoning/app.js:90 | the text before the first "T" of `toISOString` is the instant's UTC date as `YYYY-MM-DD` |
| Dates.IsoRoundTrip | epicurve/foodpoisoning/app.js:96 | `new Date` of a day key gives back the same day |
| Dates.IsoInjective | epicurve/foodpoisoning/app.js:90-91 | two days share a key if and only if they are the same day |
| Dates.OrdinalOrder | epicurve/foodpoisoning/app.js:96 | the sort key orders days chronologically and is equal exactly for equal days |
| Grouping.Tally | epicurve/foodpoisoning/app.js:55-64 | the counting object has one entry per distinct key, no key twice, each holding the number of occurrences of its key |
| Grouping.TallyEntries | epicurve/app.js:46-47 | an entry is in the tally if and only if its key occurs and its count is the number of occurrences |
| Grouping.TallyTotal | epicurve/app.js:46-47 | the counts of the tally add up to the number of keys counted |
| Grouping.Aggregate | epicurve/app.js:50-55 | the records are one per distinct key, built from the key and its count: each record occurs exactly as often as there are distinct keys giving it; sorted when every sort key is a number |
| Grouping.AggregateRows | epicurve/foodpoisoning/app.js:55-74 | the same, counted from the rows: one record per distinct key of the rows not skipped, each occurring as often as there are such keys giving it |
| Grouping.AggregateTwo | epicurve/app.js:50-55 | for an input of exactly two distinct keys whose records tie on the sort key, the records stay in first-appearance order |
| Sorting.SortBy | epicurve/foodpoisoning/app.js:71-74 | the sorted output is a permutation of the input and is in non-decreasing key order whenever every key is a number |
| Sorting.SortTwoEqual | epicurve/app.js:55 | an input of exactly two elements with equal numeric keys keeps its order |
| Strings.ParseIntOfIntText | epicurve/foodpoisoning/app.js:72-73 | `parseInt` reads back the text of any integer |
| Strings.ToNumberOfIntText | epicurve/app.js:53 | `Number` reads back the text of any integer |
| Strings.SplitJoin | epicurve/foodpoisoning/app.js:147 | splitting a join at ", " gives back the pieces when none of them contains ", " |
| Stats.Mean | epicurve/foodpoisoning/app.js:102-104 | the mean is NaN exactly for the empty series, and otherwise times the length equals the sum |
| Stats.MeanWithin | epicurve/app.js:61-63 | the mean of a non-empty series lies between any lower and upper bound of its values |
| Stats.Variance | epicurve/foodpoisoning/app.js:106-112 | the quantity under the square root is NaN exactly for a single value and otherwise never negative |
| Stats.VarianceZeroIff | epicurve/foodpoisoning/app.js:106-112 | for two or more values it is zero if and only if all values are equal |
| Stats.ThresholdLines | epicurve/foodpoisoning/app.js:166-168 | the alert and action lines are numbers exactly when the mean and `s` are, and lie one and two `s` above the mean |
| Narrative.Exceeding | epicurve/foodpoisoning/app.js:118-119 | a label is reported if and only if its value is strictly above the action line |
| Narrative.ExceedingInOrder | epicurve/foodpoisoning/app.js:119 | the reported labels are the flagged positions' labels in series order |
| Narrative.ExceedingEmpty | epicurve/foodpoisoning/app.js:119 | nothing is reported if and only if no value lies above the action line |
| Narrative.SummaryRoundTrip | epicurve/foodpoisoning/app.js:117-157 | when no label contains ", ", reading either sentence back gives exactly the reported labels, for weekly and daily curves alike |
| Narrative.GenerateSummary | epicurve/foodpoisoning/app.js:117-157 | either both no-outbreak sentences or two sentences opening with the curve type's wording; every label above the action line occurs in both sentences, whatever it contains (exact read-back in `Narrative.SummaryRoundTrip`, the no-outbreak condition in `Narrative.NoOutbreakIff`) |
| Narrative.NoOutbreakIff | epicurve/foodpoisoning/app.js:131-140 | the fixed no-outbreak sentences are produced if and only if no value lies above the action line, whatever the curve type |
| Chart.PlotEpi | epicurve/foodpoisoning/app.js:162-225 | one bar per bucket in bucket order, and every red bar's label occurs in both summary sentences (bar colours in `Chart.RedBarsAreExceeding`, lines in `Chart.PlotLines`) |
| Chart.RedLabels | epicurve/foodpoisoning/app.js:170-172 | a label is listed exactly when some bar carrying it is drawn in the exceeding colour |
| Chart.RedBarsAreExceeding | epicurve/foodpoisoning/app.js:166-172 | a bar is red if and only if its value is strictly greater than `m + 2 * s`, and the red bars' labels are the reported labels |
| Chart.SummaryNamesRedBars | epicurve/foodpoisoning/app.js:166-174 | when no label contains ", ", each summary sentence names exactly the red bars, in chart order |
| Chart.PlotLines | epicurve/foodpoisoning/app.js:204-223 | the three lines are constant, one point per bar, at the mean and one and two `s` above it |
| Chart.ShortSeriesQuiet | epicurve/foodpoisoning/app.js:106-112 | with at most one bucket no bar is red and the summary is the no-outbreak text |
| Chart.FlatActionLine | epicurve/foodpoisoning/app.js:166-168 | for a flat series of two or more values, with `s` the square root of the variance, the action line equals the common value |
| Chart.FlatSeriesQuiet | epicurve/foodpoisoning/app.js:166-174 | a flat series of two or more buckets has no red bar and the no-outbreak summary |
| Chart.PlotWeeks | epicurve/app.js:75-116 | one point per record on the bars and on each line, every label starting with "W" and the bars in record order (labels in `Chart.WeekLabelsReadBack`, lines in `Chart.WeekLines`) |
| Chart.WeekLabelsReadBack | epicurve/app.js:76-77 | one label per record, in order, "W" followed by text that `parseInt` reads back as the record's week; one case count per record |
| Chart.WeekLines | epicurve/app.js:79-104 | the mean is NaN exactly for no records, and the lines are constant at the mean and one and two `s` above it |

## Left out

- `run` and `readExcel` (both scripts) are left out. They are file input, spreadsheet decoding and the page's controls; the model starts from decoded rows.
- The plotting calls, titles, axis texts, the summary box's HTML and its toggle are presentation only.
- `Math.sqrt` is not computed. The standard deviation is a parameter `s`, related to the variance by `Stats.IsSqrtOf` where a property needs it.
- Stats.Mean: computed in exact real arithmetic, so floating-point rounding is not modelled.
- Stats.Variance: computed in exact real arithmetic, so floating-point rounding is not modelled.
- Stats.Variance: an empty series gives 0 / -1, which is JavaScript's -0. The model gives 0, which behaves the same under every comparison the scripts make.
- `new Date(cell)` on a spreadsheet cell is a parameter (`Daily.DateParser`). That covers its many text formats, spreadsheet serial numbers and the local time zone. The model keeps only what the script relies on: an instant inside `Date`'s range, or invalid.
- Dates.OrdinalOrder: the sort compares time values, and the model compares an order-preserving number per day instead. For midnight instants the two have the same sign, and the sign is all a comparator uses.
- Sorting.SortBy: when some sort key is NaN the comparator is inconsistent and JavaScript's order is implementation-defined. The model fixes one order (stable insertion), and its sortedness promise covers only all-numeric keys.
- `parseInt` and `Number` are modelled for decimal integer text only. Hexadecimal prefixes, fractions, exponents and "Infinity" are not modelled, because week cells are integers.
- A numeric cell is an integer, and fractional spreadsheet numbers are not modelled. Year and week cells are integral. A date-time in the onset date column can arrive as a fractional serial number, which a cell of the model cannot hold. The daily properties do not depend on this. The script uses that cell only through its truthiness and `new Date(cell)`, and `Daily.DateParser` is an arbitrary function, so every daily property holds whatever instant, or invalid date, the parser gives a truthy cell.
- Narrative.SummaryRoundTrip: the exact read-back is stated only when no label contains ", ". A text week cell such as "5, 6" is truthy and gives the label "W5, 6", which splits apart when the sentence is read back. For such labels the model states only what `Narrative.GenerateSummary` promises: every label above the action line occurs in both sentences.
- Chart.SummaryNamesRedBars: stated only when no label contains ", ", for the same reason. Red bars with such labels are covered only by `Chart.PlotEpi`'s clause that their labels occur in both sentences.
- JsValues.Cell: a numeric cell holds an unbounded integer, while JavaScript numbers are doubles. They are exact only up to 2^53, and from 10^21 up `${n}` writes exponent form ("1e+21"), which `parseInt` reads back as 1. Properties that read a week number back from its text hold for the program only for cells below 10^21: Weekly.WeeklyOnsetNumericOrder, Weekly.EpiNumericRecords, Chart.WeekLabelsReadBack.
- Weekly.WeeklyOnsetNumericOrder: holds for the program only for week cells below 10^21 (see JsValues.Cell).
- Weekly.EpiNumericRecords: holds for the program only for week cells below 10^21 (see JsValues.Cell).
- Chart.WeekLabelsReadBack: holds for the program only for week numbers below 10^21 (see JsValues.Cell).
