# BJUT annual canteen report: the collector and the statistics, in Dafny

This project models the core of the BJUT campus-card annual report. That core
lives in `src/bjut_annual_eat/stat.py`.

- **Monthly collection (`get_monthly_data`).** For each month of the configured
  range, in ascending order, the collector reads the month's response from the
  on-disk cache. On a cache miss it fetches the month live for the window from
  the first day to the last day of the month. It writes a successful live
  response to the cache and appends the records of every successful response
  that carries `data.data`. A failed month is skipped with a warning.
- **Statistics (`analyze_consumption`, up to the plots).** Each record's
  `txdate` is parsed. The merchant is classified as dining (饮食), market (超市)
  or other (其他), and its canteen (`dining_place`) is derived. The statistics
  are the total of absolute amounts, the per-month table (ascending by month),
  the per-category and per-canteen tables (descending by amount), and the
  weekday-by-hour count table of dining transactions, whose missing hour columns
  0..23 are filled with zeros.

Modules, one file each:

| file | module | models |
|---|---|---|
| `wrappers.dfy` | `Wrappers` | `Option` and `Result` |
| `calendar.dfy` | `Calendar` | the Gregorian leap rule, `calendar.monthrange`'s last day, day ordinals and the ISO weekday that polars' `dt.weekday()` returns (Monday 1 … Sunday 7) |
| `timestamp.dfy` | `Timestamp` | the `%Y-%m-%d %H:%M:%S` parse of `txdate` and the `{year}-{month:02d}-{day:02d}` window dates |
| `source.dfy` | `Source` | the response shape: `success`, `data`, `data.data`, records with `txdate`, `txamt`, `mername` |
| `collector.dfy` | `MonthlyCollector` | `get_monthly_data`: a specification as a fold over the months (`Step`, `Run`, `Expected`), and a `Collector` class whose cache map and fetch log the method updates in a loop |
| `grouping.dfy` | `Grouping` | `group_by(key).agg(sum)` and `sort(descending=True)` on key/amount tables |
| `aggregator.dfy` | `Aggregator` | classification, the parse step, the four tables, the pivot and the hour-filling loop, and the report |
| `analysis.dfy` | `Analysis` | `analyze_consumption(year)` as collection followed by the statistics |

Representation choices:

- Amounts are integers in fen (1/100 yuan); a debit is negative. All tables sum
  absolute values.
- The cache directory `cache/{year}/{month:02d}.json` is a map from
  (year, month) to the stored response.
- The transaction source (`query_card_trade_list`) is a function from the two
  window dates to an optional response.
- The configuration is a `Settings` value.
- Each live fetch is appended to a fetch log. The half-second pause after each
  live fetch corresponds to one log entry.

## Model

| member | source | states |
|---|---|---|
| `MonthlyCollector.MonthRange` | src/bjut_annual_eat/stat.py:19-27 | the months processed are ascending and are exactly 1..12, or in test mode exactly the inclusive range test_month_start..test_month_end |
| `MonthlyCollector.WindowSpansMonth` | src/bjut_annual_eat/stat.py:41-43 | a month's fetch window reads back as its first day and its last day, the `calendar.monthrange` length of that month |
| `MonthlyCollector.RunKeepsEntries` | src/bjut_annual_eat/stat.py:35-50 | write-once cache: an entry present before the loop is never removed or overwritten |
| `MonthlyCollector.RunNewEntries` | src/bjut_annual_eat/stat.py:45-50 | every entry the loop adds is for a month of the range, was fetched live, and holds that successful response |
| `MonthlyCollector.RunAddsSuccessfulMonths` | src/bjut_annual_eat/stat.py:48-50 | every month of the range whose live fetch succeeds ends up in the cache |
| `MonthlyCollector.RunCacheSpec` | src/bjut_annual_eat/stat.py:35-50 | after the loop, the cache holds exactly the old entries plus the range's months whose live response was successful |
| `MonthlyCollector.RunAborts` | src/bjut_annual_eat/stat.py:32-45 | the loop raises exactly when some month of the range misses the cache and lies outside 1..12 (`calendar.monthrange` rejects it) |
| `MonthlyCollector.AbortIsFinal` | src/bjut_annual_eat/stat.py:42 | once a month has raised, the later months change nothing |
| `MonthlyCollector.RunCollects` | src/bjut_annual_eat/stat.py:52-58 | the collected list is the concatenation, in month order, of each month's `data.data` from its cached or live response |
| `MonthlyCollector.RunFetches` | src/bjut_annual_eat/stat.py:35-46 | the live fetches are exactly the windows of the months missing from the cache, in order; a cache hit never calls the source |
| `MonthlyCollector.CachedRunFetchesNothing` | src/bjut_annual_eat/stat.py:35-38 | with every month cached, the loop makes no fetch and leaves the cache unchanged |
| `MonthlyCollector.SecondRunRepeats` | src/bjut_annual_eat/stat.py:29-58 | idempotence: once a run has cached every month, a second run makes no fetch, keeps the cache and returns the same records, whatever the source now answers |
| `MonthlyCollector.FailedMonthIsSkipped` | src/bjut_annual_eat/stat.py:52-60 | a month whose fetch fails contributes nothing and does not stop the loop: a failed month followed by one with five records yields those five records, and only the second month is cached |
| `MonthlyCollector.CachedButEmpty` | src/bjut_annual_eat/stat.py:48-58 | a successful response without `data.data` is cached, contributes no records, and is read back from the cache on a later run |
| `MonthlyCollector.Collector.constructor` | src/bjut_annual_eat/stat.py:29-30 | a collector starts from the stored cache and an empty fetch log |
| `MonthlyCollector.Collector.GetMonthlyData` | src/bjut_annual_eat/stat.py:15-63 | the loop leaves the cache and fetch log of the specification run and keeps old entries; it returns the collected records exactly when no month raises, and those records equal the reference concatenation |
| `Source.Contribution` | src/bjut_annual_eat/stat.py:52-58 | a response adds records only when it is present, successful and carries `data.data` |
| `Calendar.DaysInMonth` | src/bjut_annual_eat/stat.py:42 | a month has 28 to 31 days |
| `Calendar.MonthsFillYear` | src/bjut_annual_eat/stat.py:42 | the twelve month lengths add up to the year length, 366 exactly in a leap year |
| `Calendar.DaysBeforeYearCounts` | src/bjut_annual_eat/stat.py:118 | the closed-form day count before a year equals the year-by-year sum of year lengths |
| `Calendar.NextDayWeekday` | src/bjut_annual_eat/stat.py:118 | the weekday of the next day is the following weekday, Sunday (7) wrapping to Monday (1) |
| `Calendar.FirstDayIsMonday` | src/bjut_annual_eat/stat.py:118 | the ISO weekday is anchored correctly: 0001-01-01 is a Monday |
| `Calendar.IsoWeekday` | src/bjut_annual_eat/stat.py:118 | the weekday is between 1 and 7 |
| `Timestamp.NumberOfPadded` | src/bjut_annual_eat/stat.py:33-43 | a zero-padded number (`{n:02d}`) reads back as the same number |
| `Timestamp.ParseTimestamp` | src/bjut_annual_eat/stat.py:93 | a parsed `txdate` is a valid date and time of day with a four-digit year |
| `Timestamp.ParseFormatted` | src/bjut_annual_eat/stat.py:93 | every valid date-time, written in the `%Y-%m-%d %H:%M:%S` form, parses back to itself |
| `Timestamp.FormattedParse` | src/bjut_annual_eat/stat.py:93 | a text that parses is exactly the formatting of what it parses to |
| `Timestamp.ParseFormattedDate` | src/bjut_annual_eat/stat.py:41-43 | a window date of a four-digit year parses back to the date it was written from |
| `Aggregator.CanteenFilterIsDining` | src/bjut_annual_eat/stat.py:101-111 | `dining_place` differs from 其他 exactly for dining merchants, where it is the merchant's name; a name on both lists is dining |
| `Aggregator.ClassifyExamples` | src/bjut_annual_eat/stat.py:75-111 | 天天餐厅 is dining and its own place, 京客隆超市 is market, 打印店 is other; the last two have place 其他 |
| `Aggregator.ParseAll` | src/bjut_annual_eat/stat.py:91-96 | either every record parses and keeps its amount and merchant, or the result names the first record whose `txdate` does not parse |
| `Aggregator.Enrich` | src/bjut_annual_eat/stat.py:69-96 | the analysis fails exactly when the record list is empty (no `txdate` column) or some `txdate` does not parse |
| `Aggregator.Where` | src/bjut_annual_eat/stat.py:141 | a filter keeps exactly the transactions that satisfy its condition, each as many times as it occurs in the input |
| `Aggregator.AmountsTotal` | src/bjut_annual_eat/stat.py:123 | the summed absolute amounts of the keyed entries equal the total consumption |
| `Aggregator.MonthlyTable` | src/bjut_annual_eat/stat.py:126-130 | the monthly table is strictly ascending by month, has a row exactly for each month that occurs (1..12), each row holds that month's sum, and the rows add up to the total |
| `Aggregator.CategoryTable` | src/bjut_annual_eat/stat.py:133-137 | the category table is descending by amount, one row per category that occurs, each row that category's sum, the rows adding up to the total |
| `Aggregator.TotalsAgree` | src/bjut_annual_eat/stat.py:123-137 | the total equals the sum of the monthly table and the sum of the category table |
| `Aggregator.CanteenTable` | src/bjut_annual_eat/stat.py:140-145 | the canteen table is descending by amount, never has a 其他 row, has a row for each canteen that occurs holding that merchant's sum, and adds up to the dining category's sum |
| `Aggregator.WeekdaysFrom` | src/bjut_annual_eat/stat.py:152-154 | the pivot's rows are the weekdays with a dining transaction, each once, ascending |
| `Aggregator.Pivot` | src/bjut_annual_eat/stat.py:148-155 | every pivot row has a cell for every hour column the pivot creates |
| `Aggregator.PivotCell` | src/bjut_annual_eat/stat.py:148-155 | a pivot cell, after `fill_null(0)`, is the number of dining transactions of its weekday and hour, and an hour without a column has no dining transaction |
| `Aggregator.FillMissingHours` | src/bjut_annual_eat/stat.py:242-248 | the loop adds each hour 0..23 that has no column as a column of zeros, keeps every other column and cell, and keeps the rows and their weekdays |
| `Aggregator.FilledPivotIsHeatmap` | src/bjut_annual_eat/stat.py:243-252 | the filled pivot with the hour columns selected equals the reference matrix of dining counts per present weekday and hour |
| `Aggregator.HeatmapShape` | src/bjut_annual_eat/stat.py:148-155 | the matrix has at most seven rows, ascending by weekday and exactly those with dining; each row has 24 cells holding the hour's dining count |
| `Aggregator.MislabelledHeatmapRow` | src/bjut_annual_eat/stat.py:250-259 | as written, a single Tuesday breakfast gives a one-row matrix whose row, labelled Monday, counts 1 at hour 8 although Monday has no dining |
| `Aggregator.WeekHeatmap` | src/bjut_annual_eat/stat.py:242-259 | the labelled heatmap has seven rows of 24 cells |
| `Aggregator.Reindex` | src/bjut_annual_eat/stat.py:250-259 | reindexing the matrix by weekday yields seven rows |
| `Aggregator.ReindexedHeatmap` | src/bjut_annual_eat/stat.py:250-259 | placing each matrix row under its own weekday label gives the labelled heatmap, where row i counts weekday i + 1 and weekdays without dining are zero rows |
| `Aggregator.FullWeekIsLabelled` | src/bjut_annual_eat/stat.py:250-259 | when dining happens on all seven weekdays, the matrix as written already matches its labels |
| `Aggregator.TwoRecordExample` | src/bjut_annual_eat/stat.py:91-96 | two records of 2024-03-05 (a canteen breakfast at 08:10, a supermarket purchase at 19:00) parse to the expected transactions |
| `Aggregator.TwoTransactionTables` | src/bjut_annual_eat/stat.py:122-155 | for those two transactions the total is 42.50, March holds 42.50, the market category (30.00) precedes dining (12.50), 天天餐厅 is the only canteen row, and Tuesday 08:00 counts one dining |
| `Aggregator.AnalyzeConsumption` | src/bjut_annual_eat/stat.py:91-155 | the analysis fails exactly when parsing fails, with its fault; otherwise it reports the total, the three tables, the pivot's weekdays and the matrix the plot draws, and the correctly labelled heatmap of the parsed transactions |
| `Analysis.AnalyzeYear` | src/bjut_annual_eat/stat.py:66-69 | a yearly analysis fails on collection exactly when some uncached month of the range is outside 1..12; otherwise it is the analysis of the collected records; either way the collector's cache and fetch log are those the collection left, so cache files written before a failing analysis stay |
| `Grouping.Keys` | src/bjut_annual_eat/stat.py:127 | the group keys are distinct and are exactly the keys that occur |
| `Grouping.GroupSumSpec` | src/bjut_annual_eat/stat.py:127-128 | a group-by-sum has unique keys, a row exactly for each key that occurs, each row that key's sum, and the same total as its input |
| `Grouping.SortDesc` | src/bjut_annual_eat/stat.py:136 | the descending sort is ordered by its rank and is a permutation of its input |
| `Grouping.TotalOfPermutation` | src/bjut_annual_eat/stat.py:123-137 | reordering a table's rows does not change its total |
| `Grouping.SortedGroupSpec` | src/bjut_annual_eat/stat.py:126-145 | a sorted group-by-sum is ordered, has unique keys and one row per occurring key holding its sum, and keeps the total |

## Findings

| source | as written | input that shows it | evidently intended | confidence | as-written member | corrected member |
|---|---|---|---|---|---|---|
| src/bjut_annual_eat/stat.py:250-259 | the heatmap matrix has a row only for each weekday with a dining transaction, while the y-axis labels name seven rows 周一..周日 by position | one dining record on Tuesday 2024-03-05 at 08:10: the single row is drawn under 周一 | row i shows weekday i + 1, and a weekday without dining is a row of zeros | not executed; the pivot's row set follows from its `index="weekday"` over the filtered rows | `Aggregator.MislabelledHeatmapRow` | `Aggregator.ReindexedHeatmap` |

The report that `Aggregator.AnalyzeConsumption` returns carries both. The
matrix as written is `Aggregator.HeatmapMatrix`, with the pivot's weekdays
`Aggregator.PresentWeekdays`. The corrected seven-row heatmap is
`Aggregator.WeekHeatmap`. The two are equal whenever every weekday has dining
(`Aggregator.FullWeekIsLabelled`).

## Behaviour worth noting

- The merchant lists are matched exactly (`is_in`), as the code does. They are
  not matched case-insensitively.
- An empty collection makes `pl.DataFrame([])` a frame without a `txdate`
  column, so the analysis raises. The model returns `Failure(MissingColumns)`.
- In test mode, a month outside 1..12 that is not cached makes
  `calendar.monthrange` raise. The collection then ends with that month
  (`Failure(month)`). It does not skip the month.

## Left out

- `query.py` (login, HTTP, configuration loading) is not part of this model. The source is a function parameter and the configuration a `Settings` value.
- File-system work is not modelled: JSON encoding, `os.makedirs`, the `os.path.exists` call itself and the output directory choice (`/.dockerenv`). The cache is a map, and a cache hit is membership in it.
- `time.sleep(0.5)` and the `print` messages are not modelled. Each pause corresponds to one fetch-log entry.
- Plotting, fonts, figure layout, `savefig`, the CSV files and the console summary (lines 157-288) are not modelled. The model stops at the values these are drawn from. The plot draws `Aggregator.HeatmapMatrix`, one row per weekday with dining, which the report carries as `pivotMatrix` with its weekdays; the report also carries the corrected seven-row `Aggregator.WeekHeatmap`.
- Float64 amounts are modelled as integer fen. The `:.2f` rendering of the total is not modelled.
- Parsing accepts only the strict `YYYY-MM-DD HH:MM:SS` form with a four-digit year. Chrono's leniencies (leap seconds, other widths) are not modelled.
- Aggregator.Where: states which transactions are kept and how many times, not that they stay in the input's order. The tables built on it sum and group, which does not depend on that order.
- Aggregator.Enrich: names the first record that does not parse. polars only raises, and its message is not modelled.
- Aggregator.Enrich: records are taken to carry all three fields and a numeric `txamt` already in fen. A `txamt` that the Float64 cast rejects (stat.py:94), or a missing `txamt` or `mername` column, also makes the analysis raise; that failure is not modelled.
- Aggregator.CategoryTable: states order and content but not the order of rows with equal amounts, because polars does not fix the order of such ties.
- Aggregator.CanteenTable: states order and content but not the order of rows with equal amounts, for the same reason.
- MonthlyCollector.WindowSpansMonth: holds for four-digit years only. A shorter year text (`{year}` of a year below 1000) is not read back by a four-digit date field.
- Python truthiness beyond `success: true/false` is not modelled, and neither is JSON `null` inside a response. Examples are `success: 1` and an empty response object.
- A year with no dining transaction is not modelled beyond its empty pivot. The model yields an all-zero heatmap; the plot of an empty matrix is not modelled.
