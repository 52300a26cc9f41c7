# Salary analysis: year grouping

A model of the aggregation logic of SalariesAnalysis, a React front end that
loads a CSV file of salary records and shows per-year statistics. The logic
lives in two components:

- `src/AnalyticsComponent.jsx` first drops every row whose `work_year`,
  `salary_in_usd` or `job_title` is missing or empty. Its `processData` then
  walks the remaining rows once and fills a dictionary `yearMap`, keyed by
  the parsed year. Each entry holds `totalJobs`, `count`, `totalSalary` and a
  per-title count map `jobTitles`. It then emits one record per key, with
  the average salary `totalSalary / count`. `handleRowClick` turns a record's
  `jobTitles` into a list of `{title, count}` pairs.
- `src/Component1.jsx` runs the same loop over every row, without the
  presence filter and without the title map. It computes the average behind
  a `count > 0` guard and drops every year whose average is NaN.

Files:

- `grouping.dfy` (module `Grouping`) holds the generic facts both components
  need. `Group` is the elements with one key, `KeySet` the keys that occur
  and `CountIn` the number of elements under a set of keys. The lemmas show
  that group sizes add up.
- `rows.dfy` (module `Rows`) holds the row record, the parsed year and
  salary, the salary sum and the average. JavaScript's NaN is `None`:
  - the year key is `Option<int>`, and the "NaN" key is `None`;
  - a salary is `Option<int>`, and an average is `Option<real>`.
  - `parseInt` and `parseFloat` are the function-valued parameter `Parsers`,
    since their string grammar is not modelled. Both give NaN for a missing
    cell and for the empty string.
- `analytics.dfy` (module `Analytics`) and `component1.dfy` (module
  `Component1`) hold the two components.

Each `forEach` loop is a `method` over a `map` that it updates entry by
entry, as the source does. Its invariant ties every entry to a
specification function of the rows folded in so far: `EntryFor` or
`TotalsFor`, which count and sum the rows of one year. The
`Object.keys(...).map(...)` projection is a loop that takes the keys in an
unspecified order.

Three behaviours of the code that are easy to miss:

- A row whose salary does not parse is not skipped.
  - In `AnalyticsComponent.jsx` it passes the presence filter, because
    "abc" is truthy. It counts towards its year's jobs and makes that year's
    average NaN, and the year is still emitted (`Analytics.UnparseableSalaryCounted`).
  - In `Component1.jsx` it removes its whole year from the output
    (`Component1.UnparseableSalaryDropsYear`).
- In `Component1.jsx` the rows whose year does not parse form a NaN year.
  That year is kept whenever all its salaries parse, because the filter
  tests only the average (`Component1.NaNYearKept`). So a year appears in
  the output exactly when some row has that parsed year and every row of
  that year has a salary that parses. The total of the output's job counts
  equals the number of rows exactly when every salary parses, whether or
  not the years parse.
- The comment at `src/Component1.jsx:43` says the `count > 0` guard avoids
  NaN, but the guard's `0` fallback can never be reached: every key was
  created by a row, so its count is positive. NaN averages come from NaN
  salaries instead, and the filter on line 51 removes them.

## Model

| member | source | states |
|---|---|---|
| Rows.SalarySum | src/AnalyticsComponent.jsx:40 | The running `totalSalary` of a list of rows is a number exactly when every row's salary parses: one NaN salary makes the total NaN. |
| Rows.Average | src/AnalyticsComponent.jsx:52 | For a positive count, the average is a number exactly when the total is, and average times count equals the total. |
| Rows.SalarySumOfYear | src/Component1.jsx:26-34 | A year's salary total is a number exactly when every row of that year has a salary that parses. |
| Rows.EveryYearParses | src/Component1.jsx:27 | Every year's salaries parse exactly when every row's salary parses. |
| Grouping.GroupNonEmpty | src/Component1.jsx:29-35 | A key has at least one row exactly when some row produced it, so every key of `yearMap` has a positive count. |
| Grouping.GroupSizesAddUp | src/AnalyticsComponent.jsx:31-41 | The sizes of the groups of distinct keys add up to the number of rows whose key is among those keys. |
| Grouping.CountInAll | src/AnalyticsComponent.jsx:31-39 | Every row is counted under a set of keys exactly when every key that occurs is in the set. |
| Grouping.GroupDistinct | src/Component1.jsx:51 | Filtering a list whose years are distinct leaves the years distinct. |
| Analytics.ValidRows | src/AnalyticsComponent.jsx:21 | The filtered rows are rows of the input that have all three fields present and non-empty, and every such input row is kept. |
| Analytics.PresentYear | src/AnalyticsComponent.jsx:21-22 | A year occurs among the filtered rows exactly when it is the parsed year of an input row with all three fields present. |
| Analytics.Analyze | src/AnalyticsComponent.jsx:20-22 | Exactly the years of the input rows with all three fields present get a record, each year once. Each record's `totalJobs`, average and title counts are those of the filtered rows of its year, and the job counts add up to the number of rows that pass the presence filter. |
| Analytics.EntryForAbsent | src/AnalyticsComponent.jsx:35-37 | A year no row has produced yet has the entry the code creates: zero jobs, zero salary, zero count and no titles. |
| Analytics.EntryForAppend | src/AnalyticsComponent.jsx:31-47 | Folding in one more row changes only the entry of that row's year, which becomes the entry of that year's rows plus this one. |
| Analytics.TitleCountsMeaning | src/AnalyticsComponent.jsx:43-46 | The title map holds exactly the titles that occur among a year's rows, and each title's count is the number of rows that carry it. |
| Analytics.AddRow | src/AnalyticsComponent.jsx:39-46 | The in-place updates of one row turn the entry of a year's rows into the entry of those rows plus this one. |
| Analytics.EntriesAppend | src/AnalyticsComponent.jsx:31-47 | After one row is folded in, the map still has exactly the years that occur, and each entry still counts and sums exactly the rows of its year. |
| Analytics.EntriesNext | src/AnalyticsComponent.jsx:31-47 | The same step, stated for the prefix of the input the loop has walked through. |
| Analytics.BuildYearMap | src/AnalyticsComponent.jsx:29-47 | `yearMap` has one key per parsed year. Each entry's job count and count equal the number of rows of that year and are positive. Its total is the sum of their salaries and its title map counts their titles. |
| Analytics.KeysToRecords | src/AnalyticsComponent.jsx:49-54 | There is one record per key of `yearMap`, with distinct years, and each record is that key's entry with its average. |
| Analytics.RecordsMatchRows | src/AnalyticsComponent.jsx:49-54 | Each record's `totalJobs`, average and title map are those of the rows of its year, and its title counts add up to its `totalJobs`. |
| Analytics.RecordsAddUp | src/AnalyticsComponent.jsx:49-54 | With one record per year that occurs, each holding that year's row count, the job counts add up to the number of rows. |
| Analytics.ProcessData | src/AnalyticsComponent.jsx:28-55 | One record per distinct parsed year, none dropped even when its average is NaN. Each record's `totalJobs` is its number of rows, its average is their salary sum over that number and its titles count their titles. The title counts add up to `totalJobs`, the job counts add up to the number of input rows, and empty input gives empty output. |
| Analytics.Breakdown | src/AnalyticsComponent.jsx:59 | One `{title, count}` pair per key of `jobTitles`, with the count unchanged and the titles distinct. |
| Analytics.BreakdownTitles | src/AnalyticsComponent.jsx:59 | The titles of the breakdown are exactly the keys of `jobTitles`, each listed once. |
| Analytics.BreakdownAddsUp | src/AnalyticsComponent.jsx:59 | The counts of a year's breakdown add up to the number of rows of that year. |
| Analytics.UnparseableSalaryCounted | src/AnalyticsComponent.jsx:21 | A row with an unparseable salary passes the filter, counts towards its year's jobs and makes that year's salary total, and so its average, NaN. |
| Component1.TotalsForAbsent | src/Component1.jsx:29-31 | A year no row has produced yet has the entry the code creates: zero jobs, zero salary and zero count. |
| Component1.TotalsForAppend | src/Component1.jsx:33-35 | Folding in one more row changes only the totals of that row's year. Both counters go up by one and the salary is added (NaN propagates). |
| Component1.AddRow | src/Component1.jsx:33-35 | The in-place updates of one row turn the totals for the rows so far into the totals for those rows plus this one. |
| Component1.TotalsAppend | src/Component1.jsx:25-36 | After one row is folded in, the map still has exactly the years that occur, and each entry still counts and sums exactly the rows of its year. |
| Component1.TotalsNext | src/Component1.jsx:25-36 | The same step, stated for the prefix of the input the loop has walked through. |
| Component1.BuildYearMap | src/Component1.jsx:23-36 | `yearMap` has one key per parsed year. Each entry's job count and count equal the number of rows of that year and are positive, and its total is the sum of their salaries. |
| Component1.KeysToSummaries | src/Component1.jsx:38-50 | There is one summary per key of `yearMap`, with distinct years, and each summary is that key's totals with the guarded average. |
| Component1.DropNaN | src/Component1.jsx:51 | The kept summaries are those of the input whose average is a number, and every such summary is kept. |
| Component1.KeptSummaries | src/Component1.jsx:38-51 | Every surviving summary has a positive job count equal to its number of rows. Its average is a number and came from the division branch. |
| Component1.KeptYearParses | src/Component1.jsx:44-51 | A year that survives the filter occurs among the rows, and all its salaries parse. |
| Component1.ParsingYearKept | src/Component1.jsx:44-51 | A year that occurs and whose salaries all parse survives the filter. |
| Component1.KeptYears | src/Component1.jsx:44-51 | A year survives exactly when some row has that parsed year and every row of that year has a salary that parses. |
| Component1.KeptTotal | src/Component1.jsx:38-51 | The surviving job counts add up to at most the number of rows, and to exactly that number when every salary parses. |
| Component1.ProcessData | src/Component1.jsx:22-52 | Output years are distinct. A year is output exactly when it occurs and all its salaries parse. Each output has its year's job count and a numeric average from the division branch. The job counts add up to at most the number of rows, and to exactly that number when every salary parses. Empty input gives empty output. |
| Component1.UnparseableSalaryDropsYear | src/Component1.jsx:27-34 | One unparseable salary keeps its year out of the output, together with that year's parseable rows. |
| Component1.NaNYearKept | src/Component1.jsx:47-51 | Rows whose year does not parse form the NaN year, which is kept when all their salaries parse. |

## Left out

- React state and effects (`useState`, `useEffect`, `selectedYear`, `jobData`) are UI state, not logic, so they are not modelled.
- CSV loading through `Papa.parse` is I/O through a library, so it is not modelled. Its result is the input sequence of rows, and each row has only the three columns that are read.
- Rendering is presentation only, so it is not modelled. This covers the Chart.js registration and line data, the table columns and the `sorter` comparators.
- Floating point is not modelled. Salaries are whole numbers, sums are exact, and the average is an exact rational number. `toFixed(2)` and its string result are not modelled, and neither are rounding, overflow to Infinity or the comparators that subtract those strings.
- The string grammar of `parseInt` and `parseFloat` is not modelled. Both are abstract functions passed in as `Parsers`, and only their NaN results for a missing cell or an empty string are fixed.
- Analytics.KeysToRecords: the iteration order of `Object.keys` is not modelled. Keys are taken in an unspecified order, and the model does not capture that integer-like keys come out ascending.
- Analytics.Breakdown: the order of `Object.entries` is not modelled. It is a ghost function that lists the titles in an unspecified order.
- The record's `year: parseInt(year, 10)` re-parse of the stringified key is modelled as the key itself, because year keys are exact integers (or NaN). In JavaScript the round trip through a property name is not the identity. `parseInt` returns a double, and `String` writes a value of at least 1e21 in exponent form, so a `work_year` of "1000000000000000000000" gets the key "1e+21", which parses back as 1. A numeric string of more than 309 digits parses to Infinity, whose key "Infinity" parses back as NaN. Neither round trip is captured, and neither is the loss of precision above 2^53.
- Analytics.KeysToRecords: its "years are distinct" clause holds for exact integer keys only. In the source the round trips above can give two records the same `year`, such as a year "1e+21" next to a year "1", or a second NaN year next to the real NaN bucket.
- Analytics.ProcessData: its "years are distinct" clause holds for exact integer keys only, for the reason given for `Analytics.KeysToRecords`.
- Analytics.Analyze: its "years are distinct" clause holds for exact integer keys only, for the reason given for `Analytics.KeysToRecords`.
- Component1.KeysToSummaries: its "years are distinct" clause holds for exact integer keys only, for the reason given for `Analytics.KeysToRecords`.
- Component1.ProcessData: its "years are distinct" clause holds for exact integer keys only, for the reason given for `Analytics.KeysToRecords`.
- JavaScript object-key semantics are not modelled. `yearMap` and `jobTitles` are plain finite maps, so prototype keys such as a title named "constructor" do not collide. A missing title would be the key "undefined".
- Analytics.AddRow: the code tests a title's presence by the truthiness of its count. The model tests membership. The two agree because a stored count is at least 1 right after it is created.

