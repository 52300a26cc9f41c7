/** The summary table (src/Component1.jsx): every row is grouped by parsed
    year, with no presence filter; each year gets its job count and average
    salary, and years whose average came out NaN are dropped. */
module Component1 {
  import opened Grouping
  import opened Rows

  /** One value of `yearMap`. */
  datatype YearTotals = YearTotals(totalJobs: nat, totalSalary: Option<int>, count: nat)

  /** What `yearMap[k]` should hold once the rows `rows` have been folded in:
      both counters are the number of rows of year `k` and the salary total
      is the sum of their salaries. */
  function TotalsFor(p: Parsers, rows: seq<Row>, k: YearKey): YearTotals
  {
    var rs := Group(rows, ByYear(p), k);
    YearTotals(|rs|, SalarySum(p, rs), |rs|)
  }

  /** Adding one row changes only the totals of that row's year: both
      counters go up by one and its salary is added. */
  lemma TotalsForAppend(p: Parsers, rows: seq<Row>, row: Row, k: YearKey)
    ensures var e := TotalsFor(p, rows, k);
            TotalsFor(p, rows + [row], k) ==
              if YearOf(p, row) != k then e
              else YearTotals(e.totalJobs + 1, AddSalary(e.totalSalary, SalaryOf(p, row)), e.count + 1)
  {
    AppendOne(rows, row, ByYear(p));
    assert ByYear(p)(row) == YearOf(p, row);
    if YearOf(p, row) == k {
      var rs := Group(rows, ByYear(p), k);
      assert Group(rows + [row], ByYear(p), k) == rs + [row];
      assert (rs + [row])[..|rs|] == rs;
    } else {
      assert Group(rows + [row], ByYear(p), k) == Group(rows, ByYear(p), k) + [];
      assert Group(rows + [row], ByYear(p), k) == Group(rows, ByYear(p), k);
    }
  }

  /** A year that no row has produced yet has the totals `processData` creates for it. */
  lemma TotalsForAbsent(p: Parsers, rows: seq<Row>, k: YearKey)
    requires k !in KeySet(rows, ByYear(p))
    ensures TotalsFor(p, rows, k) == YearTotals(0, Some(0), 0)
  {
    GroupNonEmpty(rows, ByYear(p), k);
  }

  /** The body of the `data.forEach` callback once `yearMap[year]` exists:
      bump both counters and add the salary. The totals of the row's year
      then cover that row too. */
  method AddRow(p: Parsers, ghost rows: seq<Row>, row: Row, totals: YearTotals) returns (updated: YearTotals)
    requires totals == TotalsFor(p, rows, YearOf(p, row))
    ensures updated == TotalsFor(p, rows + [row], YearOf(p, row))
  {
    updated := totals.(totalJobs := totals.totalJobs + 1);
    updated := updated.(totalSalary := AddSalary(updated.totalSalary, SalaryOf(p, row)));
    updated := updated.(count := updated.count + 1);
    TotalsForAppend(p, rows, row, YearOf(p, row));
  }

  /** `TotalsAppend` for the prefixes the loop walks through. */
  lemma TotalsNext(p: Parsers, data: seq<Row>, i: nat, m: map<YearKey, YearTotals>, totals: YearTotals,
                   m': map<YearKey, YearTotals>)
    requires i < |data|
    requires m.Keys == KeySet(data[..i], ByYear(p)) + {YearOf(p, data[i])}
    requires forall k :: k in m ==> m[k] == TotalsFor(p, data[..i], k)
    requires totals == TotalsFor(p, data[..i] + [data[i]], YearOf(p, data[i]))
    requires m' == m[YearOf(p, data[i]) := totals]
    ensures m'.Keys == KeySet(data[..i + 1], ByYear(p))
    ensures forall k :: k in m' ==> m'[k] == TotalsFor(p, data[..i + 1], k)
  {
    TakeOneMore(data, i);
    TotalsAppend(p, data[..i], data[i], m, totals, m');
  }

  /** The invariant of the grouping loop survives one more row once the
      totals of that row's year have been brought up to date. */
  lemma TotalsAppend(p: Parsers, rows: seq<Row>, row: Row, m: map<YearKey, YearTotals>, totals: YearTotals,
                     m': map<YearKey, YearTotals>)
    requires m.Keys == KeySet(rows, ByYear(p)) + {YearOf(p, row)}
    requires forall k :: k in m ==> m[k] == TotalsFor(p, rows, k)
    requires totals == TotalsFor(p, rows + [row], YearOf(p, row))
    requires m' == m[YearOf(p, row) := totals]
    ensures m'.Keys == KeySet(rows + [row], ByYear(p))
    ensures forall k :: k in m' ==> m'[k] == TotalsFor(p, rows + [row], k)
  {
    KeySetAppend(rows, row, ByYear(p));
    forall k | k in m'
      ensures m'[k] == TotalsFor(p, rows + [row], k)
    {
      if k != YearOf(p, row) {
        TotalsForAppend(p, rows, row, k);
      }
    }
  }

  /** The `data.forEach` loop of `processData`: `yearMap` ends up with one
      entry per parsed year, each entry is `TotalsFor` that year, and every
      entry has been counted at least once. */
  method BuildYearMap(p: Parsers, data: seq<Row>) returns (yearMap: map<YearKey, YearTotals>)
    ensures yearMap.Keys == KeySet(data, ByYear(p))
    ensures forall k :: k in yearMap ==> yearMap[k] == TotalsFor(p, data, k)
    ensures forall k :: k in yearMap ==> yearMap[k].totalJobs == yearMap[k].count > 0
  {
    yearMap := map[];
    var i := 0;
    while i < |data|
      invariant 0 <= i <= |data|
      invariant yearMap.Keys == KeySet(data[..i], ByYear(p))
      invariant forall k :: k in yearMap ==> yearMap[k] == TotalsFor(p, data[..i], k)
    {
      var row := data[i];
      var year := YearOf(p, row);
      if year !in yearMap {
        TotalsForAbsent(p, data[..i], year);
        yearMap := yearMap[year := YearTotals(0, Some(0), 0)];
      }
      ghost var before := yearMap;
      var totals := AddRow(p, data[..i], row, yearMap[year]);
      yearMap := yearMap[year := totals];
      TotalsNext(p, data, i, before, totals, yearMap);
      i := i + 1;
    }
    assert data[..i] == data;
    forall k | k in yearMap
      ensures yearMap[k].count > 0
    {
      GroupNonEmpty(data, ByYear(p), k);
    }
  }

  /** One element of the array `processData` returns. */
  datatype YearSummary = YearSummary(year: YearKey, totalJobs: nat, averageSalary: Option<real>)

  function YearsOf(summaries: seq<YearSummary>): seq<YearKey>
  {
    seq(|summaries|, i requires 0 <= i < |summaries| => summaries[i].year)
  }

  lemma YearsOfAppend(summaries: seq<YearSummary>, summary: YearSummary)
    ensures YearsOf(summaries + [summary]) == YearsOf(summaries) + [summary.year]
    ensures forall i :: 0 <= i < |summaries| ==> YearsOf(summaries)[i] == summaries[i].year
  {
  }

  function TotalJobs(summaries: seq<YearSummary>): nat
  {
    Sum(seq(|summaries|, i requires 0 <= i < |summaries| => summaries[i].totalJobs))
  }

  /** The callback of `Object.keys(yearMap).map(...)` for one key: the
      average when the count is positive, and 0 otherwise. */
  function Summarize(year: YearKey, totals: YearTotals): YearSummary
  {
    var averageSalary := if totals.count > 0 then Average(totals.totalSalary, totals.count) else Some(0.0);
    YearSummary(year, totals.totalJobs, averageSalary)
  }

  /** `Object.keys(yearMap).map(...)`: one summary per key, keys taken in an
      unspecified order. */
  method KeysToSummaries(yearMap: map<YearKey, YearTotals>) returns (summaries: seq<YearSummary>)
    ensures forall k :: k in yearMap <==> k in YearsOf(summaries)
    ensures forall i, j :: 0 <= i < j < |summaries| ==> summaries[i].year != summaries[j].year
    ensures forall i :: 0 <= i < |summaries| ==>
              summaries[i].year in yearMap && summaries[i] == Summarize(summaries[i].year, yearMap[summaries[i].year])
  {
    summaries := [];
    var pending := yearMap.Keys;
    while pending != {}
      invariant pending <= yearMap.Keys
      invariant forall k :: k in yearMap ==> (k in YearsOf(summaries) <==> k !in pending)
      invariant forall i, j :: 0 <= i < j < |summaries| ==> summaries[i].year != summaries[j].year
      invariant forall i :: 0 <= i < |summaries| ==>
                  summaries[i].year in yearMap && summaries[i] == Summarize(summaries[i].year, yearMap[summaries[i].year])
      decreases pending
    {
      var year :| year in pending;
      var summary := Summarize(year, yearMap[year]);
      YearsOfAppend(summaries, summary);
      summaries := summaries + [summary];
      pending := pending - {year};
    }
  }

  predicate IsNumeric(s: YearSummary)
  {
    s.averageSalary.Some?
  }

  /** The final filter: the summaries whose average is a number (not NaN),
      in their original order. */
  function DropNaN(summaries: seq<YearSummary>): (kept: seq<YearSummary>)
    ensures forall i :: 0 <= i < |kept| ==> kept[i] in summaries && kept[i].averageSalary.Some?
    ensures forall i :: 0 <= i < |summaries| && summaries[i].averageSalary.Some? ==> summaries[i] in kept
  {
    GroupMembers(summaries, IsNumeric, true);
    Group(summaries, IsNumeric, true)
  }

  /** `processData`: the grouping loop, the per-key projection and the NaN
      filter. A year survives exactly when some row has that parsed year
      (the NaN year included) and every row of that year has a salary that
      parses; its average then always comes from the division branch. */
  method ProcessData(p: Parsers, data: seq<Row>) returns (records: seq<YearSummary>)
    ensures forall i, j :: 0 <= i < j < |records| ==> records[i].year != records[j].year
    ensures forall k :: k in YearsOf(records) <==> k in KeySet(data, ByYear(p)) && SalariesParse(p, data, k)
    ensures forall i :: 0 <= i < |records| ==>
              var rs := Group(data, ByYear(p), records[i].year);
              && records[i].totalJobs == |rs| > 0
              && records[i].averageSalary.Some?
              && records[i].averageSalary == Average(SalarySum(p, rs), |rs|)
    ensures TotalJobs(records) <= |data|
    ensures TotalJobs(records) == |data| <==> forall i :: 0 <= i < |data| ==> SalaryOf(p, data[i]).Some?
    ensures data == [] ==> records == []
  {
    var yearMap := BuildYearMap(p, data);
    var summaries := KeysToSummaries(yearMap);
    records := DropNaN(summaries);
    GroupDistinct(summaries, IsNumeric, true, (s: YearSummary) => s.year);
    KeptSummaries(p, data, yearMap, summaries);
    KeptYears(p, data, yearMap, summaries);
    KeptTotal(p, data, records);
  }

  /** Each summary that survives the filter has a positive job count and a
      numeric average, both taken from the rows of its year. */
  lemma KeptSummaries(p: Parsers, data: seq<Row>, yearMap: map<YearKey, YearTotals>, summaries: seq<YearSummary>)
    requires forall k :: k in yearMap ==> yearMap[k] == TotalsFor(p, data, k)
    requires yearMap.Keys == KeySet(data, ByYear(p))
    requires forall i :: 0 <= i < |summaries| ==>
               summaries[i].year in yearMap && summaries[i] == Summarize(summaries[i].year, yearMap[summaries[i].year])
    ensures var records := DropNaN(summaries);
            forall i :: 0 <= i < |records| ==>
              var rs := Group(data, ByYear(p), records[i].year);
              && records[i].totalJobs == |rs| > 0
              && records[i].averageSalary.Some?
              && records[i].averageSalary == Average(SalarySum(p, rs), |rs|)
  {
    var records := DropNaN(summaries);
    forall i | 0 <= i < |records|
      ensures var rs := Group(data, ByYear(p), records[i].year);
              && records[i].totalJobs == |rs| > 0
              && records[i].averageSalary == Average(SalarySum(p, rs), |rs|)
    {
      var j :| 0 <= j < |summaries| && summaries[j] == records[i];
      GroupNonEmpty(data, ByYear(p), records[i].year);
    }
  }

  /** A year survives the filter exactly when it occurs and all its salaries parse. */
  lemma KeptYears(p: Parsers, data: seq<Row>, yearMap: map<YearKey, YearTotals>, summaries: seq<YearSummary>)
    requires yearMap.Keys == KeySet(data, ByYear(p))
    requires forall k :: k in yearMap ==> yearMap[k] == TotalsFor(p, data, k)
    requires forall k :: k in yearMap <==> k in YearsOf(summaries)
    requires forall i :: 0 <= i < |summaries| ==>
               summaries[i].year in yearMap && summaries[i] == Summarize(summaries[i].year, yearMap[summaries[i].year])
    ensures forall k :: k in YearsOf(DropNaN(summaries)) <==> k in KeySet(data, ByYear(p)) && SalariesParse(p, data, k)
  {
    forall k | k in YearsOf(DropNaN(summaries))
      ensures k in KeySet(data, ByYear(p)) && SalariesParse(p, data, k)
    {
      KeptYearParses(p, data, yearMap, summaries, k);
    }
    forall k | k in KeySet(data, ByYear(p)) && SalariesParse(p, data, k)
      ensures k in YearsOf(DropNaN(summaries))
    {
      ParsingYearKept(p, data, yearMap, summaries, k);
    }
  }

  lemma KeptYearParses(p: Parsers, data: seq<Row>, yearMap: map<YearKey, YearTotals>, summaries: seq<YearSummary>,
                       k: YearKey)
    requires yearMap.Keys == KeySet(data, ByYear(p))
    requires forall k :: k in yearMap ==> yearMap[k] == TotalsFor(p, data, k)
    requires forall i :: 0 <= i < |summaries| ==>
               summaries[i].year in yearMap && summaries[i] == Summarize(summaries[i].year, yearMap[summaries[i].year])
    requires k in YearsOf(DropNaN(summaries))
    ensures k in KeySet(data, ByYear(p)) && SalariesParse(p, data, k)
  {
    var records := DropNaN(summaries);
    var i :| 0 <= i < |records| && records[i].year == k;
    var j :| 0 <= j < |summaries| && summaries[j] == records[i];
    GroupNonEmpty(data, ByYear(p), k);
    SalarySumOfYear(p, data, k);
  }

  lemma ParsingYearKept(p: Parsers, data: seq<Row>, yearMap: map<YearKey, YearTotals>, summaries: seq<YearSummary>,
                        k: YearKey)
    requires yearMap.Keys == KeySet(data, ByYear(p))
    requires forall k :: k in yearMap ==> yearMap[k] == TotalsFor(p, data, k)
    requires forall k :: k in yearMap <==> k in YearsOf(summaries)
    requires forall i :: 0 <= i < |summaries| ==>
               summaries[i].year in yearMap && summaries[i] == Summarize(summaries[i].year, yearMap[summaries[i].year])
    requires k in KeySet(data, ByYear(p)) && SalariesParse(p, data, k)
    ensures k in YearsOf(DropNaN(summaries))
  {
    var records := DropNaN(summaries);
    var j :| 0 <= j < |summaries| && summaries[j].year == k;
    GroupNonEmpty(data, ByYear(p), k);
    SalarySumOfYear(p, data, k);
    assert summaries[j] in records;
    var i :| 0 <= i < |records| && records[i] == summaries[j];
    assert YearsOf(records)[i] == k;
  }

  /** The surviving job counts add up to the number of rows whose year
      survives: all rows exactly when every salary parses. */
  lemma KeptTotal(p: Parsers, data: seq<Row>, records: seq<YearSummary>)
    requires forall i, j :: 0 <= i < j < |records| ==> records[i].year != records[j].year
    requires forall k :: k in YearsOf(records) <==> k in KeySet(data, ByYear(p)) && SalariesParse(p, data, k)
    requires forall i :: 0 <= i < |records| ==> records[i].totalJobs == |Group(data, ByYear(p), records[i].year)|
    ensures TotalJobs(records) <= |data|
    ensures TotalJobs(records) == |data| <==> forall i :: 0 <= i < |data| ==> SalaryOf(p, data[i]).Some?
  {
    var kept := set k | k in YearsOf(records);
    var jobs := seq(|records|, i requires 0 <= i < |records| => records[i].totalJobs);
    GroupSizesAddUp(data, ByYear(p), YearsOf(records), jobs, kept);
    CountInAll(data, ByYear(p), kept);
    EveryYearParses(p, data);
  }

  /** A single row whose salary does not parse removes its whole year from
      the output, together with every row of that year that does parse. */
  lemma UnparseableSalaryDropsYear(p: Parsers)
    requires p.parseInt("2020") == Some(2020)
    requires p.parseFloat("abc") == None
    ensures var rows := [Row(Text("2020"), Text("50000"), Text("Engineer")),
                         Row(Text("2020"), Text("abc"), Text("Engineer"))];
            Some(2020) in KeySet(rows, ByYear(p)) && !SalariesParse(p, rows, Some(2020))
  {
    var rows := [Row(Text("2020"), Text("50000"), Text("Engineer")),
                 Row(Text("2020"), Text("abc"), Text("Engineer"))];
    assert YearOf(p, rows[1]) == Some(2020) && SalaryOf(p, rows[1]) == None;
  }

  /** Rows whose year does not parse form the NaN year, and the filter keeps
      it when all their salaries parse: the filter tests the average only. */
  lemma NaNYearKept(p: Parsers)
    requires p.parseInt("n/a") == None
    requires p.parseFloat("50000") == Some(50000)
    ensures var rows := [Row(Text("n/a"), Text("50000"), Text("Engineer"))];
            None in KeySet(rows, ByYear(p)) && SalariesParse(p, rows, None)
  {
    var rows := [Row(Text("n/a"), Text("50000"), Text("Engineer"))];
    assert rows[..0] == [];
  }
}
