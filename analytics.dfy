/** The analytics view (src/AnalyticsComponent.jsx): rows with all three
    fields present are grouped by parsed year; each year gets its job count,
    its average salary and a per-title job count, and a selected year's
    per-title counts can be listed as (title, count) pairs. */
module Analytics {
  import opened Grouping
  import opened Rows

  /** JavaScript truthiness of a cell: present and not the empty string. */
  predicate Truthy(f: Field)
  {
    f.Text? && f.s != ""
  }

  /** The row filter applied to the loader's output before grouping. */
  predicate IsPresent(row: Row)
  {
    Truthy(row.workYear) && Truthy(row.salaryInUsd) && Truthy(row.jobTitle)
  }

  /** The loader's rows that have a truthy year, salary and title, in their
      original order. */
  function ValidRows(rows: seq<Row>): (valid: seq<Row>)
    ensures |valid| <= |rows|
    ensures forall i :: 0 <= i < |valid| ==> valid[i] in rows && IsPresent(valid[i])
    ensures forall i :: 0 <= i < |rows| && IsPresent(rows[i]) ==> rows[i] in valid
  {
    GroupMembers(rows, IsPresent, true);
    Group(rows, IsPresent, true)
  }

  /** The property name `jobTitles[row.job_title]` uses: String(undefined) for a missing title. */
  function TitleOf(row: Row): string
  {
    match row.jobTitle
    case Absent => "undefined"
    case Text(s) => s
  }

  /** The title counts of `rs`, adding the rows one at a time from an empty map. */
  function TitleCounts(rs: seq<Row>): map<string, nat>
  {
    if rs == [] then map[]
    else
      var m, t := TitleCounts(rs[..|rs| - 1]), TitleOf(rs[|rs| - 1]);
      m[t := (if t in m then m[t] else 0) + 1]
  }

  /** The title counts hold exactly the titles that occur, each with the
      number of rows that carry it. */
  lemma {:induction false} TitleCountsMeaning(rs: seq<Row>)
    ensures TitleCounts(rs).Keys == KeySet(rs, TitleOf)
    ensures forall t :: t in TitleCounts(rs) ==> TitleCounts(rs)[t] == |Group(rs, TitleOf, t)|
  {
    if rs != [] {
      var n := |rs| - 1;
      TitleCountsMeaning(rs[..n]);
      assert rs == rs[..n] + [rs[n]];
      KeySetAppend(rs[..n], rs[n], TitleOf);
      AppendOne(rs[..n], rs[n], TitleOf);
      GroupNonEmpty(rs[..n], TitleOf, TitleOf(rs[n]));
    }
  }

  /** One value of `yearMap`. */
  datatype YearEntry = YearEntry(totalJobs: nat, totalSalary: Option<int>, count: nat, jobTitles: map<string, nat>)

  /** The entry of a year whose rows are `rs`: both counters are the number
      of rows, the salary total is the sum of their salaries and the title
      map counts their titles. */
  function EntryOf(p: Parsers, rs: seq<Row>): YearEntry
  {
    YearEntry(|rs|, SalarySum(p, rs), |rs|, TitleCounts(rs))
  }

  /** What `yearMap[k]` should hold once the rows `rows` have been folded in. */
  function EntryFor(p: Parsers, rows: seq<Row>, k: YearKey): YearEntry
  {
    EntryOf(p, Group(rows, ByYear(p), k))
  }

  /** One element of the array `processData` returns. */
  datatype YearRecord = YearRecord(year: YearKey, totalJobs: nat, averageSalary: Option<real>, jobTitles: map<string, nat>)

  /** One element of the drill-down list built on a row click. */
  datatype TitleCount = TitleCount(title: string, count: nat)

  function TotalJobs(records: seq<YearRecord>): nat
  {
    Sum(seq(|records|, i requires 0 <= i < |records| => records[i].totalJobs))
  }

  function TotalCount(pairs: seq<TitleCount>): nat
  {
    Sum(seq(|pairs|, i requires 0 <= i < |pairs| => pairs[i].count))
  }

  /** One more row of a year: both counters go up by one, its salary is
      added and its title's count goes up by one, from 0 for a new title. */
  lemma EntryOfAppend(p: Parsers, rs: seq<Row>, row: Row)
    ensures var e, t := EntryOf(p, rs), TitleOf(row);
            EntryOf(p, rs + [row]) ==
              YearEntry(e.totalJobs + 1, AddSalary(e.totalSalary, SalaryOf(p, row)), e.count + 1,
                        e.jobTitles[t := (if t in e.jobTitles then e.jobTitles[t] else 0) + 1])
  {
    TitleCountsAppend(rs, row);
    assert (rs + [row])[..|rs|] == rs;
  }

  /** Adding one row to the rows folded in so far changes only the entry of
      that row's year, which becomes the entry of its rows plus this one. */
  lemma EntryForAppend(p: Parsers, rows: seq<Row>, row: Row, k: YearKey)
    ensures EntryFor(p, rows + [row], k) ==
              if YearOf(p, row) == k then EntryOf(p, Group(rows, ByYear(p), k) + [row])
              else EntryFor(p, rows, k)
  {
    AppendOne(rows, row, ByYear(p));
    assert ByYear(p)(row) == YearOf(p, row);
    if YearOf(p, row) == k {
      assert Group(rows + [row], ByYear(p), k) == Group(rows, ByYear(p), k) + [row];
    } else {
      assert Group(rows + [row], ByYear(p), k) == Group(rows, ByYear(p), k) + [];
      assert Group(rows + [row], ByYear(p), k) == Group(rows, ByYear(p), k);
    }
  }

  /** One more row bumps its title's count, starting a new title at 0. */
  lemma TitleCountsAppend(rs: seq<Row>, row: Row)
    ensures var m, t := TitleCounts(rs), TitleOf(row);
            TitleCounts(rs + [row]) == m[t := (if t in m then m[t] else 0) + 1]
  {
    assert (rs + [row])[..|rs|] == rs;
  }

  /** A year that no row has produced yet has the entry `processData` creates for it. */
  lemma EntryForAbsent(p: Parsers, rows: seq<Row>, k: YearKey)
    requires k !in KeySet(rows, ByYear(p))
    ensures EntryFor(p, rows, k) == YearEntry(0, Some(0), 0, map[])
  {
    GroupNonEmpty(rows, ByYear(p), k);
  }

  /** `EntriesAppend` for the prefixes the loop walks through. */
  lemma EntriesNext(p: Parsers, data: seq<Row>, i: nat, m: map<YearKey, YearEntry>, entry: YearEntry,
                    m': map<YearKey, YearEntry>)
    requires i < |data|
    requires m.Keys == KeySet(data[..i], ByYear(p)) + {YearOf(p, data[i])}
    requires forall k :: k in m ==> m[k] == EntryFor(p, data[..i], k)
    requires entry == EntryOf(p, Group(data[..i], ByYear(p), YearOf(p, data[i])) + [data[i]])
    requires m' == m[YearOf(p, data[i]) := entry]
    ensures m'.Keys == KeySet(data[..i + 1], ByYear(p))
    ensures forall k :: k in m' ==> m'[k] == EntryFor(p, data[..i + 1], k)
  {
    TakeOneMore(data, i);
    EntriesAppend(p, data[..i], data[i], m, entry, m');
  }

  /** The invariant of the grouping loop survives one more row once the
      entry of that row's year has been brought up to date. */
  lemma EntriesAppend(p: Parsers, rows: seq<Row>, row: Row, m: map<YearKey, YearEntry>, entry: YearEntry,
                      m': map<YearKey, YearEntry>)
    requires m.Keys == KeySet(rows, ByYear(p)) + {YearOf(p, row)}
    requires forall k :: k in m ==> m[k] == EntryFor(p, rows, k)
    requires entry == EntryOf(p, Group(rows, ByYear(p), YearOf(p, row)) + [row])
    requires m' == m[YearOf(p, row) := entry]
    ensures m'.Keys == KeySet(rows + [row], ByYear(p))
    ensures forall k :: k in m' ==> m'[k] == EntryFor(p, rows + [row], k)
  {
    KeySetAppend(rows, row, ByYear(p));
    forall k | k in m'
      ensures m'[k] == EntryFor(p, rows + [row], k)
    {
      EntryForAppend(p, rows, row, k);
    }
  }

  /** The body of the `data.forEach` callback once `yearMap[year]` exists:
      bump both counters, add the salary and count the title (starting it at
      0 when new). The entry for the row's year then covers that row too. */
  method AddRow(p: Parsers, ghost rs: seq<Row>, row: Row, entry: YearEntry) returns (updated: YearEntry)
    requires entry == EntryOf(p, rs)
    ensures updated == EntryOf(p, rs + [row])
  {
    var title := TitleOf(row);
    StartThenBump(entry.jobTitles, title);
    EntryOfAppend(p, rs, row);
    updated := entry.(totalJobs := entry.totalJobs + 1);
    updated := updated.(totalSalary := AddSalary(updated.totalSalary, SalaryOf(p, row)));
    updated := updated.(count := updated.count + 1);
    if title !in updated.jobTitles {
      updated := updated.(jobTitles := updated.jobTitles[title := 0]);
    }
    updated := updated.(jobTitles := updated.jobTitles[title := updated.jobTitles[title] + 1]);
  }

  /** Starting a missing count at 0 and then adding one is adding one to the
      count, taken as 0 when missing. */
  lemma StartThenBump<K>(m: map<K, nat>, k: K)
    ensures var started := if k in m then m else m[k := 0];
            started[k := started[k] + 1] == m[k := (if k in m then m[k] else 0) + 1]
  {
  }

  /** The `data.forEach` loop of `processData`: `yearMap` ends up with one
      entry per parsed year, and each entry is `EntryFor` that year. */
  method BuildYearMap(p: Parsers, data: seq<Row>) returns (yearMap: map<YearKey, YearEntry>)
    ensures yearMap.Keys == KeySet(data, ByYear(p))
    ensures forall k :: k in yearMap ==> yearMap[k] == EntryFor(p, data, k)
    ensures forall k :: k in yearMap ==> yearMap[k].totalJobs == yearMap[k].count > 0
  {
    yearMap := map[];
    var i := 0;
    while i < |data|
      invariant 0 <= i <= |data|
      invariant yearMap.Keys == KeySet(data[..i], ByYear(p))
      invariant forall k :: k in yearMap ==> yearMap[k] == EntryFor(p, data[..i], k)
    {
      var row := data[i];
      var year := YearOf(p, row);
      if year !in yearMap {
        EntryForAbsent(p, data[..i], year);
        yearMap := yearMap[year := YearEntry(0, Some(0), 0, map[])];
      }
      ghost var before := yearMap;
      var entry := AddRow(p, Group(data[..i], ByYear(p), year), row, yearMap[year]);
      yearMap := yearMap[year := entry];
      EntriesNext(p, data, i, before, entry, yearMap);
      i := i + 1;
    }
    assert data[..i] == data;
    forall k | k in yearMap
      ensures yearMap[k].count > 0
    {
      GroupNonEmpty(data, ByYear(p), k);
    }
  }

  /** `handleRowClick`: `Object.entries(jobTitles)` as (title, count) pairs:
      one pair per title, each with its count unchanged. The order of
      `Object.entries` is not modelled; titles come in an unspecified order. */
  ghost function Breakdown(jobTitles: map<string, nat>): (pairs: seq<TitleCount>)
    ensures forall i :: 0 <= i < |pairs| ==>
              pairs[i].title in jobTitles && pairs[i].count == jobTitles[pairs[i].title]
    ensures forall t :: t in jobTitles ==> TitleCount(t, jobTitles[t]) in pairs
    ensures forall i, j :: 0 <= i < j < |pairs| ==> pairs[i].title != pairs[j].title
  {
    var titles := Enumerate(jobTitles.Keys);
    var pairs := seq(|titles|, i requires 0 <= i < |titles| => TitleCount(titles[i], jobTitles[titles[i]]));
    assert forall i :: 0 <= i < |titles| ==> TitleCount(titles[i], jobTitles[titles[i]]) == pairs[i];
    pairs
  }

  function TitlesOf(pairs: seq<TitleCount>): seq<string>
  {
    seq(|pairs|, i requires 0 <= i < |pairs| => pairs[i].title)
  }

  /** The titles listed by `Breakdown` are the keys of the map, each once. */
  lemma BreakdownTitles(jobTitles: map<string, nat>)
    ensures var titles := TitlesOf(Breakdown(jobTitles));
            && (forall t :: t in jobTitles <==> t in titles)
            && forall i, j :: 0 <= i < j < |titles| ==> titles[i] != titles[j]
  {
    var pairs := Breakdown(jobTitles);
    var titles := TitlesOf(pairs);
    forall t | t in jobTitles
      ensures t in titles
    {
      var i :| 0 <= i < |pairs| && pairs[i] == TitleCount(t, jobTitles[t]);
      assert titles[i] == t;
    }
  }

  /** The title counts of a year add up to the year's job count: listing them
      with `Breakdown` and summing gives the number of rows. */
  lemma {:induction false} BreakdownAddsUp(rs: seq<Row>)
    ensures TotalCount(Breakdown(TitleCounts(rs))) == |rs|
  {
    var m := TitleCounts(rs);
    TitleCountsMeaning(rs);
    BreakdownTitles(m);
    var pairs := Breakdown(m);
    var counts := seq(|pairs|, i requires 0 <= i < |pairs| => pairs[i].count);
    GroupSizesAddUp(rs, TitleOf, TitlesOf(pairs), counts, m.Keys);
    CountInAll(rs, TitleOf, m.Keys);
  }

  function YearsOf(records: seq<YearRecord>): seq<YearKey>
  {
    seq(|records|, i requires 0 <= i < |records| => records[i].year)
  }

  lemma YearsOfAppend(records: seq<YearRecord>, record: YearRecord)
    ensures YearsOf(records + [record]) == YearsOf(records) + [record.year]
    ensures forall i :: 0 <= i < |records| ==> YearsOf(records)[i] == records[i].year
  {
  }

  /** The callback of `Object.keys(yearMap).map(...)` for one key. */
  function ToRecord(year: YearKey, entry: YearEntry): YearRecord
    requires entry.count > 0
  {
    YearRecord(year, entry.totalJobs, Average(entry.totalSalary, entry.count), entry.jobTitles)
  }

  /** `Object.keys(yearMap).map(...)`: one record per key, keys taken in an
      unspecified order. */
  method KeysToRecords(yearMap: map<YearKey, YearEntry>) returns (records: seq<YearRecord>)
    requires forall k :: k in yearMap ==> yearMap[k].count > 0
    ensures forall k :: k in yearMap <==> k in YearsOf(records)
    ensures forall i, j :: 0 <= i < j < |records| ==> records[i].year != records[j].year
    ensures forall i :: 0 <= i < |records| ==>
              records[i].year in yearMap && records[i] == ToRecord(records[i].year, yearMap[records[i].year])
  {
    records := [];
    var pending := yearMap.Keys;
    while pending != {}
      invariant pending <= yearMap.Keys
      invariant forall k :: k in yearMap ==> (k in YearsOf(records) <==> k !in pending)
      invariant forall i, j :: 0 <= i < j < |records| ==> records[i].year != records[j].year
      invariant forall i :: 0 <= i < |records| ==>
                  records[i].year in yearMap && records[i] == ToRecord(records[i].year, yearMap[records[i].year])
      decreases pending
    {
      var year :| year in pending;
      var record := ToRecord(year, yearMap[year]);
      YearsOfAppend(records, record);
      records := records + [record];
      pending := pending - {year};
    }
  }

  /** `processData`: the grouping loop, then one record per key of `yearMap`.
      Every parsed year gets exactly one record, and no year is dropped, not
      even one whose average is NaN. */
  method ProcessData(p: Parsers, data: seq<Row>) returns (records: seq<YearRecord>)
    ensures forall i, j :: 0 <= i < j < |records| ==> records[i].year != records[j].year
    ensures forall k :: k in KeySet(data, ByYear(p)) <==> k in YearsOf(records)
    ensures forall i :: 0 <= i < |records| ==>
              var rs := Group(data, ByYear(p), records[i].year);
              && records[i].totalJobs == |rs| > 0
              && records[i].averageSalary == Average(SalarySum(p, rs), |rs|)
              && records[i].jobTitles == TitleCounts(rs)
    ensures forall i :: 0 <= i < |records| ==> TotalCount(Breakdown(records[i].jobTitles)) == records[i].totalJobs
    ensures TotalJobs(records) == |data|
    ensures data == [] ==> records == []
  {
    var yearMap := BuildYearMap(p, data);
    records := KeysToRecords(yearMap);
    RecordsMatchRows(p, data, yearMap, records);
    RecordsAddUp(p, data, records);
  }

  /** Each record carries the job count, average and title counts of the
      rows of its year, and its title counts add up to its job count. */
  lemma RecordsMatchRows(p: Parsers, data: seq<Row>, yearMap: map<YearKey, YearEntry>, records: seq<YearRecord>)
    requires forall k :: k in yearMap ==> yearMap[k].count > 0
    requires yearMap.Keys == KeySet(data, ByYear(p))
    requires forall k :: k in yearMap ==> yearMap[k] == EntryFor(p, data, k)
    requires forall i :: 0 <= i < |records| ==>
               records[i].year in yearMap && records[i] == ToRecord(records[i].year, yearMap[records[i].year])
    ensures forall i :: 0 <= i < |records| ==>
              var rs := Group(data, ByYear(p), records[i].year);
              && records[i].totalJobs == |rs| > 0
              && records[i].averageSalary == Average(SalarySum(p, rs), |rs|)
              && records[i].jobTitles == TitleCounts(rs)
    ensures forall i :: 0 <= i < |records| ==> TotalCount(Breakdown(records[i].jobTitles)) == records[i].totalJobs
  {
    forall i | 0 <= i < |records|
      ensures TotalCount(Breakdown(records[i].jobTitles)) == records[i].totalJobs
    {
      BreakdownAddsUp(Group(data, ByYear(p), records[i].year));
    }
  }

  /** One record per year that occurs, with that year's row count: the job
      counts add up to the number of rows. */
  lemma RecordsAddUp(p: Parsers, data: seq<Row>, records: seq<YearRecord>)
    requires forall i, j :: 0 <= i < j < |records| ==> records[i].year != records[j].year
    requires forall k :: k in KeySet(data, ByYear(p)) <==> k in YearsOf(records)
    requires forall i :: 0 <= i < |records| ==> records[i].totalJobs == |Group(data, ByYear(p), records[i].year)|
    ensures TotalJobs(records) == |data|
  {
    var keys := KeySet(data, ByYear(p));
    var jobs := seq(|records|, i requires 0 <= i < |records| => records[i].totalJobs);
    GroupSizesAddUp(data, ByYear(p), YearsOf(records), jobs, keys);
    CountInAll(data, ByYear(p), keys);
  }

  /** A year occurs among the filtered rows exactly when it is the parsed
      year of some row of the loader's output that has all three fields. */
  lemma PresentYear(p: Parsers, raw: seq<Row>, k: YearKey)
    ensures k in KeySet(ValidRows(raw), ByYear(p)) <==> exists row :: row in raw && IsPresent(row) && YearOf(p, row) == k
  {
    var valid := ValidRows(raw);
    KeySetMembers(valid, ByYear(p));
    if k in KeySet(valid, ByYear(p)) {
      var v :| 0 <= v < |valid| && ByYear(p)(valid[v]) == k;
      assert valid[v] in raw && IsPresent(valid[v]);
    }
    if exists row :: row in raw && IsPresent(row) && YearOf(p, row) == k {
      var row :| row in raw && IsPresent(row) && YearOf(p, row) == k;
      var i :| 0 <= i < |raw| && raw[i] == row;
      var v :| 0 <= v < |valid| && valid[v] == raw[i];
      assert ByYear(p)(valid[v]) == k;
    }
  }

  /** The loader callback: filter the rows, then group them. Exactly the
      years of the rows with all three fields present get a record, each
      once, with the job count, average and title counts of those rows of
      its year; the job counts add up to the number of such rows. */
  method Analyze(p: Parsers, raw: seq<Row>) returns (records: seq<YearRecord>)
    ensures forall i, j :: 0 <= i < j < |records| ==> records[i].year != records[j].year
    ensures forall k :: k in YearsOf(records) <==> exists row :: row in raw && IsPresent(row) && YearOf(p, row) == k
    ensures forall i :: 0 <= i < |records| ==>
              var rs := Group(ValidRows(raw), ByYear(p), records[i].year);
              && records[i].totalJobs == |rs| > 0
              && records[i].averageSalary == Average(SalarySum(p, rs), |rs|)
              && records[i].jobTitles == TitleCounts(rs)
    ensures TotalJobs(records) == |ValidRows(raw)|
  {
    var valid := ValidRows(raw);
    records := ProcessData(p, valid);
    forall k
      ensures k in YearsOf(records) <==> exists row :: row in raw && IsPresent(row) && YearOf(p, row) == k
    {
      PresentYear(p, raw, k);
    }
  }

  /** A row whose salary does not parse passes the presence filter, still
      counts towards its year's jobs, and makes that year's average NaN. */
  lemma UnparseableSalaryCounted(p: Parsers)
    requires p.parseInt("2020") == Some(2020)
    requires p.parseFloat("50000") == Some(50000)
    requires p.parseFloat("abc") == None
    ensures var rows := [Row(Text("2020"), Text("50000"), Text("Engineer")),
                         Row(Text("2020"), Text("abc"), Text("Engineer"))];
            && ValidRows(rows) == rows
            && EntryFor(p, rows, Some(2020)).totalJobs == 2
            && EntryFor(p, rows, Some(2020)).totalSalary == None
  {
    var rows := [Row(Text("2020"), Text("50000"), Text("Engineer")),
                 Row(Text("2020"), Text("abc"), Text("Engineer"))];
    GroupOfAll(rows, IsPresent, true);
    GroupOfAll(rows, ByYear(p), Some(2020));
    assert SalaryOf(p, rows[1]) == None;
  }
}
