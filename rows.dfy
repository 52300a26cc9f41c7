/** The salary rows both components read, and the numeric fields they parse
    out of them. The CSV loader hands over each row as a mapping from header
    name to string; only `work_year`, `salary_in_usd` and `job_title` are read.
    JavaScript's NaN is modelled as `None`. */
module Rows {
  import opened Grouping

  datatype Option<T> = None | Some(value: T)

  /** One cell of a row: missing from the record, or a string (possibly empty). */
  datatype Field = Absent | Text(s: string)

  datatype Row = Row(workYear: Field, salaryInUsd: Field, jobTitle: Field)

  /** `parseInt(·, 10)` and `parseFloat` on a non-empty string; `None` is NaN.
      Salaries are modelled as whole numbers of dollars. */
  datatype Parsers = Parsers(parseInt: string -> Option<int>, parseFloat: string -> Option<int>)

  /** The key of `yearMap`: a parsed year, or `None` for the "NaN" key. */
  type YearKey = Option<int>

  /** Parsing a cell: both parsers give NaN for `undefined` and for "". */
  function ParseField(parse: string -> Option<int>, f: Field): Option<int>
  {
    match f
    case Absent => None
    case Text(s) => if s == "" then None else parse(s)
  }

  function YearOf(p: Parsers, row: Row): YearKey
  {
    ParseField(p.parseInt, row.workYear)
  }

  function SalaryOf(p: Parsers, row: Row): Option<int>
  {
    ParseField(p.parseFloat, row.salaryInUsd)
  }

  /** The grouping key of both components: the row's parsed year. */
  function ByYear(p: Parsers): Row -> YearKey
  {
    row => YearOf(p, row)
  }

  /** Adding one salary to the running total: NaN on either side gives NaN. */
  function AddSalary(total: Option<int>, salary: Option<int>): Option<int>
  {
    if total.Some? && salary.Some? then Some(total.value + salary.value) else None
  }

  /** The running salary total after adding up the salaries of `rs`, from 0. */
  function SalarySum(p: Parsers, rs: seq<Row>): (total: Option<int>)
    ensures total.Some? <==> forall i :: 0 <= i < |rs| ==> SalaryOf(p, rs[i]).Some?
  {
    if rs == [] then Some(0)
    else AddSalary(SalarySum(p, rs[..|rs| - 1]), SalaryOf(p, rs[|rs| - 1]))
  }

  /** `totalSalary / count` for a positive count; NaN stays NaN. */
  function Average(total: Option<int>, count: nat): (avg: Option<real>)
    requires count > 0
    ensures avg.Some? <==> total.Some?
    ensures avg.Some? ==> avg.value * count as real == total.value as real
  {
    if total.Some? then Some(total.value as real / count as real) else None
  }

  /** Every row of year `k` has a salary that parses. */
  predicate SalariesParse(p: Parsers, rows: seq<Row>, k: YearKey)
  {
    forall i :: 0 <= i < |rows| && YearOf(p, rows[i]) == k ==> SalaryOf(p, rows[i]).Some?
  }

  /** A year's salary total is a number exactly when every row of that year
      has a salary that parses. */
  lemma SalarySumOfYear(p: Parsers, rows: seq<Row>, k: YearKey)
    ensures SalarySum(p, Group(rows, ByYear(p), k)).Some? <==> SalariesParse(p, rows, k)
  {
    var g := Group(rows, ByYear(p), k);
    GroupMembers(rows, ByYear(p), k);
    if SalarySum(p, g).Some? {
      forall i | 0 <= i < |rows| && YearOf(p, rows[i]) == k
        ensures SalaryOf(p, rows[i]).Some?
      {
        assert ByYear(p)(rows[i]) == k;
        var j :| 0 <= j < |g| && g[j] == rows[i];
      }
    }
  }

  /** Every year's salaries parse exactly when every row's salary parses. */
  lemma EveryYearParses(p: Parsers, rows: seq<Row>)
    ensures (forall k :: k in KeySet(rows, ByYear(p)) ==> SalariesParse(p, rows, k))
            <==> forall i :: 0 <= i < |rows| ==> SalaryOf(p, rows[i]).Some?
  {
    KeySetMembers(rows, ByYear(p));
    if forall k :: k in KeySet(rows, ByYear(p)) ==> SalariesParse(p, rows, k) {
      forall i | 0 <= i < |rows|
        ensures SalaryOf(p, rows[i]).Some?
      {
        assert ByYear(p)(rows[i]) in KeySet(rows, ByYear(p));
      }
    }
  }
}
