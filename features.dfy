/** The per-row features the impact score is built from: tenure, direct
    reports, level score, and the validated equity percentage. */
module Features {

  import opened Util
  import opened Schema
  import opened Loader

  // ---- tenure -----------------------------------------------------------------

  /** `compute_tenure_years` for one row, given the whole days elapsed since
      its start date (`None` where the date does not parse): years of 365.25
      days, a missing date counting as 0 and a future one clipped to 0. */
  function TenureYears(days: Option<int>): (y: real)
    ensures y >= 0.0
    ensures y == 0.0 <==> days.None? || days.value <= 0
    ensures days.Some? && days.value > 0 ==> y * 365.25 == days.value as real
  {
    match days
    case None => 0.0
    case Some(d) => if d as real / 365.25 < 0.0 then 0.0 else d as real / 365.25
  }

  /** The `tenure_years` column; `daysSince` stands for parsing the
      `start_date` text and subtracting it from the current time. */
  function TenureColumn(rows: seq<Employee>, daysSince: string -> Option<int>): (r: seq<real>)
    ensures |r| == |rows|
    ensures forall k :: 0 <= k < |r| ==> r[k] >= 0.0
  {
    var r := seq(|rows|, k requires 0 <= k < |rows| => TenureYears(daysSince(Cell(rows[k].cells, StartDate))));
    assert forall k :: 0 <= k < |r| ==> r[k] == TenureYears(daysSince(Cell(rows[k].cells, StartDate)));
    r
  }

  // ---- direct reports -------------------------------------------------------

  /** `value_counts()` looked up at `x`, with `fillna(0)` for a value that never
      occurs: the number of entries of `s` equal to `x`. */
  function CountOf(s: seq<string>, x: string): (c: nat)
    ensures c <= |s|
    ensures c == 0 <==> x !in s
  {
    if s == [] then 0 else (if s[0] == x then 1 else 0) + CountOf(s[1..], x)
  }

  /** The count agrees with the multiset of the entries. */
  lemma {:induction false} CountOfMultiset(s: seq<string>, x: string)
    ensures CountOf(s, x) == multiset(s)[x]
  {
    if s != [] {
      assert s == [s[0]] + s[1..];
      CountOfMultiset(s[1..], x);
    }
  }

  /** The `reports_to` text of every row. */
  function ReportsToColumn(rows: seq<Employee>): (r: seq<string>)
    ensures |r| == |rows|
  {
    seq(|rows|, k requires 0 <= k < |rows| => Cell(rows[k].cells, ReportsTo))
  }

  /** `compute_direct_reports_count`: for each row, how many rows name its
      `employee_id` as their `reports_to`; all zero without that column. */
  function DirectReports(rows: seq<Employee>, hasReportsTo: bool): (r: seq<int>)
    ensures |r| == |rows|
    ensures forall k :: 0 <= k < |r| ==> 0 <= r[k] <= |rows|
    ensures !hasReportsTo ==> forall k :: 0 <= k < |r| ==> r[k] == 0
  {
    if !hasReportsTo then seq(|rows|, _ => 0)
    else
      var reports := ReportsToColumn(rows);
      seq(|rows|, k requires 0 <= k < |rows| => CountOf(reports, rows[k].Id()))
  }

  /** The count of a row is the number of rows that report to it: the
      multiplicity of its id among the `reports_to` entries, and zero when no
      row names it. */
  lemma DirectReportsCount(rows: seq<Employee>, k: nat)
    requires k < |rows|
    ensures DirectReports(rows, true)[k] == multiset(ReportsToColumn(rows))[rows[k].Id()]
    ensures DirectReports(rows, true)[k] == 0 <==>
      forall j :: 0 <= j < |rows| ==> Cell(rows[j].cells, ReportsTo) != rows[k].Id()
  {
    var reports := ReportsToColumn(rows);
    CountOfMultiset(reports, rows[k].Id());
    assert forall j :: 0 <= j < |rows| ==> reports[j] == Cell(rows[j].cells, ReportsTo);
  }

  // ---- level --------------------------------------------------------------------

  /** The score of each known `level` label. */
  const LevelTable: map<string, real> := map[
    "C-Level" := 5.0, "VP" := 4.0, "Director" := 3.0, "Manager" := 2.0,
    "Staff" := 3.0, "Senior" := 3.0, "Mid" := 1.5, "Junior" := 1.0]

  /** `map_level_to_score` for one label: the table value, 1.0 for anything
      else. */
  function LevelScore(name: string): (score: real)
    ensures 1.0 <= score <= 5.0
    ensures name !in LevelTable ==> score == 1.0
  {
    if name in LevelTable then LevelTable[name] else 1.0
  }

  /** The eight labels of the table and their scores. */
  lemma LevelScores()
    ensures LevelScore("C-Level") == 5.0 && LevelScore("VP") == 4.0
    ensures LevelScore("Director") == 3.0 && LevelScore("Manager") == 2.0
    ensures LevelScore("Staff") == 3.0 && LevelScore("Senior") == 3.0
    ensures LevelScore("Mid") == 1.5 && LevelScore("Junior") == 1.0
    ensures LevelScore("") == 1.0
  {
  }

  /** The `level_score` column. */
  function LevelColumn(rows: seq<Employee>): (r: seq<real>)
    ensures |r| == |rows|
    ensures forall k :: 0 <= k < |r| ==> 1.0 <= r[k] <= 5.0
  {
    seq(|rows|, k requires 0 <= k < |rows| => LevelScore(Cell(rows[k].cells, Level)))
  }

  // ---- equity -------------------------------------------------------------------

  /** The `equity_pct` column used for scoring, and `include_equity`. */
  datatype EquityColumn = EquityColumn(pct: seq<real>, included: bool)

  /** Some entry coerced to a number (`not eq_series.dropna().empty`). */
  predicate AnyNumeric(xs: seq<Option<real>>)
  {
    exists k :: 0 <= k < |xs| && xs[k].Some?
  }

  /** `eq_series.max()`, which skips the missing entries. */
  function MaxNumeric(xs: seq<Option<real>>): (m: real)
    requires AnyNumeric(xs)
    ensures forall k :: 0 <= k < |xs| && xs[k].Some? ==> xs[k].value <= m
    ensures exists k :: 0 <= k < |xs| && xs[k].Some? && xs[k].value == m
  {
    var last := xs[|xs| - 1];
    var init := xs[..|xs| - 1];
    if !AnyNumeric(init) then
      assert last.Some?;
      last.value
    else if last.Some? && last.value > MaxNumeric(init) then
      last.value
    else
      MaxNumeric(init)
  }

  /** `fillna(0.0)`. */
  function FillZero(xs: seq<Option<real>>): (r: seq<real>)
    ensures |r| == |xs|
    ensures forall k :: 0 <= k < |xs| ==> r[k] == (if xs[k].Some? then xs[k].value else 0.0)
  {
    seq(|xs|, k requires 0 <= k < |xs| => if xs[k].Some? then xs[k].value else 0.0)
  }

  function Zeros(n: nat): (r: seq<real>)
    ensures |r| == n && forall k :: 0 <= k < n ==> r[k] == 0.0
  {
    seq(n, _ => 0.0)
  }

  /** The `equity_pct` branch: accept the coerced percentages, missing ones
      read as 0, when at least one is numeric and none exceeds 100; otherwise
      discard them. */
  function PercentOutcome(eq: seq<Option<real>>): (e: EquityColumn)
    ensures |e.pct| == |eq|
    ensures e.included <==> AnyNumeric(eq) && MaxNumeric(eq) <= 100.0
    ensures e.included ==> e.pct == FillZero(eq) && forall k :: 0 <= k < |eq| ==> e.pct[k] <= 100.0
    ensures !e.included ==> e.pct == Zeros(|eq|)
  {
    if !AnyNumeric(eq) then EquityColumn(Zeros(|eq|), false)
    else if MaxNumeric(eq) <= 100.0 then EquityColumn(FillZero(eq), true)
    else EquityColumn(Zeros(|eq|), false)
  }

  /** The `equity_shares` branch: shares as a percentage of the total from the
      cap table, when that total is known and positive. `totalShares` is `None`
      when the cap table is missing or cannot be read. */
  function SharesOutcome(shares: seq<Option<real>>, totalShares: Option<real>): (e: EquityColumn)
    ensures |e.pct| == |shares|
    ensures e.included <==> totalShares.Some? && totalShares.value > 0.0
    ensures e.included ==> forall k :: 0 <= k < |shares| ==>
      e.pct[k] * totalShares.value == FillZero(shares)[k] * 100.0
    ensures !e.included ==> e.pct == Zeros(|shares|)
  {
    if totalShares.Some? && totalShares.value > 0.0 then
      var filled := FillZero(shares);
      EquityColumn(seq(|shares|, k requires 0 <= k < |shares| => filled[k] / totalShares.value * 100.0), true)
    else EquityColumn(Zeros(|shares|), false)
  }

  /** A column of the roster coerced by `pd.to_numeric(errors="coerce")`. */
  function Coerced(rows: seq<Employee>, c: Column, parse: string -> Option<real>): (r: seq<Option<real>>)
    ensures |r| == |rows|
    ensures forall k :: 0 <= k < |rows| ==> r[k] == parse(Cell(rows[k].cells, c))
  {
    seq(|rows|, k requires 0 <= k < |rows| => parse(Cell(rows[k].cells, c)))
  }

  /** The equity validation block. */
  function EquityOutcome(columns: set<Column>, rows: seq<Employee>, parse: string -> Option<real>,
                         totalShares: Option<real>): (e: EquityColumn)
    ensures |e.pct| == |rows|
    ensures e.included ==> EquityPct in columns || EquityShares in columns
    ensures EquityPct in columns ==> e == PercentOutcome(Coerced(rows, EquityPct, parse))
    ensures EquityPct !in columns && EquityShares in columns ==>
      e == SharesOutcome(Coerced(rows, EquityShares, parse), totalShares)
    ensures EquityPct !in columns && EquityShares !in columns ==> e == EquityColumn(Zeros(|rows|), false)
  {
    if EquityPct in columns then PercentOutcome(Coerced(rows, EquityPct, parse))
    else if EquityShares in columns then SharesOutcome(Coerced(rows, EquityShares, parse), totalShares)
    else EquityColumn(Zeros(|rows|), false)
  }

  /** When the table has an `equity_pct` column, `include_equity` holds exactly
      when some percentage is numeric and the largest is at most 100; the
      scored percentages are then the coerced ones with 0 for the missing, and
      otherwise all 0. The cap table plays no part. */
  lemma EquityFromPercent(columns: set<Column>, rows: seq<Employee>, parse: string -> Option<real>,
                          totalShares: Option<real>)
    requires EquityPct in columns
    ensures var eq := Coerced(rows, EquityPct, parse);
      var e := EquityOutcome(columns, rows, parse, totalShares);
      && (e.included <==> AnyNumeric(eq) && MaxNumeric(eq) <= 100.0)
      && (e.included ==> e.pct == FillZero(eq))
      && (!e.included ==> e.pct == Zeros(|rows|))
      && forall k :: 0 <= k < |rows| ==> e.pct[k] <= 100.0
  {
  }

  /** Where an `equity_shares` column never comes without an `equity_pct`
      one, the cap table plays no part in the outcome. */
  lemma EquityIgnoresCapTable(columns: set<Column>, rows: seq<Employee>, parse: string -> Option<real>,
                              totalShares: Option<real>, totalShares': Option<real>)
    requires EquityShares in columns ==> EquityPct in columns
    ensures EquityOutcome(columns, rows, parse, totalShares) == EquityOutcome(columns, rows, parse, totalShares')
  {
  }
}
