/** The script's top level after loading: the roster frame gains its feature
    columns one by one, the equity column is validated, the impact score is
    computed, and the top rows are selected and summarised. */
module Pipeline {

  import opened Util
  import opened Schema
  import opened Loader
  import opened Features
  import opened Scoring
  import opened Selection

  /** The columns the column-mapping block guarantees. With its default
      choices it copies each present column onto itself and adds every
      missing one filled with empty text. */
  const ExpectedColumns: set<Column> :=
    {EmployeeId, Name, Role, Department, Location, CompUsd, ReportsTo, StartDate, Level}

  /** What the page reports: the selected rows (their count is the selected
      headcount) and the three cost statistics. */
  datatype Summary = Summary(selected: seq<Scored>, total: int, average: int, median: int)

  /** The summary of the top `target` rows. */
  function SummaryOf(people: seq<Scored>, target: nat): (s: Summary)
    ensures IsTopN(people, target, s.selected)
    ensures s.total == TotalCost(s.selected) && s.average == AverageCost(s.selected)
    ensures s.median == MedianCost(s.selected)
  {
    SelectIsTopN(people, target);
    var sel := Select(people, target);
    Summary(sel, TotalCost(sel), AverageCost(sel), MedianCost(sel))
  }

  /** The scoring inputs of the roster: compensation, the stored tenure,
      direct-report and level columns, and the equity percentages. */
  function FeaturesOf(rows: seq<Employee>, tenure: seq<real>, reports: seq<int>, level: seq<real>,
                      equityPct: seq<real>): (f: FeatureColumns)
    requires |tenure| == |rows| && |reports| == |rows| && |level| == |rows| && |equityPct| == |rows|
    ensures WellShaped(f) && |f.comp| == |rows|
    ensures forall k :: 0 <= k < |rows| ==> f.comp[k] == rows[k].comp as real && f.reports[k] == reports[k] as real
    ensures f.tenure == tenure && f.level == level && f.equity == equityPct
  {
    FeatureColumns(seq(|rows|, k requires 0 <= k < |rows| => rows[k].comp as real),
                   tenure, level, seq(|rows|, k requires 0 <= k < |rows| => reports[k] as real), equityPct)
  }

  /** Every row with its impact score. */
  function Scores(rows: seq<Employee>, impact: seq<real>): (people: seq<Scored>)
    requires |impact| == |rows|
    ensures |people| == |rows|
    ensures forall k :: 0 <= k < |rows| ==> people[k].row == rows[k] && people[k].score == impact[k]
  {
    seq(|rows|, k requires 0 <= k < |rows| => Scored(rows[k], impact[k]))
  }

  /** The `impact_score` column of a loaded roster: the features derived from
      its rows, the validated equity, and the weighted sum. */
  function ImpactScores(roster: Roster, daysSince: string -> Option<int>, parse: string -> Option<real>,
                        totalShares: Option<real>, w: Weights): (impact: seq<real>)
    ensures |impact| == |roster.rows|
  {
    var columns := roster.columns + ExpectedColumns;
    var rows := roster.rows;
    var equity := EquityOutcome(columns, rows, parse, totalShares);
    Impact(w, equity.included,
      FeaturesOf(rows, TenureColumn(rows, daysSince), DirectReports(rows, ReportsTo in columns), LevelColumn(rows), equity.pct))
  }

  /** The whole scenario for a loaded roster. */
  function Run(roster: Roster, daysSince: string -> Option<int>, parse: string -> Option<real>,
               totalShares: Option<real>, w: Weights, target: nat): (s: Summary)
    ensures IsTopN(Scores(roster.rows, ImpactScores(roster, daysSince, parse, totalShares, w)), target, s.selected)
  {
    SummaryOf(Scores(roster.rows, ImpactScores(roster, daysSince, parse, totalShares, w)), target)
  }

  /** The whole scenario for a raw table: the load error, or the summary. */
  function Outcome(raw: Table, n: nat, parse: string -> Option<real>, daysSince: string -> Option<int>,
                   totalShares: Option<real>, w: Weights, target: nat): (r: Result<Summary, LoadError>)
    requires WellFormedTable(raw) && NoRivalSynonyms(raw.Keys) && Rectangular(raw, n)
    ensures r.Failure? <==> !(CompUsd in raw || Salary in raw || TotalComp in raw)
    ensures r.Failure? ==> r.error == MissingCompColumn(Normalized(raw).Keys)
  {
    match Load(raw, n, parse)
    case Failure(e) => Failure(e)
    case Success(roster) => Success(Run(roster, daysSince, parse, totalShares, w, target))
  }

  /** The roster frame as the script mutates it. */
  class Scenario {
    var columns: set<Column>
    var rows: seq<Employee>
    var tenure: seq<real>
    var directReports: seq<int>
    var levelScore: seq<real>
    var equityPct: seq<real>
    var includeEquity: bool
    var impact: seq<real>

    /** The roster after the column-mapping block with its default choices. */
    constructor (roster: Roster)
      ensures columns == roster.columns + ExpectedColumns && rows == roster.rows
      ensures tenure == [] && directReports == [] && levelScore == [] && equityPct == []
      ensures !includeEquity && impact == []
    {
      columns := roster.columns + ExpectedColumns;
      rows := roster.rows;
      tenure, directReports, levelScore, equityPct := [], [], [], [];
      includeEquity := false;
      impact := [];
    }

    /** The `tenure_years`, `direct_reports` and `level_score` columns. */
    method DeriveFeatures(daysSince: string -> Option<int>)
      modifies this
      ensures columns == old(columns) && rows == old(rows)
      ensures tenure == TenureColumn(rows, daysSince)
      ensures directReports == DirectReports(rows, ReportsTo in columns)
      ensures levelScore == LevelColumn(rows)
      ensures equityPct == old(equityPct) && includeEquity == old(includeEquity) && impact == old(impact)
    {
      tenure := TenureColumn(rows, daysSince);
      directReports := DirectReports(rows, ReportsTo in columns);
      levelScore := LevelColumn(rows);
    }

    /** The equity block: set `equity_pct` and `include_equity` branch by
        branch. */
    method ValidateEquity(parse: string -> Option<real>, totalShares: Option<real>)
      modifies this
      ensures rows == old(rows) && columns == old(columns) + {EquityPct}
      ensures equityPct == EquityOutcome(old(columns), rows, parse, totalShares).pct
      ensures includeEquity == EquityOutcome(old(columns), rows, parse, totalShares).included
      ensures tenure == old(tenure) && directReports == old(directReports)
      ensures levelScore == old(levelScore) && impact == old(impact)
    {
      if EquityPct in columns {
        var eq := Coerced(rows, EquityPct, parse);
        if !AnyNumeric(eq) {
          equityPct := Zeros(|rows|);
          includeEquity := false;
        } else if MaxNumeric(eq) <= 100.0 {
          equityPct := FillZero(eq);
          includeEquity := true;
        } else {
          equityPct := Zeros(|rows|);
          includeEquity := false;
        }
      } else if EquityShares in columns {
        // `totalShares` is None when the cap table is missing or unreadable
        if totalShares.Some? && totalShares.value > 0.0 {
          var shares := FillZero(Coerced(rows, EquityShares, parse));
          var total := totalShares.value;
          equityPct := seq(|shares|, k requires 0 <= k < |shares| => shares[k] / total * 100.0);
          includeEquity := true;
        } else {
          equityPct := Zeros(|rows|);
          includeEquity := false;
        }
      } else {
        equityPct := Zeros(|rows|);
        includeEquity := false;
      }
      columns := columns + {EquityPct};
    }

    /** The normalisation and weighted sum over the stored feature columns,
        with the equity term only when `include_equity` is set (`ImpactAt`
        holds the two formulas). */
    method ComputeImpact(w: Weights)
      requires |tenure| == |rows| && |directReports| == |rows| && |levelScore| == |rows| && |equityPct| == |rows|
      modifies this
      ensures columns == old(columns) && rows == old(rows) && includeEquity == old(includeEquity)
      ensures tenure == old(tenure) && directReports == old(directReports)
      ensures levelScore == old(levelScore) && equityPct == old(equityPct)
      ensures impact == Impact(w, includeEquity, FeaturesOf(rows, tenure, directReports, levelScore, equityPct))
    {
      var f := FeaturesOf(rows, tenure, directReports, levelScore, equityPct);
      if includeEquity {
        impact := Impact(w, true, f);
      } else {
        impact := Impact(w, false, f);
      }
    }

    /** Sort, take the first `target` rows and compute the statistics: the
        selection is a top-`target` choice of the scored rows, and the
        statistics are those of exactly the selected rows. */
    method Summarize(target: nat) returns (s: Summary)
      requires |impact| == |rows|
      ensures s == SummaryOf(Scores(rows, impact), target)
      ensures IsTopN(Scores(rows, impact), target, s.selected)
      ensures s.total == TotalCost(s.selected) && s.average == AverageCost(s.selected)
      ensures s.median == MedianCost(s.selected)
    {
      var people := Scores(rows, impact);
      SelectIsTopN(people, target);
      var selected := Select(people, target);
      s := Summary(selected, TotalCost(selected), AverageCost(selected), MedianCost(selected));
    }
  }
  /** Load the roster and run the scenario, as the script does top to bottom. */
  method RunScenario(raw: Table, n: nat, parse: string -> Option<real>, daysSince: string -> Option<int>,
                     totalShares: Option<real>, w: Weights, target: nat) returns (r: Result<Summary, LoadError>)
    requires WellFormedTable(raw) && NoRivalSynonyms(raw.Keys) && Rectangular(raw, n)
    ensures r == Outcome(raw, n, parse, daysSince, totalShares, w, target)
  {
    var loaded := LoadRoster(raw, n, parse);
    if loaded.Failure? {
      return Failure(loaded.error);
    }
    var s := new Scenario(loaded.value);
    s.DeriveFeatures(daysSince);
    s.ValidateEquity(parse, totalShares);
    s.ComputeImpact(w);
    var summary := s.Summarize(target);
    r := Success(summary);
  }

  // ---- properties of the whole scenario ---------------------------------------

  /** The scenario fails exactly when the table has no compensation column
      under any of its names. Otherwise it scores every loaded row by its
      impact score (`Scores`) and selects a top-`target` choice of the scored
      rows, with the statistics of exactly the selected rows. */
  lemma OutcomeIsTopN(raw: Table, n: nat, parse: string -> Option<real>, daysSince: string -> Option<int>,
                      totalShares: Option<real>, w: Weights, target: nat)
    requires WellFormedTable(raw) && NoRivalSynonyms(raw.Keys) && Rectangular(raw, n)
    ensures var r := Outcome(raw, n, parse, daysSince, totalShares, w, target);
      r.Failure? <==> !(CompUsd in raw || Salary in raw || TotalComp in raw)
    ensures var r := Outcome(raw, n, parse, daysSince, totalShares, w, target);
      r.Success? ==>
        var roster := Load(raw, n, parse).value;
        var people := Scores(roster.rows, ImpactScores(roster, daysSince, parse, totalShares, w));
        var sel := r.value.selected;
        && IsTopN(people, target, sel)
        && r.value.total == TotalCost(sel) && r.value.average == AverageCost(sel)
        && r.value.median == MedianCost(sel)
  {
    if Load(raw, n, parse).Success? {
      var roster := Load(raw, n, parse).value;
      SelectIsTopN(Scores(roster.rows, ImpactScores(roster, daysSince, parse, totalShares, w)), target);
    }
  }

  /** The columns of the roster the scenario scores: the normalised ones,
      `employee_id`, and the expected ones the column-mapping block adds. */
  function ScoredColumns(raw: Table): (columns: set<Column>)
    requires NoRivalSynonyms(raw.Keys)
    ensures EquityShares in columns ==> EquityPct in columns
  {
    SharesImplyPct(raw);
    Normalized(raw).Keys + {EmployeeId} + ExpectedColumns
  }

  /** The cap table never matters: the shares branch is unreachable. */
  lemma CapTableIrrelevant(raw: Table, n: nat, parse: string -> Option<real>, daysSince: string -> Option<int>,
                           totalShares: Option<real>, totalShares': Option<real>, w: Weights, target: nat)
    requires WellFormedTable(raw) && NoRivalSynonyms(raw.Keys) && Rectangular(raw, n)
    ensures Outcome(raw, n, parse, daysSince, totalShares, w, target)
         == Outcome(raw, n, parse, daysSince, totalShares', w, target)
  {
    if Load(raw, n, parse).Success? {
      LoadedColumns(raw, n, parse);
      var roster := Load(raw, n, parse).value;
      assert roster.columns + ExpectedColumns == ScoredColumns(raw);
      EquityIgnoresCapTable(ScoredColumns(raw), roster.rows, parse, totalShares, totalShares');
    }
  }

  /** A file with `equity_shares` and no `equity_pct` has its share counts
      renamed into `equity_pct` (`SynonymRenamedIff`) and validated as
      percentages: they are scored only if none exceeds 100. */
  lemma SharesValidatedAsPercentages(raw: Table, rows: seq<Employee>, parse: string -> Option<real>,
                                     totalShares: Option<real>)
    requires NoRivalSynonyms(raw.Keys) && EquityShares in raw && EquityPct !in raw
    ensures EquityOutcome(ScoredColumns(raw), rows, parse, totalShares) == PercentOutcome(Coerced(rows, EquityPct, parse))
  {
    NormalizedColumns(raw, EquityShares);
  }

  /** 25,000,000 shares out of 50,000,000 are not scored as 50%: the count
      fails the percentage check, so equity is left out and reads as 0. */
  lemma LargeShareCountDiscarded(rows: seq<Employee>, parse: string -> Option<real>)
    requires |rows| > 0
    requires forall k :: 0 <= k < |rows| ==> parse(Cell(rows[k].cells, EquityPct)) == Some(25000000.0)
    ensures var e := PercentOutcome(Coerced(rows, EquityPct, parse));
      !e.included && e.pct == Zeros(|rows|)
  {
    var eq := Coerced(rows, EquityPct, parse);
    assert eq[0] == Some(25000000.0);
  }
}
