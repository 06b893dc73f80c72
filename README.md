# People headcount planner: scoring and selection core

This project models the computation behind the headcount-scenario page of
`people_headcount_app.py`. It covers:

- the roster loader, from the table the CSV reader produces;
- renaming synonym columns to their canonical names;
- keeping only employee rows and assigning ids when the file has none;
- deriving each person's features (tenure in years, number of direct
  reports, level score, and the validated equity percentage);
- normalising every feature by `max(1.0, max F)` and combining the features
  into a weighted impact score;
- ranking people by that score and keeping the top `N`;
- summarising the selection by total, mean and median compensation.

Modules, in pipeline order:

- `Util`: `Option`/`Result`, an order-keeping `Filter`, truncation toward
  zero (`int(x)` on a float), and `Sum`.
- `Schema`: column names as a datatype, and `normalize_columns`. The method
  builds the rename dictionary one guarded entry at a time, then renames.
- `Loader`: `load_roster`. The error when no compensation column exists,
  the coercion of `comp_usd`, the two ways rows are kept, `U0001`-style ids
  and the truncation to `int`.
- `Features`: `compute_tenure_years`, `compute_direct_reports_count`,
  `map_level_to_score`, and the equity validation block.
- `Scoring`: normalisation and the weighted sum (with or without the
  equity term).
- `Selection`: descending sort, `head(N)`, and the three cost statistics.
- `Pipeline`: the script's top level. The class `Scenario` holds the roster
  frame and adds its columns step by step, as the script assigns them.
  `RunScenario` chains the steps. The function `Outcome` is the reference
  the method is proved equal to.

Values the script gets from the outside world are parameters of the model:

- `parse` is `pd.to_numeric(errors="coerce")` for one cell;
- `daysSince` is the date parse and the subtraction from the current time;
- `totalShares` is the cap-table figure, `None` when the file is missing or
  cannot be read.

Behaviour of the script that the model keeps:

- The equity rename rule at `people_headcount_app.py:81-82` renames an
  `equity_shares` column to `equity_pct` whenever `equity_pct` is absent.
  The percentage branch then validates share counts as percentages, and the
  shares-to-percent conversion at lines 224-245 can never run.
  `CapTableIrrelevant` proves the cap table never affects the outcome.
  `LargeShareCountDiscarded` shows that 25,000,000 shares out of 50,000,000
  are not scored as 50%: the count fails the `<= 100` check and equity is
  left out.
- The percentage check bounds the values only from above. Negative
  percentages are accepted and scored, so `equity_pct` is not always in
  [0, 100].
- Compensation is not checked for sign: a negative `comp_usd` is kept.

## Model

| member | source | states |
|---|---|---|
| Schema.HeaderRoundTrip | people_headcount_app.py:53 | Reading a CSV header as a column name and printing it back gives the same text, and the result is a well-formed column name. |
| Schema.Synonym | people_headcount_app.py:57-86 | The rule table: the canonical name each synonym is renamed to when its guard holds. |
| Schema.SynonymTargets | people_headcount_app.py:57-86 | Every rule renames onto one of the seven canonical names: name, role, department, reports_to, comp_usd, equity_pct and employee_id. |
| Schema.Renames | people_headcount_app.py:58-86 | A column the guards rename is present, and is never renamed onto itself. |
| Schema.NewName | people_headcount_app.py:87-88 | The name a column carries after normalisation: its canonical name when its guard holds, otherwise its own. |
| Schema.Normalized | people_headcount_app.py:56-89 | The normalised table: every column under its new name with its cells. Its properties are stated by the lemmas below. |
| Schema.Rename | people_headcount_app.py:87-88 | `df.rename(columns=mapping)`: each column takes its name from the dictionary, or keeps its own. |
| Schema.RenameKeepsCells | people_headcount_app.py:87-88 | Under a rename that sends no two columns to one name, every column reappears under its new name with its cells. |
| Schema.SynonymDomain | people_headcount_app.py:58-86 | The names that have a rename rule are exactly the thirteen synonyms the script tests: employee_name, title, position, dept, team, manager, manager_id, salary, total_comp, equity_pct, equity, equity_shares and id. |
| Schema.AddNameRule | people_headcount_app.py:58-59 | Adds `employee_name -> name` exactly when `employee_name` is present and `name` is not. |
| Schema.AddRoleRules | people_headcount_app.py:60-63 | Adds `title -> role` and `position -> role` exactly when the synonym is present and `role` is not. |
| Schema.AddDepartmentRules | people_headcount_app.py:64-67 | Adds `dept -> department` and `team -> department` exactly when the synonym is present and `department` is not. |
| Schema.AddReportsToRules | people_headcount_app.py:68-71 | Adds `manager -> reports_to` and `manager_id -> reports_to` exactly when the synonym is present and `reports_to` is not. |
| Schema.AddCompRules | people_headcount_app.py:72-75 | Adds `salary -> comp_usd` and `total_comp -> comp_usd` exactly when the synonym is present and `comp_usd` is not. |
| Schema.AddEquityRules | people_headcount_app.py:76-82 | Adds the three rules onto `equity_pct` under their guards. The self-rule's guard can never hold. |
| Schema.AddIdRule | people_headcount_app.py:83-86 | Adds `id -> employee_id` exactly when `employee_id` is absent and `id` is present. |
| Schema.BuildMapping | people_headcount_app.py:57-86 | The dictionary holds a synonym exactly when the synonym is present and its canonical name is absent, and it maps each synonym to its canonical name. |
| Schema.NormalizeColumns | people_headcount_app.py:56-89 | The renamed table is the normalised table: every column carries its canonical name if renamed and its own name otherwise, with its cells. |
| Schema.RenameByNothing | people_headcount_app.py:87-88 | Renaming by an empty dictionary leaves the table unchanged, so skipping the rename when the mapping is empty makes no difference. |
| Schema.RenameAgrees | people_headcount_app.py:87-88 | The built dictionary never sends two columns to one name, and renaming by it gives the normalised table. |
| Schema.NewNameInjective | people_headcount_app.py:56-89 | Without rival synonyms, two distinct columns get two distinct names. |
| Schema.NormalizedColumns | people_headcount_app.py:87-88 | Every input column reappears under its new name with the same cells. |
| Schema.NormalizedOrigin | people_headcount_app.py:87-88 | Every column of the normalised table is some input column, with that column's cells. |
| Schema.CanonicalNeverOverwritten | people_headcount_app.py:58-86 | A column no rule renames, such as a canonical column already present, keeps its name and its cells, and no other column is renamed onto it. |
| Schema.SynonymRenamedIff | people_headcount_app.py:58-86 | A present synonym is renamed, and disappears under its own name, exactly when its canonical name is absent. Otherwise it stays as it is. |
| Schema.EquityPctNeverRenamed | people_headcount_app.py:76-78 | The `equity_pct -> equity_pct` rule never fires. |
| Schema.NewNameOntoComp | people_headcount_app.py:72-75 | Only `comp_usd`, `salary` and `total_comp` can end up named `comp_usd`. |
| Schema.CompColumnPresent | people_headcount_app.py:72-75 | The normalised table has `comp_usd` exactly when the input has `comp_usd`, `salary` or `total_comp`. |
| Schema.SharesImplyPct | people_headcount_app.py:81-82 | After normalisation an `equity_shares` column only survives next to an `equity_pct` column. |
| Schema.NormalizedRectangular | people_headcount_app.py:87-88 | Renaming keeps every column's length. |
| Loader.Decimal | people_headcount_app.py:103 | The numeral of a number: at least one character, all of them digits, and a numeral of more than one digit does not start with `0`. |
| Loader.DecimalRoundTrip | people_headcount_app.py:103 | Reading a numeral back gives the number. |
| Loader.LeadingZeros | people_headcount_app.py:103 | Left zero padding keeps a numeral's value. |
| Loader.AllZeros | people_headcount_app.py:103 | A string of zeros denotes 0. |
| Loader.ZeroPad4 | people_headcount_app.py:103 | `{:04d}` gives at least four characters, all digits, and a numeral longer than four characters starts with a non-zero digit. |
| Loader.ZeroPadValue | people_headcount_app.py:103 | The padded numeral still denotes the number. |
| Loader.PaddedNumeral | people_headcount_app.py:103 | Every digit string is its value's numeral after some zeros, so the numeral is the shortest digit string of that value. |
| Loader.ZeroPad4Unique | people_headcount_app.py:103 | `{:04d}` fixes the string: the padded numeral is the only digit string of at least four characters, with no zero beyond the fourth place, that denotes the number. |
| Loader.SyntheticIdInjective | people_headcount_app.py:103 | `U{:04d}` gives distinct ids to distinct row numbers. |
| Loader.FirstSyntheticId | people_headcount_app.py:103 | The first assigned id is `U0001`. |
| Loader.LongSyntheticId | people_headcount_app.py:103 | Row 10000 gets `U10000`: the padding never cuts a numeral. |
| Loader.SyntheticId | people_headcount_app.py:103 | The id of the `k`-th kept row: `U` followed by `{:04d}` of `k`. |
| Loader.WithSyntheticIds | people_headcount_app.py:101-103 | Assigning ids keeps the number of rows and every row's compensation. |
| Loader.AssignSyntheticIds | people_headcount_app.py:103 | The loop gives row `i` (from 0) the id `U{:04d}` of `i + 1` and changes nothing else. |
| Loader.Truncated | people_headcount_app.py:105-106 | Truncating compensation to an integer keeps the number of rows. |
| Loader.Stage | people_headcount_app.py:95 | One staged row per input row, with that row's cells. Its coerced compensation is the parse of the row's own `comp_usd` text. |
| Loader.HasEmployeePrefix | people_headcount_app.py:98 | A row passes exactly when its `employee_id` text begins with `E`, as `str.startswith` reads it. |
| Loader.HasComp | people_headcount_app.py:101-104 | The row's compensation coerced to a number (`notna`). |
| Loader.Retained | people_headcount_app.py:95-104 | Every row kept has a compensation that coerces to a number. |
| Loader.Loaded | people_headcount_app.py:95-106 | Loading never adds rows: at most as many as the input has. |
| Loader.Load | people_headcount_app.py:91-107 | Loading fails exactly when the table has none of `comp_usd`, `salary` and `total_comp`, and the error lists the normalised columns. Otherwise it gives the roster of kept rows. |
| Loader.LoadedColumns | people_headcount_app.py:91-107 | The loaded roster's columns are the normalised columns plus `employee_id`. |
| Loader.LoadRoster | people_headcount_app.py:91-107 | The step-by-step loader returns what `Load` specifies, error included. |
| Loader.KeepRows | people_headcount_app.py:95-104 | The coerce, filter, id and `dropna` steps keep exactly the rows `Retained` specifies. |
| Loader.LoadedCompensation | people_headcount_app.py:95-106 | Every loaded row has an `employee_id` and a `comp_usd` text that coerces to a number. Its compensation is that number truncated toward zero. |
| Loader.LoadedIdsStartWithE | people_headcount_app.py:97-98 | With an `employee_id` column, every loaded id starts with `E`. |
| Loader.EmployeeRowRetained | people_headcount_app.py:97-104 | With an `employee_id` column, every input row whose id starts with `E` and whose compensation coerces is loaded. |
| Loader.RetainedRowOrigin | people_headcount_app.py:97-104 | With an `employee_id` column, every loaded row is an input row whose id starts with `E` and whose compensation coerces. |
| Loader.LoadedWithoutIdColumn | people_headcount_app.py:99-104 | Without an `employee_id` column, the rows whose compensation coerces are kept in input order. The `k`-th gets id `U{:04d}` of `k + 1`, and the ids are pairwise distinct. |
| Loader.SyntheticIdsDistinct | people_headcount_app.py:103 | The assigned ids are pairwise distinct. |
| Features.TenureYears | people_headcount_app.py:175-180 | Tenure is never negative. It is 0 exactly for a missing date or one not in the past, and otherwise it is the days divided by 365.25. |
| Features.TenureColumn | people_headcount_app.py:175-180 | One non-negative tenure per row. |
| Features.CountOf | people_headcount_app.py:185-187 | A value's count is at most the column's length, and it is 0 exactly when the value does not occur. |
| Features.CountOfMultiset | people_headcount_app.py:185-187 | The count is the value's multiplicity in the column. |
| Features.DirectReports | people_headcount_app.py:182-187 | One count per row, between 0 and the roster size, and all zero without a `reports_to` column. |
| Features.DirectReportsCount | people_headcount_app.py:182-187 | A row's count is the number of `reports_to` cells equal to its `employee_id`. It is 0 exactly when no row names it. |
| Features.LevelScore | people_headcount_app.py:189-200 | The score lies in [1, 5], and a label outside the table scores 1.0. |
| Features.LevelScores | people_headcount_app.py:190-199 | The eight table entries: C-Level 5, VP 4, Director 3, Manager 2, Staff 3, Senior 3, Mid 1.5, Junior 1, and 1.0 for an empty label. |
| Features.LevelColumn | people_headcount_app.py:189-200 | One score in [1, 5] per row. |
| Features.AnyNumeric | people_headcount_app.py:213 | Some entry coerced to a number (`not eq_series.dropna().empty`). |
| Features.Coerced | people_headcount_app.py:212 | `pd.to_numeric(errors="coerce")` of one column: one value per row, the parse of that row's text. |
| Features.FillZero | people_headcount_app.py:218 | `fillna(0.0)`: each numeric entry is kept and each missing one becomes 0. |
| Features.MaxNumeric | people_headcount_app.py:217 | The series maximum skipping missing entries: it bounds every numeric entry and is one of them. |
| Features.PercentOutcome | people_headcount_app.py:210-223 | Equity is included exactly when some percentage coerces and the largest is at most 100. Included values are the coerced ones with 0 for missing, all at most 100; otherwise every value is 0. |
| Features.SharesOutcome | people_headcount_app.py:224-245 | Equity is included exactly when the total share count is known and positive. Each value times the total is then 100 times the share count (0 when missing); otherwise every value is 0. |
| Features.EquityOutcome | people_headcount_app.py:208-248 | One value per row. With `equity_pct` the percentage branch decides; else with `equity_shares` the shares branch; with neither, every value is 0 and equity is not included. |
| Features.EquityFromPercent | people_headcount_app.py:210-223 | With an `equity_pct` column the percentage branch decides, whatever the cap table says. Every scored value is at most 100. |
| Features.EquityIgnoresCapTable | people_headcount_app.py:208-248 | When `equity_shares` never appears without `equity_pct`, the cap table never changes the outcome. |
| Scoring.MaxOf | people_headcount_app.py:251-255 | The column maximum bounds every entry and is one of them. |
| Scoring.Denominator | people_headcount_app.py:251-255 | `max(1.0, max F)` is at least 1 and bounds every entry, and it is either 1.0 or an entry. |
| Scoring.Normalize | people_headcount_app.py:251-255 | `F / max(1.0, max F)`: each normalised entry times the denominator gives back the entry. |
| Scoring.NormalizeUnit | people_headcount_app.py:251-255 | A non-negative column normalises into [0, 1]. |
| Scoring.NormalizeZero | people_headcount_app.py:251-255 | An all-zero column normalises to zeros, not to a division by zero. |
| Scoring.NormalizeMonotone | people_headcount_app.py:251-255 | Normalisation keeps the order of entries. |
| Scoring.NormalizeReachesOne | people_headcount_app.py:251-255 | A column whose maximum is at least 1 normalises its maximum to exactly 1. |
| Scoring.NormalizedFeatures | people_headcount_app.py:251-255 | Normalising keeps the five columns the same length. |
| Scoring.ImpactAt | people_headcount_app.py:257-271 | Row `k`'s score: the four weighted normalised features, plus the weighted equity term when equity is included. |
| Scoring.Impact | people_headcount_app.py:251-271 | One impact score per row. |
| Scoring.ImpactIgnoresEquity | people_headcount_app.py:265-271 | Without validated equity, neither the equity weight nor the equity column affects any score. |
| Scoring.ImpactAtIgnoresEquity | people_headcount_app.py:265-271 | The no-equity formula for one row reads only the four other weights and features. |
| Scoring.ImpactBounds | people_headcount_app.py:251-271 | With non-negative weights and features, every score lies between 0 and the sum of the weights it uses. |
| Scoring.ImpactAtBounds | people_headcount_app.py:257-271 | With non-negative weights and features in [0, 1], one row's score lies between 0 and the sum of the weights it uses. |
| Selection.Insert | people_headcount_app.py:274 | Insertion adds exactly the one element. |
| Selection.SortedAfterHead | people_headcount_app.py:274 | A sorted sequence headed by an element at least as large as the rest is sorted. |
| Selection.InsertSorted | people_headcount_app.py:274 | Inserting into a descending sequence keeps it descending. |
| Selection.SortDesc | people_headcount_app.py:274 | The sort is descending by key and a permutation of its input. |
| Selection.Select | people_headcount_app.py:274 | `head(N)` of the descending sort has `min(N, size)` rows, in descending score order, and takes no row more often than it occurs. |
| Selection.SelectIsTopN | people_headcount_app.py:274 | `head(N)` of the descending sort is a top-`N` choice (`IsTopN`): `min(N, size)` rows, in descending score order, a sub-multiset of the roster, and every selected score at least every score left out. |
| Selection.SplitSorted | people_headcount_app.py:274 | A prefix of a sorted sequence is sorted, and it leaves exactly the suffix. |
| Selection.PrefixDominates | people_headcount_app.py:274 | In a descending sequence, an entry before the cut is at least every entry after it. |
| Selection.Comps | people_headcount_app.py:276-278 | One compensation per selected row. |
| Selection.TotalCost | people_headcount_app.py:276 | The total is the plain sum of the selected compensations, so the guard on an empty selection changes nothing. |
| Selection.AverageCost | people_headcount_app.py:277 | 0 for an empty selection. Otherwise, for a non-negative total `T` over `m` rows, `a*m <= T < (a+1)*m` (rounded down); for a negative one, `(a-1)*m < T <= a*m` (rounded up, toward zero). |
| Selection.TruncQuotient | people_headcount_app.py:277 | Truncating an exact quotient of integers toward zero, stated in integers on both signs. |
| Selection.MedianOfSorted | people_headcount_app.py:278 | The median of a sorted sequence is the mean of its entries of rank `(m - 1) / 2` and `m / 2` (counting from the smallest, from 0), the same entry twice for an odd length. |
| Selection.SortedRank | people_headcount_app.py:278 | In a sequence sorted largest first, position `k` holds the entry of rank `m - 1 - k`, so sorting largest first finds the same middle entries as sorting smallest first. |
| Selection.RankUnique | people_headcount_app.py:278 | Each rank is held by exactly one value. |
| Selection.RankPermutation | people_headcount_app.py:278 | Rearranging a sequence keeps the rank of each entry. |
| Selection.MedianCost | people_headcount_app.py:278 | 0 for an empty selection. Otherwise it is the truncated mean of the selected compensations of rank `(m - 1) / 2` and `m / 2` among the `m` selected: the middle one, or the two middle ones. |
| Selection.MedianIsMiddle | people_headcount_app.py:278 | The median is fixed by the middle ranks: for any values holding them, it is their truncated mean. |
| Selection.ThreeEmployeeMedian | people_headcount_app.py:278 | Pay 300000, 100000 and 200000 in selection order has median 200000, not the top scorer's pay. |
| Selection.MedianOfEntries | people_headcount_app.py:278 | The median of a sorted rearrangement of a sequence is the mean of two of its entries. |
| Selection.MedianRanks | people_headcount_app.py:278 | The median of a sorted rearrangement of a sequence is the mean of that sequence's middle-rank entries. |
| Selection.StatisticsOfNothing | people_headcount_app.py:276-278 | Total, mean and median are all 0 for an empty selection. |
| Selection.TotalCostBounds | people_headcount_app.py:276 | The total lies between the count times the smallest and the count times the largest selected compensation. |
| Selection.AverageCostBounds | people_headcount_app.py:277 | The truncated mean lies between the smallest and largest selected compensation. |
| Selection.QuotientBetween | people_headcount_app.py:277 | A total between `m*lo` and `m*hi` has a mean between `lo` and `hi`. |
| Selection.MedianCostBounds | people_headcount_app.py:278 | The truncated median lies between the smallest and largest selected compensation. |
| Selection.TwoEmployeeStatistics | people_headcount_app.py:276-278 | Compensations 200000 and 100000 give total 300000, mean 150000 and median 150000. |
| Pipeline.FeaturesOf | people_headcount_app.py:251-255 | The five feature columns read by the normalisation, one entry per row: compensation and direct reports as numbers, and the given tenure, level and equity columns. |
| Pipeline.Scores | people_headcount_app.py:257-274 | Row `k` paired with impact score `k`, for every row. |
| Pipeline.ImpactScores | people_headcount_app.py:205-271 | The `impact_score` column of a loaded roster, one entry per row. |
| Pipeline.SummaryOf | people_headcount_app.py:274-278 | The selection is a top-`N` choice of the scored rows, and the three statistics are those of the selected rows. |
| Pipeline.Run | people_headcount_app.py:205-278 | The scenario on a loaded roster selects a top-`N` choice of its rows scored by `ImpactScores`. |
| Pipeline.Outcome | people_headcount_app.py:91-278 | The scenario fails exactly when the table has no compensation column under any of its names, with the error listing the normalised columns. |
| Pipeline.Scenario.constructor | people_headcount_app.py:139-172 | With the column-mapping defaults, the roster gains every expected column and no feature column yet. |
| Pipeline.Scenario.DeriveFeatures | people_headcount_app.py:205-207 | Sets the tenure, direct-report and level columns to their specifications and changes nothing else. |
| Pipeline.Scenario.ValidateEquity | people_headcount_app.py:208-248 | Sets `equity_pct` and `include_equity` to the outcome of the equity block and adds the `equity_pct` column. Nothing else changes. |
| Pipeline.Scenario.ComputeImpact | people_headcount_app.py:251-271 | Sets the impact column to the normalised weighted sum of the stored compensation, tenure, direct-report, level and equity columns, with equity only when included. Nothing else changes. |
| Pipeline.Scenario.Summarize | people_headcount_app.py:274-278 | The selection is a top-`N` choice of the scored rows: `min(N, size)` rows, in descending score order, a sub-multiset of the scored rows, every selected score at least every score left out. The total, mean and median are those of the selected rows. |
| Pipeline.RunScenario | people_headcount_app.py:91-278 | The script run top to bottom gives the specified outcome: the load error, or the summary. |
| Pipeline.OutcomeIsTopN | people_headcount_app.py:91-278 | The run fails exactly when no compensation column exists under any of its names. Otherwise every loaded row is paired with its impact score, and the selection is a top-`N` choice of those pairs: `min(N, size)` of them, in descending score order, none more often than it occurs, each scoring at least every row left out. The total, mean and median are those of exactly the selected rows. |
| Pipeline.ScoredColumns | people_headcount_app.py:81-82 | Among the columns the scenario scores, `equity_shares` never appears without `equity_pct`. |
| Pipeline.CapTableIrrelevant | people_headcount_app.py:224-245 | The outcome is the same whatever the cap table says: the shares branch is unreachable. |
| Pipeline.SharesValidatedAsPercentages | people_headcount_app.py:81-82 | A file with `equity_shares` and no `equity_pct` has its share counts validated as percentages. |
| Pipeline.LargeShareCountDiscarded | people_headcount_app.py:210-223 | 25,000,000 shares per row fail the percentage check, so equity is left out and reads as 0 everywhere. |
| Util.Filter | people_headcount_app.py:97-104 | A filter keeps at most the input's rows, and keeps exactly the rows that pass. |
| Util.FilterAppend | people_headcount_app.py:97-104 | Filtering a concatenation filters each part: filtering keeps input order. |
| Util.FilterAll | people_headcount_app.py:104 | A filter every row passes keeps the sequence unchanged. |
| Util.Trunc | people_headcount_app.py:106 | Converting to `int` truncates toward zero: the result is within 1 of the value, on the side of zero. |
| Util.TruncBetween | people_headcount_app.py:277-278 | Truncating a value between two integers stays between them. |
| Util.SumBounds | people_headcount_app.py:276 | A sum of `m` values in [lo, hi] lies in [m*lo, m*hi]. |

## Left out

- The page itself: the Streamlit widgets, charts, tables, formatting
  (`_fmt`) and the error message shown on a failed load. Reading the CSV
  file or upload and the cache decorator are also out. The model starts
  from the table of header to string cells that `read_csv(dtype=str,
  keep_default_na=False)` produces.
- Headers are the datatype `Schema.Column`. The script's headers are
  strings; `Schema.HeaderRoundTrip` shows the two readings agree.
- Tables are those the reader can produce: every column name well formed
  (`Schema.WellFormedTable`), so no `Other` column spells a known header.
- Two synonyms renamed onto one absent canonical name (for instance `title`
  and `position` without `role`) would give pandas duplicate columns. The
  model excludes this case with the precondition `NoRivalSynonyms`.
- Schema.NormalizeColumns: always renames, including by an empty
  dictionary, where the script skips the call. `Schema.RenameByNothing`
  proves the two agree.
- `pd.to_numeric(errors="coerce")` is the parameter `parse`. Floating-point
  rounding, NaN and infinities are not modelled: numbers are exact reals.
- Integer width: `astype(int)` and the column sum are 64-bit integers in
  pandas, while the model's integers are unbounded. Overflow past 2^63 on
  truncation or summation is not modelled.
- The clock and date parsing are the parameter `daysSince`, the whole days
  since a start date, or `None` when the date does not parse.
- The cap table at its fixed path is the parameter `totalShares`, `None` when
  the file is missing or cannot be read.
- The column-mapping expander is modelled only with its default choices. A
  present column is copied onto itself and a missing expected column is
  filled with empty text (`Pipeline.ExpectedColumns`, and `Loader.Cell`
  reading a missing column as empty). Choices a user makes in the expander
  are not modelled.
- The branch of `compute_direct_reports_count` for a missing `reports_to`
  column is modelled in `Features.DirectReports`, but the expander always
  adds that column, so the pipeline never takes it. Pandas index alignment
  of that branch's fresh series is not modelled.
- The slider ranges (headcount 0 to roster size, weights 0 to 5 in steps of
  0.1) are not enforced: the headcount is any natural number, clamped by
  `head`, and the weights are any reals. The score bounds assume only
  non-negative weights.
- Scoring.ImpactBounds: needs non-negative features, while the script
  accepts negative compensation and negative equity percentages.
- Selection.SortDesc: is a stable insertion sort. Pandas' default sort
  does not promise an order for equal scores, so which of several rows tied
  at the cut is selected is not modelled; only the top-N properties are
  claimed.
- Selection.MedianCost: sorts largest first, where pandas sorts smallest
  first; the middle entries are the same.
- The automated tests of the repository are not modelled.
