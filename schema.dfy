/** Schema normalisation: renaming synonym columns of the raw roster table
    to the canonical names the rest of the pipeline reads. */
module Schema {

  import opened Util

  /** A column name. Every header the script tests for is a constructor of
      its own; any other header is `Other`, holding its text. */
  datatype Column =
    | EmployeeName | Name | Title | Position | Role | Dept | Team | Department
    | Location | Manager | ManagerId | ReportsTo | Salary | TotalComp | CompUsd
    | EquityPct | Equity | EquityShares | Id | EmployeeId | StartDate | Level
    | Other(header: string)

  /** The header text of a column. */
  function Header(c: Column): (h: string)
  {
    match c
    case EmployeeName => "employee_name"
    case Name => "name"
    case Title => "title"
    case Position => "position"
    case Role => "role"
    case Dept => "dept"
    case Team => "team"
    case Department => "department"
    case Location => "location"
    case Manager => "manager"
    case ManagerId => "manager_id"
    case ReportsTo => "reports_to"
    case Salary => "salary"
    case TotalComp => "total_comp"
    case CompUsd => "comp_usd"
    case EquityPct => "equity_pct"
    case Equity => "equity"
    case EquityShares => "equity_shares"
    case Id => "id"
    case EmployeeId => "employee_id"
    case StartDate => "start_date"
    case Level => "level"
    case Other(h) => h
  }

  /** Reads a CSV header as a column name. */
  function FromHeader(h: string): (c: Column)
    ensures c.Other? ==> c.header == h
  {
    match h
    case "employee_name" => EmployeeName
    case "name" => Name
    case "title" => Title
    case "position" => Position
    case "role" => Role
    case "dept" => Dept
    case "team" => Team
    case "department" => Department
    case "location" => Location
    case "manager" => Manager
    case "manager_id" => ManagerId
    case "reports_to" => ReportsTo
    case "salary" => Salary
    case "total_comp" => TotalComp
    case "comp_usd" => CompUsd
    case "equity_pct" => EquityPct
    case "equity" => Equity
    case "equity_shares" => EquityShares
    case "id" => Id
    case "employee_id" => EmployeeId
    case "start_date" => StartDate
    case "level" => Level
    case _ => Other(h)
  }

  /** A column name as the reader produces it: `Other` never spells a header
      that has a constructor of its own. */
  predicate WellFormedColumn(c: Column)
  {
    c.Other? ==> FromHeader(c.header) == c
  }

  /** Reading a header gives back the header's text. */
  lemma {:induction false} HeaderRoundTrip(h: string)
    ensures Header(FromHeader(h)) == h
    ensures WellFormedColumn(FromHeader(h))
  {
  }

  /** A raw table: column name to the column's cells, read as strings. */
  type Table = map<Column, seq<string>>

  /** A table as the reader produces it: every column name well formed. */
  ghost predicate WellFormedTable(t: Table)
  {
    forall c :: c in t ==> WellFormedColumn(c)
  }

  /** Every column of `t` has exactly `n` cells. */
  predicate Rectangular(t: Table, n: nat)
  {
    forall c :: c in t ==> |t[c]| == n
  }

  /** The rename rules: the canonical name a synonym column is renamed to.
      The rule for `equity_pct` names the column itself as its target, so its
      guard can never hold. */
  function Synonym(c: Column): (target: Option<Column>)
  {
    match c
    case EmployeeName => Some(Name)
    case Title => Some(Role)
    case Position => Some(Role)
    case Dept => Some(Department)
    case Team => Some(Department)
    case Manager => Some(ReportsTo)
    case ManagerId => Some(ReportsTo)
    case Salary => Some(CompUsd)
    case TotalComp => Some(CompUsd)
    case EquityPct => Some(EquityPct)
    case Equity => Some(EquityPct)
    case EquityShares => Some(EquityPct)
    case Id => Some(EmployeeId)
    case _ => None
  }

  /** Every rule renames onto one of the seven canonical names. */
  lemma SynonymTargets(c: Column)
    ensures Synonym(c).Some? ==> Synonym(c).value in {Name, Role, Department, ReportsTo, CompUsd, EquityPct, EmployeeId}
  {
  }

  /** Column `c` of a table with columns `cols` is renamed: it has a rule and
      the rule's canonical target is not already a column. */
  function Renames(cols: set<Column>, c: Column): (b: bool)
    ensures b ==> c in cols && Synonym(c).Some? && Synonym(c).value != c
  {
    c in cols && Synonym(c).Some? && Synonym(c).value !in cols
  }

  /** The name column `c` carries after normalisation. */
  function NewName(cols: set<Column>, c: Column): (d: Column)
  {
    if Renames(cols, c) then Synonym(c).value else c
  }

  /** No two present synonyms are renamed onto the same canonical name (for
      instance `title` and `position` with no `role`). Pandas would produce
      duplicate columns in that case, which this model does not represent. */
  ghost predicate NoRivalSynonyms(cols: set<Column>)
  {
    forall a, b :: Renames(cols, a) && Renames(cols, b) && a != b ==> Synonym(a) != Synonym(b)
  }

  /** The normalised table, column by column. */
  function Normalized(t: Table): (r: Table)
    requires NoRivalSynonyms(t.Keys)
  {
    map c | c in t :: NewName(t.Keys, c) := t[c]
  }

  /** `mapping` holds exactly the rules for the names in `done` whose guard
      holds for `cols`. */
  ghost predicate MappingUpTo(mapping: map<Column, Column>, cols: set<Column>, done: set<Column>)
  {
    && (forall s :: s in mapping <==> s in done && Renames(cols, s))
    && (forall s :: s in mapping ==> Synonym(s) == Some(mapping[s]))
  }

  /** Every name that has a rename rule. */
  lemma SynonymDomain(s: Column)
    ensures Synonym(s).Some? <==>
      s in {EmployeeName, Title, Position, Dept, Team, Manager, ManagerId, Salary, TotalComp, EquityPct, Equity, EquityShares, Id}
  {
  }

  /** The guarded entries for the rule onto `name`. */
  method AddNameRule(mapping: map<Column, Column>, cols: set<Column>, ghost done: set<Column>) returns (r: map<Column, Column>)
    requires MappingUpTo(mapping, cols, done)
    ensures MappingUpTo(r, cols, done + {EmployeeName})
  {
    r := mapping;
    if EmployeeName in cols && Name !in cols {
      r := r[EmployeeName := Name];
    }
  }

  /** The guarded entries for the rules onto `role`. */
  method AddRoleRules(mapping: map<Column, Column>, cols: set<Column>, ghost done: set<Column>) returns (r: map<Column, Column>)
    requires MappingUpTo(mapping, cols, done)
    ensures MappingUpTo(r, cols, done + {Title, Position})
  {
    r := mapping;
    if Title in cols && Role !in cols {
      r := r[Title := Role];
    }
    if Position in cols && Role !in cols {
      r := r[Position := Role];
    }
  }

  /** The guarded entries for the rules onto `department`. */
  method AddDepartmentRules(mapping: map<Column, Column>, cols: set<Column>, ghost done: set<Column>) returns (r: map<Column, Column>)
    requires MappingUpTo(mapping, cols, done)
    ensures MappingUpTo(r, cols, done + {Dept, Team})
  {
    r := mapping;
    if Dept in cols && Department !in cols {
      r := r[Dept := Department];
    }
    if Team in cols && Department !in cols {
      r := r[Team := Department];
    }
  }

  /** The guarded entries for the rules onto `reports_to`. */
  method AddReportsToRules(mapping: map<Column, Column>, cols: set<Column>, ghost done: set<Column>) returns (r: map<Column, Column>)
    requires MappingUpTo(mapping, cols, done)
    ensures MappingUpTo(r, cols, done + {Manager, ManagerId})
  {
    r := mapping;
    if Manager in cols && ReportsTo !in cols {
      r := r[Manager := ReportsTo];
    }
    if ManagerId in cols && ReportsTo !in cols {
      r := r[ManagerId := ReportsTo];
    }
  }

  /** The guarded entries for the rules onto `comp_usd`. */
  method AddCompRules(mapping: map<Column, Column>, cols: set<Column>, ghost done: set<Column>) returns (r: map<Column, Column>)
    requires MappingUpTo(mapping, cols, done)
    ensures MappingUpTo(r, cols, done + {Salary, TotalComp})
  {
    r := mapping;
    if Salary in cols && CompUsd !in cols {
      r := r[Salary := CompUsd];
    }
    if TotalComp in cols && CompUsd !in cols {
      r := r[TotalComp := CompUsd];
    }
  }

  /** The guarded entries for the rules onto `equity_pct`. */
  method AddEquityRules(mapping: map<Column, Column>, cols: set<Column>, ghost done: set<Column>) returns (r: map<Column, Column>)
    requires MappingUpTo(mapping, cols, done)
    ensures MappingUpTo(r, cols, done + {EquityPct, Equity, EquityShares})
  {
    r := mapping;
    if EquityPct in cols && EquityPct !in cols {
      r := r[EquityPct := EquityPct];
    }
    if Equity in cols && EquityPct !in cols {
      r := r[Equity := EquityPct];
    }
    if EquityShares in cols && EquityPct !in cols {
      r := r[EquityShares := EquityPct];
    }
  }

  /** The guarded entries for the rule onto `employee_id`. */
  method AddIdRule(mapping: map<Column, Column>, cols: set<Column>, ghost done: set<Column>) returns (r: map<Column, Column>)
    requires MappingUpTo(mapping, cols, done)
    ensures MappingUpTo(r, cols, done + {Id})
  {
    r := mapping;
    if EmployeeId !in cols {
      if Id in cols {
        r := r[Id := EmployeeId];
      }
    }
  }

  /** Builds the rename dictionary one guarded entry at a time, in the
      source's order (grouped here by canonical target), every guard reading
      the columns of the input table. */
  method BuildMapping(cols: set<Column>) returns (mapping: map<Column, Column>)
    ensures forall s :: s in mapping <==> Renames(cols, s)
    ensures forall s :: s in mapping ==> Synonym(s) == Some(mapping[s])
  {
    mapping := map[];
    ghost var done: set<Column> := {};
    mapping := AddNameRule(mapping, cols, done);
    done := done + {EmployeeName};
    mapping := AddRoleRules(mapping, cols, done);
    done := done + {Title, Position};
    mapping := AddDepartmentRules(mapping, cols, done);
    done := done + {Dept, Team};
    mapping := AddReportsToRules(mapping, cols, done);
    done := done + {Manager, ManagerId};
    mapping := AddCompRules(mapping, cols, done);
    done := done + {Salary, TotalComp};
    mapping := AddEquityRules(mapping, cols, done);
    done := done + {EquityPct, Equity, EquityShares};
    mapping := AddIdRule(mapping, cols, done);
    done := done + {Id};
    forall s | Renames(cols, s) ensures s in done {
      SynonymDomain(s);
    }
  }

  /** The name column `c` carries under `df.rename(columns=mapping)`. */
  function Renamed(mapping: map<Column, Column>, c: Column): (d: Column)
  {
    if c in mapping then mapping[c] else c
  }

  /** `df.rename(columns=mapping)`: every column named in `mapping` takes its
      new name, the others keep theirs. */
  function Rename(t: Table, mapping: map<Column, Column>): (r: Table)
    requires forall a, b :: a in t && b in t && a != b ==> Renamed(mapping, a) != Renamed(mapping, b)
  {
    map c | c in t :: Renamed(mapping, c) := t[c]
  }

  /** Under a rename that sends no two columns to one name, every column
      reappears under its new name with its cells. */
  lemma RenameKeepsCells(t: Table, mapping: map<Column, Column>, c: Column)
    requires forall a, b :: a in t && b in t && a != b ==> Renamed(mapping, a) != Renamed(mapping, b)
    requires c in t
    ensures Renamed(mapping, c) in Rename(t, mapping) && Rename(t, mapping)[Renamed(mapping, c)] == t[c]
  {
  }

  /** `normalize_columns`: build the mapping and rename by it. The script
      skips the rename when the mapping is empty; `RenameByNothing` shows that
      such a rename changes nothing. */
  method NormalizeColumns(t: Table) returns (r: Table)
    requires NoRivalSynonyms(t.Keys)
    ensures r == Normalized(t)
  {
    var mapping := BuildMapping(t.Keys);
    RenameAgrees(t, mapping);
    r := Rename(t, mapping);
  }

  /** Renaming by an empty dictionary is the identity. */
  lemma RenameByNothing(t: Table)
    ensures Rename(t, map[]) == t
  {
  }

  /** Renaming by the dictionary `BuildMapping` returns is normalisation. */
  lemma RenameAgrees(t: Table, mapping: map<Column, Column>)
    requires NoRivalSynonyms(t.Keys)
    requires forall s :: s in mapping <==> Renames(t.Keys, s)
    requires forall s :: s in mapping ==> Synonym(s) == Some(mapping[s])
    ensures forall a, b :: a in t && b in t && a != b ==> Renamed(mapping, a) != Renamed(mapping, b)
    ensures Rename(t, mapping) == Normalized(t)
  {
    assert forall c :: Renamed(mapping, c) == NewName(t.Keys, c);
  }

  /** Normalisation renames two distinct columns to two distinct names. */
  lemma NewNameInjective(cols: set<Column>, a: Column, b: Column)
    requires NoRivalSynonyms(cols) && a in cols && b in cols && a != b
    ensures NewName(cols, a) != NewName(cols, b)
  {
  }

  /** Each input column reappears under its new name with the same cells. */
  lemma {:induction false} NormalizedColumns(t: Table, c: Column)
    requires NoRivalSynonyms(t.Keys) && c in t
    ensures NewName(t.Keys, c) in Normalized(t)
    ensures Normalized(t)[NewName(t.Keys, c)] == t[c]
  {
    forall a | a in t && a != c ensures NewName(t.Keys, a) != NewName(t.Keys, c) {
      NewNameInjective(t.Keys, a, c);
    }
  }

  /** Every column of the normalised table comes from a column of the input. */
  lemma NormalizedOrigin(t: Table, k: Column)
    requires NoRivalSynonyms(t.Keys) && k in Normalized(t)
    ensures exists c :: c in t && NewName(t.Keys, c) == k && Normalized(t)[k] == t[c]
  {
    var c :| c in t && NewName(t.Keys, c) == k;
    NormalizedColumns(t, c);
  }

  /** A column that no rule renames, in particular a canonical column that is
      already present, is carried over unchanged, and no synonym is renamed
      over it. */
  lemma {:induction false} CanonicalNeverOverwritten(t: Table, c: Column)
    requires NoRivalSynonyms(t.Keys) && c in t && !Renames(t.Keys, c)
    ensures c in Normalized(t) && Normalized(t)[c] == t[c]
    ensures forall a :: a in t && a != c ==> NewName(t.Keys, a) != c
  {
    NormalizedColumns(t, c);
    forall a | a in t && a != c ensures NewName(t.Keys, a) != c {
      NewNameInjective(t.Keys, a, c);
    }
  }

  /** A synonym is renamed exactly when its canonical target is absent. */
  lemma {:induction false} SynonymRenamedIff(t: Table, c: Column)
    requires NoRivalSynonyms(t.Keys) && c in t && Synonym(c).Some? && Synonym(c).value != c
    ensures Synonym(c).value !in t ==>
      Synonym(c).value in Normalized(t) && Normalized(t)[Synonym(c).value] == t[c] && c !in Normalized(t)
    ensures Synonym(c).value in t ==> c in Normalized(t) && Normalized(t)[c] == t[c]
  {
    NormalizedColumns(t, c);
    if Synonym(c).value !in t && c in Normalized(t) {
      NormalizedOrigin(t, c);
      var a :| a in t && NewName(t.Keys, a) == c;
      NewNameInjective(t.Keys, a, c);
    }
  }

  /** The rename rule for `equity_pct` is dead: its guard contradicts itself. */
  lemma EquityPctNeverRenamed(cols: set<Column>)
    ensures !Renames(cols, EquityPct)
  {
  }

  /** Only `comp_usd`, `salary` and `total_comp` can end up named `comp_usd`. */
  lemma NewNameOntoComp(cols: set<Column>, c: Column)
    requires NewName(cols, c) == CompUsd
    ensures c == CompUsd || c == Salary || c == TotalComp
  {
  }

  /** Normalisation yields a `comp_usd` column exactly when the input has
      `comp_usd`, `salary` or `total_comp`. */
  lemma {:induction false} CompColumnPresent(t: Table)
    requires NoRivalSynonyms(t.Keys)
    ensures CompUsd in Normalized(t) <==> (CompUsd in t || Salary in t || TotalComp in t)
  {
    if CompUsd in Normalized(t) {
      var c :| c in t && NewName(t.Keys, c) == CompUsd;
      NewNameOntoComp(t.Keys, c);
    }
    if CompUsd in t {
      NormalizedColumns(t, CompUsd);
    } else if Salary in t {
      NormalizedColumns(t, Salary);
    } else if TotalComp in t {
      NormalizedColumns(t, TotalComp);
    }
  }

  /** After normalisation an `equity_shares` column only survives next to an
      `equity_pct` column: when `equity_pct` is absent it is renamed into it. */
  lemma {:induction false} SharesImplyPct(t: Table)
    requires NoRivalSynonyms(t.Keys)
    ensures EquityShares in Normalized(t) ==> EquityPct in Normalized(t)
  {
    if EquityShares in Normalized(t) {
      NormalizedOrigin(t, EquityShares);
      NormalizedColumns(t, EquityShares);
      if EquityPct in t {
        CanonicalNeverOverwritten(t, EquityPct);
      }
    }
  }

  /** Renaming keeps every column's cells, so a rectangular table stays
      rectangular. */
  lemma NormalizedRectangular(t: Table, n: nat)
    requires NoRivalSynonyms(t.Keys) && Rectangular(t, n)
    ensures Rectangular(Normalized(t), n)
  {
    forall k | k in Normalized(t) ensures |Normalized(t)[k]| == n {
      NormalizedOrigin(t, k);
    }
  }
}
