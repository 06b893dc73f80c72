/** `load_roster`: normalise the raw table, coerce compensation, keep the
    employee rows, assign ids where the file has none, and truncate the
    compensation to an integer. */
module Loader {

  import opened Util
  import opened Schema

  /** The `RuntimeError` raised when no compensation column survives
      normalisation; it lists the columns that were found. */
  datatype LoadError = MissingCompColumn(found: set<Column>)

  /** A row on its way through `load_roster`: the text of each column, and
      `comp_usd` as coerced by `to_numeric` (`None` where coercion failed). */
  datatype Staged = Staged(cells: map<Column, string>, comp: Option<real>)

  /** A retained roster row: the text of each column as read (with the
      assigned `employee_id` where the file had none), and `comp_usd` as the
      integer it was truncated to. */
  datatype Employee = Employee(cells: map<Column, string>, comp: int)
  {
    function Id(): string { Cell(cells, EmployeeId) }
  }

  /** The loaded roster: its column names and its rows. */
  datatype Roster = Roster(columns: set<Column>, rows: seq<Employee>)

  /** The text of column `c` in a row; a column the row does not have reads as
      empty, as the column-mapping block fills missing expected columns. */
  function Cell(cells: map<Column, string>, c: Column): (v: string)
  {
    if c in cells then cells[c] else ""
  }

  /** Row `i` of a table. */
  function Row(t: Table, n: nat, i: nat): (r: map<Column, string>)
    requires Rectangular(t, n) && i < n
  {
    map c | c in t :: t[c][i]
  }

  /** `df["comp_usd"] = pd.to_numeric(df["comp_usd"], errors="coerce")`. */
  function Stage(t: Table, n: nat, parse: string -> Option<real>): (r: seq<Staged>)
    requires Rectangular(t, n) && CompUsd in t
    ensures |r| == n
    ensures forall i :: 0 <= i < n ==> r[i].cells == Row(t, n, i)
    ensures forall i :: 0 <= i < n ==> CompUsd in r[i].cells && r[i].comp == parse(r[i].cells[CompUsd])
  {
    seq(n, i requires 0 <= i < n => Staged(Row(t, n, i), parse(t[CompUsd][i])))
  }

  /** `s` begins with `p`, as Python's `str.startswith`. */
  predicate StartsWith(s: string, p: string)
  {
    |p| <= |s| && s[..|p|] == p
  }

  /** `str.startswith("E")` on the row's `employee_id`. */
  function HasEmployeePrefix(s: Staged): (b: bool)
    ensures b <==> StartsWith(Cell(s.cells, EmployeeId), "E")
  {
    var id := Cell(s.cells, EmployeeId);
    |id| >= 1 && id[0] == 'E'
  }

  /** `notna()` on the row's coerced compensation. */
  predicate HasComp(s: Staged)
  {
    s.comp.Some?
  }

  // ---- `"U{:04d}".format(k)` ------------------------------------------------

  function DigitChar(d: int): (ch: char)
    requires 0 <= d < 10
  {
    (48 + d) as char
  }

  predicate IsDigits(s: string)
  {
    forall i :: 0 <= i < |s| ==> '0' <= s[i] <= '9'
  }

  /** The decimal numeral of `k`, without leading zeros. */
  function Decimal(k: nat): (s: string)
    ensures |s| >= 1 && IsDigits(s)
    ensures |s| == 1 || s[0] != '0'
  {
    if k < 10 then [DigitChar(k)] else Decimal(k / 10) + [DigitChar(k % 10)]
  }

  /** The number a string of decimal digits denotes. */
  function DecimalValue(s: string): (v: nat)
    requires IsDigits(s)
  {
    if s == [] then 0 else DecimalValue(s[..|s| - 1]) * 10 + (s[|s| - 1] as int - 48)
  }

  /** `{:04d}`: the decimal numeral, padded on the left with zeros to four
      characters; longer numerals are not cut. */
  function ZeroPad4(k: nat): (s: string)
    ensures |s| >= 4 && IsDigits(s)
    ensures |s| == 4 || s[0] != '0'
  {
    var d := Decimal(k);
    if |d| < 4 then seq(4 - |d|, _ => '0') + d else d
  }

  /** The id the loader assigns to the `k`-th retained row (counting from 1). */
  function SyntheticId(k: nat): (id: string)
  {
    "U" + ZeroPad4(k)
  }

  /** Reading back a numeral gives the number. */
  lemma {:induction false} DecimalRoundTrip(k: nat)
    ensures DecimalValue(Decimal(k)) == k
  {
    if k >= 10 {
      var s := Decimal(k);
      assert s[..|s| - 1] == Decimal(k / 10);
      DecimalRoundTrip(k / 10);
    }
  }

  /** Leading zeros do not change the value of a numeral. */
  lemma {:induction false} LeadingZeros(z: nat, s: string)
    requires IsDigits(s)
    ensures IsDigits(seq(z, _ => '0') + s)
    ensures DecimalValue(seq(z, _ => '0') + s) == DecimalValue(s)
  {
    var zs: string := seq(z, _ => '0');
    if s == [] {
      assert zs + s == zs;
      AllZeros(z);
    } else {
      assert (zs + s)[..|zs + s| - 1] == zs + s[..|s| - 1];
      LeadingZeros(z, s[..|s| - 1]);
    }
  }

  lemma {:induction false} AllZeros(z: nat)
    ensures DecimalValue(seq(z, _ => '0')) == 0
  {
    if z > 0 {
      assert seq(z, _ => '0')[..z - 1] == seq(z - 1, _ => '0');
      AllZeros(z - 1);
    }
  }

  /** The padded numeral still denotes `k`. */
  lemma ZeroPadValue(k: nat)
    ensures DecimalValue(ZeroPad4(k)) == k
  {
    DecimalRoundTrip(k);
    var d := Decimal(k);
    if |d| < 4 {
      LeadingZeros(4 - |d|, d);
    }
  }

  /** A string of digits that denotes 0 is all zeros. */
  lemma {:induction false} NoValueAllZeros(s: string)
    requires IsDigits(s) && DecimalValue(s) == 0
    ensures s == seq(|s|, _ => '0')
  {
    if s != [] {
      NoValueAllZeros(s[..|s| - 1]);
      assert s == s[..|s| - 1] + [s[|s| - 1]];
    }
  }

  /** Every string of digits is the numeral of its value after some zeros,
      so no numeral is longer than a digit string of the same value. */
  lemma {:induction false} PaddedNumeral(s: string)
    requires |s| >= 1 && IsDigits(s)
    ensures |Decimal(DecimalValue(s))| <= |s|
    ensures s == seq(|s| - |Decimal(DecimalValue(s))|, _ => '0') + Decimal(DecimalValue(s))
  {
    var p := s[..|s| - 1];
    var last := s[|s| - 1];
    var k := DecimalValue(s);
    var digit := last as int - 48;
    assert k == DecimalValue(p) * 10 + digit && 0 <= digit < 10;
    assert DigitChar(digit) == last;
    assert s == p + [last];
    if k < 10 {
      assert DecimalValue(p) == 0;
      NoValueAllZeros(p);
      assert Decimal(k) == [last];
    } else {
      assert DecimalValue(p) == k / 10 && digit == k % 10;
      assert p != [];
      PaddedNumeral(p);
      var d := Decimal(k / 10);
      assert Decimal(k) == d + [last];
      assert s == seq(|p| - |d|, _ => '0') + (d + [last]);
    }
  }

  /** The padded numeral is the only digit string of at least four
      characters, without zeros beyond the fourth place, that denotes `k`:
      `{:04d}` fixes the string. */
  lemma ZeroPad4Unique(k: nat, s: string)
    requires IsDigits(s) && |s| >= 4 && (|s| == 4 || s[0] != '0')
    requires DecimalValue(s) == k
    ensures s == ZeroPad4(k)
  {
    PaddedNumeral(s);
    var d := Decimal(k);
    assert s[0] == (seq(|s| - |d|, _ => '0') + d)[0];
    if |s| > 4 {
      assert |s| == |d|;
      assert s == d;
    }
  }

  /** Distinct row numbers get distinct ids. */
  lemma SyntheticIdInjective(j: nat, k: nat)
    requires SyntheticId(j) == SyntheticId(k)
    ensures j == k
  {
    assert ZeroPad4(j) == SyntheticId(j)[1..];
    assert ZeroPad4(k) == SyntheticId(k)[1..];
    ZeroPadValue(j);
    ZeroPadValue(k);
  }

  /** The first id, as `"U{:04d}".format(i + 1)` writes it. */
  lemma {:induction false} FirstSyntheticId()
    ensures SyntheticId(1) == "U0001"
  {
    assert Decimal(1) == "1";
  }

  /** Ids past 9999 grow a fifth digit instead of wrapping. */
  lemma {:induction false} LongSyntheticId()
    ensures SyntheticId(10000) == "U10000"
  {
    assert Decimal(1) == "1";
    assert Decimal(10) == "10";
    assert Decimal(100) == "100";
    assert Decimal(1000) == "1000";
    assert Decimal(10000) == "10000";
  }

  // ---- assigning ids and truncating ------------------------------------------

  /** The rows after `df["employee_id"] = ["U{:04d}".format(i + 1) ...]`. */
  function WithSyntheticIds(rows: seq<Staged>): (r: seq<Staged>)
    ensures |r| == |rows|
    ensures forall k :: 0 <= k < |r| ==> r[k].comp == rows[k].comp
  {
    seq(|rows|, k requires 0 <= k < |rows| =>
      rows[k].(cells := rows[k].cells[EmployeeId := SyntheticId(k + 1)]))
  }

  /** The list comprehension that builds the id column, one row at a time. */
  method AssignSyntheticIds(rows: seq<Staged>) returns (r: seq<Staged>)
    ensures r == WithSyntheticIds(rows)
  {
    r := [];
    for i := 0 to |rows|
      invariant r == WithSyntheticIds(rows[..i])
    {
      assert rows[..i + 1][..i] == rows[..i];
      r := r + [rows[i].(cells := rows[i].cells[EmployeeId := SyntheticId(i + 1)])];
    }
    assert rows[..|rows|] == rows;
  }

  /** `df["comp_usd"].astype(int)`: truncation toward zero. */
  function Truncated(rows: seq<Staged>): (r: seq<Employee>)
    requires forall k :: 0 <= k < |rows| ==> HasComp(rows[k])
    ensures |r| == |rows|
  {
    seq(|rows|, k requires 0 <= k < |rows| && HasComp(rows[k]) =>
      Employee(rows[k].cells, Trunc(rows[k].comp.value)))
  }

  /** The rows `load_roster` keeps from a normalised table that has a
      `comp_usd` column, before truncation. */
  function Retained(t: Table, n: nat, parse: string -> Option<real>): (r: seq<Staged>)
    requires Rectangular(t, n) && CompUsd in t
    ensures forall k :: 0 <= k < |r| ==> HasComp(r[k])
  {
    var staged := Stage(t, n, parse);
    if EmployeeId in t then
      Filter(Filter(staged, HasEmployeePrefix), HasComp)
    else
      var kept := Filter(staged, HasComp);
      assert forall k :: 0 <= k < |kept| ==> kept[k] in kept;
      WithSyntheticIds(kept)
  }

  /** The rows of the roster `load_roster` returns for a normalised table. */
  function Loaded(t: Table, n: nat, parse: string -> Option<real>): (r: seq<Employee>)
    requires Rectangular(t, n) && CompUsd in t
    ensures |r| <= n
  {
    Truncated(Retained(t, n, parse))
  }

  /** What `load_roster` returns for a raw table of `n` rows: the error it
      raises, or the roster. It fails exactly when the table has none of
      `comp_usd`, `salary` and `total_comp`. */
  function Load(raw: Table, n: nat, parse: string -> Option<real>): (r: Result<Roster, LoadError>)
    requires WellFormedTable(raw) && NoRivalSynonyms(raw.Keys) && Rectangular(raw, n)
    ensures r.Failure? <==> !(CompUsd in raw || Salary in raw || TotalComp in raw)
    ensures r.Failure? ==> r.error == MissingCompColumn(Normalized(raw).Keys)
  {
    CompColumnPresent(raw);
    NormalizedRectangular(raw, n);
    var t := Normalized(raw);
    if CompUsd !in t then Failure(MissingCompColumn(t.Keys))
    else Success(Roster(t.Keys + {EmployeeId}, Loaded(t, n, parse)))
  }

  /** The loaded roster has the normalised columns and `employee_id`. */
  lemma LoadedColumns(raw: Table, n: nat, parse: string -> Option<real>)
    requires WellFormedTable(raw) && NoRivalSynonyms(raw.Keys) && Rectangular(raw, n) && Load(raw, n, parse).Success?
    ensures Load(raw, n, parse).value.columns == Normalized(raw).Keys + {EmployeeId}
  {
  }

  /** `load_roster` after reading the file, reassigning the frame step by
      step as the script does. */
  method LoadRoster(raw: Table, n: nat, parse: string -> Option<real>) returns (r: Result<Roster, LoadError>)
    requires WellFormedTable(raw) && NoRivalSynonyms(raw.Keys) && Rectangular(raw, n)
    ensures r == Load(raw, n, parse)
  {
    var t := NormalizeColumns(raw);
    if CompUsd !in t {
      return Failure(MissingCompColumn(t.Keys));
    }
    NormalizedRectangular(raw, n);
    var rows := KeepRows(t, n, parse);
    r := Success(Roster(t.Keys + {EmployeeId}, Truncated(rows)));
  }

  /** The filter and assign steps of `load_roster` on the normalised table. */
  method KeepRows(t: Table, n: nat, parse: string -> Option<real>) returns (rows: seq<Staged>)
    requires Rectangular(t, n) && CompUsd in t
    ensures rows == Retained(t, n, parse)
  {
    rows := Stage(t, n, parse);
    if EmployeeId in t {
      rows := Filter(rows, HasEmployeePrefix);
      // `dropna(subset=["comp_usd"])`
      rows := Filter(rows, HasComp);
    } else {
      var kept := Filter(rows, HasComp);
      assert forall k :: 0 <= k < |kept| ==> kept[k] in kept;
      rows := AssignSyntheticIds(kept);
      // `dropna(subset=["comp_usd"])` keeps every row: all have a compensation
      assert forall k :: 0 <= k < |rows| ==> HasComp(rows[k]);
      FilterAll(rows, HasComp);
      rows := Filter(rows, HasComp);
    }
  }

  // ---- properties of the loaded roster ---------------------------------------

  /** Every retained row has a compensation that coerces to a number, stored
      as that number's integer truncation, and has an `employee_id`. */
  lemma {:induction false} LoadedCompensation(t: Table, n: nat, parse: string -> Option<real>, k: nat)
    requires Rectangular(t, n) && CompUsd in t && k < |Loaded(t, n, parse)|
    ensures var e := Loaded(t, n, parse)[k];
      && CompUsd in e.cells && EmployeeId in e.cells
      && parse(e.cells[CompUsd]).Some?
      && e.comp == Trunc(parse(e.cells[CompUsd]).value)
  {
    var staged := Stage(t, n, parse);
    var s := Retained(t, n, parse)[k];
    if EmployeeId in t {
      assert s in Filter(Filter(staged, HasEmployeePrefix), HasComp);
      assert s in staged;
    } else {
      var kept := Filter(staged, HasComp);
      assert kept[k] in staged;
    }
  }

  /** With an `employee_id` column every retained id starts with `E`. */
  lemma {:induction false} LoadedIdsStartWithE(t: Table, n: nat, parse: string -> Option<real>)
    requires Rectangular(t, n) && CompUsd in t && EmployeeId in t
    ensures var rows := Loaded(t, n, parse);
      forall k :: 0 <= k < |rows| ==> |rows[k].Id()| >= 1 && rows[k].Id()[0] == 'E'
  {
    var staged := Stage(t, n, parse);
    var kept := Filter(Filter(staged, HasEmployeePrefix), HasComp);
    forall k | 0 <= k < |kept| ensures HasEmployeePrefix(kept[k]) {
      assert kept[k] in kept;
      assert kept[k] in Filter(staged, HasEmployeePrefix);
    }
  }

  /** With an `employee_id` column, an input row whose id starts with `E` and
      whose compensation coerces to a number is retained. */
  lemma {:induction false} EmployeeRowRetained(t: Table, n: nat, parse: string -> Option<real>, i: nat)
    requires Rectangular(t, n) && CompUsd in t && EmployeeId in t && i < n
    requires |t[EmployeeId][i]| >= 1 && t[EmployeeId][i][0] == 'E' && parse(t[CompUsd][i]).Some?
    ensures exists k :: 0 <= k < |Loaded(t, n, parse)| && Loaded(t, n, parse)[k].cells == Row(t, n, i)
  {
    var staged := Stage(t, n, parse);
    var half := Filter(staged, HasEmployeePrefix);
    var kept := Filter(half, HasComp);
    assert staged[i].cells == Row(t, n, i);
    assert staged[i] in staged;
    assert staged[i] in half;
    assert staged[i] in kept;
    var k :| 0 <= k < |kept| && kept[k] == staged[i];
    assert Loaded(t, n, parse)[k].cells == Row(t, n, i);
  }

  /** With an `employee_id` column, every retained row is an input row whose
      id starts with `E` and whose compensation coerces to a number. */
  lemma {:induction false} RetainedRowOrigin(t: Table, n: nat, parse: string -> Option<real>)
    requires Rectangular(t, n) && CompUsd in t && EmployeeId in t
    ensures var rows := Loaded(t, n, parse);
      forall k :: 0 <= k < |rows| ==> exists i ::
        && 0 <= i < n && rows[k].cells == Row(t, n, i)
        && |t[EmployeeId][i]| >= 1 && t[EmployeeId][i][0] == 'E' && parse(t[CompUsd][i]).Some?
  {
    var staged := Stage(t, n, parse);
    var half := Filter(staged, HasEmployeePrefix);
    var kept := Filter(half, HasComp);
    var rows := Loaded(t, n, parse);
    assert Retained(t, n, parse) == kept;
    assert forall k :: 0 <= k < |rows| ==> rows[k].cells == kept[k].cells;
    forall k | 0 <= k < |rows|
      ensures exists i ::
        && 0 <= i < n && rows[k].cells == Row(t, n, i)
        && |t[EmployeeId][i]| >= 1 && t[EmployeeId][i][0] == 'E' && parse(t[CompUsd][i]).Some?
    {
      assert kept[k] in kept;
      assert kept[k] in half;
      assert kept[k] in staged;
      var i :| 0 <= i < n && staged[i] == kept[k];
      assert t[EmployeeId][i] == Row(t, n, i)[EmployeeId];
      assert t[CompUsd][i] == Row(t, n, i)[CompUsd];
    }
  }

  /** Without an `employee_id` column, the rows with a numeric compensation
      are kept in input order and the `k`-th of them gets id
      `SyntheticId(k + 1)`; these ids are pairwise distinct. */
  lemma {:induction false} LoadedWithoutIdColumn(t: Table, n: nat, parse: string -> Option<real>)
    requires Rectangular(t, n) && CompUsd in t && EmployeeId !in t
    ensures var kept := Filter(Stage(t, n, parse), HasComp);
      var rows := Loaded(t, n, parse);
      && |rows| == |kept|
      && forall k :: 0 <= k < |rows| ==>
           rows[k].cells == kept[k].cells[EmployeeId := SyntheticId(k + 1)] && rows[k].Id() == SyntheticId(k + 1)
    ensures var rows := Loaded(t, n, parse);
      forall j, k :: 0 <= j < k < |rows| ==> rows[j].Id() != rows[k].Id()
  {
    var kept := Filter(Stage(t, n, parse), HasComp);
    var ided := WithSyntheticIds(kept);
    assert forall k :: 0 <= k < |kept| ==> kept[k] in kept;
    assert Retained(t, n, parse) == ided;
    var rows := Loaded(t, n, parse);
    forall k | 0 <= k < |rows|
      ensures rows[k].cells == kept[k].cells[EmployeeId := SyntheticId(k + 1)]
      ensures rows[k].Id() == SyntheticId(k + 1)
    {
      assert rows[k].cells == ided[k].cells;
    }
    SyntheticIdsDistinct(kept);
  }

  /** The assigned ids are pairwise distinct. */
  lemma SyntheticIdsDistinct(rows: seq<Staged>)
    ensures var r := WithSyntheticIds(rows);
      forall j, k :: 0 <= j < k < |r| ==> r[j].cells[EmployeeId] != r[k].cells[EmployeeId]
  {
    var r := WithSyntheticIds(rows);
    forall j, k | 0 <= j < k < |r| ensures r[j].cells[EmployeeId] != r[k].cells[EmployeeId] {
      SyntheticIdsDiffer(j + 1, k + 1);
    }
  }

  lemma SyntheticIdsDiffer(j: nat, k: nat)
    requires j != k
    ensures SyntheticId(j) != SyntheticId(k)
  {
    if SyntheticId(j) == SyntheticId(k) {
      SyntheticIdInjective(j, k);
    }
  }
}
