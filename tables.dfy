/**
 * The shared recipe of the per-table validators: a table as ordered columns
 * and rows, field definitions, the `(is_valid, message)` verdict of a
 * type check, the missing-columns and empty-table sentinels, and the row
 * loop that collects "<column> is required" messages, type messages and
 * table-specific messages for every row and reports the rows that have any.
 */
module Tables {
  import opened Wrappers
  import opened Text
  import opened Numbers
  import opened Values

  /** One row of a DataFrame, by column name. */
  type Row = map<string, Value>

  /**
   * A DataFrame read from the database: its columns in order and its rows
   * in index order; the pandas index of row `k` is `k`.
   */
  datatype Table = Table(columns: seq<string>, rows: seq<Row>)

  /** `row[c]`, or None where the row has no such column (`row.get(c)`). */
  function Cell(r: Row, c: string): Value {
    if c in r then r[c] else Null
  }

  /** `df[c].values`. */
  function ColumnValues(t: Table, c: string): (vs: seq<Value>)
    ensures |vs| == |t.rows| && forall k :: 0 <= k < |t.rows| ==> vs[k] == Cell(t.rows[k], c)
  {
    seq(|t.rows|, k requires 0 <= k < |t.rows| => Cell(t.rows[k], c))
  }

  /** Every row carries a cell for every column, as in any DataFrame. */
  ghost predicate WellFormed(t: Table) {
    forall k, c :: 0 <= k < |t.rows| && c in t.columns ==> c in t.rows[k]
  }

  /** `df.empty`: no rows or no columns. */
  predicate FrameEmpty(t: Table) {
    |t.rows| == 0 || |t.columns| == 0
  }

  /** The `Record_No` of a reported row: the row's 1-based position, or a sentinel label. */
  datatype RecordNo = Ordinal(n: nat) | Tag(name: string)

  const NotApplicable := Tag("N/A")
  const EmptyDb := Tag("EMPTY_DB")
  const NoErrors := Tag("NO_ERRORS")

  /** `str(Record_No)`. */
  function RecordNoText(r: RecordNo): string {
    match r
    case Ordinal(n) => NatText(n)
    case Tag(name) => name
  }

  /** One row of a validator's output: Record_No, the row's cells, Validation_Message. */
  datatype Finding = Finding(recordNo: RecordNo, cells: Row, message: string)

  /** A validator's output DataFrame: the data columns between Record_No and Validation_Message, and its rows. */
  datatype Report = Report(columns: seq<string>, findings: seq<Finding>)

  datatype FieldKind = ShortText | Number | YesNo

  /** An inclusive numeric range; an absent upper bound is `float("inf")`. */
  datatype NumRange = NumRange(lo: int, hi: Option<int>)

  /** An entry of a validator's `field_definitions`. */
  datatype FieldDef = FieldDef(kind: FieldKind, range: Option<NumRange>, maxLength: Option<nat>, validValues: Option<seq<string>>)

  function TextField(): FieldDef {
    FieldDef(ShortText, None, None, None)
  }

  function NumberField(range: Option<NumRange>): FieldDef {
    FieldDef(Number, range, None, None)
  }

  function YesNoField(): FieldDef {
    FieldDef(YesNo, None, None, None)
  }

  /** The `(is_valid, message)` pair a `validate_data_type` returns. */
  datatype Verdict = Valid | Invalid(msg: string)

  /** Python's `num < min_v or num > max_v` is false: nan passes every range. */
  predicate InRange(f: PyFloat, r: NumRange) {
    match f
    case NotANumber => true
    case Finite(d) => !(d.Val() < r.lo as real) && !(r.hi.Some? && d.Val() > r.hi.value as real)
  }

  function RangeMessage(r: NumRange): string {
    "Value must be between " + IntText(r.lo) + " and " + (if r.hi.Some? then IntText(r.hi.value) else "inf")
  }

  /** The required columns absent from the table, in the order they are required. */
  function MissingColumns(required: seq<string>, columns: seq<string>): (m: seq<string>)
    ensures forall c :: c in m <==> c in required && c !in columns
    ensures |m| <= |required|
  {
    if required == [] then []
    else (if required[0] in columns then [] else [required[0]]) + MissingColumns(required[1..], columns)
  }

  /** The single N/A row a validator returns when required columns are missing. */
  function MissingColumnsReport(columns: seq<string>, missing: seq<string>): (r: Report)
    ensures r.columns == columns && |r.findings| == 1 && r.findings[0].recordNo == NotApplicable
    ensures r.findings[0].message == "Required columns missing: " + Join(", ", missing)
    ensures forall c :: c in r.findings[0].cells <==> c in columns
    ensures forall c :: c in r.findings[0].cells ==> r.findings[0].cells[c] == Null
  {
    Report(columns, [Finding(NotApplicable, map c | c in columns :: Null, "Required columns missing: " + Join(", ", missing))])
  }

  /** The single EMPTY_DB row a validator returns for an empty table. */
  function EmptyDbReport(tableName: string): (r: Report)
    ensures r.columns == [] && |r.findings| == 1 && r.findings[0].recordNo == EmptyDb && r.findings[0].cells == map[]
    ensures r.findings[0].message == "\U{26A0}\U{FE0F} WARNING: " + tableName + " table is completely empty - no data found"
  {
    Report([], [Finding(EmptyDb, map[], "\U{26A0}\U{FE0F} WARNING: " + tableName + " table is completely empty - no data found")])
  }

  /** The "<column> is required" messages of one row, in the order the columns are required. */
  function RequiredMessages(required: seq<string>, columns: seq<string>, row: Row): seq<string> {
    if required == [] then []
    else
      var c := required[|required| - 1];
      RequiredMessages(required[..|required| - 1], columns, row)
      + (if c in columns && IsEmpty(Cell(row, c)) then [c + " is required"] else [])
  }

  /** The loop over `required_columns` that flags empty cells. */
  method CollectRequired(required: seq<string>, columns: seq<string>, row: Row) returns (msgs: seq<string>)
    ensures msgs == RequiredMessages(required, columns, row)
  {
    msgs := [];
    var k := 0;
    while k < |required|
      invariant 0 <= k <= |required|
      invariant msgs == RequiredMessages(required[..k], columns, row)
    {
      var c := required[k];
      if c in columns && IsEmpty(Cell(row, c)) {
        msgs := msgs + [c + " is required"];
      }
      k := k + 1;
      assert required[..k][..k - 1] == required[..k - 1];
    }
    assert required[..k] == required;
  }

  /** A required column present in the table yields a message exactly when its cell is empty. */
  lemma {:induction false} RequiredMessagesMeaning(required: seq<string>, columns: seq<string>, row: Row)
    ensures forall m :: m in RequiredMessages(required, columns, row) <==>
      exists c :: c in required && c in columns && IsEmpty(Cell(row, c)) && m == c + " is required"
    decreases |required|
  {
    if required != [] {
      var init := required[..|required| - 1];
      RequiredMessagesMeaning(init, columns, row);
      assert required == init + [required[|required| - 1]];
    }
  }

  /** The "<field>: <message>" messages of one row, in the order the fields are defined. */
  function TypeMessages(defs: seq<(string, FieldDef)>, columns: seq<string>, row: Row,
                        check: (Value, string, FieldDef) -> Verdict): seq<string>
  {
    if defs == [] then []
    else
      var (name, def) := defs[|defs| - 1];
      var v := check(Cell(row, name), name, def);
      TypeMessages(defs[..|defs| - 1], columns, row, check)
      + (if name in columns && v.Invalid? then [name + ": " + v.msg] else [])
  }

  /** The loop over `field_definitions` that runs the table's type check on each present column. */
  method CollectTypeErrors(defs: seq<(string, FieldDef)>, columns: seq<string>, row: Row,
                           check: (Value, string, FieldDef) -> Verdict) returns (msgs: seq<string>)
    ensures msgs == TypeMessages(defs, columns, row, check)
  {
    msgs := [];
    var k := 0;
    while k < |defs|
      invariant 0 <= k <= |defs|
      invariant msgs == TypeMessages(defs[..k], columns, row, check)
    {
      var (name, def) := defs[k];
      if name in columns {
        var v := check(Cell(row, name), name, def);
        if v.Invalid? {
          msgs := msgs + [name + ": " + v.msg];
        }
      }
      k := k + 1;
      assert defs[..k][..k - 1] == defs[..k - 1];
    }
    assert defs[..k] == defs;
  }

  /** A defined field present in the table yields a message exactly when its check rejects the cell. */
  lemma {:induction false} TypeMessagesMeaning(defs: seq<(string, FieldDef)>, columns: seq<string>, row: Row,
                                               check: (Value, string, FieldDef) -> Verdict)
    ensures forall m :: m in TypeMessages(defs, columns, row, check) <==>
      exists k :: 0 <= k < |defs| && defs[k].0 in columns
        && check(Cell(row, defs[k].0), defs[k].0, defs[k].1).Invalid?
        && m == defs[k].0 + ": " + check(Cell(row, defs[k].0), defs[k].0, defs[k].1).msg
    decreases |defs|
  {
    if defs != [] {
      var init := defs[..|defs| - 1];
      TypeMessagesMeaning(init, columns, row, check);
      forall k | 0 <= k < |init| ensures init[k] == defs[k] {
      }
    }
  }

  /**
   * What a validator checks in every row: its required columns, its field
   * definitions with its own `validate_data_type`, and the messages its
   * table-specific rules add after those.
   */
  datatype Recipe = Recipe(required: seq<string>, defs: seq<(string, FieldDef)>,
                           check: (Value, string, FieldDef) -> Verdict, extra: Row -> seq<string>)

  /** Everything one row is reported for: required, then type, then table-specific messages. */
  function RowMessages(columns: seq<string>, row: Row, rc: Recipe): seq<string> {
    RequiredMessages(rc.required, columns, row) + TypeMessages(rc.defs, columns, row, rc.check) + rc.extra(row)
  }

  /** The output rows for `rows`: one per row with messages, Record_No its position plus one. */
  function RowFindings(columns: seq<string>, rows: seq<Row>, rc: Recipe): seq<Finding> {
    if rows == [] then []
    else
      var n := |rows| - 1;
      var msgs := RowMessages(columns, rows[n], rc);
      RowFindings(columns, rows[..n], rc)
      + (if msgs == [] then [] else [Finding(Ordinal(n + 1), rows[n], Join("; ", msgs))])
  }

  /** The `iterrows` loop every validator runs over its table. */
  method ScanRows(t: Table, rc: Recipe) returns (fs: seq<Finding>)
    ensures fs == RowFindings(t.columns, t.rows, rc)
  {
    fs := [];
    var i := 0;
    while i < |t.rows|
      invariant 0 <= i <= |t.rows|
      invariant fs == RowFindings(t.columns, t.rows[..i], rc)
    {
      var row := t.rows[i];
      var errors := CollectRequired(rc.required, t.columns, row);
      var typeErrors := CollectTypeErrors(rc.defs, t.columns, row, rc.check);
      errors := errors + typeErrors + rc.extra(row);
      if errors != [] {
        fs := fs + [Finding(Ordinal(i + 1), row, Join("; ", errors))];
      }
      i := i + 1;
      assert t.rows[..i][..i - 1] == t.rows[..i - 1];
    }
    assert t.rows[..i] == t.rows;
  }

  /** `f` reports row `f.recordNo.n - 1` of `rows`, which has messages, with those messages joined by "; ". */
  ghost predicate ReportsRow(f: Finding, columns: seq<string>, rows: seq<Row>, rc: Recipe) {
    f.recordNo.Ordinal? && 1 <= f.recordNo.n <= |rows|
    && f.cells == rows[f.recordNo.n - 1]
    && RowMessages(columns, rows[f.recordNo.n - 1], rc) != []
    && f.message == Join("; ", RowMessages(columns, rows[f.recordNo.n - 1], rc))
  }

  function OrdinalOf(f: Finding): nat {
    if f.recordNo.Ordinal? then f.recordNo.n else 0
  }

  /**
   * Each row finding stands for a row with messages: it is numbered by the
   * row's position plus one and carries the row and its messages joined by "; ".
   */
  lemma {:induction false} RowFindingsSound(columns: seq<string>, rows: seq<Row>, rc: Recipe)
    ensures forall f :: f in RowFindings(columns, rows, rc) ==> ReportsRow(f, columns, rows, rc)
    decreases |rows|
  {
    if rows != [] {
      var n := |rows| - 1;
      var msgs := RowMessages(columns, rows[n], rc);
      var before := RowFindings(columns, rows[..n], rc);
      var fs := RowFindings(columns, rows, rc);
      assert fs == before + (if msgs == [] then [] else [Finding(Ordinal(n + 1), rows[n], Join("; ", msgs))]);
      RowFindingsSound(columns, rows[..n], rc);
      forall f | f in fs ensures ReportsRow(f, columns, rows, rc) {
        if f in before {
          assert ReportsRow(f, columns, rows[..n], rc);
          assert rows[..n][f.recordNo.n - 1] == rows[f.recordNo.n - 1];
        }
      }
    }
  }

  /** Row findings come in row order, at most one per row. */
  lemma {:induction false} RowFindingsOrdered(columns: seq<string>, rows: seq<Row>, rc: Recipe)
    ensures forall k, l :: 0 <= k < l < |RowFindings(columns, rows, rc)| ==>
      OrdinalOf(RowFindings(columns, rows, rc)[k]) < OrdinalOf(RowFindings(columns, rows, rc)[l])
    decreases |rows|
  {
    if rows != [] {
      var n := |rows| - 1;
      var msgs := RowMessages(columns, rows[n], rc);
      var before := RowFindings(columns, rows[..n], rc);
      var fs := RowFindings(columns, rows, rc);
      assert fs == before + (if msgs == [] then [] else [Finding(Ordinal(n + 1), rows[n], Join("; ", msgs))]);
      RowFindingsOrdered(columns, rows[..n], rc);
      RowFindingsSound(columns, rows[..n], rc);
      forall k, l | 0 <= k < l < |fs| ensures OrdinalOf(fs[k]) < OrdinalOf(fs[l]) {
        assert fs[k] == before[k];
        assert fs[k] in before;
        if l < |before| {
          assert fs[l] == before[l];
        }
      }
    }
  }

  /** Every row with a message is reported, numbered by its position plus one, with its messages. */
  lemma {:induction false} RowFindingsComplete(columns: seq<string>, rows: seq<Row>, rc: Recipe, i: nat)
    requires i < |rows| && RowMessages(columns, rows[i], rc) != []
    ensures Finding(Ordinal(i + 1), rows[i], Join("; ", RowMessages(columns, rows[i], rc))) in RowFindings(columns, rows, rc)
    decreases |rows|
  {
    var n := |rows| - 1;
    var before := RowFindings(columns, rows[..n], rc);
    RowFindingsStep(columns, rows, rc);
    if i < n {
      assert rows[..n][i] == rows[i];
      RowFindingsComplete(columns, rows[..n], rc, i);
    } else {
      var last := Finding(Ordinal(n + 1), rows[n], Join("; ", RowMessages(columns, rows[n], rc)));
      assert RowFindings(columns, rows, rc)[|before|] == last;
    }
  }

  /** The last row adds its finding, if it has messages, after those of the rows before it. */
  lemma RowFindingsStep(columns: seq<string>, rows: seq<Row>, rc: Recipe)
    requires rows != []
    ensures RowMessages(columns, rows[|rows| - 1], rc) == [] ==>
      RowFindings(columns, rows, rc) == RowFindings(columns, rows[..|rows| - 1], rc)
    ensures RowMessages(columns, rows[|rows| - 1], rc) != [] ==>
      RowFindings(columns, rows, rc) == RowFindings(columns, rows[..|rows| - 1], rc)
        + [Finding(Ordinal(|rows|), rows[|rows| - 1], Join("; ", RowMessages(columns, rows[|rows| - 1], rc)))]
  {
  }

  /**
   * The link-existence rule the road-condition, traffic-volume and
   * retaining-wall validators share: a non-empty Link_No that equals no
   * Link_No of the Link table.
   */
  function LinkExistence(link: Option<Table>, columns: seq<string>, row: Row): (msgs: seq<string>)
    ensures |msgs| <= 1
    ensures msgs != [] <==> (link.Some? && "Link_No" in columns && "Link_No" in link.value.columns
      && !IsEmpty(Cell(row, "Link_No")) && !InValues(Cell(row, "Link_No"), ColumnValues(link.value, "Link_No")))
  {
    if link.Some? && "Link_No" in columns && "Link_No" in link.value.columns then
      var linkNo := Cell(row, "Link_No");
      if !IsEmpty(linkNo) && !InValues(linkNo, ColumnValues(link.value, "Link_No")) then
        ["Link_No '" + PyStr(linkNo) + "' does not exist in Link table"]
      else []
    else []
  }

  /** The Link_No cell of row `i`. */
  function LinkOf(rows: seq<Row>, i: nat): Value
    requires i < |rows|
  {
    Cell(rows[i], "Link_No")
  }

  /** The distinct present Link_No values among the first `n` rows, in order of first appearance. */
  function FirstKeys(rows: seq<Row>, n: nat): (ks: seq<Value>)
    requires n <= |rows|
    ensures forall k :: 0 <= k < |ks| ==> !IsNa(ks[k])
  {
    if n == 0 then []
    else
      var before := FirstKeys(rows, n - 1);
      var v := LinkOf(rows, n - 1);
      before + (if !IsNa(v) && forall k :: 0 <= k < |before| ==> !PyEq(v, before[k]) then [v] else [])
  }

  /** Every present Link_No equals one of the first-appearance keys. */
  lemma {:induction false} FirstKeysCover(rows: seq<Row>, n: nat, i: nat)
    requires i < n <= |rows| && !IsNa(LinkOf(rows, i))
    ensures exists k :: k in FirstKeys(rows, n) && PyEq(LinkOf(rows, i), k)
    decreases n
  {
    var before := FirstKeys(rows, n - 1);
    var v := LinkOf(rows, n - 1);
    if i < n - 1 {
      FirstKeysCover(rows, n - 1, i);
      var k :| k in before && PyEq(LinkOf(rows, i), k);
      assert k in FirstKeys(rows, n);
    } else if forall k :: 0 <= k < |before| ==> !PyEq(v, before[k]) {
      PyEqEquivalence(v, v, v);
      assert v in FirstKeys(rows, n);
    } else {
      var k :| 0 <= k < |before| && PyEq(v, before[k]);
      assert before[k] in FirstKeys(rows, n);
    }
  }

  /** No two first-appearance keys are equal. */
  lemma {:induction false} FirstKeysDistinct(rows: seq<Row>, n: nat)
    requires n <= |rows|
    ensures forall p, q :: 0 <= p < |FirstKeys(rows, n)| && 0 <= q < |FirstKeys(rows, n)| && p != q ==>
      !PyEq(FirstKeys(rows, n)[p], FirstKeys(rows, n)[q])
    decreases n
  {
    if n > 0 {
      FirstKeysDistinct(rows, n - 1);
      var before := FirstKeys(rows, n - 1);
      var ks := FirstKeys(rows, n);
      forall p, q | 0 <= p < |ks| && 0 <= q < |ks| && p != q ensures !PyEq(ks[p], ks[q]) {
        if p < |before| && q < |before| {
          assert ks[p] == before[p] && ks[q] == before[q];
        } else if p < |before| {
          assert ks[p] == before[p];
          PyEqEquivalence(ks[q], ks[p], ks[p]);
        } else {
          assert ks[q] == before[q];
        }
      }
    }
  }

  /** Every first-appearance key is the Link_No of one of the rows. */
  lemma {:induction false} FirstKeysDrawn(rows: seq<Row>, n: nat)
    requires n <= |rows|
    ensures forall k :: 0 <= k < |FirstKeys(rows, n)| ==> exists i :: 0 <= i < n && FirstKeys(rows, n)[k] == LinkOf(rows, i)
    decreases n
  {
    if n > 0 {
      FirstKeysDrawn(rows, n - 1);
      var before := FirstKeys(rows, n - 1);
      forall k | 0 <= k < |FirstKeys(rows, n)| ensures exists i :: 0 <= i < n && FirstKeys(rows, n)[k] == LinkOf(rows, i) {
        if k < |before| {
          var i :| 0 <= i < n - 1 && before[k] == LinkOf(rows, i);
          assert FirstKeys(rows, n)[k] == LinkOf(rows, i);
        } else {
          assert FirstKeys(rows, n)[k] == LinkOf(rows, n - 1);
        }
      }
    } else {
      assert FirstKeys(rows, n) == [];
    }
  }
}
