/**
 * The report assembly of `runValidationScript`: the Link report it builds
 * itself from `validate_row`, the NO_ERRORS row it puts in place of an empty
 * validator result, the fixed BridgeInventory row, and the summary of report
 * lengths it returns for the sixteen tables, or the error text when a step
 * raises.
 */
module Runner {
  import opened Wrappers
  import opened Text
  import opened Values
  import opened Tables
  import opened ErrorMaps
  import opened LinkTable
  import BridgeInventory

  /** `fillna("")` turns None and nan into the empty string. */
  function BlankNa(v: Value): (r: Value)
    ensures !r.Null? && !r.NaN?
    ensures !v.Null? && !v.NaN? ==> r == v
  {
    if v.Null? || v.NaN? then Str("") else v
  }

  /** `df.fillna("")`, cell by cell. */
  function FillNa(t: Table): (r: Table)
    ensures r.columns == t.columns && |r.rows| == |t.rows|
    ensures forall k :: 0 <= k < |t.rows| ==> r.rows[k].Keys == t.rows[k].Keys
  {
    Table(t.columns, seq(|t.rows|, k requires 0 <= k < |t.rows| => map c | c in t.rows[k] :: BlankNa(t.rows[k][c])))
  }

  /** Filling blanks keeps every row's cells, so a well-formed table stays well-formed. */
  lemma FillNaWellFormed(t: Table)
    requires WellFormed(t)
    ensures WellFormed(FillNa(t))
  {
  }

  /** With none of the Link columns missing, every row of a well-formed table carries all of them. */
  lemma RowsHaveRequired(t: Table)
    requires WellFormed(t) && MissingColumns(Required, t.columns) == []
    ensures forall k :: 0 <= k < |t.rows| ==> HasRequired(t.rows[k])
  {
    forall c | c in Required ensures c in t.columns {
      assert c !in MissingColumns(Required, t.columns);
    }
    assert Required[0] in Required && Required[1] in Required && Required[2] in Required
      && Required[3] in Required && Required[4] in Required && Required[5] in Required && Required[6] in Required;
  }

  /** The texts the Link report treats as blank. */
  predicate BlankText(s: string) {
    s == "" || s == "nan" || s == "None"
  }

  /** `str(row[col]).strip()` is "", "nan" or "None", so the report shows "missing" instead. */
  predicate ShowsMissing(v: Value) {
    BlankText(Strip(PyStr(v)))
  }

  /** The value a report row shows for column `c`: the cell, unless the column is absent or the cell blank. */
  function Shown(columns: seq<string>, row: Row, c: string): Value {
    if c in columns && !ShowsMissing(Cell(row, c)) then Cell(row, c) else Str("missing")
  }

  /** The report row's cells: every required column, shown as "missing" when blank. */
  function Display(required: seq<string>, columns: seq<string>, row: Row): Row {
    if required == [] then map[]
    else
      var c := required[|required| - 1];
      Display(required[..|required| - 1], columns, row)[c := Shown(columns, row, c)]
  }

  /** The report row has exactly the required columns, each showing its own value or "missing". */
  lemma {:induction false} DisplayShows(required: seq<string>, columns: seq<string>, row: Row, c: string)
    ensures c in Display(required, columns, row) <==> c in required
    ensures c in required ==> Display(required, columns, row)[c] == Shown(columns, row, c)
    decreases |required|
  {
    if required != [] {
      var n := |required| - 1;
      assert required == required[..n] + [required[n]];
      DisplayShows(required[..n], columns, row, c);
    }
  }

  /** The loop over the required columns that fills `new_row`. */
  method DisplayRow(required: seq<string>, columns: seq<string>, row: Row) returns (r: Row)
    ensures r == Display(required, columns, row)
  {
    r := map[];
    var k := 0;
    while k < |required|
      invariant 0 <= k <= |required|
      invariant r == Display(required[..k], columns, row)
    {
      var c := required[k];
      r := r[c := Shown(columns, row, c)];
      assert required[..k + 1][..k] == required[..k];
      k := k + 1;
    }
    assert required[..k] == required;
  }

  /** The "column: message" texts of the dict entries whose column is required, in dict order. */
  function MessageParts(e: Entries, required: seq<string>): (parts: seq<string>)
    ensures |parts| <= |e|
  {
    if e == [] then []
    else
      var (c, m) := e[|e| - 1];
      MessageParts(e[..|e| - 1], required) + (if c in required then [c + ": " + m] else [])
  }

  /** When every column of the dict is required, each entry gives one text, in order. */
  lemma {:induction false} MessagePartsAll(e: Entries, required: seq<string>)
    requires forall i :: 0 <= i < |e| ==> e[i].0 in required
    ensures |MessageParts(e, required)| == |e|
    ensures forall i :: 0 <= i < |e| ==> MessageParts(e, required)[i] == e[i].0 + ": " + e[i].1
    decreases |e|
  {
    if e != [] {
      var n := |e| - 1;
      var init := e[..n];
      assert forall i :: 0 <= i < n ==> init[i] == e[i];
      MessagePartsAll(init, required);
      var last := e[n].0 + ": " + e[n].1;
      assert MessageParts(e, required) == MessageParts(init, required) + [last];
      forall i | 0 <= i < |e| ensures MessageParts(e, required)[i] == e[i].0 + ": " + e[i].1 {
        if i < n {
          assert MessageParts(e, required)[i] == MessageParts(init, required)[i];
        }
      }
    }
  }

  /** The loop over `errors.items()` that keeps the entries of required columns. */
  method CollectMessages(e: Entries, required: seq<string>) returns (parts: seq<string>)
    ensures parts == MessageParts(e, required)
  {
    parts := [];
    var i := 0;
    while i < |e|
      invariant 0 <= i <= |e|
      invariant parts == MessageParts(e[..i], required)
    {
      var (c, m) := e[i];
      if c in required {
        parts := parts + [c + ": " + m];
      }
      assert e[..i + 1][..i] == e[..i];
      i := i + 1;
    }
    assert e[..i] == e;
  }

  /** A dict of required columns gives one text per key, in key order, with that key's message. */
  lemma DictMessage(e: Entries, required: seq<string>)
    requires UniqueKeys(e)
    requires forall i :: 0 <= i < |e| ==> e[i].0 in required
    ensures |MessageParts(e, required)| == |Keys(e)|
    ensures forall i :: 0 <= i < |Keys(e)| ==>
      Get(e, Keys(e)[i]).Some? && MessageParts(e, required)[i] == Keys(e)[i] + ": " + Get(e, Keys(e)[i]).value
  {
    MessagePartsAll(e, required);
    forall i | 0 <= i < |e|
      ensures Get(e, Keys(e)[i]).Some? && MessageParts(e, required)[i] == Keys(e)[i] + ": " + Get(e, Keys(e)[i]).value
    {
      KeysAt(e, i);
      GetAt(e, i);
    }
  }

  /**
   * A Link row's message names exactly its failing columns, in the order
   * they are checked, each with the message of its rule.
   */
  lemma LinkMessage(row: Row)
    requires HasRequired(row)
    ensures |MessageParts(Fill(Checks(row)), Required)| == |Present(Checks(row))|
    ensures forall i :: 0 <= i < |Present(Checks(row))| ==>
      Get(Fill(Checks(row)), Present(Checks(row))[i]).Some?
      && MessageParts(Fill(Checks(row)), Required)[i]
         == Present(Checks(row))[i] + ": " + Get(Fill(Checks(row)), Present(Checks(row))[i]).value
  {
    var m0, m1, m2, m3 := ProvinceCodeError(row["Province_Code"]), MissingError(row["Kabupaten_Code"]),
                          LinkNoError(row["Link_No"], row["Province_Code"]), MissingError(row["Link_Code"]);
    var m4, m5, m6 := MissingError(row["Link_Name"]), LengthError(row["Link_Length_Official"]),
                      LengthError(row["Link_Length_Actual"]);
    assert Checks(row) == Labelled(m0, m1, m2, m3, m4, m5, m6);
    LabelledMessage(m0, m1, m2, m3, m4, m5, m6);
  }

  lemma LabelledMessage(m0: Option<string>, m1: Option<string>, m2: Option<string>, m3: Option<string>,
                        m4: Option<string>, m5: Option<string>, m6: Option<string>)
    ensures |MessageParts(Fill(Labelled(m0, m1, m2, m3, m4, m5, m6)), Required)| == |Present(Labelled(m0, m1, m2, m3, m4, m5, m6))|
    ensures forall i :: 0 <= i < |Present(Labelled(m0, m1, m2, m3, m4, m5, m6))| ==>
      Get(Fill(Labelled(m0, m1, m2, m3, m4, m5, m6)), Present(Labelled(m0, m1, m2, m3, m4, m5, m6))[i]).Some?
      && MessageParts(Fill(Labelled(m0, m1, m2, m3, m4, m5, m6)), Required)[i]
        == Present(Labelled(m0, m1, m2, m3, m4, m5, m6))[i] + ": "
           + Get(Fill(Labelled(m0, m1, m2, m3, m4, m5, m6)), Present(Labelled(m0, m1, m2, m3, m4, m5, m6))[i]).value
  {
    LabelledFill(m0, m1, m2, m3, m4, m5, m6);
    LabelledKeysRequired(m0, m1, m2, m3, m4, m5, m6);
    DictMessage(Fill(Labelled(m0, m1, m2, m3, m4, m5, m6)), Required);
  }

  /** The report row for the Link row at position `k`, when `validate_row` found anything. */
  function LinkRowFinding(columns: seq<string>, k: nat, row: Row): (r: Option<Finding>)
    requires HasRequired(row)
    ensures r.Some? <==> Fill(Checks(row)) != []
    ensures r.Some? ==> (r.value.recordNo == Ordinal(k + 1)
      && r.value.message == Join("; ", MessageParts(Fill(Checks(row)), Required)))
  {
    var errors := Fill(Checks(row));
    if errors == [] then None
    else Some(Finding(Ordinal(k + 1), Display(Required, columns, row), Join("; ", MessageParts(errors, Required))))
  }

  predicate AllHaveRequired(rows: seq<Row>) {
    forall k :: 0 <= k < |rows| ==> HasRequired(rows[k])
  }

  /** Each Link row with its possible report row. */
  function LinkRows(columns: seq<string>, rows: seq<Row>): (r: seq<Option<Finding>>)
    requires AllHaveRequired(rows)
    ensures |r| == |rows| && forall k :: 0 <= k < |rows| ==> r[k] == LinkRowFinding(columns, k, rows[k])
  {
    seq(|rows|, k requires 0 <= k < |rows| => LinkRowFinding(columns, k, rows[k]))
  }

  /** "✅ SUCCESS: No validation errors found in <name> table". */
  function SuccessMessage(name: string): string {
    "\U{2705} SUCCESS: No validation errors found in " + name + " table"
  }

  /** A report row with every column blank. */
  function NoErrorsFinding(columns: seq<string>, message: string): Finding {
    Finding(NoErrors, map c | c in columns :: Str(""), message)
  }

  /** The `ValueError` text for a table that lacks required columns. */
  function MissingMessage(name: string, missing: seq<string>): string {
    "\U{274C} " + name + " table missing columns: " + Join(", ", missing)
  }

  /**
   * The Link report: a raised error when a required column is missing,
   * otherwise the report rows of the invalid rows, or the single NO_ERRORS
   * row when there are none.
   */
  function LinkReportOf(t: Table): (r: Outcome<Report>)
    requires WellFormed(t)
    ensures r.Raised? <==> exists c :: c in Required && c !in t.columns
    ensures r.Done? ==> 1 <= |r.value.findings| <= |t.rows| + 1
  {
    var missing := MissingColumns(Required, t.columns);
    if missing != [] then
      assert missing[0] in missing;
      Raised(MissingMessage("Link", missing))
    else
      RowsHaveRequired(t);
      var fs := Somes(LinkRows(t.columns, t.rows));
      Done(Report(Required, if fs == [] then [NoErrorsFinding(Required, SuccessMessage("Link"))] else fs))
  }

  /** The Link block of `runValidationScript`, on the table as read from the database. */
  method LinkReport(raw: Table) returns (r: Outcome<Report>)
    requires WellFormed(raw)
    ensures WellFormed(FillNa(raw)) && r == LinkReportOf(FillNa(raw))
  {
    var t := FillNa(raw);
    FillNaWellFormed(raw);
    var missing := MissingColumns(Required, t.columns);
    if missing != [] {
      return Raised(MissingMessage("Link", missing));
    }
    RowsHaveRequired(t);
    var invalid := CollectLinkFindings(t.columns, t.rows);
    if invalid == [] {
      invalid := [NoErrorsFinding(Required, SuccessMessage("Link"))];
    }
    r := Done(Report(Required, invalid));
  }

  /** The loop of the Link block over `df.iterrows()`, which keeps a report row for each invalid row. */
  method CollectLinkFindings(columns: seq<string>, rows: seq<Row>) returns (invalid: seq<Finding>)
    requires AllHaveRequired(rows)
    ensures invalid == Somes(LinkRows(columns, rows))
  {
    ghost var all := LinkRows(columns, rows);
    invalid := [];
    var i := 0;
    while i < |rows|
      invariant 0 <= i <= |rows|
      invariant invalid == Somes(all[..i])
    {
      var f := ReportLinkRow(columns, i, rows[i]);
      if f.Some? {
        invalid := invalid + [f.value];
      }
      SomesStep(all, i);
      i := i + 1;
    }
    assert all[..i] == all;
  }

  /** One pass of that loop: `validate_row`, and a report row when it found anything. */
  method ReportLinkRow(columns: seq<string>, k: nat, row: Row) returns (f: Option<Finding>)
    requires HasRequired(row)
    ensures f == LinkRowFinding(columns, k, row)
  {
    var errors := ValidateRow(row);
    if errors == [] {
      return None;
    }
    var cells := DisplayRow(Required, columns, row);
    var parts := CollectMessages(errors, Required);
    f := Some(Finding(Ordinal(k + 1), cells, Join("; ", parts)));
  }

  /**
   * Every Link report row stands for an invalid row: it is numbered by the
   * row's position plus one and lists that row's failing columns.
   */
  lemma LinkFindingsSound(columns: seq<string>, rows: seq<Row>, f: Finding)
    requires AllHaveRequired(rows)
    requires f in Somes(LinkRows(columns, rows))
    ensures exists k :: (0 <= k < |rows| && f.recordNo == Ordinal(k + 1) && Fill(Checks(rows[k])) != []
                         && f.message == Join("; ", MessageParts(Fill(Checks(rows[k])), Required)))
  {
    var all := LinkRows(columns, rows);
    SomesWitness(all, f);
    var g :| 0 <= g < |all| && all[g] == Some(f);
    assert LinkRowFinding(columns, g, rows[g]) == Some(f);
  }

  /** Every invalid Link row has its report row. */
  lemma LinkFindingsComplete(columns: seq<string>, rows: seq<Row>, k: nat)
    requires AllHaveRequired(rows) && k < |rows|
    requires Fill(Checks(rows[k])) != []
    ensures exists f :: f in Somes(LinkRows(columns, rows)) && f.recordNo == Ordinal(k + 1)
  {
    var f := LinkRowFinding(columns, k, rows[k]).value;
    SomesMeaning(LinkRows(columns, rows));
    assert LinkRows(columns, rows)[k] == Some(f);
  }

  /** A cell that `fillna("")` blanked is shown as "missing". */
  lemma BlankShownMissing(columns: seq<string>, row: Row, c: string)
    requires c in row && (row[c].Null? || row[c].NaN?)
    ensures Shown(columns, map d | d in row :: BlankNa(row[d]), c) == Str("missing")
  {
    assert Strip("") == "";
  }

  /** A report row keeps the value of a required column that is not blank, "nan" or "None". */
  lemma FilledShownAsIs(columns: seq<string>, row: Row, c: string)
    requires c in columns && !ShowsMissing(Cell(row, c))
    ensures Shown(columns, row, c) == Cell(row, c)
  {
  }

  /** An empty validator result becomes the single NO_ERRORS row over the table's columns. */
  function WithSentinel(name: string, columns: seq<string>, report: Report): (r: Report)
    ensures |r.findings| >= 1
    ensures report.findings != [] ==> r == report
    ensures report.findings == [] ==> r.findings == [NoErrorsFinding(columns, SuccessMessage(name))]
  {
    if report.findings == [] then Report(columns, [NoErrorsFinding(columns, SuccessMessage(name))]) else report
  }

  const BridgeDisabledMessage :=
    "\U{2705} SUCCESS: Bridge validation temporarily disabled - empty table and column validation skipped"

  /** The BridgeInventory report: the row checker is switched off, so one NO_ERRORS row whatever the table holds. */
  function BridgeReport(): (r: Report)
    ensures |r.findings| == 1 && r.findings[0].recordNo == NoErrors
  {
    Report(BridgeInventory.Required, [NoErrorsFinding(BridgeInventory.Required, BridgeDisabledMessage)])
  }

  /**
   * One of the other fourteen tables: the table as read, the columns its
   * validator requires, and what that validator returns on it after
   * `fillna("")` (its report, or the text of the exception it raises).
   */
  datatype Stage = Stage(input: Table, required: seq<string>, validated: Outcome<Report>)

  /** One block of `runValidationScript`: the missing-columns test, the validator, the NO_ERRORS substitution. */
  function StageReport(name: string, s: Stage): (r: Outcome<Report>)
    ensures MissingColumns(s.required, s.input.columns) != [] ==>
      r == Raised(MissingMessage(name, MissingColumns(s.required, s.input.columns)))
    ensures r.Done? ==> |r.value.findings| >= 1
    ensures r.Done? ==> s.validated.Done? && (s.validated.value.findings != [] ==> r.value == s.validated.value)
  {
    var missing := MissingColumns(s.required, s.input.columns);
    if missing != [] then Raised(MissingMessage(name, missing))
    else
      match s.validated
      case Raised(e) => Raised(e)
      case Done(report) => Done(WithSentinel(name, s.input.columns, report))
  }

  /** The sixteen sheets, in the order they are validated and summarised. */
  const TableNames: seq<string> := [
    "Link", "Alignment", "RoadCondition", "RoadInventory", "BridgeInventory",
    "CulvertCondition", "CulvertInventory", "RetainingWallCondition", "RetainingWallInventory",
    "TrafficVolume", "CODE_AN_UnitCostsPER", "CODE_AN_UnitCostsPERUnpaved", "CODE_AN_UnitCostsREH",
    "CODE_AN_UnitCostsRIGID", "CODE_AN_UnitCostsRM", "CODE_AN_UnitCostsWidening"
  ]

  /** The outcome of block `i`: Link and BridgeInventory are built here; the rest come from `stages`. */
  function BlockReport(link: Table, stages: seq<Stage>, i: nat): (r: Outcome<Report>)
    requires WellFormed(link) && |stages| == 14 && i < 16
    ensures r.Done? ==> |r.value.findings| >= 1
  {
    if i == 0 then
      FillNaWellFormed(link);
      LinkReportOf(FillNa(link))
    else if i == 4 then Done(BridgeReport())
    else StageReport(TableNames[i], stages[if i < 4 then i - 1 else i - 2])
  }

  /** The first block that raised, with its error text; blocks after it never run. */
  function FirstRaised(rs: seq<Outcome<Report>>): (r: Option<string>)
    ensures r.None? <==> forall i :: 0 <= i < |rs| ==> rs[i].Done?
    ensures r.Some? ==> exists i :: 0 <= i < |rs| && rs[i] == Raised(r.value)
  {
    if rs == [] then None
    else if rs[0].Raised? then Some(rs[0].error)
    else
      var r := FirstRaised(rs[1..]);
      assert forall i :: 0 <= i < |rs| - 1 ==> rs[1..][i] == rs[i + 1];
      r
  }

  /** The dictionary `runValidationScript` returns. */
  datatype RunResult = Completed(summary: seq<(string, nat)>) | Aborted(message: string)

  /** Each table's name with the number of rows of its report. */
  function Summary(rs: seq<Outcome<Report>>): (s: seq<(string, nat)>)
    requires |rs| == 16 && forall i :: 0 <= i < 16 ==> rs[i].Done?
    ensures |s| == 16
    ensures forall i :: 0 <= i < 16 ==> s[i] == (TableNames[i], |rs[i].value.findings|)
  {
    seq(16, i requires 0 <= i < 16 => (TableNames[i], |rs[i].value.findings|))
  }

  /** `runValidationScript`: the summary when every block completes, else "Validation error: " and the first error. */
  function Run(link: Table, stages: seq<Stage>): (r: RunResult)
    requires WellFormed(link) && |stages| == 14
    ensures r.Completed? ==> (|r.summary| == 16
      && forall i :: 0 <= i < 16 ==> r.summary[i].0 == TableNames[i] && r.summary[i].1 >= 1)
    ensures r.Aborted? <==> exists i :: 0 <= i < 16 && BlockReport(link, stages, i).Raised?
  {
    var rs := Blocks(link, stages);
    match FirstRaised(rs)
    case Some(e) => Aborted("Validation error: " + e)
    case None => Completed(Summary(rs))
  }

  /** The outcomes of the sixteen blocks, in order. */
  function Blocks(link: Table, stages: seq<Stage>): (rs: seq<Outcome<Report>>)
    requires WellFormed(link) && |stages| == 14
    ensures |rs| == 16 && forall i :: 0 <= i < 16 ==> rs[i] == BlockReport(link, stages, i)
  {
    seq(16, i requires 0 <= i < 16 => BlockReport(link, stages, i))
  }

  /** The sum of the summary's values. */
  function Total(summary: seq<(string, nat)>): nat {
    if summary == [] then 0 else Total(summary[..|summary| - 1]) + summary[|summary| - 1].1
  }

  /** A summary whose every entry is at least one totals at least its length. */
  lemma {:induction false} TotalAtLeastCount(summary: seq<(string, nat)>)
    requires forall i :: 0 <= i < |summary| ==> summary[i].1 >= 1
    ensures Total(summary) >= |summary|
    decreases |summary|
  {
    if summary != [] {
      var n := |summary| - 1;
      assert forall i :: 0 <= i < n ==> summary[..n][i] == summary[i];
      TotalAtLeastCount(summary[..n]);
    }
  }

  /** Every completed run reports at least one row per table, so its total is at least 16. */
  lemma CompletedTotalAtLeast16(link: Table, stages: seq<Stage>)
    requires WellFormed(link) && |stages| == 14
    requires Run(link, stages).Completed?
    ensures Total(Run(link, stages).summary) >= 16
  {
    TotalAtLeastCount(Run(link, stages).summary);
  }

  /** A Link table that lacks a required column aborts the run with the missing-columns text. */
  lemma LinkColumnsMissingAborts(link: Table, stages: seq<Stage>)
    requires WellFormed(link) && |stages| == 14
    requires MissingColumns(Required, link.columns) != []
    ensures Run(link, stages) == Aborted("Validation error: " + MissingMessage("Link", MissingColumns(Required, link.columns)))
  {
    var rs := Blocks(link, stages);
    assert rs[0] == Raised(MissingMessage("Link", MissingColumns(Required, link.columns)));
  }
}
