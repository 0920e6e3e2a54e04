/**
 * `validate_link_excel`, the check an uploaded Link workbook passes before
 * it is kept: the file name and the form's AdmCode, the exact column set,
 * at least one row, a single Adm_Code agreeing with the form, and then a
 * row loop that collects each row's problems, detecting repeated Link_No
 * and Link_Code texts through two "seen" sets.  A rejected workbook is
 * answered with one message and a note per failing row, written beside
 * that row at spreadsheet row idx+2.
 */
module Upload {
  import opened Wrappers
  import opened Text
  import opened Numbers
  import opened Values
  import opened Tables

  /** The seven columns a Link workbook must have, and no others. */
  const ExcelColumns: seq<string> :=
    ["Adm_Code", "Link_No", "Link_Code", "Link_Name", "Link_Length_Official", "Link_Length_Actual", "Status"]

  /** The two columns that must convert with `float`. */
  const LengthColumns: seq<string> := ["Link_Length_Official", "Link_Length_Actual"]

  const BadFileTypeMessage := "\U{274C} Invalid file type. Please upload an Excel file with .xlsx extension only."
  const NoAdmCodeMessage := " Please select Status/Province/Kabupaten first to generate AdmCode before uploading Excel."
  const NoDataMessage := " Excel file contains no data"
  const MultipleAdmCodesMessage := " Excel file contains multiple different Adm_Code values."
  const LinkNoIntegerMessage := "Link_No must be an integer"
  const StatusMessage := "Status must be one of B, P, K"

  /** The message numpy gives for `a[0]` on an empty array. */
  const EmptyIndexMessage := "IndexError: index 0 is out of bounds for axis 0 with size 0"

  // ---------------------------------------------------------------- before parsing

  /** `name.lower().endswith(".xlsx")`. */
  predicate IsXlsx(name: string) {
    EndsWith(Lower(name), ".xlsx")
  }

  /**
   * The two refusals that come before the workbook is read: a name without
   * the .xlsx extension, then an AdmCode that is blank once stripped.
   */
  function Precheck(fileName: string, admcodeField: string): (r: Option<string>)
    ensures r.None? <==> IsXlsx(fileName) && Strip(admcodeField) != ""
    ensures !IsXlsx(fileName) ==> r == Some(BadFileTypeMessage)
    ensures IsXlsx(fileName) && Strip(admcodeField) == "" ==> r == Some(NoAdmCodeMessage)
  {
    if !IsXlsx(fileName) then Some(BadFileTypeMessage)
    else if Strip(admcodeField) == "" then Some(NoAdmCodeMessage)
    else None
  }

  /** The extension test ignores the case of every letter of the name. */
  lemma XlsxIgnoresCase(a: string, b: string)
    requires |a| == |b| && forall k :: 0 <= k < |a| ==> LowerChar(a[k]) == LowerChar(b[k])
    ensures IsXlsx(a) <==> IsXlsx(b)
  {
    assert Lower(a) == Lower(b);
  }

  /** Whatever the stem, a name ending ".XLSX" passes the test and one ending ".xls" does not. */
  lemma XlsxExamples(stem: string)
    ensures IsXlsx(stem + ".XLSX")
    ensures !IsXlsx(stem + ".xls")
  {
    var upper := stem + ".XLSX";
    assert Lower(upper)[|upper| - 5..] == ".xlsx";
    var short := stem + ".xls";
    assert Lower(short)[|short| - 1] == 's';
  }

  // ---------------------------------------------------------------- schema

  /** The columns present in the file that are not required, in file order. */
  function Extra(required: seq<string>, columns: seq<string>): (r: seq<string>)
    ensures forall c :: c in r <==> c in columns && c !in required
    ensures |r| <= |columns|
  {
    if columns == [] then []
    else (if columns[0] in required then [] else [columns[0]]) + Extra(required, columns[1..])
  }

  /** The lines of the schema message: the missing columns, then the extra ones, each only when there are some. */
  function SchemaLines(missing: seq<string>, extra: seq<string>): (lines: seq<string>)
    ensures lines == [] <==> missing == [] && extra == []
  {
    (if missing != [] then [" Missing/Invalid columns: " + Join(", ", missing)] else [])
    + (if extra != [] then [" Extra/Unexpected columns: " + Join(", ", extra)] else [])
  }

  /**
   * The schema test: the file is refused exactly when a required column is
   * absent or an unexpected one is present, and the message lists both.
   */
  function SchemaError(required: seq<string>, columns: seq<string>): (r: Option<string>)
    ensures r.None? <==> forall c :: c in required <==> c in columns
    ensures r.Some? ==> (r.value == " Excel schema invalid \U{274C}<br>"
      + Join("<br>", SchemaLines(MissingColumns(required, columns), Extra(required, columns))))
  {
    var missing := MissingColumns(required, columns);
    var extra := Extra(required, columns);
    if missing == [] && extra == [] then None
    else
      assert missing != [] ==> missing[0] in missing;
      assert extra != [] ==> extra[0] in extra;
      Some(" Excel schema invalid \U{274C}<br>" + Join("<br>", SchemaLines(missing, extra)))
  }

  /** The schema test looks only at which columns are there, not at their order or repetition. */
  lemma SchemaIgnoresOrder(required: seq<string>, a: seq<string>, b: seq<string>)
    requires forall c :: c in a <==> c in b
    ensures SchemaError(required, a).None? <==> SchemaError(required, b).None?
  {
  }

  // ---------------------------------------------------------------- Adm_Code

  /** `column.dropna().unique()`: the values that are not NA, each once, in order of first appearance. */
  function UniqueNonNa(vs: seq<Value>): (u: seq<Value>)
    ensures |u| <= |vs|
    decreases |vs|
  {
    if vs == [] then []
    else
      var u := UniqueNonNa(vs[..|vs| - 1]);
      var v := vs[|vs| - 1];
      if IsNa(v) || InValues(v, u) then u else u + [v]
  }

  /**
   * The distinct values are drawn from the column, never NA, pairwise
   * unequal, and every value of the column that is not NA equals one of them.
   */
  lemma UniqueNonNaMeaning(vs: seq<Value>)
    ensures forall j :: 0 <= j < |UniqueNonNa(vs)| ==> UniqueNonNa(vs)[j] in vs && !IsNa(UniqueNonNa(vs)[j])
    ensures forall i, j :: 0 <= i < j < |UniqueNonNa(vs)| ==> !PyEq(UniqueNonNa(vs)[i], UniqueNonNa(vs)[j])
    ensures forall k :: 0 <= k < |vs| && !IsNa(vs[k]) ==> InValues(vs[k], UniqueNonNa(vs))
  {
    UniqueNonNaDrawn(vs);
    UniqueNonNaDistinct(vs);
    UniqueNonNaCovers(vs);
  }

  lemma {:induction false} UniqueNonNaDrawn(vs: seq<Value>)
    ensures forall j :: 0 <= j < |UniqueNonNa(vs)| ==> UniqueNonNa(vs)[j] in vs && !IsNa(UniqueNonNa(vs)[j])
    decreases |vs|
  {
    if vs != [] {
      var w := vs[..|vs| - 1];
      UniqueNonNaDrawn(w);
      var u := UniqueNonNa(w);
      forall j | 0 <= j < |u| ensures u[j] in vs {
        assert u[j] in w;
      }
    }
  }

  lemma {:induction false} UniqueNonNaDistinct(vs: seq<Value>)
    ensures forall i, j :: 0 <= i < j < |UniqueNonNa(vs)| ==> !PyEq(UniqueNonNa(vs)[i], UniqueNonNa(vs)[j])
    decreases |vs|
  {
    if vs != [] {
      var w := vs[..|vs| - 1];
      UniqueNonNaDistinct(w);
      var u := UniqueNonNa(w);
      var v := vs[|vs| - 1];
      if !(IsNa(v) || InValues(v, u)) {
        var u' := u + [v];
        assert UniqueNonNa(vs) == u';
        forall i, j | 0 <= i < j < |u'| ensures !PyEq(u'[i], u'[j]) {
          if j == |u| {
            PyEqEquivalence(u[i], v, v);
            assert !PyEq(v, u[i]);
          }
        }
      }
    }
  }

  lemma {:induction false} UniqueNonNaCovers(vs: seq<Value>)
    ensures forall k :: 0 <= k < |vs| && !IsNa(vs[k]) ==> InValues(vs[k], UniqueNonNa(vs))
    decreases |vs|
  {
    if vs != [] {
      var n := |vs| - 1;
      var w := vs[..n];
      UniqueNonNaCovers(w);
      var u := UniqueNonNa(w);
      var v := vs[n];
      if !(IsNa(v) || InValues(v, u)) {
        var u' := u + [v];
        assert UniqueNonNa(vs) == u';
        forall k | 0 <= k < |vs| && !IsNa(vs[k]) ensures InValues(vs[k], u') {
          if k < n {
            assert vs[k] == w[k];
            var j :| 0 <= j < |u| && PyEq(vs[k], u[j]);
            assert u'[j] == u[j];
          } else {
            assert PyEq(v, u'[|u|]) by { PyEqEquivalence(v, v, v); }
          }
        }
      } else {
        assert UniqueNonNa(vs) == u;
        forall k | 0 <= k < |vs| && !IsNa(vs[k]) ensures InValues(vs[k], u) {
          if k < n {
            assert vs[k] == w[k];
          }
        }
      }
    }
  }

  /** The column holds no value besides NA exactly when there are no distinct values. */
  lemma UniqueNonNaEmpty(vs: seq<Value>)
    ensures UniqueNonNa(vs) == [] <==> forall k :: 0 <= k < |vs| ==> IsNa(vs[k])
  {
    UniqueNonNaMeaning(vs);
    if UniqueNonNa(vs) != [] {
      var x := UniqueNonNa(vs)[0];
      assert x in vs;
    }
  }

  function MismatchMessage(excel: string, form: string): string {
    " Adm_Code in Excel (" + excel + ") does not match selected AdmCode (" + form + ")."
  }

  /**
   * The Adm_Code block as written: more than one distinct value is an error;
   * otherwise the first distinct value, stripped, must equal the form's
   * code.  With no distinct value at all, `unique_admcodes[0]` raises.
   */
  function AdmCodeErrors(vs: seq<Value>, admcode: string): (r: Outcome<seq<string>>)
    ensures r.Raised? <==> UniqueNonNa(vs) == []
    ensures |UniqueNonNa(vs)| > 1 ==> r == Done([MultipleAdmCodesMessage])
    ensures r == Done([]) <==> |UniqueNonNa(vs)| == 1 && Strip(PyStr(UniqueNonNa(vs)[0])) == admcode
    ensures r.Done? ==> |r.value| <= 1
  {
    var u := UniqueNonNa(vs);
    if |u| > 1 then Done([MultipleAdmCodesMessage])
    else if u == [] then Raised(EmptyIndexMessage)
    else
      var excel := Strip(PyStr(u[0]));
      if excel != admcode then Done([MismatchMessage(excel, admcode)]) else Done([])
  }

  /** A workbook whose Adm_Code cells are all blank makes the block raise instead of answering. */
  lemma BlankAdmCodesRaise(vs: seq<Value>, admcode: string)
    requires forall k :: 0 <= k < |vs| ==> IsNa(vs[k])
    ensures AdmCodeErrors(vs, admcode) == Raised(EmptyIndexMessage)
  {
    UniqueNonNaEmpty(vs);
  }

  /**
   * The Adm_Code block as evidently intended: a column with no code is read
   * as the empty code, which can never match the non-blank code of the form.
   */
  function AdmCodeErrorsFixed(vs: seq<Value>, admcode: string): (r: seq<string>)
    ensures |r| <= 1
  {
    var u := UniqueNonNa(vs);
    if |u| > 1 then [MultipleAdmCodesMessage]
    else
      var excel := if u == [] then "" else Strip(PyStr(u[0]));
      if excel != admcode then [MismatchMessage(excel, admcode)] else []
  }

  /**
   * The corrected block answers wherever the original did, with the same
   * errors, and refuses a workbook without any Adm_Code, given that the
   * form's code is not blank.
   */
  lemma AdmCodeFixedAgrees(vs: seq<Value>, admcode: string)
    ensures AdmCodeErrors(vs, admcode).Done? ==> AdmCodeErrorsFixed(vs, admcode) == AdmCodeErrors(vs, admcode).value
    ensures admcode != "" && (forall k :: 0 <= k < |vs| ==> IsNa(vs[k])) ==>
      AdmCodeErrorsFixed(vs, admcode) == [MismatchMessage("", admcode)]
  {
    UniqueNonNaEmpty(vs);
  }

  // ---------------------------------------------------------------- one row

  /** The required columns whose cell is null, in required order. */
  function MissingValues(required: seq<string>, row: Row): (r: seq<string>)
    decreases |required|
  {
    if required == [] then []
    else
      var n := |required| - 1;
      MissingValues(required[..n], row) + (if IsNa(Cell(row, required[n])) then [required[n]] else [])
  }

  /** A column is reported missing exactly when it is required and its cell is null or NaN. */
  lemma {:induction false} MissingValuesMeaning(required: seq<string>, row: Row, c: string)
    ensures c in MissingValues(required, row) <==> c in required && IsNa(Cell(row, c))
    decreases |required|
  {
    if required != [] {
      var n := |required| - 1;
      MissingValuesMeaning(required[..n], row, c);
      assert required == required[..n] + [required[n]];
    }
  }

  /** `s in ["B", "P", "K"]`: a single character, one of the three. */
  predicate IsStatusCode(s: string) {
    |s| == 1 && (s[0] == 'B' || s[0] == 'P' || s[0] == 'K')
  }

  /**
   * `str(v).strip().upper()` is one of B, P and K.  Only a string can
   * qualify: no other value has a one-letter text (see StatusOkText).
   */
  predicate StatusOk(v: Value) {
    v.Str? && IsStatusCode(Upper(Strip(v.s)))
  }

  /** A character that upper-cases to B, P or K. */
  predicate IsStatusLetter(c: char) {
    UpperChar(c) == 'B' || UpperChar(c) == 'P' || UpperChar(c) == 'K'
  }

  /** A text without any of the letters b, p and k fails the status test. */
  lemma NoStatusLetter(t: string)
    requires forall k :: 0 <= k < |t| ==> !IsStatusLetter(t[k])
    ensures !IsStatusCode(Upper(Strip(t)))
  {
    var l := TrimLeft(t);
    if |Strip(t)| == 1 {
      assert Strip(t)[0] == l[0] == t[|t| - |l|];
    }
  }

  /** The status test is the source's test on `str(v)`, for every value. */
  lemma StatusOkText(v: Value)
    ensures StatusOk(v) <==> IsStatusCode(Upper(Strip(PyStr(v))))
  {
    match v
    case Str(_) =>
    case Int(i) =>
      var t := IntText(i);
      forall k | 0 <= k < |t|
        ensures !IsStatusLetter(t[k])
      {
        if i < 0 && k > 0 {
          assert t[k] == t[1..][k - 1];
        }
      }
      NoStatusLetter(t);
    case Float(d) =>
      FloatTextChars(d);
      NoStatusLetter(FloatText(d));
    case Null =>
      NoStatusLetter("None");
    case NaN =>
      NoStatusLetter("nan");
    case Bool(b) =>
      NoStatusLetter(PyStr(v));
  }

  /** A status letter in either case, with blanks around it, is accepted; nothing longer is. */
  lemma StatusIgnoresCase(c: char, s: string)
    ensures IsStatusLetter(c) ==> StatusOk(Str([' ', c, ' ']))
    ensures |Strip(s)| != 1 ==> !StatusOk(Str(s))
  {
    if IsStatusLetter(c) {
      var t := [' ', c, ' '];
      assert !IsSpace(c);
      assert t[1..] == [c, ' '];
      assert TrimLeft(t) == [c, ' '];
      assert [c, ' '][..1] == [c];
      assert TrimRight([c, ' ']) == [c];
    }
  }

  /** The length columns, among `cols`, that `float` cannot convert, each with its message. */
  function NumericErrors(cols: seq<string>, row: Row): (r: seq<string>)
    ensures |r| <= |cols|
    decreases |cols|
  {
    if cols == [] then []
    else
      var n := |cols| - 1;
      NumericErrors(cols[..n], row)
      + (if ToFloat(Cell(row, cols[n])).None? then [cols[n] + " must be numeric"] else [])
  }

  /** A length message is given exactly for the columns whose value `float` rejects. */
  lemma {:induction false} NumericErrorsMeaning(cols: seq<string>, row: Row, c: string)
    ensures c + " must be numeric" in NumericErrors(cols, row) <==> c in cols && ToFloat(Cell(row, c)).None?
    decreases |cols|
  {
    if cols != [] {
      var n := |cols| - 1;
      NumericErrorsMeaning(cols[..n], row, c);
      assert cols == cols[..n] + [cols[n]];
      if c + " must be numeric" == cols[n] + " must be numeric" {
        assert c == (c + " must be numeric")[..|c|];
        assert cols[n] == (cols[n] + " must be numeric")[..|cols[n]|];
      }
    }
  }

  /** The tests of one row that need no other row, in the order they run. */
  datatype CellCheck = NullCells | LinkNoInteger | StatusCode

  const CellChecks: seq<CellCheck> := [NullCells, LinkNoInteger, StatusCode]

  /** The message one test gives for `row`, if it fails. */
  function CheckError(check: CellCheck, row: Row): Option<string> {
    match check
    case NullCells =>
      var missing := MissingValues(ExcelColumns, row);
      if missing != [] then Some("Missing " + Join(", ", missing)) else None
    case LinkNoInteger =>
      if ToInt(Cell(row, "Link_No")).None? then Some(LinkNoIntegerMessage) else None
    case StatusCode =>
      if !StatusOk(Cell(row, "Status")) then Some(StatusMessage) else None
  }

  /** The messages of the failing tests among `checks`, in order. */
  function CheckErrors(checks: seq<CellCheck>, row: Row): (r: seq<string>)
    ensures |r| <= |checks|
    decreases |checks|
  {
    if checks == [] then []
    else
      var n := |checks| - 1;
      AddError(CheckErrors(checks[..n], row), CheckError(checks[n], row))
  }

  /**
   * Null required cells, Link_No for `int`, Status, then both lengths for
   * `float`: what is reported about a row before the duplicate tests.
   */
  function CellErrors(row: Row): seq<string> {
    CheckErrors(CellChecks, row) + NumericErrors(LengthColumns, row)
  }

  /** `errs` with the message of one test appended, if it fails. */
  function AddError(errs: seq<string>, e: Option<string>): seq<string> {
    if e.Some? then errs + [e.value] else errs
  }

  lemma CheckErrorsStep(checks: seq<CellCheck>, row: Row, n: nat)
    requires n < |checks|
    ensures CheckErrors(checks[..n + 1], row) == AddError(CheckErrors(checks[..n], row), CheckError(checks[n], row))
  {
    assert checks[..n + 1][..n] == checks[..n];
  }

  /** One block of the loop body: run the test and append its message when it fails. */
  method RunCheck(errs: seq<string>, check: CellCheck, row: Row) returns (r: seq<string>)
    ensures r == AddError(errs, CheckError(check, row))
  {
    r := errs;
    match check {
      case NullCells =>
        var missing := MissingValues(ExcelColumns, row);
        if missing != [] {
          r := r + ["Missing " + Join(", ", missing)];
        }
      case LinkNoInteger =>
        if ToInt(Cell(row, "Link_No")).None? {
          r := r + [LinkNoIntegerMessage];
        }
      case StatusCode =>
        if !StatusOk(Cell(row, "Status")) {
          r := r + [StatusMessage];
        }
    }
  }

  /** The cell checks of one row, appended one by one as the loop body does. */
  method CheckCells(row: Row) returns (errs: seq<string>)
    ensures errs == CellErrors(row)
  {
    errs := RunCheck([], NullCells, row);
    errs := RunCheck(errs, LinkNoInteger, row);
    errs := RunCheck(errs, StatusCode, row);
    assert CellChecks[..0] == [];
    CheckErrorsStep(CellChecks, row, 0);
    CheckErrorsStep(CellChecks, row, 1);
    CheckErrorsStep(CellChecks, row, 2);
    assert CellChecks[..3] == CellChecks;
    var lengthErrors := CheckLengths(LengthColumns, row);
    errs := errs + lengthErrors;
  }

  /** The loop over the length columns: a message for each one `float` rejects. */
  method CheckLengths(cols: seq<string>, row: Row) returns (errs: seq<string>)
    ensures errs == NumericErrors(cols, row)
  {
    errs := [];
    var i := 0;
    while i < |cols|
      invariant 0 <= i <= |cols|
      invariant errs == NumericErrors(cols[..i], row)
    {
      var col := cols[i];
      assert cols[..i + 1][..i] == cols[..i];
      if ToFloat(Cell(row, col)).None? {
        errs := errs + [col + " must be numeric"];
      }
      i := i + 1;
    }
    assert cols[..i] == cols;
  }

  // ---------------------------------------------------------------- duplicates

  /** `str(row["Link_No"])`. */
  function LinkNoText(row: Row): string {
    PyStr(Cell(row, "Link_No"))
  }

  /** `str(row.get("Link_Code", "Unknown"))`. */
  function LinkCodeText(row: Row): string {
    if "Link_Code" in row then PyStr(row["Link_Code"]) else "Unknown"
  }

  /** The Link_No text of every row, in row order. */
  function LinkNos(rows: seq<Row>): (r: seq<string>)
    ensures |r| == |rows|
  {
    seq(|rows|, k requires 0 <= k < |rows| => LinkNoText(rows[k]))
  }

  /** The Link_Code text of every row, in row order. */
  function LinkCodes(rows: seq<Row>): (r: seq<string>)
    ensures |r| == |rows|
  {
    seq(|rows|, k requires 0 <= k < |rows| => LinkCodeText(rows[k]))
  }

  /** The texts of `texts` as a set, grown one text at a time as the loop grows its "seen" sets. */
  function Seen(texts: seq<string>): (r: set<string>)
    decreases |texts|
  {
    if texts == [] then {} else Seen(texts[..|texts| - 1]) + {texts[|texts| - 1]}
  }

  lemma {:induction false} SeenMeaning(texts: seq<string>, x: string)
    ensures x in Seen(texts) <==> x in texts
    decreases |texts|
  {
    if texts != [] {
      var n := |texts| - 1;
      SeenMeaning(texts[..n], x);
      assert texts == texts[..n] + [texts[n]];
    }
  }

  function DuplicateLinkNoMessage(text: string): string {
    "Duplicate Link_No " + text
  }

  function DuplicateLinkCodeMessage(text: string): string {
    "Duplicate Link_Code " + text
  }

  /**
   * The duplicate messages of row `k`, given every row's Link_No and
   * Link_Code text: each when an earlier row had the same text.
   */
  function DuplicateErrors(nos: seq<string>, codes: seq<string>, k: nat): seq<string>
    requires k < |nos| && k < |codes|
  {
    (if nos[k] in nos[..k] then [DuplicateLinkNoMessage(nos[k])] else [])
    + (if codes[k] in codes[..k] then [DuplicateLinkCodeMessage(codes[k])] else [])
  }

  /** Everything reported about row `k`. */
  function RowErrors(rows: seq<Row>, k: nat): seq<string>
    requires k < |rows|
  {
    CellErrors(rows[k]) + DuplicateErrors(LinkNos(rows), LinkCodes(rows), k)
  }

  /** Each message of the tests that need no other row starts with M, L or S. */
  lemma {:induction false} CheckErrorsInitials(checks: seq<CellCheck>, row: Row, m: string)
    requires m in CheckErrors(checks, row)
    ensures |m| > 0 && m[0] != 'D'
    decreases |checks|
  {
    var n := |checks| - 1;
    if m in CheckErrors(checks[..n], row) {
      CheckErrorsInitials(checks[..n], row, m);
    } else {
      match checks[n]
      case NullCells =>
        var missing := MissingValues(ExcelColumns, row);
        assert m == "Missing " + Join(", ", missing);
        assert m[0] == 'M';
      case LinkNoInteger =>
      case StatusCode =>
    }
  }

  /** A length message names one of the columns it was given. */
  lemma {:induction false} NumericErrorsColumn(cols: seq<string>, row: Row, m: string)
    requires m in NumericErrors(cols, row)
    ensures exists c :: c in cols && m == c + " must be numeric"
    decreases |cols|
  {
    var n := |cols| - 1;
    if m in NumericErrors(cols[..n], row) {
      NumericErrorsColumn(cols[..n], row, m);
      var c :| c in cols[..n] && m == c + " must be numeric";
      assert c in cols;
    } else {
      assert m == cols[n] + " must be numeric";
    }
  }

  /** None of the cell messages starts the way a duplicate message does. */
  lemma CellErrorsNotDuplicate(row: Row, m: string)
    requires m in CellErrors(row)
    ensures |m| > 0 && m[0] != 'D'
  {
    if m in NumericErrors(LengthColumns, row) {
      NumericErrorsColumn(LengthColumns, row, m);
      var c :| c in LengthColumns && m == c + " must be numeric";
      assert c == LengthColumns[0] || c == LengthColumns[1];
      assert m[0] == c[0] == 'L';
    } else {
      CheckErrorsInitials(CellChecks, row, m);
    }
  }

  /**
   * Behind cell messages that never start with D, a Link_No duplicate
   * message is present exactly when an earlier row has the same text.
   */
  lemma DuplicateNoExactly(nos: seq<string>, codes: seq<string>, cells: seq<string>, k: nat)
    requires k < |nos| && k < |codes|
    requires forall m :: m in cells ==> |m| > 0 && m[0] != 'D'
    ensures DuplicateLinkNoMessage(nos[k]) in cells + DuplicateErrors(nos, codes, k) <==>
      exists j :: 0 <= j < k && nos[j] == nos[k]
  {
    var m := DuplicateLinkNoMessage(nos[k]);
    if exists j :: 0 <= j < k && nos[j] == nos[k] {
      var j :| 0 <= j < k && nos[j] == nos[k];
      assert nos[..k][j] == nos[k];
    } else {
      assert nos[k] !in nos[..k];
      assert m[0] == 'D' && m[15] == 'N';
      assert DuplicateLinkCodeMessage(codes[k])[15] == 'C';
    }
  }

  /** The same for a Link_Code duplicate message. */
  lemma DuplicateCodeExactly(nos: seq<string>, codes: seq<string>, cells: seq<string>, k: nat)
    requires k < |nos| && k < |codes|
    requires forall m :: m in cells ==> |m| > 0 && m[0] != 'D'
    ensures DuplicateLinkCodeMessage(codes[k]) in cells + DuplicateErrors(nos, codes, k) <==>
      exists j :: 0 <= j < k && codes[j] == codes[k]
  {
    var m := DuplicateLinkCodeMessage(codes[k]);
    if exists j :: 0 <= j < k && codes[j] == codes[k] {
      var j :| 0 <= j < k && codes[j] == codes[k];
      assert codes[..k][j] == codes[k];
    } else {
      assert codes[k] !in codes[..k];
      assert m[0] == 'D' && m[15] == 'C';
      assert DuplicateLinkNoMessage(nos[k])[15] == 'N';
    }
  }

  /**
   * Row `k` is reported as a Link_No duplicate exactly when an earlier row
   * has the same Link_No text: the first occurrence never is, every later one is.
   */
  lemma DuplicateLinkNoExactly(rows: seq<Row>, k: nat)
    requires k < |rows|
    ensures DuplicateLinkNoMessage(LinkNos(rows)[k]) in RowErrors(rows, k) <==>
      exists j :: 0 <= j < k && LinkNos(rows)[j] == LinkNos(rows)[k]
  {
    var cells := CellErrors(rows[k]);
    forall m | m in cells
      ensures |m| > 0 && m[0] != 'D'
    {
      CellErrorsNotDuplicate(rows[k], m);
    }
    DuplicateNoExactly(LinkNos(rows), LinkCodes(rows), cells, k);
  }

  /** Row `k` is reported as a Link_Code duplicate exactly when an earlier row has the same Link_Code text. */
  lemma DuplicateLinkCodeExactly(rows: seq<Row>, k: nat)
    requires k < |rows|
    ensures DuplicateLinkCodeMessage(LinkCodes(rows)[k]) in RowErrors(rows, k) <==>
      exists j :: 0 <= j < k && LinkCodes(rows)[j] == LinkCodes(rows)[k]
  {
    var cells := CellErrors(rows[k]);
    forall m | m in cells
      ensures |m| > 0 && m[0] != 'D'
    {
      CellErrorsNotDuplicate(rows[k], m);
    }
    DuplicateCodeExactly(LinkNos(rows), LinkCodes(rows), cells, k);
  }

  // ---------------------------------------------------------------- the row loop

  /** The messages of every row, in row order. */
  function AllRowErrors(rows: seq<Row>): (r: seq<seq<string>>)
    ensures |r| == |rows|
  {
    seq(|rows|, k requires 0 <= k < |rows| => RowErrors(rows, k))
  }

  /**
   * `row_error_map` after the first `n` rows, given each row's messages
   * `es`: each failing row's position with its messages, in row order.
   */
  function RowErrorMap(es: seq<seq<string>>, n: nat): (m: seq<(nat, seq<string>)>)
    requires n <= |es|
    ensures |m| <= n
  {
    if n == 0 then []
    else RowErrorMap(es, n - 1) + (if es[n - 1] != [] then [(n - 1, es[n - 1])] else [])
  }

  /**
   * Every entry is a failing row among the first `n` with its own messages,
   * every failing row has its entry, and the positions go up strictly, as
   * the dict's keys do in insertion order.
   */
  lemma {:induction false} RowErrorMapMeaning(es: seq<seq<string>>, n: nat)
    requires n <= |es|
    ensures forall i :: 0 <= i < |RowErrorMap(es, n)| ==>
      RowErrorMap(es, n)[i].0 < n && RowErrorMap(es, n)[i].1 == es[RowErrorMap(es, n)[i].0] != []
    ensures forall k :: 0 <= k < n && es[k] != [] ==> (k, es[k]) in RowErrorMap(es, n)
    ensures forall i, j :: 0 <= i < j < |RowErrorMap(es, n)| ==> RowErrorMap(es, n)[i].0 < RowErrorMap(es, n)[j].0
    decreases n
  {
    if n > 0 {
      RowErrorMapMeaning(es, n - 1);
    }
  }

  /** No entry at all exactly when every row is clean. */
  lemma RowErrorMapEmpty(es: seq<seq<string>>, n: nat)
    requires n <= |es|
    ensures RowErrorMap(es, n) == [] <==> forall k :: 0 <= k < n ==> es[k] == []
  {
    RowErrorMapMeaning(es, n);
    if RowErrorMap(es, n) != [] {
      assert RowErrorMap(es, n)[0].0 < n;
    }
  }

  /**
   * The body of the row loop for row `idx`: the cell checks, then the
   * Link_No and Link_Code tests against the texts seen in earlier rows; a
   * text seen for the first time joins its set.
   */
  method CheckRow(rows: seq<Row>, idx: nat, seenLinkNos: set<string>, seenLinkCodes: set<string>)
    returns (rowErrors: seq<string>, linkNos: set<string>, linkCodes: set<string>)
    requires idx < |rows|
    requires seenLinkNos == Seen(LinkNos(rows)[..idx]) && seenLinkCodes == Seen(LinkCodes(rows)[..idx])
    ensures rowErrors == RowErrors(rows, idx)
    ensures linkNos == Seen(LinkNos(rows)[..idx + 1]) && linkCodes == Seen(LinkCodes(rows)[..idx + 1])
  {
    ghost var nos, codes := LinkNos(rows), LinkCodes(rows);
    var row := rows[idx];
    linkNos, linkCodes := seenLinkNos, seenLinkCodes;
    rowErrors := CheckCells(row);
    var linkCode := LinkCodeText(row);
    var linkNo := LinkNoText(row);
    assert linkNo == nos[idx] && linkCode == codes[idx];
    SeenStep(nos, idx);
    SeenStep(codes, idx);
    RowErrorsParts(rows, idx);
    if linkNo in linkNos {
      rowErrors := rowErrors + [DuplicateLinkNoMessage(linkNo)];
    } else {
      linkNos := linkNos + {linkNo};
    }
    if linkCode in linkCodes {
      rowErrors := rowErrors + [DuplicateLinkCodeMessage(linkCode)];
    } else {
      linkCodes := linkCodes + {linkCode};
    }
  }

  /** One more text joins the set of texts seen, and was in it exactly when an earlier position holds it. */
  lemma SeenStep(texts: seq<string>, idx: nat)
    requires idx < |texts|
    ensures Seen(texts[..idx + 1]) == Seen(texts[..idx]) + {texts[idx]}
    ensures texts[idx] in Seen(texts[..idx]) <==> texts[idx] in texts[..idx]
  {
    SeenMeaning(texts[..idx], texts[idx]);
    assert texts[..idx + 1][..idx] == texts[..idx];
  }

  /** The messages of row `idx`: its own cells', then a Link_No duplicate, then a Link_Code duplicate. */
  lemma RowErrorsParts(rows: seq<Row>, idx: nat)
    requires idx < |rows|
    ensures RowErrors(rows, idx) ==
      CellErrors(rows[idx])
      + (if LinkNos(rows)[idx] in LinkNos(rows)[..idx] then [DuplicateLinkNoMessage(LinkNos(rows)[idx])] else [])
      + (if LinkCodes(rows)[idx] in LinkCodes(rows)[..idx] then [DuplicateLinkCodeMessage(LinkCodes(rows)[idx])] else [])
  {
    var a := CellErrors(rows[idx]);
    var b := if LinkNos(rows)[idx] in LinkNos(rows)[..idx] then [DuplicateLinkNoMessage(LinkNos(rows)[idx])] else [];
    var c := if LinkCodes(rows)[idx] in LinkCodes(rows)[..idx] then [DuplicateLinkCodeMessage(LinkCodes(rows)[idx])] else [];
    assert a + (b + c) == a + b + c;
  }

  /** The row loop of `validate_link_excel`, which fills `row_error_map`. */
  method CheckRows(rows: seq<Row>) returns (rowErrorMap: seq<(nat, seq<string>)>)
    ensures rowErrorMap == RowErrorMap(AllRowErrors(rows), |rows|)
  {
    ghost var es := AllRowErrors(rows);
    var seenLinkNos: set<string> := {};
    var seenLinkCodes: set<string> := {};
    rowErrorMap := [];
    var idx := 0;
    while idx < |rows|
      invariant 0 <= idx <= |rows|
      invariant seenLinkNos == Seen(LinkNos(rows)[..idx])
      invariant seenLinkCodes == Seen(LinkCodes(rows)[..idx])
      invariant rowErrorMap == RowErrorMap(es, idx)
    {
      var rowErrors;
      rowErrors, seenLinkNos, seenLinkCodes := CheckRow(rows, idx, seenLinkNos, seenLinkCodes);
      assert rowErrors == es[idx];
      if rowErrors != [] {
        rowErrorMap := rowErrorMap + [(idx, rowErrors)];
      }
      idx := idx + 1;
    }
  }

  // ---------------------------------------------------------------- the answer

  /** The frontend line of one failing row, with its spreadsheet row number and Link_Code. */
  function RowMessage(rows: seq<Row>, e: (nat, seq<string>)): string
    requires e.0 < |rows|
  {
    "\U{274C} Row " + NatText(e.0 + 2) + " (Link_Code " + PyStr(Cell(rows[e.0], "Link_Code")) + "): " + Join(", ", e.1)
  }

  /** The Error_Notes cell of one failing row: its spreadsheet row and its messages joined by "; ". */
  function Note(e: (nat, seq<string>)): (nat, string) {
    (e.0 + 2, Join("; ", e.1))
  }

  function RowMessages(rows: seq<Row>, m: seq<(nat, seq<string>)>): seq<string>
    requires forall i :: 0 <= i < |m| ==> m[i].0 < |rows|
  {
    seq(|m|, i requires 0 <= i < |m| => RowMessage(rows, m[i]))
  }

  function Notes(m: seq<(nat, seq<string>)>): (r: seq<(nat, string)>)
    ensures |r| == |m| && forall i :: 0 <= i < |m| ==> r[i] == Note(m[i])
  {
    seq(|m|, i requires 0 <= i < |m| => Note(m[i]))
  }

  function FailureMessage(errors: seq<string>, rowMessages: seq<string>): string {
    "Excel validation failed \U{274C}<br>" + Join("<br>", errors + rowMessages)
  }

  function AcceptedMessage(count: nat): string {
    "\U{2705} Link Excel file is valid (" + NatText(count) + " records)"
  }

  /** What the upload answers: a refusal with the notes written beside failing rows, an acceptance, or an uncaught error. */
  datatype UploadResult =
    | Rejected(message: string, notes: seq<(nat, string)>)
    | Accepted(message: string, count: nat)
    | Crashed(error: string)

  /**
   * The answer once the checks before the row loop have passed with the
   * Adm_Code messages `errors`: accepted when nothing at all was found,
   * otherwise refused with the notes for the failing rows.
   */
  function LoopVerdict(rows: seq<Row>, errors: seq<string>): UploadResult {
    var es := AllRowErrors(rows);
    var m := RowErrorMap(es, |rows|);
    RowErrorMapMeaning(es, |rows|);
    if errors == [] && m == [] then Accepted(AcceptedMessage(|rows|), |rows|)
    else Rejected(FailureMessage(errors, RowMessages(rows, m)), Notes(m))
  }

  /** The answer once the workbook has been read as table `t`. */
  function ExcelVerdict(fileName: string, admcodeField: string, t: Table): (r: UploadResult)
    ensures Precheck(fileName, admcodeField).Some? ==> r == Rejected(Precheck(fileName, admcodeField).value, [])
    ensures Precheck(fileName, admcodeField).None? && SchemaError(ExcelColumns, t.columns).Some? ==>
      r == Rejected(SchemaError(ExcelColumns, t.columns).value, [])
    ensures Precheck(fileName, admcodeField).None? && SchemaError(ExcelColumns, t.columns).None? && FrameEmpty(t) ==>
      r == Rejected(NoDataMessage, [])
    ensures Precheck(fileName, admcodeField).None? && SchemaError(ExcelColumns, t.columns).None? && !FrameEmpty(t) ==>
      (r.Crashed? <==> AdmCodeErrors(ColumnValues(t, "Adm_Code"), Strip(admcodeField)).Raised?)
  {
    match Precheck(fileName, admcodeField)
    case Some(m) => Rejected(m, [])
    case None =>
      match SchemaError(ExcelColumns, t.columns)
      case Some(m) => Rejected(m, [])
      case None =>
        if FrameEmpty(t) then Rejected(NoDataMessage, [])
        else
          match AdmCodeErrors(ColumnValues(t, "Adm_Code"), Strip(admcodeField))
          case Raised(e) => Crashed(e)
          case Done(errors) => LoopVerdict(t.rows, errors)
  }

  /** `validate_link_excel` on a workbook that reads as `t`. */
  method ValidateLinkExcel(fileName: string, admcodeField: string, t: Table) returns (r: UploadResult)
    ensures r == ExcelVerdict(fileName, admcodeField, t)
  {
    var pre := Precheck(fileName, admcodeField);
    if pre.Some? {
      return Rejected(pre.value, []);
    }
    var admcode := Strip(admcodeField);
    var schema := SchemaError(ExcelColumns, t.columns);
    if schema.Some? {
      return Rejected(schema.value, []);
    }
    if FrameEmpty(t) {
      return Rejected(NoDataMessage, []);
    }
    var adm := AdmCodeErrors(ColumnValues(t, "Adm_Code"), admcode);
    if adm.Raised? {
      return Crashed(adm.error);
    }
    var errors := adm.value;
    var rowErrorMap := CheckRows(t.rows);
    RowErrorMapMeaning(AllRowErrors(t.rows), |t.rows|);
    if errors != [] || rowErrorMap != [] {
      return Rejected(FailureMessage(errors, RowMessages(t.rows, rowErrorMap)), Notes(rowErrorMap));
    }
    r := Accepted(AcceptedMessage(|t.rows|), |t.rows|);
  }

  /**
   * A workbook is accepted exactly when its name and the form's code pass,
   * its columns are exactly the seven, it has rows, the Adm_Code block
   * finds nothing, and no row has a problem; the count is then its number
   * of rows.
   */
  lemma AcceptedExactly(fileName: string, admcodeField: string, t: Table)
    ensures ExcelVerdict(fileName, admcodeField, t).Accepted? <==>
      IsXlsx(fileName) && Strip(admcodeField) != ""
      && (forall c :: c in ExcelColumns <==> c in t.columns)
      && |t.rows| > 0
      && AdmCodeErrors(ColumnValues(t, "Adm_Code"), Strip(admcodeField)) == Done([])
      && (forall k :: 0 <= k < |t.rows| ==> RowErrors(t.rows, k) == [])
    ensures ExcelVerdict(fileName, admcodeField, t).Accepted? ==> ExcelVerdict(fileName, admcodeField, t).count == |t.rows|
  {
    var v := ExcelVerdict(fileName, admcodeField, t);
    if Precheck(fileName, admcodeField).None? && SchemaError(ExcelColumns, t.columns).None? {
      assert "Adm_Code" in t.columns;
      var adm := AdmCodeErrors(ColumnValues(t, "Adm_Code"), Strip(admcodeField));
      if |t.rows| == 0 {
        assert v == Rejected(NoDataMessage, []);
      } else if adm.Raised? {
        assert v == Crashed(adm.error);
      } else {
        ReachesRowLoop(fileName, admcodeField, t);
        LoopAcceptedExactly(t.rows, adm.value);
      }
    }
  }

  /** The row loop accepts exactly when the Adm_Code block and every row found nothing. */
  lemma LoopAcceptedExactly(rows: seq<Row>, errors: seq<string>)
    ensures LoopVerdict(rows, errors).Accepted? <==>
      errors == [] && forall k :: 0 <= k < |rows| ==> RowErrors(rows, k) == []
    ensures LoopVerdict(rows, errors).Accepted? ==> LoopVerdict(rows, errors).count == |rows|
  {
    var es := AllRowErrors(rows);
    RowErrorMapEmpty(es, |rows|);
    if forall k :: 0 <= k < |rows| ==> RowErrors(rows, k) == [] {
      forall k | 0 <= k < |rows| ensures es[k] == [] {
        assert es[k] == RowErrors(rows, k);
      }
    } else {
      var k :| 0 <= k < |rows| && RowErrors(rows, k) != [];
      assert es[k] == RowErrors(rows, k);
    }
  }

  /**
   * Once the row loop has run, every failing row has its note at
   * spreadsheet row idx+2, and every note belongs to a failing row.
   */
  lemma NotesExactly(rows: seq<Row>, errors: seq<string>, k: nat)
    requires k < |rows| && RowErrors(rows, k) != []
    ensures LoopVerdict(rows, errors).Rejected?
    ensures (k + 2, Join("; ", RowErrors(rows, k))) in LoopVerdict(rows, errors).notes
    ensures forall note :: note in LoopVerdict(rows, errors).notes ==>
      exists j :: 0 <= j < |rows| && RowErrors(rows, j) != [] && note == (j + 2, Join("; ", RowErrors(rows, j)))
  {
    var es := AllRowErrors(rows);
    RowErrorMapMeaning(es, |rows|);
    var m := RowErrorMap(es, |rows|);
    assert es[k] == RowErrors(rows, k);
    var i :| 0 <= i < |m| && m[i] == (k, es[k]);
    assert Notes(m)[i] == (k + 2, Join("; ", es[k]));
    forall note | note in Notes(m)
      ensures exists j :: 0 <= j < |rows| && RowErrors(rows, j) != [] && note == (j + 2, Join("; ", RowErrors(rows, j)))
    {
      var g :| 0 <= g < |m| && Notes(m)[g] == note;
      assert es[m[g].0] == RowErrors(rows, m[g].0);
    }
  }

  /** A workbook that reaches the row loop is answered by it. */
  lemma ReachesRowLoop(fileName: string, admcodeField: string, t: Table)
    requires Precheck(fileName, admcodeField).None? && SchemaError(ExcelColumns, t.columns).None? && !FrameEmpty(t)
    requires AdmCodeErrors(ColumnValues(t, "Adm_Code"), Strip(admcodeField)).Done?
    ensures ExcelVerdict(fileName, admcodeField, t)
      == LoopVerdict(t.rows, AdmCodeErrors(ColumnValues(t, "Adm_Code"), Strip(admcodeField)).value)
  {
  }
}
