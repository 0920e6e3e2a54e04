/**
 * What `validate_db_file` makes of a finished run, and how
 * `get_validation_summary` counts the rows of the report workbook.
 *
 * A completed run is judged by the sum of its summary: since every table
 * reports at least one row (a finding or its NO_ERRORS row), a sum above
 * sixteen means some table has more than one row, and only then, or when
 * the user asks for it, is the report workbook sent back.
 */
module DbVerdict {
  import opened Wrappers
  import opened Text
  import opened Tables
  import opened Runner

  /** The number of tables of a run, against which the summary's sum is compared. */
  const TableCount := 16

  /** `s == "true"`, asked one character at a time. */
  predicate IsTrueWord(s: string) {
    |s| == 4 && s[0] == 't' && s[1] == 'r' && s[2] == 'u' && s[3] == 'e'
  }

  /** `request.POST.get("force_download", "false").lower() == "true"`. */
  predicate ForceDownload(field: Option<string>) {
    field.Some? && IsTrueWord(Lower(field.value))
  }

  /** "True", "TRUE" and "tRuE" all force the download; an absent field does not. */
  lemma ForceDownloadIgnoresCase(s: string)
    requires |s| == 4 && LowerChar(s[0]) == 't' && LowerChar(s[1]) == 'r' && LowerChar(s[2]) == 'u' && LowerChar(s[3]) == 'e'
    ensures ForceDownload(Some(s))
    ensures !ForceDownload(None)
  {
  }

  /** The answer of `validate_db_file` once the script has run. */
  datatype DbResponse =
    | Download(fileName: string, total: nat, passed: bool)
    | OutputMissing(total: nat)
    | Clean(total: nat, passed: bool)
    | Failed(message: string)

  const ErrorsFileName := "validation_errors.xlsx"
  const ReportFileName := "validation_report.xlsx"

  /** `validation_passed`, as written: the summary's values add up to sixteen. */
  predicate Passed(summary: seq<(string, nat)>) {
    Total(summary) == TableCount
  }

  /**
   * The response to a run: its error text when it aborted; otherwise the
   * report workbook when the sum exceeds sixteen or the download is
   * forced (or a notice that the workbook is missing), and the "no
   * validation errors" answer in every other case.
   */
  function Respond(result: RunResult, force: bool, outputExists: bool): (r: DbResponse)
    ensures result.Aborted? <==> r.Failed?
    ensures result.Aborted? ==> r.message == result.message
    ensures result.Completed? ==> (r.Clean? <==> Total(result.summary) <= TableCount && !force)
    ensures result.Completed? && !r.Clean? ==> (r.Download? <==> outputExists)
    ensures r.Download? ==> (r.fileName == ErrorsFileName <==> r.total > TableCount)
    ensures r.Download? ==> r.fileName in {ErrorsFileName, ReportFileName}
    ensures r.Download? || r.Clean? ==> r.passed == (r.total == TableCount)
  {
    match result
    case Aborted(message) => Failed(message)
    case Completed(summary) =>
      var total := Total(summary);
      var passed := Passed(summary);
      if total > TableCount || force then
        if outputExists then Download(if total > TableCount then ErrorsFileName else ReportFileName, total, passed)
        else OutputMissing(total)
      else Clean(total, passed)
  }

  /** The sum of a summary whose every entry is at least one equals its length exactly when every entry is one. */
  lemma {:induction false} TotalIsCountIff(summary: seq<(string, nat)>)
    requires forall i :: 0 <= i < |summary| ==> summary[i].1 >= 1
    ensures Total(summary) == |summary| <==> forall i :: 0 <= i < |summary| ==> summary[i].1 == 1
    decreases |summary|
  {
    if summary != [] {
      var n := |summary| - 1;
      assert forall i :: 0 <= i < n ==> summary[..n][i] == summary[i];
      TotalIsCountIff(summary[..n]);
      TotalAtLeastCount(summary[..n]);
    }
  }

  /**
   * A completed run passes exactly when every one of the sixteen reports
   * has a single row, whether that row is a NO_ERRORS row or a finding.
   */
  lemma PassedIffOneRowEach(link: Table, stages: seq<Stage>)
    requires WellFormed(link) && |stages| == 14
    requires Run(link, stages).Completed?
    ensures Passed(Run(link, stages).summary) <==> forall i :: 0 <= i < 16 ==> Run(link, stages).summary[i].1 == 1
  {
    TotalIsCountIff(Run(link, stages).summary);
  }

  /**
   * Without forcing, a completed run is answered "no validation errors"
   * exactly when every report has one row, and then it is also marked
   * passed; otherwise the report workbook, or the notice that it is missing.
   */
  lemma NotForcedCleanIffOneRowEach(link: Table, stages: seq<Stage>, outputExists: bool)
    requires WellFormed(link) && |stages| == 14
    requires Run(link, stages).Completed?
    ensures Respond(Run(link, stages), false, outputExists).Clean? <==>
      forall i :: 0 <= i < 16 ==> Run(link, stages).summary[i].1 == 1
    ensures Respond(Run(link, stages), false, outputExists).Clean? ==> Respond(Run(link, stages), false, outputExists).passed
  {
    CleanIffOneRowEach(Run(link, stages), outputExists);
  }

  /** The same for any completed run whose sixteen entries are each at least one. */
  lemma CleanIffOneRowEach(result: RunResult, outputExists: bool)
    requires result.Completed? && |result.summary| == 16
    requires forall i :: 0 <= i < 16 ==> result.summary[i].1 >= 1
    ensures Respond(result, false, outputExists).Clean? <==> forall i :: 0 <= i < 16 ==> result.summary[i].1 == 1
    ensures Respond(result, false, outputExists).Clean? ==> Respond(result, false, outputExists).passed
  {
    TotalAtLeastCount(result.summary);
    TotalIsCountIff(result.summary);
  }

  /** A forced download of a completed run always sends the workbook when it exists, under the report name unless the sum exceeds sixteen. */
  lemma ForcedDownloads(result: RunResult)
    requires result.Completed?
    ensures Respond(result, true, true).Download?
    ensures Respond(result, true, true).fileName == (if Total(result.summary) > TableCount then ErrorsFileName else ReportFileName)
  {
  }

  // ---------------------------------------------------------------- get_validation_summary

  predicate HasNoErrors(s: string) { Contains(s, "NO_ERRORS") }
  predicate HasSuccess(s: string) { Contains(s, "SUCCESS") }
  predicate HasEmptyTable(s: string) { Contains(s, "EMPTY_TABLE") }

  /** A report row that the summary counts: its `str(Record_No)` contains none of the three words. */
  predicate Counted(f: Finding) {
    var text := RecordNoText(f.recordNo);
    !HasNoErrors(text) && !HasSuccess(text) && !HasEmptyTable(text)
  }

  /** `len(error_rows)`: the counted rows of one sheet. */
  function ErrorRows(fs: seq<Finding>): (n: nat)
    ensures n <= |fs|
  {
    if fs == [] then 0 else ErrorRows(fs[..|fs| - 1]) + (if Counted(fs[|fs| - 1]) then 1 else 0)
  }

  /** A sheet counts no row exactly when every one of its rows is a sentinel row. */
  lemma {:induction false} ErrorRowsZeroIff(fs: seq<Finding>)
    ensures ErrorRows(fs) == 0 <==> forall k :: 0 <= k < |fs| ==> !Counted(fs[k])
    decreases |fs|
  {
    if fs != [] {
      var n := |fs| - 1;
      ErrorRowsZeroIff(fs[..n]);
      assert forall k :: 0 <= k < n ==> fs[..n][k] == fs[k];
    }
  }

  /** Every row numbered by its position is counted: digits contain none of the words. */
  lemma OrdinalCounted(n: nat, cells: Row, message: string)
    ensures Counted(Finding(Ordinal(n), cells, message))
  {
    var text := NatText(n);
    LacksCharAvoids(text, "NO_ERRORS", 'N');
    LacksCharAvoids(text, "SUCCESS", 'S');
    LacksCharAvoids(text, "EMPTY_TABLE", 'E');
  }

  /** The NO_ERRORS row is not counted. */
  lemma NoErrorsNotCounted(cells: Row, message: string)
    ensures !Counted(Finding(NoErrors, cells, message))
  {
    assert StartsWith("NO_ERRORS", "NO_ERRORS");
  }

  /** The N/A row of a table that lacks columns is counted. */
  lemma NotApplicableCounted(cells: Row, message: string)
    ensures Counted(Finding(NotApplicable, cells, message))
  {
    TagCounted("N/A", 'O', 'S', 'E', cells, message);
  }

  /** The EMPTY_DB row of an empty table is counted: it does not say EMPTY_TABLE. */
  lemma EmptyDbCounted(cells: Row, message: string)
    ensures Counted(Finding(EmptyDb, cells, message))
  {
    TagCounted("EMPTY_DB", 'N', 'S', 'A', cells, message);
  }

  /** A tag lacking a letter of each of the three words is counted. */
  lemma TagCounted(name: string, a: char, b: char, c: char, cells: Row, message: string)
    requires a in "NO_ERRORS" && b in "SUCCESS" && c in "EMPTY_TABLE"
    requires forall k :: 0 <= k < |name| ==> name[k] != a && name[k] != b && name[k] != c
    ensures Counted(Finding(Tag(name), cells, message))
  {
    LacksCharAvoids(name, "NO_ERRORS", a);
    LacksCharAvoids(name, "SUCCESS", b);
    LacksCharAvoids(name, "EMPTY_TABLE", c);
  }

  /** One sheet of the report workbook: its name and the report written to it. */
  datatype Sheet = Sheet(name: string, report: Report)

  /** `summary` of `get_validation_summary`: each non-empty sheet with its counted rows, in sheet order. */
  function SheetCounts(sheets: seq<Sheet>): (s: seq<(string, nat)>)
    ensures |s| <= |sheets|
  {
    if sheets == [] then []
    else
      var last := sheets[|sheets| - 1];
      SheetCounts(sheets[..|sheets| - 1])
      + (if last.report.findings != [] then [(last.name, ErrorRows(last.report.findings))] else [])
  }

  /** A sheet has its entry exactly when it has rows, with the count of its counted rows. */
  lemma {:induction false} SheetCountsMeaning(sheets: seq<Sheet>, name: string, n: nat)
    ensures (name, n) in SheetCounts(sheets) <==>
      exists k :: 0 <= k < |sheets| && sheets[k].name == name && sheets[k].report.findings != []
        && n == ErrorRows(sheets[k].report.findings)
    decreases |sheets|
  {
    if sheets != [] {
      var m := |sheets| - 1;
      var w := sheets[..m];
      var last := sheets[m];
      var tail := if last.report.findings != [] then [(last.name, ErrorRows(last.report.findings))] else [];
      assert forall k :: 0 <= k < m ==> w[k] == sheets[k];
      assert SheetCounts(sheets) == SheetCounts(w) + tail;
      SheetCountsMeaning(w, name, n);
      if (name, n) in SheetCounts(w) {
        var k :| 0 <= k < m && w[k].name == name && w[k].report.findings != [] && n == ErrorRows(w[k].report.findings);
        assert sheets[k].name == name;
      } else if exists k :: 0 <= k < |sheets| && sheets[k].name == name && sheets[k].report.findings != []
                 && n == ErrorRows(sheets[k].report.findings) {
        var k :| 0 <= k < |sheets| && sheets[k].name == name && sheets[k].report.findings != []
                 && n == ErrorRows(sheets[k].report.findings);
        assert k == m;
        assert tail == [(name, n)];
      }
    }
  }

  /** Adding one entry adds its value to the sum. */
  lemma TotalSnoc(summary: seq<(string, nat)>, e: (string, nat))
    ensures Total(summary + [e]) == Total(summary) + e.1
  {
    assert (summary + [e])[..|summary|] == summary;
  }

  /** The loop of `get_validation_summary` over the sheets, which keeps the per-sheet counts and their sum. */
  method ValidationSummary(sheets: seq<Sheet>) returns (summary: seq<(string, nat)>, total: nat)
    ensures summary == SheetCounts(sheets)
    ensures total == Total(summary)
  {
    summary := [];
    total := 0;
    var i := 0;
    while i < |sheets|
      invariant 0 <= i <= |sheets|
      invariant summary == SheetCounts(sheets[..i])
      invariant total == Total(summary)
    {
      var sheet := sheets[i];
      assert sheets[..i + 1][..i] == sheets[..i];
      if sheet.report.findings != [] {
        var errorCount := CountErrorRows(sheet.report.findings);
        TotalSnoc(summary, (sheet.name, errorCount));
        summary := summary + [(sheet.name, errorCount)];
        total := total + errorCount;
      }
      i := i + 1;
    }
    assert sheets[..i] == sheets;
  }

  /** The row filter of one sheet, counting the rows it keeps. */
  method CountErrorRows(fs: seq<Finding>) returns (n: nat)
    ensures n == ErrorRows(fs)
  {
    n := 0;
    var k := 0;
    while k < |fs|
      invariant 0 <= k <= |fs|
      invariant n == ErrorRows(fs[..k])
    {
      assert fs[..k + 1][..k] == fs[..k];
      if Counted(fs[k]) {
        n := n + 1;
      }
      k := k + 1;
    }
    assert fs[..k] == fs;
  }

  // ---------------------------------------------------------------- the pass rule

  /** The counted rows of every report of a run: what the pass rule is evidently after. */
  predicate PassedFixed(reports: seq<Report>) {
    forall i :: 0 <= i < |reports| ==> ErrorRows(reports[i].findings) == 0
  }

  /** The corrected rule passes a run exactly when every row of every report is a sentinel row. */
  lemma PassedFixedMeaning(reports: seq<Report>)
    ensures PassedFixed(reports) <==>
      forall i, k :: 0 <= i < |reports| && 0 <= k < |reports[i].findings| ==> !Counted(reports[i].findings[k])
  {
    forall i | 0 <= i < |reports| {
      ErrorRowsZeroIff(reports[i].findings);
    }
  }

  /** The summary the run would return for these sixteen reports. */
  function SummaryOf(reports: seq<Report>): (s: seq<(string, nat)>)
    requires |reports| == 16
    ensures |s| == 16 && forall i :: 0 <= i < 16 ==> s[i] == (TableNames[i], |reports[i].findings|)
  {
    Summary(seq(16, i requires 0 <= i < 16 => Done(reports[i])))
  }

  /** A Link report with one invalid row, beside fifteen clean reports. */
  function OneInvalidLinkRow(): (reports: seq<Report>)
    ensures |reports| == 16
  {
    var bad := Report([], [Finding(Ordinal(1), map[], "Link_No: invalid length")]);
    var clean := Report([], [Finding(NoErrors, map[], "no errors")]);
    seq(16, i requires 0 <= i < 16 => if i == 0 then bad else clean)
  }

  /**
   * The pass rule as written lets a run through whose Link table has an
   * invalid row: that row stands where the NO_ERRORS row would, so the sum
   * is still sixteen.  The corrected rule refuses it.
   */
  lemma OneInvalidRowPasses()
    ensures Passed(SummaryOf(OneInvalidLinkRow()))
    ensures !PassedFixed(OneInvalidLinkRow())
  {
    var reports := OneInvalidLinkRow();
    var s := SummaryOf(reports);
    TotalIsCountIff(s);
    OrdinalCounted(1, map[], "Link_No: invalid length");
    assert reports[0].findings == [Finding(Ordinal(1), map[], "Link_No: invalid length")];
    assert ErrorRows(reports[0].findings) == 1;
  }

  /** On reports whose only rows are NO_ERRORS rows the two rules agree: both pass. */
  lemma RulesAgreeOnCleanRuns(reports: seq<Report>)
    requires |reports| == 16
    requires forall i :: 0 <= i < 16 ==> |reports[i].findings| == 1 && reports[i].findings[0].recordNo == NoErrors
    ensures Passed(SummaryOf(reports)) && PassedFixed(reports)
  {
    TotalIsCountIff(SummaryOf(reports));
    forall i | 0 <= i < 16 ensures ErrorRows(reports[i].findings) == 0 {
      var f := reports[i].findings[0];
      NoErrorsNotCounted(f.cells, f.message);
      assert reports[i].findings[..0] == [];
    }
  }
}
