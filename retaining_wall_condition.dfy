/**
 * The RetainingWallCondition validator: the empty-table sentinel, the
 * missing-columns sentinel, then the row findings of the shared recipe with
 * the Link existence rule.  Its Year uses the plain inclusive range
 * 1900..2100, and its Yes/No spellings are those of the TrafficVolume file.
 */
module RetainingWallCondition {
  import opened Wrappers
  import opened Text
  import opened Numbers
  import opened Values
  import opened Tables
  import TrafficVolume

  const Required: seq<string> := ["Year", "Province_Code", "Kabupaten_Code", "Link_No", "Wall_Number"]

  const YearRange := NumRange(1900, Some(2100))

  const NonNegative := NumRange(0, None)

  const Fields: seq<(string, FieldDef)> := [
    ("Year", NumberField(Some(YearRange))),
    ("Province_Code", TextField()),
    ("Kabupaten_Code", TextField()),
    ("Link_No", TextField()),
    ("Wall_Number", TextField()),
    ("Wall_Mortar_m2", NumberField(Some(NonNegative))),
    ("Wall_Repair_m3", NumberField(Some(NonNegative))),
    ("Wall_Rebuild_m", NumberField(Some(NonNegative))),
    ("AnalysisBaseYear", YesNoField()),
    ("SurveyBy", TextField())
  ]

  /**
   * `validate_data_type` of the RetainingWallCondition validator: the
   * generic range check for every number, Year included, and the six Yes/No
   * words of the TrafficVolume file.
   */
  function CheckType(v: Value, name: string, def: FieldDef): (r: Verdict)
    ensures IsEmpty(v) ==> r == Valid
    ensures def.kind.ShortText? ==> r == Valid
    ensures def.kind.Number? && !IsEmpty(v) ==>
      (r.Valid? <==> ToFloat(v).Some? && (def.range.None? || InRange(ToFloat(v).value, def.range.value)))
    ensures def.kind.Number? && !IsEmpty(v) && ToFloat(v).None? ==> r == Invalid("Value must be numeric, got " + TypeName(v))
    ensures def.kind.Number? && def.range.Some? && !IsEmpty(v) && ToFloat(v).Some? && r.Invalid? ==>
      r.msg == RangeMessage(def.range.value)
    ensures def.kind.YesNo? && !IsEmpty(v) ==> (r.Valid? <==> TrafficVolume.YesNoAccepted(v))
    ensures def.kind.YesNo? && r.Invalid? ==> r.msg == TrafficVolume.YesNoMessage(v)
  {
    if IsEmpty(v) then Valid
    else
      match def.kind
      case ShortText => Valid
      case Number =>
        (match ToFloat(v)
         case None => Invalid("Value must be numeric, got " + TypeName(v))
         case Some(f) => if def.range.Some? && !InRange(f, def.range.value) then Invalid(RangeMessage(def.range.value)) else Valid)
      case YesNo => if TrafficVolume.YesNoAccepted(v) then Valid else Invalid(TrafficVolume.YesNoMessage(v))
  }

  /** An integer Year passes exactly from 1900 to 2100, both included; outside, the message names the range. */
  lemma YearBounds(y: int)
    ensures CheckType(Int(y), "Year", NumberField(Some(YearRange))) ==
      (if 1900 <= y <= 2100 then Valid else Invalid("Value must be between 1900 and 2100"))
  {
    assert !IsEmpty(Int(y));
    YearRangeMessage();
  }

  /** The message of the Year range names its two bounds. */
  lemma YearRangeMessage()
    ensures RangeMessage(YearRange) == "Value must be between 1900 and 2100"
  {
    NatTextSnoc(1, 9);
    NatTextSnoc(19, 0);
    NatTextSnoc(190, 0);
    NatTextSnoc(2, 1);
    NatTextSnoc(21, 0);
    NatTextSnoc(210, 0);
  }

  /** A Year with a fraction is judged by its value alone: 2100.5 is out of range, 1950.5 is not. */
  lemma FractionalYear()
    ensures CheckType(Float(Dec(21005, 1)), "Year", NumberField(Some(YearRange))).Invalid?
    ensures CheckType(Float(Dec(19505, 1)), "Year", NumberField(Some(YearRange))) == Valid
  {
    assert Dec(21005, 1).Val() == 2100.5;
    assert Dec(19505, 1).Val() == 1950.5;
    assert !IsEmpty(Float(Dec(21005, 1)));
    assert !IsEmpty(Float(Dec(19505, 1)));
  }

  /** The three wall quantities accept exactly the numbers from 0 up. */
  lemma WallQuantityBounds(k: nat, x: int)
    requires 5 <= k <= 7
    ensures Fields[k].1 == NumberField(Some(NonNegative))
    ensures CheckType(Int(x), Fields[k].0, Fields[k].1).Valid? <==> x >= 0
  {
    assert !IsEmpty(Int(x));
  }

  function WallRecipe(columns: seq<string>, link: Option<Table>): Recipe {
    Recipe(Required, Fields, CheckType, (row: Row) => LinkExistence(link, columns, row))
  }

  /**
   * `validate_retaining_wall_condition`: EMPTY_DB for an empty frame, checked
   * before the columns; N/A for missing required columns; otherwise the row
   * findings.
   */
  function ValidateRetainingWallCondition(t: Table, link: Option<Table>): (r: Report)
    ensures FrameEmpty(t) ==> |r.findings| == 1 && r.findings[0].recordNo == EmptyDb
    ensures FrameEmpty(t) ==> r == EmptyDbReport("RetainingWallCondition")
    ensures !FrameEmpty(t) && MissingColumns(Required, t.columns) != [] ==>
      |r.findings| == 1 && r.findings[0].recordNo == NotApplicable
    ensures !FrameEmpty(t) && MissingColumns(Required, t.columns) != [] ==> r == MissingColumnsReport(t.columns, MissingColumns(Required, t.columns))
    ensures !FrameEmpty(t) && MissingColumns(Required, t.columns) == [] ==>
      r.columns == t.columns && forall f :: f in r.findings ==> ReportsRow(f, t.columns, t.rows, WallRecipe(t.columns, link))
  {
    if FrameEmpty(t) then EmptyDbReport("RetainingWallCondition")
    else
      var missing := MissingColumns(Required, t.columns);
      if missing != [] then MissingColumnsReport(t.columns, missing)
      else
        RowFindingsSound(t.columns, t.rows, WallRecipe(t.columns, link));
        Report(t.columns, RowFindings(t.columns, t.rows, WallRecipe(t.columns, link)))
  }

  /**
   * Past the two sentinels, every row with messages is reported, with
   * Record_No idx+1 and its messages joined by "; ", in row order.
   */
  lemma ValidateRetainingWallConditionComplete(t: Table, link: Option<Table>, i: nat)
    requires !FrameEmpty(t) && MissingColumns(Required, t.columns) == []
    requires i < |t.rows| && RowMessages(t.columns, t.rows[i], WallRecipe(t.columns, link)) != []
    ensures Finding(Ordinal(i + 1), t.rows[i], Join("; ", RowMessages(t.columns, t.rows[i], WallRecipe(t.columns, link))))
      in ValidateRetainingWallCondition(t, link).findings
    ensures forall k, l :: 0 <= k < l < |ValidateRetainingWallCondition(t, link).findings| ==>
      OrdinalOf(ValidateRetainingWallCondition(t, link).findings[k]) < OrdinalOf(ValidateRetainingWallCondition(t, link).findings[l])
  {
    RowFindingsComplete(t.columns, t.rows, WallRecipe(t.columns, link), i);
    RowFindingsOrdered(t.columns, t.rows, WallRecipe(t.columns, link));
  }

  method Validate(t: Table, link: Option<Table>) returns (r: Report)
    ensures r == ValidateRetainingWallCondition(t, link)
  {
    if FrameEmpty(t) {
      return EmptyDbReport("RetainingWallCondition");
    }
    var missing := MissingColumns(Required, t.columns);
    if missing != [] {
      return MissingColumnsReport(t.columns, missing);
    }
    var rowFindings := ScanRows(t, WallRecipe(t.columns, link));
    r := Report(t.columns, rowFindings);
  }
}
