/**
 * The RoadCondition validator: its required columns and field definitions,
 * its own `validate_data_type`, the row checks of the shared recipe with the
 * Link existence rule, and the chainage-continuity findings appended after
 * the row findings.
 */
module RoadCondition {
  import opened Wrappers
  import opened Text
  import opened Numbers
  import opened Values
  import opened Tables
  import opened Chainage

  const Required: seq<string> := ["Year", "Province_Code", "Kabupaten_Code", "Link_No", "ChainageFrom", "ChainageTo"]

  /** `Year` may be any number from 0 up, with no upper bound. */
  const YearRange := NumRange(0, None)

  const Fields: seq<(string, FieldDef)> := [
    ("Year", NumberField(Some(YearRange))),
    ("Province_Code", TextField()),
    ("Kabupaten_Code", TextField()),
    ("Link_No", TextField()),
    ("ChainageFrom", NumberField(None)),
    ("ChainageTo", NumberField(None)),
    ("DRP_From", NumberField(None)),
    ("Offset_From", NumberField(None)),
    ("DRP_To", NumberField(None)),
    ("Offset_To", NumberField(None)),
    ("Roughness", YesNoField()),
    ("Bleeding_area", NumberField(None)),
    ("Ravelling_area", NumberField(None)),
    ("Desintegration_area", NumberField(None)),
    ("CrackDep_area", NumberField(None)),
    ("Patching_area", NumberField(None)),
    ("OthCrack_area", NumberField(None)),
    ("Pothole_area", NumberField(None)),
    ("Rutting_area", NumberField(None)),
    ("EdgeDamage_area", NumberField(None)),
    ("Crossfall_area", NumberField(None)),
    ("Depressions_area", NumberField(None)),
    ("Erosion_area", NumberField(None)),
    ("Waviness_area", NumberField(None))
  ]

  /** `_normalize_str`: None becomes "", anything else its stripped `str`. */
  function NormalizeStr(v: Value): (r: string)
    ensures v.Null? ==> r == ""
    ensures r != [] ==> !IsSpace(r[0]) && !IsSpace(r[|r| - 1])
  {
    if v.Null? then "" else
      var text := PyStr(v);
      Strip(text)
  }

  /** The strings of the accepted Yes/No sets, which also hold True, False, 1 and 0. */
  const YesNoTexts: set<string> := {"1", "true", "True", "yes", "Yes", "y", "Y", "0", "false", "False", "no", "No", "n", "N"}

  /** `value in acceptable_truthy or value in acceptable_falsy`, where True == 1 == 1.0 and False == 0 == 0.0. */
  predicate InYesNoSet(v: Value) {
    match v
    case Bool(_) => true
    case Int(i) => i == 0 || i == 1
    case Float(d) => d.Val() == 0.0 || d.Val() == 1.0
    case Str(s) => s in YesNoTexts
    case _ => false
  }

  /** `s.lower() in ["on", "off"]`, asked one character at a time. */
  predicate IsOnOff(s: string) {
    (|s| == 2 && LowerChar(s[0]) == 'o' && LowerChar(s[1]) == 'n')
    || (|s| == 3 && LowerChar(s[0]) == 'o' && LowerChar(s[1]) == 'f' && LowerChar(s[2]) == 'f')
  }

  predicate YesNoAccepted(v: Value) {
    InYesNoSet(v) || IsOnOff(NormalizeStr(v))
  }

  const YesNoMessage := "Value must be Yes/No (boolean)"

  /** `validate_data_type` of the RoadCondition validator. */
  function CheckType(v: Value, name: string, def: FieldDef): (r: Verdict)
    ensures IsEmpty(v) ==> r == Valid
    ensures def.kind.ShortText? ==> r == Valid
    ensures def.kind.Number? && !IsEmpty(v) ==>
      (r.Valid? <==> ToFloat(v).Some? && (def.range.None? || InRange(ToFloat(v).value, def.range.value)))
    ensures def.kind.Number? && !IsEmpty(v) && ToFloat(v).None? ==> r == Invalid("Value must be numeric, got " + TypeName(v))
    ensures def.kind.YesNo? && !IsEmpty(v) ==> (r.Valid? <==> YesNoAccepted(v))
    ensures def.kind.YesNo? && r.Invalid? ==> r.msg == YesNoMessage
  {
    if IsEmpty(v) then Valid
    else
      match def.kind
      case ShortText => Valid
      case Number =>
        (match ToFloat(v)
         case None => Invalid("Value must be numeric, got " + TypeName(v))
         case Some(f) => if def.range.Some? && !InRange(f, def.range.value) then Invalid(RangeMessage(def.range.value)) else Valid)
      case YesNo => if YesNoAccepted(v) then Valid else Invalid(YesNoMessage)
  }

  /** `Year` accepts every integer from 0 up; below that the message names the range. */
  lemma YearFromZero(y: int)
    ensures CheckType(Int(y), "Year", NumberField(Some(YearRange))) ==
      (if y >= 0 then Valid else Invalid("Value must be between 0 and inf"))
  {
    assert !IsEmpty(Int(y));
    assert RangeMessage(YearRange) == "Value must be between " + IntText(0) + " and inf";
    assert IntText(0) == "0";
  }

  /** Upper-case YES is not among the accepted spellings. */
  lemma UpperYesRejected(w: string)
    requires w == "YES"
    ensures !YesNoAccepted(Str(w))
  {
    assert w[0] == 'Y' && w[1] == 'E' && w[2] == 'S';
    StripNoSpace(w);
    UpperMiddleNotYesNoText(w);
    assert !IsOnOff(w) by {
      assert LowerChar('Y') == 'y';
    }
  }

  /** Of the three-letter spellings, yes and Yes have a lower-case middle letter. */
  lemma UpperMiddleNotYesNoText(s: string)
    requires |s| == 3 && s[1] == 'E'
    ensures s !in YesNoTexts
  {
    assert "yes"[1] != s[1] && "Yes"[1] != s[1];
  }

  /**
   * A word with a blank on each side is rejected unless it is on or off:
   * the set lookup sees the blanks, and only the on/off test strips them.
   */
  lemma PaddedWordRejected(w: string)
    requires forall k :: 0 <= k < |w| ==> !IsSpace(w[k])
    requires !IsOnOff(w)
    ensures !YesNoAccepted(Str(" " + w + " "))
  {
    var padded := " " + w + " ";
    StripSpaced(w);
    BlankFirstNotYesNoText(padded);
  }

  lemma BlankFirstNotYesNoText(s: string)
    requires |s| > 0 && s[0] == ' '
    ensures s !in YesNoTexts
  {
  }

  /** So " yes " is rejected. */
  lemma PaddedYesRejected(w: string)
    requires w == "yes"
    ensures !YesNoAccepted(Str(" " + w + " "))
  {
    assert LowerChar(w[0]) != 'o';
    PaddedWordRejected(w);
  }

  /** The letters of on and off, in any case, are not blanks. */
  lemma OnOffLetters(w: string)
    requires IsOnOff(w)
    ensures forall k :: 0 <= k < |w| ==> !IsSpace(w[k])
  {
    forall k | 0 <= k < |w| ensures !IsSpace(w[k]) {
      assert 'a' <= LowerChar(w[k]) <= 'z';
    }
  }

  /** on and off pass in any case. */
  lemma OnOffAccepted(w: string)
    requires IsOnOff(w)
    ensures YesNoAccepted(Str(w))
  {
    assert NormalizeStr(Str(w)) == w by {
      OnOffLetters(w);
      StripNoSpace(w);
    }
  }

  /** on and off pass with a blank on each side too, because they are looked up after stripping. */
  lemma PaddedOnOffAccepted(w: string)
    requires IsOnOff(w)
    ensures YesNoAccepted(Str(" " + w + " "))
  {
    assert NormalizeStr(Str(" " + w + " ")) == w by {
      OnOffLetters(w);
      StripSpaced(w);
    }
  }

  /** The numbers 0 and 1 pass in any numeric form, 2 does not. */
  lemma NumericYesNo()
    ensures YesNoAccepted(Float(Dec(10, 1)))
    ensures YesNoAccepted(Int(0))
    ensures !YesNoAccepted(Int(2))
  {
    assert Dec(10, 1).Val() == 1.0;
    assert NormalizeStr(Int(2)) == "2" by {
      assert IntText(2) == "2";
      assert TrimLeft("2") == "2";
      assert TrimRight("2") == "2";
    }
  }

  /** The rows' table-specific messages: only the Link existence rule. */
  function RoadRecipe(columns: seq<string>, link: Option<Table>): Recipe {
    Recipe(Required, Fields, CheckType, (row: Row) => LinkExistence(link, columns, row))
  }

  /**
   * `validate_road_condition`: the N/A row when required columns are
   * missing; otherwise the row findings, then the continuity findings.
   */
  function ValidateRoadCondition(t: Table, link: Option<Table>): (r: Report)
    ensures r.columns == t.columns
    ensures MissingColumns(Required, t.columns) != [] ==> |r.findings| == 1 && r.findings[0].recordNo == NotApplicable
    ensures MissingColumns(Required, t.columns) != [] ==> r == MissingColumnsReport(t.columns, MissingColumns(Required, t.columns))
    ensures MissingColumns(Required, t.columns) == [] ==> forall f :: f in r.findings ==> f.recordNo.Ordinal?
  {
    var missing := MissingColumns(Required, t.columns);
    if missing != [] then MissingColumnsReport(t.columns, missing)
    else
      var rc := RoadRecipe(t.columns, link);
      RowFindingsSound(t.columns, t.rows, rc);
      ContinuityFindingsNameRows(t.rows);
      Report(t.columns, RowFindings(t.columns, t.rows, rc) + ContinuityFindings(t.rows))
  }

  /** The validator as the program runs it: the row loop, then the loop over groups. */
  method Validate(t: Table, link: Option<Table>) returns (r: Report)
    ensures r == ValidateRoadCondition(t, link)
  {
    var missing := MissingColumns(Required, t.columns);
    if missing != [] {
      return MissingColumnsReport(t.columns, missing);
    }
    var rowFindings := ScanRows(t, RoadRecipe(t.columns, link));
    var continuity := CheckContinuity(t.rows);
    r := Report(t.columns, rowFindings + continuity);
  }

  /**
   * With every required column present, each output row is a copy of an
   * input row numbered by its position plus one; the row findings come
   * first, one per row at most and in row order, and are exactly the rows
   * with messages.
   */
  lemma ValidateRoadConditionMeaning(t: Table, link: Option<Table>)
    requires MissingColumns(Required, t.columns) == []
    ensures forall f :: f in ValidateRoadCondition(t, link).findings ==> NamesRow(f, t.rows)
    ensures ValidateRoadCondition(t, link).findings[..|RowFindings(t.columns, t.rows, RoadRecipe(t.columns, link))|]
      == RowFindings(t.columns, t.rows, RoadRecipe(t.columns, link))
    ensures ValidateRoadCondition(t, link).findings[|RowFindings(t.columns, t.rows, RoadRecipe(t.columns, link))|..]
      == ContinuityFindings(t.rows)
  {
    var rc := RoadRecipe(t.columns, link);
    RowFindingsSound(t.columns, t.rows, rc);
    ContinuityFindingsNameRows(t.rows);
  }
}
