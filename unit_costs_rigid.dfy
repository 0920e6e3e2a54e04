/**
 * The CODE_AN_UnitCostsRIGID validator: the missing-columns sentinel, then
 * the row findings of the shared recipe with no table-specific rule.  Its
 * empty-table sentinel is disabled in the program, so a table without rows
 * yields no findings at all.
 */
module UnitCostsRigid {
  import opened Wrappers
  import opened Text
  import opened Values
  import opened Tables

  const Required: seq<string> := ["Province_Code", "Kabupaten_Code", "CODE"]

  const NonNegative := NumRange(0, None)

  const Fields: seq<(string, FieldDef)> := [
    ("Province_Code", TextField()),
    ("Kabupaten_Code", TextField()),
    ("CODE", TextField()),
    ("PerUnitCost", NumberField(Some(NonNegative))),
    ("RehUnitCost", NumberField(Some(NonNegative)))
  ]

  /** `validate_data_type` of this validator: text and numbers only; any other kind is accepted. */
  function CheckType(v: Value, name: string, def: FieldDef): (r: Verdict)
    ensures IsEmpty(v) ==> r == Valid
    ensures !def.kind.Number? ==> r == Valid
    ensures def.kind.Number? && !IsEmpty(v) ==>
      (r.Valid? <==> ToFloat(v).Some? && (def.range.None? || InRange(ToFloat(v).value, def.range.value)))
    ensures def.kind.Number? && !IsEmpty(v) && ToFloat(v).None? ==> r == Invalid("Value must be numeric, got " + TypeName(v))
    ensures def.kind.Number? && def.range.Some? && !IsEmpty(v) && ToFloat(v).Some? && r.Invalid? ==>
      r.msg == RangeMessage(def.range.value)
  {
    if IsEmpty(v) then Valid
    else
      match def.kind
      case Number =>
        (match ToFloat(v)
         case None => Invalid("Value must be numeric, got " + TypeName(v))
         case Some(f) => if def.range.Some? && !InRange(f, def.range.value) then Invalid(RangeMessage(def.range.value)) else Valid)
      case _ => Valid
  }

  /** The two costs pass exactly when they parse as numbers that are not below 0. */
  lemma CostBounds(k: nat, v: Value)
    requires k == 3 || k == 4
    requires !IsEmpty(v)
    ensures CheckType(v, Fields[k].0, Fields[k].1).Valid? <==>
      ToFloat(v).Some? && (ToFloat(v).value.NotANumber? || ToFloat(v).value.d.Val() >= 0.0)
  {
    NonNegativeCheck(v, Fields[k].0);
  }

  lemma NonNegativeCheck(v: Value, name: string)
    requires !IsEmpty(v)
    ensures CheckType(v, name, NumberField(Some(NonNegative))).Valid? <==>
      ToFloat(v).Some? && (ToFloat(v).value.NotANumber? || ToFloat(v).value.d.Val() >= 0.0)
  {
    var def := NumberField(Some(NonNegative));
    assert def.kind.Number? && def.range == Some(NonNegative);
    if ToFloat(v).Some? {
      var f := ToFloat(v).value;
      assert InRange(f, NonNegative) <==> f.NotANumber? || f.d.Val() >= 0.0;
    }
  }

  function RigidRecipe(): Recipe {
    Recipe(Required, Fields, CheckType, (row: Row) => [])
  }

  /** The message the type check gives for cost field `k` of a row, if any. */
  function CostMessage(columns: seq<string>, row: Row, k: nat): (ms: seq<string>)
    requires 3 <= k < 5
    ensures |ms| <= 1
  {
    var v := CheckType(Cell(row, Fields[k].0), Fields[k].0, Fields[k].1);
    if Fields[k].0 in columns && v.Invalid? then [Fields[k].0 + ": " + v.msg] else []
  }

  /** The text columns never fail the type check: the type messages are those of the two costs. */
  lemma TypeMessagesAreCosts(columns: seq<string>, row: Row)
    ensures TypeMessages(Fields, columns, row, CheckType) == CostMessage(columns, row, 3) + CostMessage(columns, row, 4)
  {
    var d4 := Fields[..4];
    assert Fields[..|Fields| - 1] == d4;
    assert d4[..|d4| - 1] == Fields[..3];
    NonNumberFieldsPass(Fields[..3], columns, row);
  }

  lemma {:induction false} NonNumberFieldsPass(defs: seq<(string, FieldDef)>, columns: seq<string>, row: Row)
    requires forall k :: 0 <= k < |defs| ==> !defs[k].1.kind.Number?
    ensures TypeMessages(defs, columns, row, CheckType) == []
    decreases |defs|
  {
    if defs != [] {
      NonNumberFieldsPass(defs[..|defs| - 1], columns, row);
    }
  }

  /**
   * An empty required cell passes the type check, so its row carries the
   * "is required" message and no type message about that column.
   */
  lemma EmptyRequiredOnlyRequired(columns: seq<string>, row: Row, c: string)
    requires c in Required && c in columns && IsEmpty(Cell(row, c))
    ensures c + " is required" in RowMessages(columns, row, RigidRecipe())
    ensures forall m :: m in TypeMessages(Fields, columns, row, CheckType) ==> !StartsWith(m, c + ": ")
  {
    RequiredMessagesMeaning(Required, columns, row);
    assert c + " is required" in RequiredMessages(Required, columns, row);
    assert RowMessages(columns, row, RigidRecipe()) ==
      RequiredMessages(Required, columns, row) + TypeMessages(Fields, columns, row, CheckType) + [];
    forall m | m in TypeMessages(Fields, columns, row, CheckType)
      ensures !StartsWith(m, c + ": ")
    {
      TypeMessageNotAbout(columns, row, c, m);
    }
  }

  lemma TypeMessageNotAbout(columns: seq<string>, row: Row, c: string, m: string)
    requires c in Required && m in TypeMessages(Fields, columns, row, CheckType)
    ensures !StartsWith(m, c + ": ")
  {
    TypeMessagesAreCosts(columns, row);
    var k := if m in CostMessage(columns, row, 3) then 3 else 4;
    var msg := CheckType(Cell(row, Fields[k].0), Fields[k].0, Fields[k].1).msg;
    assert m == Fields[k].0 + ": " + msg;
    CostNamesApart(k, c);
    OtherLabel(Fields[k].0, c, msg);
  }

  predicate NoColon(s: string) {
    forall k :: 0 <= k < |s| ==> s[k] != ':'
  }

  lemma CostNamesApart(k: nat, c: string)
    requires 3 <= k < 5 && c in Required
    ensures Fields[k].0 != c && NoColon(Fields[k].0) && NoColon(c)
  {
  }

  /** A message labelled with one column name is not labelled with another, when neither name holds a colon. */
  lemma OtherLabel(a: string, b: string, x: string)
    requires a != b
    requires NoColon(a) && NoColon(b)
    ensures !StartsWith(a + ": " + x, b + ": ")
  {
    var m := a + ": " + x;
    var tag := b + ": ";
    if |tag| <= |m| {
      var i: nat;
      if |b| == |a| {
        i :| i < |a| && a[i] != b[i];
      } else if |b| < |a| {
        i := |b|;
      } else {
        i := |a|;
      }
      assert m[..|tag|][i] != tag[i];
    }
  }

  /**
   * `validate_code_an_unit_costs_rigid`: N/A for missing required columns;
   * otherwise the row findings, which only the required and type checks feed.
   */
  function ValidateUnitCostsRigid(t: Table): (r: Report)
    ensures MissingColumns(Required, t.columns) != [] ==> |r.findings| == 1 && r.findings[0].recordNo == NotApplicable
    ensures MissingColumns(Required, t.columns) != [] ==> r == MissingColumnsReport(t.columns, MissingColumns(Required, t.columns))
    ensures MissingColumns(Required, t.columns) == [] ==>
      r.columns == t.columns && forall f :: f in r.findings ==> ReportsRow(f, t.columns, t.rows, RigidRecipe())
  {
    var missing := MissingColumns(Required, t.columns);
    if missing != [] then MissingColumnsReport(t.columns, missing)
    else
      RowFindingsSound(t.columns, t.rows, RigidRecipe());
      Report(t.columns, RowFindings(t.columns, t.rows, RigidRecipe()))
  }

  /** Past the N/A sentinel, every row with messages has its finding, and findings come in row order. */
  lemma ValidateUnitCostsRigidComplete(t: Table, i: nat)
    requires MissingColumns(Required, t.columns) == []
    requires i < |t.rows| && RowMessages(t.columns, t.rows[i], RigidRecipe()) != []
    ensures Finding(Ordinal(i + 1), t.rows[i], Join("; ", RowMessages(t.columns, t.rows[i], RigidRecipe())))
      in ValidateUnitCostsRigid(t).findings
    ensures forall k, l :: 0 <= k < l < |ValidateUnitCostsRigid(t).findings| ==>
      OrdinalOf(ValidateUnitCostsRigid(t).findings[k]) < OrdinalOf(ValidateUnitCostsRigid(t).findings[l])
  {
    RowFindingsComplete(t.columns, t.rows, RigidRecipe(), i);
    RowFindingsOrdered(t.columns, t.rows, RigidRecipe());
  }

  method Validate(t: Table) returns (r: Report)
    ensures r == ValidateUnitCostsRigid(t)
  {
    var missing := MissingColumns(Required, t.columns);
    if missing != [] {
      return MissingColumnsReport(t.columns, missing);
    }
    var rowFindings := ScanRows(t, RigidRecipe());
    r := Report(t.columns, rowFindings);
  }

  /** With its columns in place, a table without rows yields no findings, and no EMPTY_DB row. */
  lemma NoRowsNoFindings(t: Table)
    requires MissingColumns(Required, t.columns) == [] && t.rows == []
    ensures ValidateUnitCostsRigid(t).findings == []
  {
  }

  /** A row is reported exactly when a required cell is empty or a cost fails its check. */
  lemma RowReportedIff(columns: seq<string>, row: Row)
    ensures RowMessages(columns, row, RigidRecipe()) != [] <==>
      (exists c :: c in Required && c in columns && IsEmpty(Cell(row, c)))
      || (exists k :: 3 <= k < 5 && Fields[k].0 in columns && CheckType(Cell(row, Fields[k].0), Fields[k].0, Fields[k].1).Invalid?)
  {
    var req := RequiredMessages(Required, columns, row);
    var typ := TypeMessages(Fields, columns, row, CheckType);
    assert RowMessages(columns, row, RigidRecipe()) == req + typ + [];
    RequiredReportedIff(columns, row);
    CostsReportedIff(columns, row);
  }

  lemma RequiredReportedIff(columns: seq<string>, row: Row)
    ensures RequiredMessages(Required, columns, row) != [] <==> exists c :: c in Required && c in columns && IsEmpty(Cell(row, c))
  {
    var req := RequiredMessages(Required, columns, row);
    RequiredMessagesMeaning(Required, columns, row);
    if exists c :: c in Required && c in columns && IsEmpty(Cell(row, c)) {
      var c :| c in Required && c in columns && IsEmpty(Cell(row, c));
      assert c + " is required" in req;
    }
    if req != [] {
      assert req[0] in req;
    }
  }

  lemma CostsReportedIff(columns: seq<string>, row: Row)
    ensures TypeMessages(Fields, columns, row, CheckType) != [] <==>
      exists k :: 3 <= k < 5 && Fields[k].0 in columns && CheckType(Cell(row, Fields[k].0), Fields[k].0, Fields[k].1).Invalid?
  {
    TypeMessagesAreCosts(columns, row);
    assert TypeMessages(Fields, columns, row, CheckType) != [] <==> CostMessage(columns, row, 3) != [] || CostMessage(columns, row, 4) != [];
  }
}
