/**
 * The Link table's `validate_row`: one pass over the seven required columns
 * that fills an insertion-ordered dict with at most one message per column.
 * Province_Code and Link_No are judged by first-failure chains; the two
 * lengths by whether `float()` accepts them and their sign.
 */
module LinkTable {
  import opened Wrappers
  import opened Text
  import opened Numbers
  import opened Values
  import opened Tables
  import opened ErrorMaps

  const Required: seq<string> := [
    "Province_Code", "Kabupaten_Code", "Link_No", "Link_Code", "Link_Name",
    "Link_Length_Official", "Link_Length_Actual"
  ]

  /** `row[c]` raises KeyError for an absent column, so every required column must be there. */
  predicate HasRequired(row: Row) {
    "Province_Code" in row && "Kabupaten_Code" in row && "Link_No" in row && "Link_Code" in row
    && "Link_Name" in row && "Link_Length_Official" in row && "Link_Length_Actual" in row
  }

  /** `if not v: errors[c] = "missing"`. */
  function MissingError(v: Value): (r: Option<string>)
    ensures r.Some? <==> !Truthy(v)
    ensures r.Some? ==> r.value == "missing"
  {
    if !Truthy(v) then Some("missing") else None
  }

  /** A present Province_Code must be all letters or all digits. */
  function ProvinceCodeError(v: Value): (r: Option<string>)
    ensures r == Some("missing") <==> !Truthy(v)
    ensures r == Some("invalid format") <==> Truthy(v) && !IsAlpha(PyStr(v)) && !IsDigits(PyStr(v))
    ensures r.None? <==> Truthy(v) && (IsAlpha(PyStr(v)) || IsDigits(PyStr(v)))
  {
    if !Truthy(v) then Some("missing")
    else if !IsAlpha(PyStr(v)) && !IsDigits(PyStr(v)) then Some("invalid format")
    else None
  }

  /** A well-formed Link_No: twelve digits that begin with the province code. */
  predicate WellFormedLinkNo(linkNo: string, provinceCode: string) {
    IsDigits(linkNo) && |linkNo| == 12 && StartsWith(linkNo, provinceCode)
  }

  /**
   * The Link_No chain, on the stripped strings of Link_No and Province_Code:
   * only the first failing test is reported.
   */
  function LinkNoError(v: Value, province: Value): (r: Option<string>)
    ensures r == Some("missing") <==> !Truthy(v)
    ensures r.None? <==> Truthy(v) && WellFormedLinkNo(Strip(PyStr(v)), Strip(PyStr(province)))
    ensures r == Some("invalid format") <==> Truthy(v) && !IsDigits(Strip(PyStr(v)))
    ensures r == Some("invalid length") <==> Truthy(v) && IsDigits(Strip(PyStr(v))) && |Strip(PyStr(v))| != 12
    ensures r == Some("does not start with province code") <==>
      Truthy(v) && IsDigits(Strip(PyStr(v))) && |Strip(PyStr(v))| == 12
      && !StartsWith(Strip(PyStr(v)), Strip(PyStr(province)))
  {
    if !Truthy(v) then Some("missing")
    else
      var linkNo := Strip(PyStr(v));
      var provinceCode := Strip(PyStr(province));
      if !IsDigits(linkNo) then Some("invalid format")
      else if |linkNo| != 12 then Some("invalid length")
      else if !StartsWith(linkNo, provinceCode) then Some("does not start with province code")
      else None
  }

  /** `float(v)` and a sign test; when `float()` raises, "invalid number" for a truthy value, else "missing". */
  function LengthError(v: Value): (r: Option<string>)
    ensures r == Some("negative not allowed") <==>
      ToFloat(v).Some? && ToFloat(v).value.Finite? && ToFloat(v).value.d.Val() < 0.0
    ensures r == Some("invalid number") <==> ToFloat(v).None? && Truthy(v)
    ensures r == Some("missing") <==> ToFloat(v).None? && !Truthy(v)
    ensures r.None? <==> ToFloat(v).Some? && (ToFloat(v).value.NotANumber? || ToFloat(v).value.d.Val() >= 0.0)
  {
    match ToFloat(v)
    case Some(f) => if f.Finite? && f.d.Val() < 0.0 then Some("negative not allowed") else None
    case None => if Truthy(v) then Some("invalid number") else Some("missing")
  }

  /** The seven checks in the order they run, each with the message it gave. */
  function Labelled(province: Option<string>, kabupaten: Option<string>, linkNo: Option<string>,
                    linkCode: Option<string>, linkName: Option<string>,
                    official: Option<string>, actual: Option<string>): seq<(string, Option<string>)>
  {
    [("Province_Code", province), ("Kabupaten_Code", kabupaten), ("Link_No", linkNo),
     ("Link_Code", linkCode), ("Link_Name", linkName),
     ("Link_Length_Official", official), ("Link_Length_Actual", actual)]
  }

  /** Each required column with the message its rule gives, in the order the checks run. */
  function Checks(row: Row): seq<(string, Option<string>)>
    requires HasRequired(row)
  {
    Labelled(ProvinceCodeError(row["Province_Code"]), MissingError(row["Kabupaten_Code"]),
             LinkNoError(row["Link_No"], row["Province_Code"]), MissingError(row["Link_Code"]),
             MissingError(row["Link_Name"]), LengthError(row["Link_Length_Official"]),
             LengthError(row["Link_Length_Actual"]))
  }

  /**
   * Running the seven checks one after another leaves a dict with exactly the
   * failing columns, in the order they ran, each with its own message.
   */
  lemma LabelledFill(m0: Option<string>, m1: Option<string>, m2: Option<string>, m3: Option<string>,
                     m4: Option<string>, m5: Option<string>, m6: Option<string>)
    ensures Fill(Labelled(m0, m1, m2, m3, m4, m5, m6)) ==
      PutSome(PutSome(PutSome(PutSome(PutSome(PutSome(PutSome([],
        "Province_Code", m0), "Kabupaten_Code", m1), "Link_No", m2), "Link_Code", m3),
        "Link_Name", m4), "Link_Length_Official", m5), "Link_Length_Actual", m6)
    ensures UniqueKeys(Fill(Labelled(m0, m1, m2, m3, m4, m5, m6)))
    ensures Keys(Fill(Labelled(m0, m1, m2, m3, m4, m5, m6))) == Present(Labelled(m0, m1, m2, m3, m4, m5, m6))
    ensures Get(Fill(Labelled(m0, m1, m2, m3, m4, m5, m6)), "Province_Code") == m0
    ensures Get(Fill(Labelled(m0, m1, m2, m3, m4, m5, m6)), "Kabupaten_Code") == m1
    ensures Get(Fill(Labelled(m0, m1, m2, m3, m4, m5, m6)), "Link_No") == m2
    ensures Get(Fill(Labelled(m0, m1, m2, m3, m4, m5, m6)), "Link_Code") == m3
    ensures Get(Fill(Labelled(m0, m1, m2, m3, m4, m5, m6)), "Link_Name") == m4
    ensures Get(Fill(Labelled(m0, m1, m2, m3, m4, m5, m6)), "Link_Length_Official") == m5
    ensures Get(Fill(Labelled(m0, m1, m2, m3, m4, m5, m6)), "Link_Length_Actual") == m6
  {
    var cs := Labelled(m0, m1, m2, m3, m4, m5, m6);
    LabelledNest(m0, m1, m2, m3, m4, m5, m6);
    LabelledRecords(m0, m1, m2, m3, m4, m5, m6);
    assert cs[..7] == cs;
    assert Get(Fill(cs), cs[0].0) == cs[0].1;
    assert Get(Fill(cs), cs[1].0) == cs[1].1;
    assert Get(Fill(cs), cs[2].0) == cs[2].1;
    assert Get(Fill(cs), cs[3].0) == cs[3].1;
    assert Get(Fill(cs), cs[4].0) == cs[4].1;
    assert Get(Fill(cs), cs[5].0) == cs[5].1;
    assert Get(Fill(cs), cs[6].0) == cs[6].1;
  }

  /** The seven columns are distinct. */
  lemma LabelledDistinct(m0: Option<string>, m1: Option<string>, m2: Option<string>, m3: Option<string>,
                         m4: Option<string>, m5: Option<string>, m6: Option<string>)
    ensures DistinctColumns(Labelled(m0, m1, m2, m3, m4, m5, m6))
  {
    var cs := Labelled(m0, m1, m2, m3, m4, m5, m6);
    forall i, j | 0 <= i < j < |cs| ensures cs[i].0 != cs[j].0 {
      assert |cs[i].0| != |cs[j].0| || cs[i].0[5] != cs[j].0[5];
    }
  }

  /** The dict the seven checks leave records every check. */
  lemma LabelledRecords(m0: Option<string>, m1: Option<string>, m2: Option<string>, m3: Option<string>,
                        m4: Option<string>, m5: Option<string>, m6: Option<string>)
    ensures Records(Fill(Labelled(m0, m1, m2, m3, m4, m5, m6)), Labelled(m0, m1, m2, m3, m4, m5, m6), 7)
  {
    var cs := Labelled(m0, m1, m2, m3, m4, m5, m6);
    LabelledDistinct(m0, m1, m2, m3, m4, m5, m6);
    FillRecords(cs, 7);
    assert cs[..7] == cs;
  }

  /** The seven checks, run in order, are seven assignments that may or may not happen. */
  lemma LabelledNest(m0: Option<string>, m1: Option<string>, m2: Option<string>, m3: Option<string>,
                     m4: Option<string>, m5: Option<string>, m6: Option<string>)
    ensures Fill(Labelled(m0, m1, m2, m3, m4, m5, m6)) ==
      PutSome(PutSome(PutSome(PutSome(PutSome(PutSome(PutSome([],
        "Province_Code", m0), "Kabupaten_Code", m1), "Link_No", m2), "Link_Code", m3),
        "Link_Name", m4), "Link_Length_Official", m5), "Link_Length_Actual", m6)
  {
    var c0: seq<(string, Option<string>)> := [];
    var c1 := c0 + [("Province_Code", m0)];
    var c2 := c1 + [("Kabupaten_Code", m1)];
    var c3 := c2 + [("Link_No", m2)];
    var c4 := c3 + [("Link_Code", m3)];
    var c5 := c4 + [("Link_Name", m4)];
    var c6 := c5 + [("Link_Length_Official", m5)];
    var c7 := c6 + [("Link_Length_Actual", m6)];
    assert c7 == Labelled(m0, m1, m2, m3, m4, m5, m6);
    FillSnoc(c0, "Province_Code", m0);
    FillSnoc(c1, "Kabupaten_Code", m1);
    FillSnoc(c2, "Link_No", m2);
    FillSnoc(c3, "Link_Code", m3);
    FillSnoc(c4, "Link_Name", m4);
    FillSnoc(c5, "Link_Length_Official", m5);
    FillSnoc(c6, "Link_Length_Actual", m6);
  }

  /** The Province_Code chain of `validate_row`. */
  method CheckProvinceCode(errors: Entries, province: Value) returns (r: Entries)
    ensures r == PutSome(errors, "Province_Code", ProvinceCodeError(province))
  {
    r := errors;
    if !Truthy(province) {
      r := Put(r, "Province_Code", "missing");
    } else if !IsAlpha(PyStr(province)) && !IsDigits(PyStr(province)) {
      r := Put(r, "Province_Code", "invalid format");
    }
  }

  /** `if not row[column]: errors[column] = "missing"`. */
  method CheckPresent(errors: Entries, column: string, v: Value) returns (r: Entries)
    ensures r == PutSome(errors, column, MissingError(v))
  {
    r := errors;
    if !Truthy(v) {
      r := Put(r, column, "missing");
    }
  }

  /** The Link_No chain of `validate_row`. */
  method CheckLinkNo(errors: Entries, v: Value, province: Value) returns (r: Entries)
    ensures r == PutSome(errors, "Link_No", LinkNoError(v, province))
  {
    r := errors;
    if !Truthy(v) {
      r := Put(r, "Link_No", "missing");
    } else {
      var linkNo := Strip(PyStr(v));
      var provinceCode := Strip(PyStr(province));
      if !IsDigits(linkNo) {
        r := Put(r, "Link_No", "invalid format");
      } else if |linkNo| != 12 {
        r := Put(r, "Link_No", "invalid length");
      } else if !StartsWith(linkNo, provinceCode) {
        r := Put(r, "Link_No", "does not start with province code");
      }
    }
  }

  /** The `try: float(...)` block of either length column. */
  method CheckLength(errors: Entries, column: string, v: Value) returns (r: Entries)
    ensures r == PutSome(errors, column, LengthError(v))
  {
    r := errors;
    match ToFloat(v) {
      case Some(f) =>
        if f.Finite? && f.d.Val() < 0.0 {
          r := Put(r, column, "negative not allowed");
        }
      case None =>
        r := Put(r, column, if Truthy(v) then "invalid number" else "missing");
    }
  }

  /**
   * `validate_row`: each column's message is the one its rule gives, and the
   * dict holds exactly the failing columns, in the order they are checked.
   */
  method ValidateRow(row: Row) returns (errors: Entries)
    requires HasRequired(row)
    ensures errors == Fill(Checks(row))
    ensures UniqueKeys(errors)
    ensures Keys(errors) == Present(Checks(row))
    ensures Get(errors, "Province_Code") == ProvinceCodeError(row["Province_Code"])
    ensures Get(errors, "Kabupaten_Code") == MissingError(row["Kabupaten_Code"])
    ensures Get(errors, "Link_No") == LinkNoError(row["Link_No"], row["Province_Code"])
    ensures Get(errors, "Link_Code") == MissingError(row["Link_Code"])
    ensures Get(errors, "Link_Name") == MissingError(row["Link_Name"])
    ensures Get(errors, "Link_Length_Official") == LengthError(row["Link_Length_Official"])
    ensures Get(errors, "Link_Length_Actual") == LengthError(row["Link_Length_Actual"])
  {
    errors := CheckProvinceCode([], row["Province_Code"]);
    errors := CheckPresent(errors, "Kabupaten_Code", row["Kabupaten_Code"]);
    errors := CheckLinkNo(errors, row["Link_No"], row["Province_Code"]);
    errors := CheckPresent(errors, "Link_Code", row["Link_Code"]);
    errors := CheckPresent(errors, "Link_Name", row["Link_Name"]);
    errors := CheckLength(errors, "Link_Length_Official", row["Link_Length_Official"]);
    errors := CheckLength(errors, "Link_Length_Actual", row["Link_Length_Actual"]);
    LabelledFill(ProvinceCodeError(row["Province_Code"]), MissingError(row["Kabupaten_Code"]),
                 LinkNoError(row["Link_No"], row["Province_Code"]), MissingError(row["Link_Code"]),
                 MissingError(row["Link_Name"]), LengthError(row["Link_Length_Official"]),
                 LengthError(row["Link_Length_Actual"]));
  }

  /** Every column the dict ends up holding is a required column. */
  lemma LabelledKeysRequired(m0: Option<string>, m1: Option<string>, m2: Option<string>, m3: Option<string>,
                             m4: Option<string>, m5: Option<string>, m6: Option<string>)
    ensures forall i :: 0 <= i < |Fill(Labelled(m0, m1, m2, m3, m4, m5, m6))| ==>
      Fill(Labelled(m0, m1, m2, m3, m4, m5, m6))[i].0 in Required
  {
    var cs := Labelled(m0, m1, m2, m3, m4, m5, m6);
    LabelledDistinct(m0, m1, m2, m3, m4, m5, m6);
    FillColumns(cs, Required);
  }

  lemma LabelledNone(m0: Option<string>, m1: Option<string>, m2: Option<string>, m3: Option<string>,
                     m4: Option<string>, m5: Option<string>, m6: Option<string>)
    ensures Present(Labelled(m0, m1, m2, m3, m4, m5, m6)) == [] <==>
      m0.None? && m1.None? && m2.None? && m3.None? && m4.None? && m5.None? && m6.None?
  {
    var cs := Labelled(m0, m1, m2, m3, m4, m5, m6);
    PresentEmpty(cs);
    assert cs[0].1 == m0 && cs[1].1 == m1 && cs[2].1 == m2 && cs[3].1 == m3;
    assert cs[4].1 == m4 && cs[5].1 == m5 && cs[6].1 == m6;
  }

  /** The row is valid, `validate_row` returning an empty dict, exactly when every rule passes. */
  lemma RowValidIff(row: Row)
    requires HasRequired(row)
    ensures Present(Checks(row)) == [] <==>
      Truthy(row["Province_Code"]) && (IsAlpha(PyStr(row["Province_Code"])) || IsDigits(PyStr(row["Province_Code"])))
      && Truthy(row["Kabupaten_Code"])
      && Truthy(row["Link_No"])
      && WellFormedLinkNo(Strip(PyStr(row["Link_No"])), Strip(PyStr(row["Province_Code"])))
      && Truthy(row["Link_Code"]) && Truthy(row["Link_Name"])
      && LengthError(row["Link_Length_Official"]).None? && LengthError(row["Link_Length_Actual"]).None?
  {
    LabelledNone(ProvinceCodeError(row["Province_Code"]), MissingError(row["Kabupaten_Code"]),
                 LinkNoError(row["Link_No"], row["Province_Code"]), MissingError(row["Link_Code"]),
                 MissingError(row["Link_Name"]), LengthError(row["Link_Length_Official"]),
                 LengthError(row["Link_Length_Actual"]));
  }

  /** A blank Province_Code lets every twelve-digit Link_No pass the prefix test. */
  lemma BlankProvinceAnyPrefix(v: Value, province: Value)
    requires Strip(PyStr(province)) == ""
    requires Truthy(v) && IsDigits(Strip(PyStr(v))) && |Strip(PyStr(v))| == 12
    ensures LinkNoError(v, province) == None
  {
    assert StartsWith(Strip(PyStr(v)), "");
  }

  lemma DigitsNotNone(s: string)
    requires IsDigits(s)
    ensures !StartsWith(s, "None")
  {
    if |s| >= 4 {
      assert s[..4][0] == s[0];
    }
  }

  /** A Province_Code of None reads as the text None, which no digit string starts with. */
  lemma NoneProvinceNeverPrefix(v: Value)
    requires Truthy(v)
    ensures LinkNoError(v, Null) != None
  {
    assert PyStr(Null) == "None";
    StripNoSpace("None");
    if IsDigits(Strip(PyStr(v))) {
      DigitsNotNone(Strip(PyStr(v)));
    }
  }

  /** Lengths: 0 and nan pass, -1 is negative, and a blank cell is missing. */
  lemma LengthExamples()
    ensures LengthError(Int(0)) == None
    ensures LengthError(NaN) == None
    ensures LengthError(Int(-1)) == Some("negative not allowed")
    ensures LengthError(Str("")) == Some("missing")
    ensures LengthError(Null) == Some("missing")
  {
    assert Dec(0, 0).Val() == 0.0;
    assert Dec(-1, 0).Val() == -1.0;
    assert Strip("") == "";
    assert ParseFloat("") == None;
  }

  /**
   * A row whose seven cells are all blank, as `fillna("")` leaves an empty
   * record, is reported "missing" in every column, in column order.
   */
  lemma BlankRowAllMissing(row: Row)
    requires HasRequired(row)
    requires row["Province_Code"] == Str("") && row["Kabupaten_Code"] == Str("") && row["Link_No"] == Str("")
    requires row["Link_Code"] == Str("") && row["Link_Name"] == Str("")
    requires row["Link_Length_Official"] == Str("") && row["Link_Length_Actual"] == Str("")
    ensures Present(Checks(row)) == Required
    ensures forall i :: 0 <= i < |Checks(row)| ==> Checks(row)[i].1 == Some("missing")
  {
    BlankCellsMissing();
    LabelledAllPresent(ProvinceCodeError(row["Province_Code"]), MissingError(row["Kabupaten_Code"]),
                       LinkNoError(row["Link_No"], row["Province_Code"]), MissingError(row["Link_Code"]),
                       MissingError(row["Link_Name"]), LengthError(row["Link_Length_Official"]),
                       LengthError(row["Link_Length_Actual"]));
  }

  /** When all seven checks fail, every required column is reported, in order. */
  lemma LabelledAllPresent(m0: Option<string>, m1: Option<string>, m2: Option<string>, m3: Option<string>,
                           m4: Option<string>, m5: Option<string>, m6: Option<string>)
    requires m0.Some? && m1.Some? && m2.Some? && m3.Some? && m4.Some? && m5.Some? && m6.Some?
    ensures Present(Labelled(m0, m1, m2, m3, m4, m5, m6)) == Required
  {
    var cs := Labelled(m0, m1, m2, m3, m4, m5, m6);
    PresentAll(cs);
    assert forall i :: 0 <= i < |cs| ==> Present(cs)[i] == Required[i];
  }

  /** Each rule reports a blank cell "missing". */
  lemma BlankCellsMissing()
    ensures ProvinceCodeError(Str("")) == Some("missing")
    ensures MissingError(Str("")) == Some("missing")
    ensures LinkNoError(Str(""), Str("")) == Some("missing")
    ensures LengthError(Str("")) == Some("missing")
  {
    LengthExamples();
  }
}
