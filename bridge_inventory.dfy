/**
 * The BridgeInventory table's `validate_row`: the same dict of one message
 * per column as the Link table's, with a Year range, the Link table's
 * Province_Code and Link_No chains, a Bridge_Number presence test, and a
 * closing Link existence test whose message replaces any earlier Link_No
 * message.
 */
module BridgeInventory {
  import opened Wrappers
  import opened Text
  import opened Numbers
  import opened Values
  import opened Tables
  import opened ErrorMaps
  import opened LinkTable

  const Required: seq<string> := ["Year", "Province_Code", "Kabupaten_Code", "Link_No", "Bridge_Number"]

  /** `row[c]` raises KeyError for an absent column, so every required column must be there. */
  predicate HasBridgeColumns(row: Row) {
    "Year" in row && "Province_Code" in row && "Kabupaten_Code" in row && "Link_No" in row && "Bridge_Number" in row
  }

  const YearMessage := "year out of valid range (1900-2100)"

  /** `float(Year)` must lie in 1900..2100, both included; when it raises, "invalid number" or "missing". */
  function YearError(v: Value): (r: Option<string>)
    ensures r == Some(YearMessage) <==>
      ToFloat(v).Some? && ToFloat(v).value.Finite?
      && (ToFloat(v).value.d.Val() < 1900.0 || ToFloat(v).value.d.Val() > 2100.0)
    ensures r == Some("invalid number") <==> ToFloat(v).None? && Truthy(v)
    ensures r == Some("missing") <==> ToFloat(v).None? && !Truthy(v)
  {
    match ToFloat(v)
    case Some(f) =>
      if f.Finite? && (f.d.Val() < 1900.0 || f.d.Val() > 2100.0) then Some(YearMessage) else None
    case None => if Truthy(v) then Some("invalid number") else Some("missing")
  }

  function ExistenceMessage(v: Value): string {
    "Link_No '" + PyStr(v) + "' does not exist in Link table"
  }

  /**
   * The cross-table test: a Link table with a Link_No column is given, the
   * row's Link_No is truthy and not blank, and no Link row holds an equal value.
   */
  predicate LinkMissing(v: Value, link: Option<Table>) {
    link.Some? && "Link_No" in link.value.columns
    && Truthy(v) && Strip(PyStr(v)) != ""
    && !InValues(v, ColumnValues(link.value, "Link_No"))
  }

  /** The Link_No message after the existence test: the existence message if it fires, else the format chain's. */
  function LinkNoMessage(v: Value, province: Value, link: Option<Table>): (r: Option<string>)
    ensures LinkMissing(v, link) ==> r == Some(ExistenceMessage(v))
    ensures !LinkMissing(v, link) ==> r == LinkNoError(v, province)
  {
    if LinkMissing(v, link) then Some(ExistenceMessage(v)) else LinkNoError(v, province)
  }

  /** The five column checks in the order they run, each with the message it gave. */
  function Labelled(year: Option<string>, province: Option<string>, kabupaten: Option<string>,
                    linkNo: Option<string>, bridge: Option<string>): seq<(string, Option<string>)>
  {
    [("Year", year), ("Province_Code", province), ("Kabupaten_Code", kabupaten),
     ("Link_No", linkNo), ("Bridge_Number", bridge)]
  }

  /** Each required column with the message of its own rule, before the existence test. */
  function Checks(row: Row): seq<(string, Option<string>)>
    requires HasBridgeColumns(row)
  {
    Labelled(YearError(row["Year"]), ProvinceCodeError(row["Province_Code"]),
             MissingError(row["Kabupaten_Code"]), LinkNoError(row["Link_No"], row["Province_Code"]),
             MissingError(row["Bridge_Number"]))
  }

  /** Running the five checks leaves exactly the failing columns, in check order, with their messages. */
  lemma LabelledFill(m0: Option<string>, m1: Option<string>, m2: Option<string>, m3: Option<string>,
                     m4: Option<string>)
    ensures Fill(Labelled(m0, m1, m2, m3, m4)) ==
      PutSome(PutSome(PutSome(PutSome(PutSome([],
        "Year", m0), "Province_Code", m1), "Kabupaten_Code", m2), "Link_No", m3), "Bridge_Number", m4)
    ensures UniqueKeys(Fill(Labelled(m0, m1, m2, m3, m4)))
    ensures Keys(Fill(Labelled(m0, m1, m2, m3, m4))) == Present(Labelled(m0, m1, m2, m3, m4))
    ensures Get(Fill(Labelled(m0, m1, m2, m3, m4)), "Year") == m0
    ensures Get(Fill(Labelled(m0, m1, m2, m3, m4)), "Province_Code") == m1
    ensures Get(Fill(Labelled(m0, m1, m2, m3, m4)), "Kabupaten_Code") == m2
    ensures Get(Fill(Labelled(m0, m1, m2, m3, m4)), "Link_No") == m3
    ensures Get(Fill(Labelled(m0, m1, m2, m3, m4)), "Bridge_Number") == m4
  {
    var cs := Labelled(m0, m1, m2, m3, m4);
    LabelledNest(m0, m1, m2, m3, m4);
    LabelledRecords(m0, m1, m2, m3, m4);
    assert cs[..5] == cs;
    assert Get(Fill(cs), cs[0].0) == cs[0].1;
    assert Get(Fill(cs), cs[1].0) == cs[1].1;
    assert Get(Fill(cs), cs[2].0) == cs[2].1;
    assert Get(Fill(cs), cs[3].0) == cs[3].1;
    assert Get(Fill(cs), cs[4].0) == cs[4].1;
  }

  /** The five columns are distinct. */
  lemma LabelledDistinct(m0: Option<string>, m1: Option<string>, m2: Option<string>, m3: Option<string>,
                         m4: Option<string>)
    ensures DistinctColumns(Labelled(m0, m1, m2, m3, m4))
  {
    var cs := Labelled(m0, m1, m2, m3, m4);
    forall i, j | 0 <= i < j < |cs| ensures cs[i].0 != cs[j].0 {
      assert |cs[i].0| != |cs[j].0| || cs[i].0[0] != cs[j].0[0];
    }
  }

  /** The dict the five checks leave records every check. */
  lemma LabelledRecords(m0: Option<string>, m1: Option<string>, m2: Option<string>, m3: Option<string>,
                        m4: Option<string>)
    ensures Records(Fill(Labelled(m0, m1, m2, m3, m4)), Labelled(m0, m1, m2, m3, m4), 5)
  {
    LabelledDistinct(m0, m1, m2, m3, m4);
    FillRecords(Labelled(m0, m1, m2, m3, m4), 5);
    assert Labelled(m0, m1, m2, m3, m4)[..5] == Labelled(m0, m1, m2, m3, m4);
  }

  /** The five checks, run in order, are five assignments that may or may not happen. */
  lemma LabelledNest(m0: Option<string>, m1: Option<string>, m2: Option<string>, m3: Option<string>,
                     m4: Option<string>)
    ensures Fill(Labelled(m0, m1, m2, m3, m4)) ==
      PutSome(PutSome(PutSome(PutSome(PutSome([],
        "Year", m0), "Province_Code", m1), "Kabupaten_Code", m2), "Link_No", m3), "Bridge_Number", m4)
  {
    var c0: seq<(string, Option<string>)> := [];
    var c1 := c0 + [("Year", m0)];
    var c2 := c1 + [("Province_Code", m1)];
    var c3 := c2 + [("Kabupaten_Code", m2)];
    var c4 := c3 + [("Link_No", m3)];
    var c5 := c4 + [("Bridge_Number", m4)];
    assert c5 == Labelled(m0, m1, m2, m3, m4);
    FillSnoc(c0, "Year", m0);
    FillSnoc(c1, "Province_Code", m1);
    FillSnoc(c2, "Kabupaten_Code", m2);
    FillSnoc(c3, "Link_No", m3);
    FillSnoc(c4, "Bridge_Number", m4);
  }

  /**
   * The existence message, when there is one, replaces the Link_No message:
   * Link_No keeps its place when it already failed a format test, and comes
   * last when it had passed them; nothing else changes.
   */
  lemma Overwrite(e: Entries, x: Option<string>)
    requires UniqueKeys(e)
    ensures UniqueKeys(PutSome(e, "Link_No", x))
    ensures Keys(PutSome(e, "Link_No", x)) ==
      Keys(e) + (if x.Some? && Get(e, "Link_No").None? then ["Link_No"] else [])
    ensures Get(PutSome(e, "Link_No", x), "Link_No") == (if x.Some? then x else Get(e, "Link_No"))
    ensures forall c :: c != "Link_No" ==> Get(PutSome(e, "Link_No", x), c) == Get(e, c)
  {
    if x.Some? {
      PutKeys(e, "Link_No", x.value);
      PutKeepsUnique(e, "Link_No", x.value);
      forall c | c != "Link_No" ensures Get(Put(e, "Link_No", x.value), c) == Get(e, c) {
        PutOther(e, "Link_No", x.value, c);
      }
    }
  }

  /** The Year block of `validate_row`. */
  method CheckYear(errors: Entries, v: Value) returns (r: Entries)
    ensures r == PutSome(errors, "Year", YearError(v))
  {
    r := errors;
    match ToFloat(v) {
      case Some(f) =>
        if f.Finite? && (f.d.Val() < 1900.0 || f.d.Val() > 2100.0) {
          r := Put(r, "Year", YearMessage);
        }
      case None =>
        r := Put(r, "Year", if Truthy(v) then "invalid number" else "missing");
    }
  }

  /** The cross-table block of `validate_row`, which overwrites any Link_No message. */
  method CheckExists(errors: Entries, v: Value, link: Option<Table>) returns (r: Entries)
    ensures r == PutSome(errors, "Link_No", if LinkMissing(v, link) then Some(ExistenceMessage(v)) else None)
  {
    r := errors;
    if link.Some? && "Link_No" in link.value.columns {
      if Truthy(v) && Strip(PyStr(v)) != "" {
        if !InValues(v, ColumnValues(link.value, "Link_No")) {
          r := Put(r, "Link_No", ExistenceMessage(v));
        }
      }
    }
  }

  /**
   * `validate_row(row, df_link)`: Year, Province_Code, Kabupaten_Code and
   * Bridge_Number carry the messages of their rules; Link_No carries the
   * existence message when that test fires and its format message otherwise;
   * the keys are the failing columns in check order, with Link_No added last
   * when only the existence test failed it.
   */
  method ValidateRow(row: Row, link: Option<Table>) returns (errors: Entries)
    requires HasBridgeColumns(row)
    ensures UniqueKeys(errors)
    ensures Keys(errors) == Present(Checks(row))
      + (if LinkMissing(row["Link_No"], link) && LinkNoError(row["Link_No"], row["Province_Code"]).None? then ["Link_No"] else [])
    ensures Get(errors, "Year") == YearError(row["Year"])
    ensures Get(errors, "Province_Code") == ProvinceCodeError(row["Province_Code"])
    ensures Get(errors, "Kabupaten_Code") == MissingError(row["Kabupaten_Code"])
    ensures Get(errors, "Link_No") == LinkNoMessage(row["Link_No"], row["Province_Code"], link)
    ensures Get(errors, "Bridge_Number") == MissingError(row["Bridge_Number"])
  {
    errors := CheckYear([], row["Year"]);
    errors := CheckProvinceCode(errors, row["Province_Code"]);
    errors := CheckPresent(errors, "Kabupaten_Code", row["Kabupaten_Code"]);
    errors := CheckLinkNo(errors, row["Link_No"], row["Province_Code"]);
    errors := CheckPresent(errors, "Bridge_Number", row["Bridge_Number"]);
    errors := CheckExists(errors, row["Link_No"], link);
    ghost var before := Fill(Checks(row));
    LabelledFill(YearError(row["Year"]), ProvinceCodeError(row["Province_Code"]),
                 MissingError(row["Kabupaten_Code"]), LinkNoError(row["Link_No"], row["Province_Code"]),
                 MissingError(row["Bridge_Number"]));
    Overwrite(before, if LinkMissing(row["Link_No"], link) then Some(ExistenceMessage(row["Link_No"])) else None);
  }

  /** An integer Year passes exactly from 1900 to 2100, both included. */
  lemma YearBounds(y: int)
    ensures YearError(Int(y)) == None <==> 1900 <= y <= 2100
    ensures YearError(Int(y)) != None ==> YearError(Int(y)) == Some(YearMessage)
  {
    assert Dec(y, 0).Val() == y as real;
  }

  /** Without a Link table, or one lacking a Link_No column, Link_No keeps the message of its format chain. */
  lemma NoLinkTableNoOverwrite(v: Value, province: Value, link: Option<Table>)
    requires link.None? || "Link_No" !in link.value.columns
    ensures LinkNoMessage(v, province, link) == LinkNoError(v, province)
  {
  }

  /** Against a Link table with no rows, every truthy, non-blank Link_No gets the existence message. */
  lemma EmptyLinkTableRejects(v: Value, province: Value)
    requires Truthy(v) && Strip(PyStr(v)) != ""
    ensures LinkNoMessage(v, province, Some(Table(["Link_No"], []))) == Some(ExistenceMessage(v))
  {
    assert ColumnValues(Table(["Link_No"], []), "Link_No") == [];
  }
}
