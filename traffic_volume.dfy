/**
 * The TrafficVolume validator: the empty-table sentinel, the missing-columns
 * sentinel, one finding per row of every Link_No that occurs more than
 * once, then the row findings of the shared recipe.  Its type check has its
 * own Yes/No spellings and a Year rule bounded by the current year, which
 * the model takes as a parameter.
 */
module TrafficVolume {
  import opened Wrappers
  import opened Text
  import opened Numbers
  import opened Values
  import opened Sorting
  import opened Tables

  const Required: seq<string> := ["Year", "Province_Code", "Kabupaten_Code", "Link_No"]

  const NonNegative := NumRange(0, None)

  const Fields: seq<(string, FieldDef)> := [
    ("Year", NumberField(None)),
    ("Province_Code", TextField()),
    ("Kabupaten_Code", TextField()),
    ("Link_No", TextField()),
    ("MarketDay", YesNoField()),
    ("TrafficCount", TextField()),
    ("JourneyTime", NumberField(Some(NonNegative))),
    ("AADT_MC", NumberField(Some(NonNegative))),
    ("AADT_Car", NumberField(Some(NonNegative))),
    ("AADT_Pickup", NumberField(Some(NonNegative))),
    ("AADT_MicroTruck", NumberField(Some(NonNegative))),
    ("AADT_Small_Bus", NumberField(Some(NonNegative))),
    ("AADT_Large_Bus", NumberField(Some(NonNegative))),
    ("AADT_Small_Truck", NumberField(Some(NonNegative))),
    ("AADT_Medium_Truck", NumberField(Some(NonNegative))),
    ("AADT_Large_Truck", NumberField(Some(NonNegative))),
    ("AADT_Truck_Trailer", NumberField(Some(NonNegative))),
    ("AADT_Semi_Trailer", NumberField(Some(NonNegative))),
    ("AnalysisBaseYear", YesNoField()),
    ("SurveyBy", TextField())
  ]

  const YearMessage := "Enter a valid year"

  /** A parsed Year passes when it lies between 1900 and the current year; nan passes every comparison. */
  predicate YearInRange(f: PyFloat, currentYear: int) {
    match f
    case NotANumber => true
    case Finite(d) => !(d.Val() <= 0.0) && !(d.Val() < 1900.0 || d.Val() > currentYear as real)
  }

  /** The six words a stripped, lower-cased string may be. */
  predicate YesNoWord(t: string) {
    t in {"yes", "no", "true", "false", "1", "0"}
  }

  /** A bool, the number 0 or 1, or a string that strips and lower-cases to one of the six words. */
  predicate YesNoAccepted(v: Value) {
    match v
    case Bool(_) => true
    case Int(i) => i == 0 || i == 1
    case Float(d) => d.Val() == 0.0 || d.Val() == 1.0
    case Str(s) => YesNoWord(Lower(Strip(s)))
    case _ => false
  }

  function YesNoMessage(v: Value): string {
    "Value must be Yes/No, True/False, or 0/1, got " + PyStr(v)
  }

  /** `validate_data_type` of the TrafficVolume validator, `datetime.now().year` given as `currentYear`. */
  function CheckType(v: Value, name: string, def: FieldDef, currentYear: int): (r: Verdict)
    ensures IsEmpty(v) ==> r == Valid
    ensures def.kind.ShortText? ==> r == Valid
    ensures def.kind.Number? && name == "Year" && !IsEmpty(v) ==>
      (r.Valid? <==> ToFloat(v).Some? && YearInRange(ToFloat(v).value, currentYear))
      && (r.Invalid? ==> r.msg == YearMessage)
    ensures def.kind.Number? && name != "Year" && !IsEmpty(v) ==>
      (r.Valid? <==> ToFloat(v).Some? && (def.range.None? || InRange(ToFloat(v).value, def.range.value)))
    ensures def.kind.Number? && name != "Year" && !IsEmpty(v) && ToFloat(v).None? ==>
      r == Invalid("Value must be numeric, got " + TypeName(v))
    ensures def.kind.Number? && name != "Year" && def.range.Some? && !IsEmpty(v) && ToFloat(v).Some? && r.Invalid? ==>
      r.msg == RangeMessage(def.range.value)
    ensures def.kind.YesNo? && !IsEmpty(v) ==> (r.Valid? <==> YesNoAccepted(v))
    ensures def.kind.YesNo? && r.Invalid? ==> r.msg == YesNoMessage(v)
  {
    if IsEmpty(v) then Valid
    else
      match def.kind
      case ShortText => Valid
      case Number =>
        (match ToFloat(v)
         case None => if name == "Year" then Invalid(YearMessage) else Invalid("Value must be numeric, got " + TypeName(v))
         case Some(f) =>
           if name == "Year" then
             (if YearInRange(f, currentYear) then Valid else Invalid(YearMessage))
           else if def.range.Some? && !InRange(f, def.range.value) then Invalid(RangeMessage(def.range.value))
           else Valid)
      case YesNo => if YesNoAccepted(v) then Valid else Invalid(YesNoMessage(v))
  }

  /** An integer Year passes exactly from 1900 up to the current year, both included. */
  lemma YearBounds(y: int, currentYear: int)
    ensures CheckType(Int(y), "Year", NumberField(None), currentYear).Valid? <==> 1900 <= y <= currentYear
  {
    assert !IsEmpty(Int(y));
  }

  /** JourneyTime and the eleven AADT counts pass exactly from 0 up; below, the message reads "between 0 and inf". */
  lemma QuantityBounds(k: nat, x: int, currentYear: int)
    requires 6 <= k <= 17
    ensures Fields[k].1 == NumberField(Some(NonNegative))
    ensures CheckType(Int(x), Fields[k].0, Fields[k].1, currentYear) ==
      (if x >= 0 then Valid else Invalid("Value must be between 0 and inf"))
  {
    assert !IsEmpty(Int(x));
    assert Fields[k].0 != "Year";
    assert RangeMessage(NonNegative) == "Value must be between " + IntText(0) + " and inf";
    assert IntText(0) == "0";
  }

  /** The accepted words pass whatever their case and padding; on and off do not. */
  lemma YesNoWords(w: string)
    requires forall k :: 0 <= k < |w| ==> !IsSpace(w[k])
    ensures YesNoAccepted(Str(w)) <==> YesNoWord(Lower(w))
    ensures YesNoAccepted(Str(" " + w + " ")) <==> YesNoWord(Lower(w))
  {
    StripNoSpace(w);
    StripSpaced(w);
  }

  /** How many rows of the first `n` hold a Link_No equal to `key`. */
  function Count(rows: seq<Row>, key: Value, n: nat): (c: nat)
    requires n <= |rows|
    ensures c <= n
  {
    if n == 0 then 0
    else Count(rows, key, n - 1) + (if PyEq(Cell(rows[n - 1], "Link_No"), key) then 1 else 0)
  }

  /** `link_no_counts > 1`: the keys that occur more than once. */
  function Repeated(rows: seq<Row>, ks: seq<Value>): (r: seq<Value>)
    ensures forall v :: v in r <==> v in ks && Count(rows, v, |rows|) > 1
  {
    if ks == [] then []
    else
      Repeated(rows, ks[..|ks| - 1])
      + (if Count(rows, ks[|ks| - 1], |rows|) > 1 then [ks[|ks| - 1]] else [])
  }

  /**
   * `value_counts()` order: most frequent first, keys of equal count in
   * order of first appearance.
   */
  function DuplicateKeys(rows: seq<Row>): seq<Value> {
    SortBy(Repeated(rows, FirstKeys(rows, |rows|)), (a: Value, b: Value) => Count(rows, a, |rows|) >= Count(rows, b, |rows|))
  }

  function DuplicateMessage(key: Value): string {
    "Link_No '" + PyStr(key) + "' is duplicated - only one record per link is allowed"
  }

  /** `df[df["Link_No"] == key]`, one finding per row, among the first `n` rows. */
  function KeyFindings(rows: seq<Row>, key: Value, n: nat): seq<Finding>
    requires n <= |rows|
  {
    if n == 0 then []
    else
      KeyFindings(rows, key, n - 1)
      + (if PyEq(LinkOf(rows, n - 1), key) then [Finding(Ordinal(n), rows[n - 1], DuplicateMessage(key))] else [])
  }

  function DuplicateFindingsFor(rows: seq<Row>, keys: seq<Value>): seq<Finding> {
    if keys == [] then []
    else DuplicateFindingsFor(rows, keys[..|keys| - 1]) + KeyFindings(rows, keys[|keys| - 1], |rows|)
  }

  function DuplicateFindings(rows: seq<Row>): seq<Finding> {
    DuplicateFindingsFor(rows, DuplicateKeys(rows))
  }

  /** `df[df["Link_No"] == key].iterrows()`: one finding per row holding `key`. */
  method CollectKey(rows: seq<Row>, key: Value) returns (fs: seq<Finding>)
    ensures fs == KeyFindings(rows, key, |rows|)
  {
    fs := [];
    var i := 0;
    while i < |rows|
      invariant 0 <= i <= |rows|
      invariant fs == KeyFindings(rows, key, i)
    {
      assert KeyFindings(rows, key, i + 1) == KeyFindings(rows, key, i)
        + (if PyEq(LinkOf(rows, i), key) then [Finding(Ordinal(i + 1), rows[i], DuplicateMessage(key))] else []);
      if PyEq(Cell(rows[i], "Link_No"), key) {
        fs := fs + [Finding(Ordinal(i + 1), rows[i], DuplicateMessage(key))];
      }
      i := i + 1;
    }
  }

  /** The loop over the duplicated keys. */
  method FindDuplicates(rows: seq<Row>) returns (fs: seq<Finding>)
    ensures fs == DuplicateFindings(rows)
  {
    var keys := DuplicateKeys(rows);
    fs := [];
    var g := 0;
    while g < |keys|
      invariant 0 <= g <= |keys|
      invariant fs == DuplicateFindingsFor(rows, keys[..g])
    {
      var found := CollectKey(rows, keys[g]);
      fs := fs + found;
      g := g + 1;
      assert keys[..g][..g - 1] == keys[..g - 1];
    }
    assert keys[..g] == keys;
  }

  /** A row holds a Link_No that is present and shared with another row. */
  ghost predicate Duplicated(rows: seq<Row>, i: nat)
    requires i < |rows|
  {
    !IsNa(LinkOf(rows, i)) && Count(rows, LinkOf(rows, i), |rows|) > 1
  }

  /** Equal keys are counted alike. */
  lemma {:induction false} CountCongruent(rows: seq<Row>, a: Value, b: Value, n: nat)
    requires n <= |rows| && PyEq(a, b)
    ensures Count(rows, a, n) == Count(rows, b, n)
    decreases n
  {
    if n > 0 {
      CountCongruent(rows, a, b, n - 1);
      var v := LinkOf(rows, n - 1);
      PyEqEquivalence(v, a, b);
      PyEqEquivalence(v, b, a);
      PyEqEquivalence(a, b, v);
    }
  }

  /** The findings for `key` are the rows equal to it, numbered by position plus one. */
  lemma {:induction false} KeyFindingsMeaning(rows: seq<Row>, key: Value, n: nat)
    requires n <= |rows|
    ensures forall f :: f in KeyFindings(rows, key, n) ==>
      exists i :: 0 <= i < n && PyEq(LinkOf(rows, i), key) && f == Finding(Ordinal(i + 1), rows[i], DuplicateMessage(key))
    ensures forall i :: 0 <= i < n && PyEq(LinkOf(rows, i), key) ==>
      Finding(Ordinal(i + 1), rows[i], DuplicateMessage(key)) in KeyFindings(rows, key, n)
  {
    KeyFindingsSound(rows, key, n);
    KeyFindingsComplete(rows, key, n);
  }

  lemma {:induction false} KeyFindingsSound(rows: seq<Row>, key: Value, n: nat)
    requires n <= |rows|
    ensures forall f :: f in KeyFindings(rows, key, n) ==>
      exists i :: 0 <= i < n && PyEq(LinkOf(rows, i), key) && f == Finding(Ordinal(i + 1), rows[i], DuplicateMessage(key))
    decreases n
  {
    if n > 0 {
      KeyFindingsSound(rows, key, n - 1);
      var prev := KeyFindings(rows, key, n - 1);
      forall f | f in KeyFindings(rows, key, n)
        ensures exists i :: 0 <= i < n && PyEq(LinkOf(rows, i), key) && f == Finding(Ordinal(i + 1), rows[i], DuplicateMessage(key))
      {
        if f !in prev {
          var i := n - 1;
          assert PyEq(LinkOf(rows, i), key) && f == Finding(Ordinal(i + 1), rows[i], DuplicateMessage(key));
        }
      }
    }
  }

  lemma KeyFindingsComplete(rows: seq<Row>, key: Value, n: nat)
    requires n <= |rows|
    ensures forall i :: 0 <= i < n && PyEq(LinkOf(rows, i), key) ==>
      Finding(Ordinal(i + 1), rows[i], DuplicateMessage(key)) in KeyFindings(rows, key, n)
  {
    forall i | 0 <= i < n && PyEq(LinkOf(rows, i), key)
      ensures Finding(Ordinal(i + 1), rows[i], DuplicateMessage(key)) in KeyFindings(rows, key, n)
    {
      KeyFindingsHas(rows, key, n, i);
    }
  }

  /** Row `i` of a key's rows has its finding among the first `n`, for any `n` past it. */
  lemma {:induction false} KeyFindingsHas(rows: seq<Row>, key: Value, n: nat, i: nat)
    requires i < n <= |rows| && PyEq(LinkOf(rows, i), key)
    ensures Finding(Ordinal(i + 1), rows[i], DuplicateMessage(key)) in KeyFindings(rows, key, n)
    decreases n
  {
    if i < n - 1 {
      KeyFindingsHas(rows, key, n - 1, i);
      KeyFindingsGrow(rows, key, n);
    }
  }

  /** The findings among the first `n - 1` rows stay among the first `n`. */
  lemma KeyFindingsGrow(rows: seq<Row>, key: Value, n: nat)
    requires 0 < n <= |rows|
    ensures forall f :: f in KeyFindings(rows, key, n - 1) ==> f in KeyFindings(rows, key, n)
  {
    var tail := if PyEq(LinkOf(rows, n - 1), key) then [Finding(Ordinal(n), rows[n - 1], DuplicateMessage(key))] else [];
    assert KeyFindings(rows, key, n) == KeyFindings(rows, key, n - 1) + tail;
  }

  lemma {:induction false} DuplicateFindingsForMeaning(rows: seq<Row>, keys: seq<Value>)
    ensures forall f :: f in DuplicateFindingsFor(rows, keys) ==>
      exists k, i :: k in keys && 0 <= i < |rows| && PyEq(LinkOf(rows, i), k)
        && f == Finding(Ordinal(i + 1), rows[i], DuplicateMessage(k))
    ensures forall k, i :: k in keys && 0 <= i < |rows| && PyEq(LinkOf(rows, i), k) ==>
      Finding(Ordinal(i + 1), rows[i], DuplicateMessage(k)) in DuplicateFindingsFor(rows, keys)
    decreases |keys|
  {
    if keys != [] {
      var init := keys[..|keys| - 1];
      var last := keys[|keys| - 1];
      DuplicateFindingsForMeaning(rows, init);
      KeyFindingsMeaning(rows, last, |rows|);
      assert keys == init + [last];
      var fs := DuplicateFindingsFor(rows, keys);
      forall f | f in fs
        ensures exists k, i :: (k in keys && 0 <= i < |rows| && PyEq(LinkOf(rows, i), k)
          && f == Finding(Ordinal(i + 1), rows[i], DuplicateMessage(k)))
      {
        if f in DuplicateFindingsFor(rows, init) {
          var k, i :| k in init && 0 <= i < |rows| && PyEq(LinkOf(rows, i), k)
            && f == Finding(Ordinal(i + 1), rows[i], DuplicateMessage(k));
          assert k in keys;
        } else {
          assert f in KeyFindings(rows, last, |rows|);
        }
      }
    }
  }

  /**
   * The duplicate findings are exactly the rows whose Link_No is present and
   * occurs more than once: each reported row is such a row, and each such
   * row is reported, numbered by its position plus one.
   */
  lemma DuplicatesExactly(rows: seq<Row>)
    ensures forall f :: f in DuplicateFindings(rows) ==>
      exists i :: 0 <= i < |rows| && Duplicated(rows, i) && f.recordNo == Ordinal(i + 1) && f.cells == rows[i]
    ensures forall i :: 0 <= i < |rows| && Duplicated(rows, i) ==>
      exists f :: f in DuplicateFindings(rows) && f.recordNo == Ordinal(i + 1) && f.cells == rows[i]
  {
    var keys := DuplicateKeys(rows);
    var firsts := FirstKeys(rows, |rows|);
    var reps := Repeated(rows, firsts);
    DuplicateFindingsForMeaning(rows, keys);
    assert forall k :: k in keys <==> k in reps by {
      forall k ensures k in keys <==> k in reps {
        assert k in keys <==> k in multiset(keys);
        assert k in reps <==> k in multiset(reps);
      }
    }
    forall f | f in DuplicateFindings(rows)
      ensures exists i :: 0 <= i < |rows| && Duplicated(rows, i) && f.recordNo == Ordinal(i + 1) && f.cells == rows[i]
    {
      var k, i :| k in keys && 0 <= i < |rows| && PyEq(LinkOf(rows, i), k)
        && f == Finding(Ordinal(i + 1), rows[i], DuplicateMessage(k));
      assert k in firsts;
      PyEqEquivalence(LinkOf(rows, i), k, k);
      CountCongruent(rows, LinkOf(rows, i), k, |rows|);
      assert Duplicated(rows, i);
    }
    forall i | 0 <= i < |rows| && Duplicated(rows, i)
      ensures exists f :: f in DuplicateFindings(rows) && f.recordNo == Ordinal(i + 1) && f.cells == rows[i]
    {
      FirstKeysCover(rows, |rows|, i);
      var k :| k in firsts && PyEq(LinkOf(rows, i), k);
      CountCongruent(rows, LinkOf(rows, i), k, |rows|);
      assert k in keys;
      var f := Finding(Ordinal(i + 1), rows[i], DuplicateMessage(k));
      assert f in DuplicateFindings(rows);
    }
  }

  function TrafficRecipe(columns: seq<string>, link: Option<Table>, currentYear: int): Recipe {
    Recipe(Required, Fields, (v: Value, name: string, def: FieldDef) => CheckType(v, name, def, currentYear),
           (row: Row) => LinkExistence(link, columns, row))
  }

  /**
   * `validate_traffic_volume`: EMPTY_DB for an empty frame, checked before the
   * columns; N/A for missing required columns; otherwise the duplicate
   * findings followed by the row findings.
   */
  function ValidateTrafficVolume(t: Table, link: Option<Table>, currentYear: int): (r: Report)
    ensures FrameEmpty(t) ==> |r.findings| == 1 && r.findings[0].recordNo == EmptyDb
    ensures FrameEmpty(t) ==> r == EmptyDbReport("TrafficVolume")
    ensures !FrameEmpty(t) && MissingColumns(Required, t.columns) != [] ==>
      |r.findings| == 1 && r.findings[0].recordNo == NotApplicable
    ensures !FrameEmpty(t) && MissingColumns(Required, t.columns) != [] ==> r == MissingColumnsReport(t.columns, MissingColumns(Required, t.columns))
  {
    if FrameEmpty(t) then EmptyDbReport("TrafficVolume")
    else
      var missing := MissingColumns(Required, t.columns);
      if missing != [] then MissingColumnsReport(t.columns, missing)
      else Report(t.columns, DuplicateFindings(t.rows) + RowFindings(t.columns, t.rows, TrafficRecipe(t.columns, link, currentYear)))
  }

  /**
   * Past the two sentinels, the duplicate findings come first, one for every
   * row whose Link_No repeats, and the row findings follow, one for every
   * row with messages.
   */
  lemma ValidateTrafficVolumeMeaning(t: Table, link: Option<Table>, currentYear: int)
    requires !FrameEmpty(t) && MissingColumns(Required, t.columns) == []
    ensures ValidateTrafficVolume(t, link, currentYear).columns == t.columns
    ensures ValidateTrafficVolume(t, link, currentYear).findings[..|DuplicateFindings(t.rows)|] == DuplicateFindings(t.rows)
    ensures ValidateTrafficVolume(t, link, currentYear).findings[|DuplicateFindings(t.rows)|..]
      == RowFindings(t.columns, t.rows, TrafficRecipe(t.columns, link, currentYear))
    ensures forall i :: 0 <= i < |t.rows| && Duplicated(t.rows, i) ==>
      exists f :: f in ValidateTrafficVolume(t, link, currentYear).findings[..|DuplicateFindings(t.rows)|]
        && f.recordNo == Ordinal(i + 1) && f.cells == t.rows[i]
    ensures forall i :: 0 <= i < |t.rows| && RowMessages(t.columns, t.rows[i], TrafficRecipe(t.columns, link, currentYear)) != [] ==>
      Finding(Ordinal(i + 1), t.rows[i], Join("; ", RowMessages(t.columns, t.rows[i], TrafficRecipe(t.columns, link, currentYear))))
        in ValidateTrafficVolume(t, link, currentYear).findings[|DuplicateFindings(t.rows)|..]
  {
    var rc := TrafficRecipe(t.columns, link, currentYear);
    var d := DuplicateFindings(t.rows);
    var fs := ValidateTrafficVolume(t, link, currentYear).findings;
    assert fs == d + RowFindings(t.columns, t.rows, rc);
    assert fs[..|d|] == d;
    assert fs[|d|..] == RowFindings(t.columns, t.rows, rc);
    DuplicatesExactly(t.rows);
    forall i | 0 <= i < |t.rows| && RowMessages(t.columns, t.rows[i], rc) != []
      ensures Finding(Ordinal(i + 1), t.rows[i], Join("; ", RowMessages(t.columns, t.rows[i], rc))) in fs[|d|..]
    {
      RowFindingsComplete(t.columns, t.rows, rc, i);
    }
  }

  method Validate(t: Table, link: Option<Table>, currentYear: int) returns (r: Report)
    ensures r == ValidateTrafficVolume(t, link, currentYear)
  {
    if FrameEmpty(t) {
      return EmptyDbReport("TrafficVolume");
    }
    var missing := MissingColumns(Required, t.columns);
    if missing != [] {
      return MissingColumnsReport(t.columns, missing);
    }
    var duplicates := FindDuplicates(t.rows);
    var rowFindings := ScanRows(t, TrafficRecipe(t.columns, link, currentYear));
    r := Report(t.columns, duplicates + rowFindings);
  }

  /**
   * Two rows whose Link_No is missing both hold "" once the program has
   * filled missing cells with "", so both are reported as duplicates.
   */
  lemma FilledBlanksAreDuplicates(rows: seq<Row>, i: nat, j: nat)
    requires i < j < |rows|
    requires LinkOf(rows, i) == Str("") && LinkOf(rows, j) == Str("")
    ensures Duplicated(rows, i) && Duplicated(rows, j)
  {
    CountAtLeastTwo(rows, Str(""), i, j, |rows|);
  }

  lemma {:induction false} CountAtLeastTwo(rows: seq<Row>, key: Value, i: nat, j: nat, n: nat)
    requires i < j < n <= |rows|
    requires PyEq(LinkOf(rows, i), key) && PyEq(LinkOf(rows, j), key)
    ensures Count(rows, key, n) >= 2
    decreases n
  {
    if j < n - 1 {
      CountAtLeastTwo(rows, key, i, j, n - 1);
    } else {
      CountAtLeastOne(rows, key, i, n - 1);
    }
  }

  lemma {:induction false} CountAtLeastOne(rows: seq<Row>, key: Value, i: nat, n: nat)
    requires i < n <= |rows| && PyEq(LinkOf(rows, i), key)
    ensures Count(rows, key, n) >= 1
    decreases n
  {
    if i < n - 1 {
      CountAtLeastOne(rows, key, i, n - 1);
    }
  }
}
