/**
 * The Alignment validator.  Each row is checked field by field with this
 * file's own `validate_data_type`, then for a Link_No the Link table does not
 * hold and for GPS triples that are all zero or unreadable.  After the row
 * findings come the official-length findings: for each Link_No, in sorted
 * order, the largest Chainage_RB (metres) is compared with the Link table's
 * Link_Length_Official (kilometres).  The validator has no missing-columns
 * step and no required-cell step.
 */
module Alignment {
  import opened Wrappers
  import opened Text
  import opened Numbers
  import opened Values
  import opened Sorting
  import opened Tables

  const Fields: seq<(string, FieldDef)> := [
    ("Province_Code", TextField()),
    ("Kabupaten_Code", TextField()),
    ("Link_No", TextField()),
    ("Chainage", NumberField(None)),
    ("Chainage_RB", NumberField(None)),
    ("GPSPoint_North_Deg", NumberField(None)),
    ("GPSPoint_North_Min", NumberField(None)),
    ("GPSPoint_North_Sec", NumberField(None)),
    ("GPSPoint_East_Deg", NumberField(None)),
    ("GPSPoint_East_Min", NumberField(None)),
    ("GPSPoint_East_Sec", NumberField(None)),
    ("East", NumberField(None)),
    ("North", NumberField(None)),
    ("Hemis_NS", TextField())
  ]

  const NorthColumns: seq<string> := ["GPSPoint_North_Deg", "GPSPoint_North_Min", "GPSPoint_North_Sec"]
  const EastColumns: seq<string> := ["GPSPoint_East_Deg", "GPSPoint_East_Min", "GPSPoint_East_Sec"]

  /** `pd.isna(value) or value == ""`: unlike the other validators, a string of blanks is not empty here. */
  predicate Blank(v: Value) {
    IsNa(v) || v == Str("")
  }

  /** `str(valid_values)` for a list of strings. */
  function ListText(vs: seq<string>): string {
    "[" + Join(", ", seq(|vs|, k requires 0 <= k < |vs| => "'" + vs[k] + "'")) + "]"
  }

  function TooLongMessage(max: nat): string {
    "Text too long (max " + NatText(max) + " characters)"
  }

  function NotAllowedMessage(vs: seq<string>): string {
    "Invalid value. Must be one of: " + ListText(vs)
  }

  /**
   * `validate_data_type` of the Alignment validator: text is stripped and
   * held to a declared maximum length and list of allowed values; a number
   * must parse and lie in a declared range.
   */
  function CheckType(v: Value, name: string, def: FieldDef): (r: Verdict)
    ensures Blank(v) ==> r == Valid
    ensures def.kind.ShortText? && !Blank(v) ==>
      (r.Valid? <==> (def.maxLength.None? || |Strip(PyStr(v))| <= def.maxLength.value)
                     && (def.validValues.None? || Strip(PyStr(v)) in def.validValues.value))
    ensures def.kind.ShortText? && !Blank(v) && def.maxLength.Some? && |Strip(PyStr(v))| > def.maxLength.value ==>
      r == Invalid(TooLongMessage(def.maxLength.value))
    ensures def.kind.Number? && !Blank(v) ==>
      (r.Valid? <==> ToFloat(v).Some? && (def.range.None? || InRange(ToFloat(v).value, def.range.value)))
    ensures def.kind.Number? && !Blank(v) && ToFloat(v).None? ==> r == Invalid("Value must be numeric, got " + TypeName(v))
    ensures def.kind.YesNo? ==> r == Valid
  {
    if Blank(v) then Valid
    else
      match def.kind
      case ShortText =>
        var text := Strip(PyStr(v));
        if def.maxLength.Some? && |text| > def.maxLength.value then Invalid(TooLongMessage(def.maxLength.value))
        else if def.validValues.Some? && text !in def.validValues.value then Invalid(NotAllowedMessage(def.validValues.value))
        else Valid
      case Number =>
        (match ToFloat(v)
         case None => Invalid("Value must be numeric, got " + TypeName(v))
         case Some(f) => if def.range.Some? && !InRange(f, def.range.value) then Invalid(RangeMessage(def.range.value)) else Valid)
      case YesNo => Valid
  }

  /** A string of blanks counts as a value here, so a Number field rejects it as a string. */
  lemma BlanksAreNotNumbers(n: nat)
    requires n > 0
    ensures CheckType(Str(seq(n, k => ' ')), "Chainage", NumberField(None)) == Invalid("Value must be numeric, got str")
  {
    var s := seq(n, k => ' ');
    assert s[0] == ' ';
    assert Strip(s) == [] by {
      assert forall k :: 0 <= k < |s| ==> IsSpace(s[k]);
    }
  }

  /** Text is measured and looked up after stripping: padding neither lengthens it nor hides an allowed value. */
  lemma PaddedTextStripped(w: string, allowed: seq<string>)
    requires forall k :: 0 <= k < |w| ==> !IsSpace(w[k])
    requires w in allowed
    ensures CheckType(Str(" " + w + " "), "Hemis_NS", FieldDef(ShortText, None, Some(|w|), Some(allowed))) == Valid
  {
    StripSpaced(w);
  }

  const LinkMissingMessage := "Link_No not found in Link table"

  /** `str(row["Link_No"]).strip()`. */
  function RowLinkText(row: Row): string {
    Strip(PyStr(Cell(row, "Link_No")))
  }

  /**
   * The stripped text of a row's Link_No, looked up among the Link_No
   * values of the Link table as `astype(str)` shows them.
   */
  function LinkMessages(columns: seq<string>, row: Row, link: Table): (msgs: seq<string>)
    ensures msgs == [] || msgs == [LinkMissingMessage]
    ensures msgs != [] <==> ("Link_No" in columns && RowLinkText(row) != ""
      && forall k :: 0 <= k < |link.rows| ==> PyStr(Cell(link.rows[k], "Link_No")) != RowLinkText(row))
  {
    if "Link_No" in columns then
      var linkNo := RowLinkText(row);
      if linkNo != "" && !exists k :: 0 <= k < |link.rows| && PyStr(Cell(link.rows[k], "Link_No")) == linkNo then
        [LinkMissingMessage]
      else []
    else []
  }

  /** `float(v) if pd.notna(v) else 0`; `None` when `float` raises. */
  function GpsPart(v: Value): (r: Option<PyFloat>)
    ensures IsNa(v) ==> r == Some(Finite(Dec(0, 0)))
    ensures !IsNa(v) ==> r == ToFloat(v)
  {
    if IsNa(v) then Some(Finite(Dec(0, 0))) else ToFloat(v)
  }

  predicate IsZero(f: Option<PyFloat>) {
    f.Some? && f.value.Finite? && f.value.d.Val() == 0.0
  }

  function InvalidGpsMessage(side: string): string {
    "Invalid GPS " + side + " coordinates"
  }

  function ZeroGpsMessage(side: string): string {
    "GPS " + side + " coordinates cannot all be zero"
  }

  /** The test of one degree, minute and second triple, once converted. */
  function GpsCheck(side: string, deg: Option<PyFloat>, min: Option<PyFloat>, sec: Option<PyFloat>): (msgs: seq<string>)
    ensures msgs == [] || msgs == [InvalidGpsMessage(side)] || msgs == [ZeroGpsMessage(side)]
    ensures msgs == [InvalidGpsMessage(side)] <==> deg.None? || min.None? || sec.None?
    ensures msgs == [ZeroGpsMessage(side)] <==> IsZero(deg) && IsZero(min) && IsZero(sec)
  {
    assert InvalidGpsMessage(side) != ZeroGpsMessage(side) by {
      assert InvalidGpsMessage(side)[0] == 'I' && ZeroGpsMessage(side)[0] == 'G';
    }
    if deg.None? || min.None? || sec.None? then [InvalidGpsMessage(side)]
    else if IsZero(deg) && IsZero(min) && IsZero(sec) then [ZeroGpsMessage(side)]
    else []
  }

  /** The degree, minute and second columns of one hemisphere, when all three are present. */
  function GpsMessages(columns: seq<string>, row: Row, side: string, parts: seq<string>): (msgs: seq<string>)
    requires |parts| == 3
    ensures |msgs| <= 1
    ensures (exists k :: 0 <= k < 3 && parts[k] !in columns) ==> msgs == []
  {
    if parts[0] in columns && parts[1] in columns && parts[2] in columns then
      GpsCheck(side, GpsPart(Cell(row, parts[0])), GpsPart(Cell(row, parts[1])), GpsPart(Cell(row, parts[2])))
    else []
  }

  /**
   * With the three columns present, the triple is invalid exactly when one
   * component does not convert, and all zero exactly when every component
   * is zero or missing; without them nothing is reported.
   */
  lemma GpsMessagesMeaning(columns: seq<string>, row: Row, side: string, parts: seq<string>)
    requires |parts| == 3
    ensures parts[0] in columns && parts[1] in columns && parts[2] in columns ==>
      (GpsMessages(columns, row, side, parts) == [InvalidGpsMessage(side)] <==>
        GpsPart(Cell(row, parts[0])).None? || GpsPart(Cell(row, parts[1])).None? || GpsPart(Cell(row, parts[2])).None?)
    ensures GpsMessages(columns, row, side, parts) == [ZeroGpsMessage(side)] <==>
      parts[0] in columns && parts[1] in columns && parts[2] in columns
      && IsZero(GpsPart(Cell(row, parts[0]))) && IsZero(GpsPart(Cell(row, parts[1]))) && IsZero(GpsPart(Cell(row, parts[2])))
  {
    if parts[0] in columns && parts[1] in columns && parts[2] in columns {
      GpsInvalidIff(columns, row, side, parts);
    }
    GpsZeroIff(columns, row, side, parts);
  }

  lemma GpsInvalidIff(columns: seq<string>, row: Row, side: string, parts: seq<string>)
    requires |parts| == 3 && parts[0] in columns && parts[1] in columns && parts[2] in columns
    ensures GpsMessages(columns, row, side, parts) == [InvalidGpsMessage(side)] <==>
      GpsPart(Cell(row, parts[0])).None? || GpsPart(Cell(row, parts[1])).None? || GpsPart(Cell(row, parts[2])).None?
  {
    assert GpsMessages(columns, row, side, parts)
      == GpsCheck(side, GpsPart(Cell(row, parts[0])), GpsPart(Cell(row, parts[1])), GpsPart(Cell(row, parts[2])));
  }

  lemma GpsZeroIff(columns: seq<string>, row: Row, side: string, parts: seq<string>)
    requires |parts| == 3
    ensures GpsMessages(columns, row, side, parts) == [ZeroGpsMessage(side)] <==>
      parts[0] in columns && parts[1] in columns && parts[2] in columns
      && IsZero(GpsPart(Cell(row, parts[0]))) && IsZero(GpsPart(Cell(row, parts[1]))) && IsZero(GpsPart(Cell(row, parts[2])))
  {
    if parts[0] in columns && parts[1] in columns && parts[2] in columns {
      assert GpsMessages(columns, row, side, parts)
        == GpsCheck(side, GpsPart(Cell(row, parts[0])), GpsPart(Cell(row, parts[1])), GpsPart(Cell(row, parts[2])));
    } else {
      assert GpsMessages(columns, row, side, parts) == [];
    }
  }

  /** Missing components count as zero, so a row with no GPS values at all is flagged for both hemispheres. */
  lemma MissingGpsIsZero(columns: seq<string>, row: Row)
    requires NorthColumns[0] in columns && NorthColumns[1] in columns && NorthColumns[2] in columns
    requires IsNa(Cell(row, NorthColumns[0])) && IsNa(Cell(row, NorthColumns[1])) && IsNa(Cell(row, NorthColumns[2]))
    ensures GpsMessages(columns, row, "North", NorthColumns) == [ZeroGpsMessage("North")]
  {
    assert Dec(0, 0).Val() == 0.0;
    GpsZeroIff(columns, row, "North", NorthColumns);
  }

  /** An empty string is not a number, so a blank component makes the triple invalid. */
  lemma BlankGpsIsInvalid(columns: seq<string>, row: Row)
    requires EastColumns[0] in columns && EastColumns[1] in columns && EastColumns[2] in columns
    requires Cell(row, EastColumns[1]) == Str("")
    ensures GpsMessages(columns, row, "East", EastColumns) == [InvalidGpsMessage("East")]
  {
    assert GpsPart(Str("")).None? by {
      assert Strip("") == "";
    }
    GpsInvalidIff(columns, row, "East", EastColumns);
  }

  /** The table-specific messages of a row: the Link_No lookup, then the North and East triples. */
  function AlignmentExtra(columns: seq<string>, link: Table): Row -> seq<string> {
    (row: Row) => LinkMessages(columns, row, link) + GpsMessages(columns, row, "North", NorthColumns)
      + GpsMessages(columns, row, "East", EastColumns)
  }

  function AlignmentRecipe(columns: seq<string>, link: Table): Recipe {
    Recipe([], Fields, CheckType, AlignmentExtra(columns, link))
  }

  // ---------------------------------------------------------------------
  // The official-length check

  /**
   * `groupby("Link_No")`: the distinct present Link_No values, sorted as
   * pandas sorts group keys.
   */
  function GroupKeys(rows: seq<Row>): (ks: seq<Value>)
    ensures forall k :: 0 <= k < |ks| ==> !IsNa(ks[k])
  {
    var firsts := FirstKeys(rows, |rows|);
    var ks := SortBy(firsts, SortLe);
    GroupKeysDrawn(rows, firsts, ks);
    ks
  }

  /**
   * The group keys are Link_No values of the table, every present Link_No
   * equals one of them, and they come in strictly increasing sort order, so
   * no two are equal.
   */
  lemma GroupKeysMeaning(rows: seq<Row>)
    ensures forall k :: 0 <= k < |GroupKeys(rows)| ==> exists i :: 0 <= i < |rows| && GroupKeys(rows)[k] == LinkOf(rows, i)
    ensures forall i :: 0 <= i < |rows| && !IsNa(LinkOf(rows, i)) ==>
      exists k :: 0 <= k < |GroupKeys(rows)| && PyEq(LinkOf(rows, i), GroupKeys(rows)[k])
    ensures forall a, b :: 0 <= a < b < |GroupKeys(rows)| ==>
      SortLe(GroupKeys(rows)[a], GroupKeys(rows)[b]) && !SortLe(GroupKeys(rows)[b], GroupKeys(rows)[a])
      && !PyEq(GroupKeys(rows)[a], GroupKeys(rows)[b])
  {
    var firsts := FirstKeys(rows, |rows|);
    var ks := SortBy(firsts, SortLe);
    assert ks == GroupKeys(rows);
    GroupKeysDrawn(rows, firsts, ks);
    GroupKeysCover(rows, firsts, ks);
    FirstKeysDistinct(rows, |rows|);
    KeysStrictlySorted(firsts, ks);
  }

  lemma GroupKeysDrawn(rows: seq<Row>, firsts: seq<Value>, ks: seq<Value>)
    requires firsts == FirstKeys(rows, |rows|) && multiset(ks) == multiset(firsts)
    ensures forall k :: 0 <= k < |ks| ==> !IsNa(ks[k]) && exists i :: 0 <= i < |rows| && ks[k] == LinkOf(rows, i)
  {
    FirstKeysDrawn(rows, |rows|);
    forall k | 0 <= k < |ks| ensures !IsNa(ks[k]) && exists i :: 0 <= i < |rows| && ks[k] == LinkOf(rows, i) {
      assert ks[k] in multiset(ks);
      var j :| 0 <= j < |firsts| && firsts[j] == ks[k];
      var i :| 0 <= i < |rows| && firsts[j] == LinkOf(rows, i);
      assert ks[k] == LinkOf(rows, i);
    }
  }

  lemma GroupKeysCover(rows: seq<Row>, firsts: seq<Value>, ks: seq<Value>)
    requires firsts == FirstKeys(rows, |rows|) && multiset(ks) == multiset(firsts)
    ensures forall i :: 0 <= i < |rows| && !IsNa(LinkOf(rows, i)) ==> exists k :: 0 <= k < |ks| && PyEq(LinkOf(rows, i), ks[k])
  {
    forall i | 0 <= i < |rows| && !IsNa(LinkOf(rows, i)) ensures exists k :: 0 <= k < |ks| && PyEq(LinkOf(rows, i), ks[k]) {
      FirstKeysCover(rows, |rows|, i);
      var v :| v in firsts && PyEq(LinkOf(rows, i), v);
      assert v in multiset(firsts);
      var k :| 0 <= k < |ks| && ks[k] == v;
    }
  }

  /** Sorting keys no two of which are equal leaves each strictly before the next. */
  lemma KeysStrictlySorted(firsts: seq<Value>, ks: seq<Value>)
    requires ks == SortBy(firsts, SortLe)
    requires forall p, q :: 0 <= p < |firsts| && 0 <= q < |firsts| && p != q ==> !PyEq(firsts[p], firsts[q])
    requires forall p :: 0 <= p < |firsts| ==> !IsNa(firsts[p])
    ensures forall a, b :: 0 <= a < b < |ks| ==> SortLe(ks[a], ks[b]) && !SortLe(ks[b], ks[a]) && !PyEq(ks[a], ks[b])
  {
    assert TotalPreorderOn(firsts, SortLe) by {
      forall a, b, c | a in firsts && b in firsts && c in firsts
        ensures (SortLe(a, b) || SortLe(b, a)) && (SortLe(a, b) && SortLe(b, c) ==> SortLe(a, c))
      {
        SortLeTotalPreorder(a, b, c);
      }
    }
    assert Apart(firsts, SortLe) by {
      forall p, q | 0 <= p < |firsts| && 0 <= q < |firsts| && p != q
        ensures !(SortLe(firsts[p], firsts[q]) && SortLe(firsts[q], firsts[p]))
      {
        SortLeTotalPreorder(firsts[p], firsts[q], firsts[q]);
      }
    }
    SortByStrict(firsts, SortLe);
    forall a, b | 0 <= a < b < |ks| ensures !PyEq(ks[a], ks[b]) {
      SortLeTotalPreorder(ks[a], ks[b], ks[b]);
    }
  }

  /** The Chainage_RB cells of the first `n` rows whose Link_No equals `key`. */
  function GroupValues(rows: seq<Row>, key: Value, n: nat): seq<Value>
    requires n <= |rows|
  {
    if n == 0 then []
    else GroupValues(rows, key, n - 1) + (if PyEq(LinkOf(rows, n - 1), key) then [Cell(rows[n - 1], "Chainage_RB")] else [])
  }

  const MaxFailure := "agg function failed [how->max,dtype->object]"

  /** Every present value of `vs` sorts no later than `m`. */
  ghost predicate Bounds(vs: seq<Value>, m: Value) {
    forall k :: 0 <= k < |vs| && !IsNa(vs[k]) ==> SortLe(vs[k], m)
  }

  /** Some present values of `vs` are numbers and some are strings, which Python cannot compare. */
  ghost predicate NumbersMeetStrings(vs: seq<Value>) {
    exists i, j :: 0 <= i < |vs| && 0 <= j < |vs| && IsNumber(vs[i]) && vs[j].Str?
  }

  /**
   * Some value of `vs` is a string and some other is a number or missing:
   * the object `max` fills missing values with -inf, which no string compares with.
   */
  ghost predicate Mixed(vs: seq<Value>) {
    exists i, j :: 0 <= i < |vs| && 0 <= j < |vs| && (IsNumber(vs[i]) || IsNa(vs[i])) && vs[j].Str?
  }

  predicate HasStr(vs: seq<Value>) {
    exists j :: 0 <= j < |vs| && vs[j].Str?
  }

  predicate HasNa(vs: seq<Value>) {
    exists i :: 0 <= i < |vs| && IsNa(vs[i])
  }

  /**
   * The `max()` of one group: a group holding a string beside a missing
   * value raises, as the object fallback compares the string with the
   * -inf put in the missing value's place; otherwise `PresentMax`.
   */
  function GroupMax(vs: seq<Value>): (r: Outcome<Value>)
    ensures r.Raised? <==> Mixed(vs)
    ensures r.Done? && r.value.NaN? <==> r.Done? && forall k :: 0 <= k < |vs| ==> IsNa(vs[k])
    ensures r.Done? && !r.value.NaN? ==> r.value in vs && !IsNa(r.value) && Bounds(vs, r.value)
  {
    if HasStr(vs) && HasNa(vs) then Raised(MaxFailure)
    else PresentMax(vs)
  }

  /** A group holding "a" beside nan raises; "a" alone is its own max. */
  lemma StringBesideNaRaises()
    ensures GroupMax([Str("a"), NaN]).Raised?
    ensures GroupMax([Str("a")]) == Done(Str("a"))
  {
    assert [Str("a"), NaN][0].Str? && IsNa([Str("a"), NaN][1]);
  }

  /**
   * The maximum of the present values of one group: nan when every value
   * is missing, and the exception pandas raises when numbers and strings
   * meet.  Of equal maxima the first is kept.
   */
  function PresentMax(vs: seq<Value>): (r: Outcome<Value>)
    ensures r.Raised? <==> NumbersMeetStrings(vs)
    ensures r.Done? && r.value.NaN? <==> r.Done? && forall k :: 0 <= k < |vs| ==> IsNa(vs[k])
    ensures r.Done? && !r.value.NaN? ==> r.value in vs && !IsNa(r.value) && Bounds(vs, r.value)
  {
    if vs == [] then Done(NaN)
    else
      var init := vs[..|vs| - 1];
      var v := vs[|vs| - 1];
      assert vs == init + [v];
      match PresentMax(init)
      case Raised(e) => Raised(e)
      case Done(m) =>
        if IsNa(v) then Done(m)
        else if m.NaN? then
          assert Bounds(vs, v) by {
            SortLeTotalPreorder(v, v, v);
          }
          assert !NumbersMeetStrings(vs) by {
            forall i | 0 <= i < |init| ensures !IsNumber(vs[i]) && !vs[i].Str? {
              assert vs[i] == init[i];
            }
          }
          Done(v)
        else if SortRank(v) != SortRank(m) then
          assert NumbersMeetStrings(vs) by {
            if IsNumber(v) {
              assert m.Str?;
              var i :| 0 <= i < |init| && init[i] == m;
              assert vs[i] == m;
            } else {
              assert IsNumber(m);
              var i :| 0 <= i < |init| && init[i] == m;
              assert vs[i] == m;
            }
          }
          Raised(MaxFailure)
        else
          assert !NumbersMeetStrings(vs) by {
            MaxRankShared(init, m);
          }
          if SortLe(v, m) then
            assert Bounds(vs, m) by {
              SortLeTotalPreorder(v, m, m);
            }
            Done(m)
          else
            assert Bounds(vs, v) by {
              SortLeTotalPreorder(v, m, v);
              forall k | 0 <= k < |init| && !IsNa(init[k]) ensures SortLe(init[k], v) {
                SortLeTotalPreorder(init[k], m, v);
              }
            }
            Done(v)
  }

  /** When a group's values are not mixed, every present value has the rank of its maximum. */
  lemma MaxRankShared(vs: seq<Value>, m: Value)
    requires !NumbersMeetStrings(vs) && m in vs && !IsNa(m)
    ensures forall k :: 0 <= k < |vs| && !IsNa(vs[k]) ==> SortRank(vs[k]) == SortRank(m)
  {
    var i :| 0 <= i < |vs| && vs[i] == m;
    forall k | 0 <= k < |vs| && !IsNa(vs[k]) ensures SortRank(vs[k]) == SortRank(m) {
      if IsNumber(vs[k]) {
        assert !vs[i].Str?;
      } else {
        assert vs[k].Str?;
        assert !IsNumber(vs[i]);
      }
    }
  }

  /** `groupby("Link_No")["Chainage_RB"].max()` over the given keys; it fails as a whole when one group fails. */
  function GroupMaxes(rows: seq<Row>, keys: seq<Value>): (r: Outcome<seq<Value>>)
    ensures r.Done? ==> |r.value| == |keys|
    ensures r.Done? ==> forall g :: 0 <= g < |keys| ==> GroupMax(GroupValues(rows, keys[g], |rows|)) == Done(r.value[g])
    ensures r.Raised? <==> exists g :: 0 <= g < |keys| && GroupMax(GroupValues(rows, keys[g], |rows|)).Raised?
  {
    if keys == [] then Done([])
    else
      var init := keys[..|keys| - 1];
      var last := keys[|keys| - 1];
      match GroupMaxes(rows, init)
      case Raised(e) =>
        assert exists g :: 0 <= g < |keys| && GroupMax(GroupValues(rows, keys[g], |rows|)).Raised? by {
          var g :| 0 <= g < |init| && GroupMax(GroupValues(rows, init[g], |rows|)).Raised?;
          assert keys[g] == init[g];
        }
        Raised(e)
      case Done(ms) =>
        match GroupMax(GroupValues(rows, last, |rows|))
        case Raised(e) => Raised(e)
        case Done(m) =>
          assert forall g :: 0 <= g < |init| ==> keys[g] == init[g];
          Done(ms + [m])
  }

  /** The first row whose Link_No reads as `key` and whose Chainage_RB equals `max`. */
  function FirstMaxRow(rows: seq<Row>, key: Value, max: Value, from: nat): (r: Option<nat>)
    requires from <= |rows|
    ensures r.Some? ==> (from <= r.value < |rows| && PyStr(LinkOf(rows, r.value)) == PyStr(key)
      && PyEq(Cell(rows[r.value], "Chainage_RB"), max))
    ensures forall i :: from <= i < |rows| && (r.None? || i < r.value) ==>
      !(PyStr(LinkOf(rows, i)) == PyStr(key) && PyEq(Cell(rows[i], "Chainage_RB"), max))
    decreases |rows| - from
  {
    if from == |rows| then None
    else if PyStr(LinkOf(rows, from)) == PyStr(key) && PyEq(Cell(rows[from], "Chainage_RB"), max) then Some(from)
    else FirstMaxRow(rows, key, max, from + 1)
  }

  /** The finding with message `msg` on the first row holding `max` in the group of `key`, if there is one. */
  function FindingOnMaxRow(rows: seq<Row>, key: Value, max: Value, msg: string): (r: Option<Finding>)
    ensures r.Some? <==> FirstMaxRow(rows, key, max, 0).Some?
    ensures r.Some? ==> r.value == Finding(Ordinal(FirstMaxRow(rows, key, max, 0).value + 1), rows[FirstMaxRow(rows, key, max, 0).value], msg)
  {
    match FirstMaxRow(rows, key, max, 0)
    case None => None
    case Some(i) => Some(Finding(Ordinal(i + 1), rows[i], msg))
  }

  /** `rows[k]` is the first row whose Link_No reads as `text`. */
  predicate FirstWithText(rows: seq<Row>, text: string, k: int) {
    0 <= k < |rows| && PyStr(Cell(rows[k], "Link_No")) == text
    && forall j :: 0 <= j < k ==> PyStr(Cell(rows[j], "Link_No")) != text
  }

  /**
   * The first Link row whose Link_No reads as `key`: the `iloc[0]` of
   * `link_df[link_df["Link_No"].astype(str) == str(key)]`.
   */
  function LinkMatch(link: Table, key: Value): (r: Option<Row>)
    ensures r.Some? <==> exists k :: 0 <= k < |link.rows| && PyStr(Cell(link.rows[k], "Link_No")) == PyStr(key)
    ensures r.Some? ==> r.value in link.rows && PyStr(Cell(r.value, "Link_No")) == PyStr(key)
    ensures r.Some? ==> exists k :: FirstWithText(link.rows, PyStr(key), k) && r.value == link.rows[k]
  {
    FirstLinkRow(link.rows, PyStr(key))
  }

  function FirstLinkRow(rows: seq<Row>, text: string): (r: Option<Row>)
    ensures r.Some? <==> exists k :: 0 <= k < |rows| && PyStr(Cell(rows[k], "Link_No")) == text
    ensures r.Some? ==> r.value in rows && PyStr(Cell(r.value, "Link_No")) == text
    ensures r.Some? ==> exists k :: FirstWithText(rows, text, k) && r.value == rows[k]
  {
    if rows == [] then None
    else if PyStr(Cell(rows[0], "Link_No")) == text then
      assert FirstWithText(rows, text, 0);
      Some(rows[0])
    else
      var r := FirstLinkRow(rows[1..], text);
      assert forall k :: 1 <= k < |rows| ==> rows[k] == rows[1..][k - 1];
      assert r.Some? ==> exists k :: FirstWithText(rows, text, k) && r.value == rows[k] by {
        if r.Some? {
          var k :| FirstWithText(rows[1..], text, k) && r.value == rows[1..][k];
          assert FirstWithText(rows, text, k + 1);
        }
      }
      r
  }

  /**
   * The official length in kilometres when the check goes on with it: a
   * number (not a string, which the `<=` rejects inside the `try`) above 1.5.
   */
  function OfficialKm(official: Value): (r: Option<real>)
    ensures r.Some? <==> IsNumber(official) && NumVal(official) > 3.0 / 2.0
    ensures r.Some? ==> r.value == NumVal(official)
  {
    if IsNumber(official) && NumVal(official) > 3.0 / 2.0 then Some(NumVal(official)) else None
  }

  const Tolerance: real := 1500.0

  /** The metres and kilometres disagree by more than the tolerance. */
  predicate OutOfTolerance(maxMetres: real, km: real) {
    maxMetres - 1000.0 * km > Tolerance || 1000.0 * km - maxMetres > Tolerance
  }

  function OfficialMessage(key: Value, max: Value, official: Value, km: real): string {
    "Last Chainage_RB (" + PyStr(max) + " m) does not match Link_Length_Official (" + PyStr(official)
    + " km = " + IntText(RoundHalfEven(1000.0 * km)) + " m) within tolerance of 1500.0 m for Link_No " + PyStr(key)
  }

  /** What the check compares for one key: the official length and the group's largest Chainage_RB, both numbers. */
  datatype Comparison = Comparison(official: Value, km: real, metres: real)

  /** The comparison for one key, or `None` when one of the skip rules applies. */
  function Compare(link: Table, key: Value, max: Value): (r: Option<Comparison>)
    ensures r.Some? <==> (key != Str("") && LinkMatch(link, key).Some? && "Link_Length_Official" in link.columns
      && OfficialKm(Cell(LinkMatch(link, key).value, "Link_Length_Official")).Some?
      && ToFloat(max).Some? && ToFloat(max).value.Finite?)
    ensures r.Some? ==> (r.value.official == Cell(LinkMatch(link, key).value, "Link_Length_Official")
      && r.value.km == NumVal(r.value.official) && r.value.km > 3.0 / 2.0
      && r.value.metres == ToFloat(max).value.d.Val())
  {
    if key == Str("") then None
    else
      match LinkMatch(link, key)
      case None => None
      case Some(linkRow) =>
        if "Link_Length_Official" !in link.columns then None
        else
          var official := Cell(linkRow, "Link_Length_Official");
          match OfficialKm(official)
          case None => None
          case Some(km) =>
            match ToFloat(max)
            case Some(Finite(d)) => Some(Comparison(official, km, d.Val()))
            case _ => None
  }

  /** The finding for one key, on the first row holding the group's largest Chainage_RB. */
  function OfficialFinding(rows: seq<Row>, link: Table, key: Value, max: Value): Option<Finding> {
    match Compare(link, key, max)
    case None => None
    case Some(c) =>
      if OutOfTolerance(c.metres, c.km) then FindingOnMaxRow(rows, key, max, OfficialMessage(key, max, c.official, c.km))
      else None
  }

  /**
   * A key is reported exactly when none of the skip rules applies, its
   * maximum is off by more than the tolerance and some row holds that
   * maximum; the finding is on the first such row.
   */
  lemma OfficialFindingMeaning(rows: seq<Row>, link: Table, key: Value, max: Value)
    ensures OfficialFinding(rows, link, key, max).Some? <==> (Compare(link, key, max).Some?
      && OutOfTolerance(Compare(link, key, max).value.metres, Compare(link, key, max).value.km)
      && FirstMaxRow(rows, key, max, 0).Some?)
    ensures OfficialFinding(rows, link, key, max).Some? ==>
      var c := Compare(link, key, max).value;
      OfficialFinding(rows, link, key, max) == FindingOnMaxRow(rows, key, max, OfficialMessage(key, max, c.official, c.km))
  {
    match Compare(link, key, max)
    case None =>
    case Some(c) =>
      OfficialFindingOf(rows, link, key, max, c);
  }

  lemma OfficialFindingOf(rows: seq<Row>, link: Table, key: Value, max: Value, c: Comparison)
    requires Compare(link, key, max) == Some(c)
    ensures OfficialFinding(rows, link, key, max)
      == if OutOfTolerance(c.metres, c.km) then FindingOnMaxRow(rows, key, max, OfficialMessage(key, max, c.official, c.km)) else None
  {
  }

  /** The finding or the skip of each group, in key order. */
  function OfficialPerKey(rows: seq<Row>, link: Table, keys: seq<Value>, maxes: seq<Value>): (r: seq<Option<Finding>>)
    requires |keys| == |maxes|
    ensures |r| == |keys|
    ensures forall g :: 0 <= g < |keys| ==> r[g] == OfficialFinding(rows, link, keys[g], maxes[g])
  {
    seq(|keys|, g requires 0 <= g < |keys| => OfficialFinding(rows, link, keys[g], maxes[g]))
  }

  /** The findings of the groups, one at most per group, in key order. */
  function OfficialFindingsFor(rows: seq<Row>, link: Table, keys: seq<Value>, maxes: seq<Value>): seq<Finding>
    requires |keys| == |maxes|
  {
    Somes(OfficialPerKey(rows, link, keys, maxes))
  }

  /** `validate_link_length_official_consistency`. */
  function OfficialLengthFindings(t: Table, link: Table): (r: Outcome<seq<Finding>>)
    ensures ("Link_No" !in t.columns || "Chainage_RB" !in t.columns) ==> r == Done([])
  {
    if "Link_No" in t.columns && "Chainage_RB" in t.columns then
      var keys := GroupKeys(t.rows);
      match GroupMaxes(t.rows, keys)
      case Raised(e) => Raised(e)
      case Done(maxes) => Done(OfficialFindingsFor(t.rows, link, keys, maxes))
    else Done([])
  }

  /** The loop over the groups and their largest Chainage_RB. */
  method CheckOfficialLength(t: Table, link: Table) returns (r: Outcome<seq<Finding>>)
    ensures r == OfficialLengthFindings(t, link)
  {
    if "Link_No" !in t.columns || "Chainage_RB" !in t.columns {
      return Done([]);
    }
    var keys := GroupKeys(t.rows);
    var grouped := GroupMaxes(t.rows, keys);
    if grouped.Raised? {
      return Raised(grouped.error);
    }
    var maxes := grouped.value;
    ghost var perKey := OfficialPerKey(t.rows, link, keys, maxes);
    var fs: seq<Finding> := [];
    var g := 0;
    while g < |keys|
      invariant 0 <= g <= |keys|
      invariant fs == Somes(perKey[..g])
    {
      var f := OfficialFinding(t.rows, link, keys[g], maxes[g]);
      assert f == perKey[g];
      if f.Some? {
        fs := fs + [f.value];
      }
      SomesStep(perKey, g);
      g := g + 1;
    }
    assert perKey[..g] == perKey;
    r := Done(fs);
  }

  /** A difference of exactly 1500 m passes; one metre more is flagged. */
  lemma ToleranceInclusive(km: real)
    ensures !OutOfTolerance(1000.0 * km + 1500.0, km)
    ensures !OutOfTolerance(1000.0 * km - 1500.0, km)
    ensures OutOfTolerance(1000.0 * km + 1501.0, km)
  {
  }

  /** Links of 1.5 km or less are never checked. */
  lemma ShortLinksSkipped(rows: seq<Row>, link: Table, key: Value, max: Value)
    requires LinkMatch(link, key).Some? && "Link_Length_Official" in link.columns
    requires IsNumber(Cell(LinkMatch(link, key).value, "Link_Length_Official"))
    requires NumVal(Cell(LinkMatch(link, key).value, "Link_Length_Official")) <= 3.0 / 2.0
    ensures OfficialFinding(rows, link, key, max).None?
  {
  }

  /** An official length stored as text is never checked. */
  lemma TextOfficialSkipped(rows: seq<Row>, link: Table, key: Value, max: Value)
    requires LinkMatch(link, key).Some? && "Link_Length_Official" in link.columns
    requires Cell(LinkMatch(link, key).value, "Link_Length_Official").Str?
    ensures OfficialFinding(rows, link, key, max).None?
  {
  }

  /**
   * Each official-length finding is on the first row of its group, by the
   * text of Link_No, that holds the group's largest Chainage_RB, and that
   * maximum is off from the official length by more than the tolerance.
   */
  lemma OfficialFindingsMeaning(rows: seq<Row>, link: Table, keys: seq<Value>, maxes: seq<Value>)
    requires |keys| == |maxes|
    ensures forall f :: f in OfficialFindingsFor(rows, link, keys, maxes) <==>
      exists g :: 0 <= g < |keys| && OfficialFinding(rows, link, keys[g], maxes[g]) == Some(f)
  {
    SomesMeaning(OfficialPerKey(rows, link, keys, maxes));
  }

  /** A flagged row holds its group's maximum: no Chainage_RB of the group sorts after it. */
  lemma FlaggedRowHoldsMax(t: Table, link: Table, f: Finding)
    requires "Link_No" in t.columns && "Chainage_RB" in t.columns
    requires OfficialLengthFindings(t, link).Done? && f in OfficialLengthFindings(t, link).value
    ensures exists key, i :: (0 <= i < |t.rows| && f.recordNo == Ordinal(i + 1) && f.cells == t.rows[i]
      && PyStr(LinkOf(t.rows, i)) == PyStr(key)
      && GroupMax(GroupValues(t.rows, key, |t.rows|)).Done?
      && PyEq(Cell(t.rows[i], "Chainage_RB"), GroupMax(GroupValues(t.rows, key, |t.rows|)).value)
      && Bounds(GroupValues(t.rows, key, |t.rows|), GroupMax(GroupValues(t.rows, key, |t.rows|)).value))
  {
    var keys := GroupKeys(t.rows);
    var maxes := GroupMaxes(t.rows, keys).value;
    assert OfficialLengthFindings(t, link).value == OfficialFindingsFor(t.rows, link, keys, maxes);
    OfficialFindingsMeaning(t.rows, link, keys, maxes);
    var g :| 0 <= g < |keys| && OfficialFinding(t.rows, link, keys[g], maxes[g]) == Some(f);
    assert GroupMax(GroupValues(t.rows, keys[g], |t.rows|)) == Done(maxes[g]);
    var i := FindingHoldsMax(t.rows, link, keys[g], maxes[g], f);
  }

  /**
   * Every present Link_No falls in a checked group: its key is among the
   * group keys, the group has a maximum, and when that group's maximum is
   * off the official length its finding is among the findings.
   */
  lemma OfficialLengthComplete(t: Table, link: Table, i: nat)
    requires "Link_No" in t.columns && "Chainage_RB" in t.columns
    requires OfficialLengthFindings(t, link).Done?
    requires i < |t.rows| && !IsNa(LinkOf(t.rows, i))
    ensures exists g :: (0 <= g < |GroupKeys(t.rows)| && PyEq(LinkOf(t.rows, i), GroupKeys(t.rows)[g])
      && GroupMax(GroupValues(t.rows, GroupKeys(t.rows)[g], |t.rows|)).Done?
      && OfficialReported(t, link, GroupKeys(t.rows)[g], GroupMax(GroupValues(t.rows, GroupKeys(t.rows)[g], |t.rows|)).value))
  {
    var keys := GroupKeys(t.rows);
    GroupKeysMeaning(t.rows);
    var g :| 0 <= g < |keys| && PyEq(LinkOf(t.rows, i), keys[g]);
    GroupReported(t, link, g);
  }

  /** The finding of the `g`-th group, when there is one, is among the official-length findings. */
  lemma GroupReported(t: Table, link: Table, g: nat)
    requires "Link_No" in t.columns && "Chainage_RB" in t.columns
    requires OfficialLengthFindings(t, link).Done? && g < |GroupKeys(t.rows)|
    ensures GroupMax(GroupValues(t.rows, GroupKeys(t.rows)[g], |t.rows|)).Done?
    ensures OfficialReported(t, link, GroupKeys(t.rows)[g], GroupMax(GroupValues(t.rows, GroupKeys(t.rows)[g], |t.rows|)).value)
  {
    var keys := GroupKeys(t.rows);
    var maxes := GroupMaxes(t.rows, keys).value;
    assert OfficialLengthFindings(t, link).value == OfficialFindingsFor(t.rows, link, keys, maxes);
    OfficialFindingsMeaning(t.rows, link, keys, maxes);
    assert GroupMax(GroupValues(t.rows, keys[g], |t.rows|)) == Done(maxes[g]);
  }

  /** The finding of a key with maximum `max`, if it has one, is among the official-length findings. */
  ghost predicate OfficialReported(t: Table, link: Table, key: Value, max: Value)
    requires OfficialLengthFindings(t, link).Done?
  {
    OfficialFinding(t.rows, link, key, max).Some? ==> OfficialFinding(t.rows, link, key, max).value in OfficialLengthFindings(t, link).value
  }

  /** The finding for one key is on a row of that key holding the group's maximum, which bounds the group. */
  lemma FindingHoldsMax(rows: seq<Row>, link: Table, key: Value, max: Value, f: Finding) returns (i: nat)
    requires OfficialFinding(rows, link, key, max) == Some(f)
    requires GroupMax(GroupValues(rows, key, |rows|)) == Done(max)
    ensures i < |rows| && f.recordNo == Ordinal(i + 1) && f.cells == rows[i]
    ensures PyStr(LinkOf(rows, i)) == PyStr(key) && PyEq(Cell(rows[i], "Chainage_RB"), max)
    ensures Bounds(GroupValues(rows, key, |rows|), max)
  {
    OfficialFindingMeaning(rows, link, key, max);
    i := FirstMaxRow(rows, key, max, 0).value;
    assert !max.NaN? by {
      assert ToFloat(max).value.Finite?;
    }
  }

  // ---------------------------------------------------------------------
  // The validator

  /**
   * `validate_alignment`: the row findings, then the official-length
   * findings; an exception from the group maxima escapes.
   */
  function ValidateAlignment(t: Table, link: Table): (r: Outcome<Report>)
    requires "Link_No" in link.columns
    ensures r.Raised? <==> OfficialLengthFindings(t, link).Raised?
    ensures r.Done? ==> (r.value.columns == t.columns
      && r.value.findings == RowFindings(t.columns, t.rows, AlignmentRecipe(t.columns, link)) + OfficialLengthFindings(t, link).value)
  {
    match OfficialLengthFindings(t, link)
    case Raised(e) => Raised(e)
    case Done(lengths) => Done(Report(t.columns, RowFindings(t.columns, t.rows, AlignmentRecipe(t.columns, link)) + lengths))
  }

  method Validate(t: Table, link: Table) returns (r: Outcome<Report>)
    requires "Link_No" in link.columns
    ensures r == ValidateAlignment(t, link)
  {
    var rowFindings := ScanRows(t, AlignmentRecipe(t.columns, link));
    var lengths := CheckOfficialLength(t, link);
    match lengths
    case Raised(e) => r := Raised(e);
    case Done(fs) => r := Done(Report(t.columns, rowFindings + fs));
  }

  // ---------------------------------------------------------------------
  // The disabled first-two-digits check

  /** `normalize_number_for_comparison`: the text of the integer part, trailing zeros kept. */
  function NormalizeNumber(v: Value): (r: string)
    ensures Blank(v) ==> r == ""
    ensures r != "" <==> !Blank(v) && ToFloat(v).Some? && ToFloat(v).value.Finite?
  {
    if Blank(v) then ""
    else
      match ToFloat(v)
      case Some(Finite(d)) => IntText(Trunc(d.Val()))
      case _ => ""
  }

  /** `first_two_digits`: at most the first two characters of the normalized number. */
  function FirstTwoDigits(v: Value): (r: string)
    ensures |r| <= 2 && StartsWith(NormalizeNumber(v), r)
    ensures |NormalizeNumber(v)| >= 2 ==> |r| == 2
  {
    var base := NormalizeNumber(v);
    if |base| <= 2 then base else base[..2]
  }

  /** The decimals are dropped but the trailing zeros stay: 1200.75 reads as "1200" and begins "12". */
  lemma TrailingZerosKept()
    ensures NormalizeNumber(Float(Dec(120075, 2))) == "1200"
    ensures FirstTwoDigits(Float(Dec(120075, 2))) == "12"
  {
    assert Dec(120075, 2).Val() == 1200.75 by {
      assert Dec(120075, 0).Val() == 120075.0;
    }
    assert Trunc(1200.75) == 1200;
    assert IntText(1200) == "1200" by {
      NatTextSnoc(1, 2);
      NatTextSnoc(12, 0);
      NatTextSnoc(120, 0);
    }
  }

  function DigitsMessage(key: Value, max: Value, actual: Value): string {
    "First two digits of last Chainage_RB (" + PyStr(max) + ") do not match first two digits of Link_Length_Actual ("
    + PyStr(actual) + ") for Link_No " + PyStr(key)
  }

  /** The finding of the disabled check for one key: both prefixes present and different. */
  function DigitsFinding(rows: seq<Row>, link: Table, key: Value, max: Value): Option<Finding> {
    if key == Str("") then None
    else
      match LinkMatch(link, key)
      case None => None
      case Some(linkRow) =>
        var actual := Cell(linkRow, "Link_Length_Actual");
        if DigitsDiffer(max, actual) then FindingOnMaxRow(rows, key, max, DigitsMessage(key, max, actual))
        else None
  }

  /** Both prefixes are present and they differ. */
  predicate DigitsDiffer(max: Value, actual: Value) {
    FirstTwoDigits(max) != "" && FirstTwoDigits(actual) != "" && FirstTwoDigits(max) != FirstTwoDigits(actual)
  }

  /** The conditions under which the disabled check reports a key, before the row holding the maximum is looked up. */
  predicate DigitsApply(link: Table, key: Value, max: Value) {
    key != Str("") && LinkMatch(link, key).Some?
    && FirstTwoDigits(max) != "" && FirstTwoDigits(Cell(LinkMatch(link, key).value, "Link_Length_Actual")) != ""
    && FirstTwoDigits(max) != FirstTwoDigits(Cell(LinkMatch(link, key).value, "Link_Length_Actual"))
  }

  /**
   * A key is reported by the disabled check exactly when both prefixes are
   * present and differ and a row holds the maximum; the finding is then on
   * the first such row.
   */
  lemma DigitsFindingMeaning(rows: seq<Row>, link: Table, key: Value, max: Value)
    ensures DigitsFinding(rows, link, key, max).Some? <==> DigitsApply(link, key, max) && FirstMaxRow(rows, key, max, 0).Some?
    ensures DigitsFinding(rows, link, key, max).Some? ==>
      DigitsFinding(rows, link, key, max) == FindingOnMaxRow(rows, key, max, DigitsMessage(key, max, Cell(LinkMatch(link, key).value, "Link_Length_Actual")))
  {
  }

  /**
   * `validate_link_length_consistency`, which `validate_alignment` no longer
   * calls: the rule is modelled but takes no part in the report.
   */
  function LengthConsistencyFindings(t: Table, link: Table): (r: Outcome<seq<Finding>>)
    requires "Link_Length_Actual" in link.columns
    ensures ("Link_No" !in t.columns || "Chainage_RB" !in t.columns) ==> r == Done([])
    ensures r.Done? ==> |r.value| <= |GroupKeys(t.rows)|
  {
    if "Link_No" in t.columns && "Chainage_RB" in t.columns then
      var keys := GroupKeys(t.rows);
      match GroupMaxes(t.rows, keys)
      case Raised(e) => Raised(e)
      case Done(maxes) =>
        Done(Somes(seq(|keys|, g requires 0 <= g < |keys| => DigitsFinding(t.rows, link, keys[g], maxes[g]))))
    else Done([])
  }
}
