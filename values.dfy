/**
 * A cell of a pandas DataFrame and the Python built-ins the validators apply
 * to it: `str`, `repr`, `type(...).__name__`, `float`, `int`, truthiness,
 * `==`, `pd.isna`, and the order in which pandas sorts an object column.
 */
module Values {
  import opened Wrappers
  import opened Text
  import opened Numbers

  /**
   * `Null` is Python's None, `NaN` the float nan pandas uses for a missing
   * number; `Bool` is a Python bool, which Python also treats as the integer
   * 0 or 1.
   */
  datatype Value = Null | NaN | Str(s: string) | Int(i: int) | Float(d: Dec) | Bool(b: bool)

  /** `pd.isna(v)`. */
  predicate IsNa(v: Value) {
    v.Null? || v.NaN?
  }

  /** A Python number other than nan: an int, a bool or a finite float. */
  predicate IsNumber(v: Value) {
    v.Int? || v.Float? || v.Bool?
  }

  function NumVal(v: Value): real
    requires IsNumber(v)
  {
    match v
    case Int(i) => i as real
    case Float(d) => d.Val()
    case Bool(b) => if b then 1.0 else 0.0
  }

  /** `str(v)`. */
  function PyStr(v: Value): string {
    match v
    case Null => "None"
    case NaN => "nan"
    case Str(s) => s
    case Int(i) => IntText(i)
    case Float(d) => FloatText(d)
    case Bool(b) => if b then "True" else "False"
  }

  /** `repr(v)`, as it appears inside a tuple display. */
  function PyRepr(v: Value): string {
    if v.Str? then "'" + v.s + "'" else PyStr(v)
  }

  /** `type(v).__name__`. */
  function TypeName(v: Value): string {
    match v
    case Null => "NoneType"
    case NaN => "float"
    case Str(_) => "str"
    case Int(_) => "int"
    case Float(_) => "float"
    case Bool(_) => "bool"
  }

  /** `float(v)`; `None` when Python raises. */
  function ToFloat(v: Value): Option<PyFloat> {
    match v
    case Null => None
    case NaN => Some(NotANumber)
    case Str(s) => ParseFloat(s)
    case Int(i) => Some(Finite(Dec(i, 0)))
    case Float(d) => Some(Finite(d))
    case Bool(b) => Some(Finite(Dec(if b then 1 else 0, 0)))
  }

  /** `int(v)`; `None` when Python raises. */
  function ToInt(v: Value): Option<int> {
    match v
    case Null => None
    case NaN => None
    case Str(s) => ParseInt(s)
    case Int(i) => Some(i)
    case Float(d) => Some(Trunc(d.Val()))
    case Bool(b) => Some(if b then 1 else 0)
  }

  /** `bool(v)`, the test behind `if v` and `not v`. */
  predicate Truthy(v: Value) {
    match v
    case Null => false
    case NaN => true
    case Str(s) => s != ""
    case Int(i) => i != 0
    case Float(d) => d.Val() != 0.0
    case Bool(b) => b
  }

  /** Python's `a == b` on two cells. */
  predicate PyEq(a: Value, b: Value) {
    if a.Null? || b.Null? then a.Null? && b.Null?
    else if a.Str? || b.Str? then a.Str? && b.Str? && a.s == b.s
    else IsNumber(a) && IsNumber(b) && NumVal(a) == NumVal(b)
  }

  /** `v in column.values`. */
  predicate InValues(v: Value, column: seq<Value>) {
    exists k :: 0 <= k < |column| && PyEq(v, column[k])
  }

  /**
   * `_is_empty`, which the road-condition, traffic-volume, retaining-wall and
   * unit-cost validators each define identically: None, nan, or a string
   * that is blank after stripping.
   */
  predicate IsEmpty(v: Value) {
    IsNa(v) || (v.Str? && Strip(v.s) == "")
  }

  lemma IsEmptyMeansBlank(v: Value)
    ensures IsEmpty(v) <==> IsNa(v) || (v.Str? && forall k :: 0 <= k < |v.s| ==> IsSpace(v.s[k]))
  {
  }

  /** `==` is an equivalence on every value except nan, which equals nothing. */
  lemma PyEqEquivalence(a: Value, b: Value, c: Value)
    ensures PyEq(a, a) <==> !a.NaN?
    ensures PyEq(a, b) ==> PyEq(b, a)
    ensures PyEq(a, b) && PyEq(b, c) ==> PyEq(a, c)
    ensures PyEq(a, b) ==> !a.NaN? && !b.NaN?
  {
  }

  /** `float(str(i)) == float(i)`: the text of an int reads back as the same number. */
  lemma ToFloatOfIntText(i: int)
    ensures ToFloat(Str(PyStr(Int(i)))) == ToFloat(Int(i))
  {
    ParseFloatOfIntText(i);
  }

  /** `int(str(i)) == i`. */
  lemma ToIntOfIntText(i: int)
    ensures ToInt(Str(PyStr(Int(i)))) == Some(i)
  {
    ParseIntOfIntText(i);
  }

  /**
   * Where pandas puts a value when it sorts an object column by value:
   * numbers first, then strings, then missing values.
   */
  function SortRank(v: Value): nat {
    if IsNumber(v) then 0 else if v.Str? then 1 else 2
  }

  /** `a` sorts no later than `b`: numbers by value, strings by code points, missing values last. */
  predicate SortLe(a: Value, b: Value) {
    if SortRank(a) != SortRank(b) then SortRank(a) < SortRank(b)
    else if IsNumber(a) then NumVal(a) <= NumVal(b)
    else if a.Str? then a.s == b.s || StrLess(a.s, b.s)
    else true
  }

  /** Two values fall in the same sort position: equal, or both missing. */
  predicate SameKey(a: Value, b: Value) {
    (IsNa(a) && IsNa(b)) || PyEq(a, b)
  }

  lemma SortLeTotalPreorder(a: Value, b: Value, c: Value)
    ensures SortLe(a, b) || SortLe(b, a)
    ensures SortLe(a, b) && SortLe(b, c) ==> SortLe(a, c)
    ensures SortLe(a, b) && SortLe(b, a) <==> SameKey(a, b)
  {
    if a.Str? && b.Str? {
      StrLessTotal(a.s, b.s);
      if StrLess(a.s, b.s) && StrLess(b.s, a.s) {
        StrLessTransitive(a.s, b.s, a.s);
        StrLessIrreflexive(a.s);
      }
      if a.Str? && b.Str? && c.Str? && StrLess(a.s, b.s) && StrLess(b.s, c.s) {
        StrLessTransitive(a.s, b.s, c.s);
      }
    }
  }
}
