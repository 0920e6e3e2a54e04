/**
 * Numbers as the validators see them.  A cell read from the database or a
 * spreadsheet holds a decimal; `Dec` keeps it exactly, as `digits × 10^-scale`.
 * `PyFloat` is the result of Python's `float(...)`: a finite decimal or nan.
 * The module also gives `float(str)`, `int(str)`, `str(float)`, `int(float)`
 * and the `{:.0f}` rounding used in messages.
 */
module Numbers {
  import opened Wrappers
  import opened Text

  function Pow10(n: nat): (r: nat)
    ensures r >= 1
  {
    if n == 0 then 1 else 10 * Pow10(n - 1)
  }

  datatype Dec = Dec(digits: int, scale: nat)
  {
    /** The value, shifting the point one place per unit of scale. */
    function Val(): real
      decreases scale
    {
      if scale == 0 then digits as real else Dec(digits, scale - 1).Val() / 10.0
    }
  }

  datatype PyFloat = Finite(d: Dec) | NotANumber

  /** Every character is a decimal digit (the empty string included). */
  predicate OnlyDigits(s: string) {
    forall k :: 0 <= k < |s| ==> IsDigitChar(s[k])
  }

  function DigitValue(c: char): nat
    requires IsDigitChar(c)
  {
    c as int - '0' as int
  }

  /** The number a string of decimal digits spells. */
  function DigitsValue(s: string): nat
    requires OnlyDigits(s)
  {
    if s == [] then 0 else DigitsValue(s[..|s| - 1]) * 10 + DigitValue(s[|s| - 1])
  }

  /** Index of the first '.' in `s`, or `|s|` when there is none. */
  function DotIndex(s: string): (k: nat)
    ensures k <= |s|
    ensures forall j :: 0 <= j < k ==> s[j] != '.'
    ensures k < |s| ==> s[k] == '.'
  {
    if s == [] then 0 else if s[0] == '.' then 0 else 1 + DotIndex(s[1..])
  }

  /** Splits off a leading '+' or '-'; the flag tells whether it was '-'. */
  function SplitSign(t: string): (bool, string) {
    if t != [] && (t[0] == '+' || t[0] == '-') then (t[0] == '-', t[1..]) else (false, t)
  }

  /**
   * Python's `float(s)` on a string: surrounding white space is ignored, an
   * optional sign, then digits with at most one decimal point and at least
   * one digit, or the word nan in any case.
   */
  function ParseFloat(s: string): Option<PyFloat> {
    var (negative, body) := SplitSign(Strip(s));
    if IsNanWord(body) then Some(NotANumber)
    else
      var k := DotIndex(body);
      var whole := body[..k];
      var frac := if k < |body| then body[k + 1..] else "";
      if OnlyDigits(whole) && OnlyDigits(frac) && |whole| + |frac| > 0 then
        Some(Finite(DecOf(negative, whole, frac)))
      else
        None
  }

  /** `s.lower() == "nan"`, asked one character at a time. */
  predicate IsNanWord(s: string) {
    |s| == 3 && LowerChar(s[0]) == 'n' && LowerChar(s[1]) == 'a' && LowerChar(s[2]) == 'n'
  }

  /**
   * The decimal written as a sign, the digits before the point and those
   * after it: all the digits read as one number, scaled by the length of
   * the fraction.
   */
  function DecOf(negative: bool, whole: string, frac: string): Dec
    requires OnlyDigits(whole) && OnlyDigits(frac)
  {
    var m: int := DigitsValue(whole + frac);
    Dec(if negative then -m else m, |frac|)
  }

  /** Python's `int(s)` on a string: white space, an optional sign, then decimal digits. */
  function ParseInt(s: string): Option<int> {
    var (negative, body) := SplitSign(Strip(s));
    if IsDigits(body) then
      var v: int := DigitsValue(body);
      Some(if negative then -v else v)
    else
      None
  }

  /** A string without white space is left alone by `strip()`. */
  lemma StripNoSpace(s: string)
    requires forall k :: 0 <= k < |s| ==> !IsSpace(s[k])
    ensures Strip(s) == s
  {
  }

  lemma {:induction false} DigitsValueOfNatText(n: nat)
    ensures OnlyDigits(NatText(n)) && DigitsValue(NatText(n)) == n
    decreases n
  {
    var s := NatText(n);
    if n >= 10 {
      DigitsValueOfNatText(n / 10);
      assert s[..|s| - 1] == NatText(n / 10);
    }
  }

  /** `int(str(i)) == i`. */
  lemma ParseIntOfIntText(i: int)
    ensures ParseInt(IntText(i)) == Some(i)
  {
    var n: nat := if i < 0 then -i else i;
    DigitsValueOfNatText(n);
    var s := IntText(i);
    StripNoSpace(s);
    if i < 0 {
      assert s[1..] == NatText(n);
    }
  }

  /** `float(str(i)) == i` for a Python `int`. */
  lemma ParseFloatOfIntText(i: int)
    ensures ParseFloat(IntText(i)) == Some(Finite(Dec(i, 0)))
  {
    DigitsValueOfNatText(Abs(i));
    IntTextStripped(i);
    IntTextSplit(i);
    ParseFloatOfSigned(IntText(i), i < 0, NatText(Abs(i)));
  }

  lemma IntTextStripped(i: int)
    ensures Strip(IntText(i)) == IntText(i)
  {
    var s := IntText(i);
    forall k | 0 <= k < |s| ensures !IsSpace(s[k]) {
      if i < 0 && k > 0 {
        assert s[k] == s[1..][k - 1];
      }
    }
    StripNoSpace(s);
  }

  lemma IntTextSplit(i: int)
    ensures SplitSign(IntText(i)) == (i < 0, NatText(Abs(i)))
  {
    if i < 0 {
      assert IntText(i)[1..] == NatText(Abs(i));
    }
  }

  /** A stripped sign and digits read as that many units. */
  lemma ParseFloatOfSigned(s: string, negative: bool, body: string)
    requires Strip(s) == s && SplitSign(s) == (negative, body) && IsDigits(body)
    ensures ParseFloat(s) == Some(Finite(Dec(if negative then -(DigitsValue(body) as int) else DigitsValue(body) as int, 0)))
  {
    DigitsAreNotNan(body);
    NoPointInDigits(body);
    assert body[..|body|] == body;
    assert body + "" == body;
  }

  lemma DigitsAreNotNan(body: string)
    requires IsDigits(body)
    ensures !IsNanWord(body)
  {
    assert LowerChar(body[0]) == body[0];
  }

  lemma NoPointInDigits(body: string)
    requires IsDigits(body)
    ensures DotIndex(body) == |body|
  {
    assert forall j :: 0 <= j < |body| ==> body[j] != '.';
  }

  /** Drops trailing zeros of the fraction; the value is unchanged. */
  function Normalize(d: Dec): (n: Dec)
    ensures n.Val() == d.Val()
    ensures n.scale > 0 ==> n.digits % 10 != 0
    decreases d.scale
  {
    if d.scale > 0 && d.digits % 10 == 0 then
      var e := Dec(d.digits / 10, d.scale - 1);
      assert e.Val() == d.Val() by {
        assert d.digits == (d.digits / 10) * 10;
        ScaleDigits(d.digits / 10, d.scale - 1);
      }
      Normalize(e)
    else
      d
  }

  /** Multiplying the digits by ten multiplies the value by ten. */
  lemma {:induction false} ScaleDigits(m: int, scale: nat)
    ensures Dec(10 * m, scale).Val() == 10.0 * Dec(m, scale).Val()
    decreases scale
  {
    if scale > 0 {
      ScaleDigits(m, scale - 1);
    }
  }

  /** Left-pads `s` with zeros up to `width` characters. */
  function PadLeft(s: string, width: nat): (r: string)
    ensures |r| == if |s| >= width then |s| else width
    ensures OnlyDigits(s) ==> OnlyDigits(r)
    decreases width - |s|
  {
    if |s| >= width then s else PadLeft("0" + s, width)
  }

  /**
   * `str(x)` for a Python float in positional notation: the integer part, a
   * point, and the fraction without trailing zeros but with at least one
   * digit ("12.0", "0.05", "-3.25").
   */
  function FloatText(d: Dec): (r: string)
    ensures !IsDigits(r)
  {
    var n := Normalize(d);
    var a := Abs(n.digits);
    var p := Pow10(n.scale);
    var head := (if n.digits < 0 then "-" else "") + NatText(if n.scale == 0 then a else Quotient(a, p));
    var tail := if n.scale == 0 then "0" else PadLeft(NatText(Remainder(a, p)), n.scale);
    PointAt(head, tail);
    head + "." + tail
  }

  /** `str(x)` of a float is made of digits, at most a sign, and a point. */
  lemma FloatTextChars(d: Dec)
    ensures forall k :: 0 <= k < |FloatText(d)| ==> IsNumeralChar(FloatText(d)[k])
  {
    var n := Normalize(d);
    var a := Abs(n.digits);
    var p := Pow10(n.scale);
    var sign := if n.digits < 0 then "-" else "";
    var whole := NatText(if n.scale == 0 then a else Quotient(a, p));
    var tail := if n.scale == 0 then "0" else PadLeft(NatText(Remainder(a, p)), n.scale);
    var t := sign + whole + "." + tail;
    assert FloatText(d) == t;
    forall k | 0 <= k < |t|
      ensures IsNumeralChar(t[k])
    {
      if k < |sign| {
      } else if k < |sign| + |whole| {
        assert t[k] == whole[k - |sign|];
      } else if k > |sign| + |whole| {
        assert t[k] == tail[k - |sign| - |whole| - 1];
      }
    }
  }

  function Abs(i: int): nat {
    if i < 0 then -i else i
  }

  function Quotient(a: nat, p: nat): nat
    requires p >= 1
  {
    a / p
  }

  function Remainder(a: nat, p: nat): nat
    requires p >= 1
  {
    a % p
  }

  lemma PointAt(head: string, tail: string)
    ensures !IsDigits(head + "." + tail)
  {
    assert (head + "." + tail)[|head|] == '.';
  }

  function PyFloatText(f: PyFloat): string {
    match f
    case Finite(d) => FloatText(d)
    case NotANumber => "nan"
  }

  /** `int(x)`: rounds toward zero. */
  function Trunc(x: real): (i: int)
    ensures x >= 0.0 ==> i as real <= x < i as real + 1.0
    ensures x < 0.0 ==> i as real - 1.0 < x <= i as real
  {
    if x >= 0.0 then x.Floor else -((-x).Floor)
  }

  /** The integer `"{:.0f}".format(x)` shows: nearest, ties to even. */
  function RoundHalfEven(x: real): (i: int)
    ensures -(1.0 / 2.0) <= x - i as real <= 1.0 / 2.0
    ensures x - i as real == 1.0 / 2.0 || i as real - x == 1.0 / 2.0 ==> i % 2 == 0
  {
    var f := x.Floor;
    var rest := x - f as real;
    if rest < 1.0 / 2.0 then f
    else if rest > 1.0 / 2.0 then f + 1
    else if f % 2 == 0 then f else f + 1
  }
}
