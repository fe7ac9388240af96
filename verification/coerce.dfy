/**
  The `int(...)` and `float(...)` conversions `set_default` applies to schema
  defaults whose declared type is "int" or "float". A string is parsed as an
  optionally signed run of ASCII digits (with one optional decimal point for
  `float`); a float is truncated toward zero by `int`; a bool is 0 or 1; any
  other value raises. Floats are represented by their exact real value.
 */
module Coerce {
  import opened PyJson

  predicate IsDigit(c: char)
  {
    '0' <= c <= '9'
  }

  predicate AllDigits(s: string)
  {
    forall i :: 0 <= i < |s| ==> IsDigit(s[i])
  }

  function DigitValue(c: char): int
    requires IsDigit(c)
  {
    c as int - '0' as int
  }

  /** The value of a run of decimal digits, most significant first. */
  function DigitsValue(s: string): nat
    requires AllDigits(s)
  {
    if |s| == 0 then 0 else DigitsValue(s[..|s| - 1]) * 10 + DigitValue(s[|s| - 1])
  }

  function Pow10(n: nat): (r: nat)
    ensures r >= 1
  {
    if n == 0 then 1 else 10 * Pow10(n - 1)
  }

  predicate HasSign(s: string)
  {
    |s| > 0 && (s[0] == '-' || s[0] == '+')
  }

  /** The text after an optional leading sign. */
  function Unsigned(s: string): string
  {
    if HasSign(s) then s[1..] else s
  }

  /** `int(s)` for a string. */
  function ParseInt(s: string): (r: Result<int>)
    ensures r.Ok? <==> |Unsigned(s)| > 0 && AllDigits(Unsigned(s))
    ensures r.Ok? && !HasSign(s) ==> r.value >= 0
  {
    var body := Unsigned(s);
    if |body| > 0 && AllDigits(body) then
      Ok(if HasSign(s) && s[0] == '-' then -(DigitsValue(body) as int) else DigitsValue(body))
    else Err(ValueError(s))
  }

  /** Position of the first '.' in `s`, or |s| when there is none. */
  function DotAt(s: string): (r: nat)
    ensures r <= |s|
    ensures forall i :: 0 <= i < r ==> s[i] != '.'
    ensures r < |s| ==> s[r] == '.'
  {
    if |s| == 0 || s[0] == '.' then 0 else 1 + DotAt(s[1..])
  }

  /** `float(s)` for a string: digits, optionally a point and more digits, at least one digit in all. */
  function ParseFloat(s: string): (r: Result<real>)
    ensures r.Ok? ==> exists i :: 0 <= i < |s| && IsDigit(s[i])
  {
    var body := Unsigned(s);
    var dot := DotAt(body);
    var whole := body[..dot];
    var frac := if dot < |body| then body[dot + 1..] else "";
    if AllDigits(whole) && AllDigits(frac) && |whole| + |frac| > 0 then
      var magnitude := DigitsValue(whole) as real + DigitsValue(frac) as real / Pow10(|frac|) as real;
      assert exists i :: 0 <= i < |s| && IsDigit(s[i]) by {
        var off := if HasSign(s) then 1 else 0;
        if |whole| > 0 {
          assert s[off] == body[0] == whole[0];
        } else {
          assert s[off + dot + 1] == body[dot + 1] == frac[0];
        }
      }
      Ok(if HasSign(s) && s[0] == '-' then -magnitude else magnitude)
    else Err(ValueError(s))
  }

  /** Truncation toward zero, as `int()` does to a float. */
  function Truncate(x: real): (r: int)
    ensures x >= 0.0 ==> 0.0 <= r as real <= x < r as real + 1.0
    ensures x < 0.0 ==> r as real - 1.0 < x <= r as real && r <= 0
  {
    if x >= 0.0 then x.Floor else -((-x).Floor)
  }

  /** `int(v)` for a JSON value. */
  function ToInt(v: Json): (r: Result<int>)
    ensures r.Ok? <==> v.JInt? || v.JBool? || v.JFloat? || (v.JStr? && ParseInt(v.s).Ok?)
    ensures v.JInt? ==> r == Ok(v.i)
    ensures IsNumber(v) ==> r.Ok? && (r.value as real - NumValue(v)) * (r.value as real - NumValue(v)) < 1.0
    ensures v.JBool? ==> r == Ok(if v.b then 1 else 0)
    ensures v.JFloat? && v.r >= 0.0 ==> r.Ok? && 0 <= r.value && r.value as real <= v.r < r.value as real + 1.0
    ensures v.JFloat? && v.r < 0.0 ==> r.Ok? && r.value <= 0 && r.value as real - 1.0 < v.r <= r.value as real
    ensures v.JStr? ==> r == ParseInt(v.s)
  {
    match v
    case JInt(i) => Ok(i)
    case JBool(b) => Ok(if b then 1 else 0)
    case JFloat(x) => Ok(Truncate(x))
    case JStr(s) => ParseInt(s)
    case _ => Err(TypeError("int() argument must be a string or a number"))
  }

  /** `float(v)` for a JSON value. */
  function ToFloat(v: Json): (r: Result<real>)
    ensures r.Ok? <==> IsNumber(v) || (v.JStr? && ParseFloat(v.s).Ok?)
    ensures IsNumber(v) ==> r == Ok(NumValue(v))
  {
    match v
    case JInt(i) => Ok(i as real)
    case JBool(b) => Ok(if b then 1.0 else 0.0)
    case JFloat(x) => Ok(x)
    case JStr(s) => ParseFloat(s)
    case _ => Err(TypeError("float() argument must be a string or a number"))
  }

  /** A default coerced according to the Item's declared type: "int" and "float"
      convert, any other declared type passes the default through. */
  function CoerceDefault(declared: Json, default: Json): (r: Result<Json>)
    ensures declared == JStr("int") ==> (r.Ok? <==> ToInt(default).Ok?) && (r.Ok? ==> r.value == JInt(ToInt(default).value))
    ensures declared == JStr("float") ==> (r.Ok? <==> ToFloat(default).Ok?) && (r.Ok? ==> r.value == JFloat(ToFloat(default).value))
    ensures declared != JStr("int") && declared != JStr("float") ==> r == Ok(default)
  {
    if declared == JStr("int") then
      var n :- ToInt(default);
      Ok(JInt(n))
    else if declared == JStr("float") then
      var x :- ToFloat(default);
      Ok(JFloat(x))
    else Ok(default)
  }

  /* ---------------- properties ---------------- */

  lemma DigitCharValue(d: int)
    requires 0 <= d < 10
    ensures IsDigit(DigitChar(d)) && DigitValue(DigitChar(d)) == d
  {
  }

  /** Reading back the decimal digits of a natural number gives the number. */
  lemma {:induction false} NatDigitsRoundTrip(n: nat)
    ensures AllDigits(NatToString(n)) && DigitsValue(NatToString(n)) == n
    decreases n
  {
    var s := NatToString(n);
    if n < 10 {
      DigitCharValue(n);
      assert s[..0] == "";
    } else {
      NatDigitsRoundTrip(n / 10);
      DigitCharValue(n % 10);
      var p := NatToString(n / 10);
      assert s == p + [DigitChar(n % 10)];
      assert s[..|s| - 1] == p;
    }
  }

  /** `int(str(i)) == i`: parsing undoes printing for every integer. */
  lemma IntRoundTrip(i: int)
    ensures ParseInt(IntToString(i)) == Ok(i)
  {
    var s := IntToString(i);
    if i < 0 {
      NatDigitsRoundTrip(-i);
      assert Unsigned(s) == NatToString(-i);
    } else {
      NatDigitsRoundTrip(i);
      assert !HasSign(s);
    }
  }

  /** The decimal form `str()` gives an int: an optional '-', then a non-empty
      run of digits without a leading zero, and never "-0". */
  predicate Canonical(s: string)
  {
    var body := if |s| > 0 && s[0] == '-' then s[1..] else s;
    |body| > 0 && AllDigits(body) && (body[0] == '0' ==> body == "0") &&
    (|s| > 0 && s[0] == '-' ==> body != "0")
  }

  /** `str(i)` is always in decimal form. */
  lemma IntToStringCanonical(i: int)
    ensures Canonical(IntToString(i))
  {
    var s := IntToString(i);
    if i < 0 {
      assert s[1..][0] == s[1];
    }
  }

  /** A digit run without a leading zero is the printed form of its value. */
  lemma {:induction false} DigitsPrintRoundTrip(d: string)
    requires |d| > 0 && AllDigits(d) && (d[0] == '0' ==> d == "0")
    ensures NatToString(DigitsValue(d)) == d
    ensures d != "0" ==> DigitsValue(d) > 0
    decreases |d|
  {
    var last := d[|d| - 1];
    var p := d[..|d| - 1];
    if |d| == 1 {
      assert p == "";
      assert [DigitChar(DigitValue(last))] == d;
    } else {
      assert p[0] == d[0];
      DigitsPrintRoundTrip(p);
      var v := DigitsValue(d);
      assert v == DigitsValue(p) * 10 + DigitValue(last);
      assert v / 10 == DigitsValue(p) && v % 10 == DigitValue(last);
      assert NatToString(v) == NatToString(v / 10) + [DigitChar(v % 10)];
      assert d == p + [last];
    }
  }

  /** `str(int(s)) == s` for every string in decimal form: together with
      `IntRoundTrip`, `str` and `int` are inverse bijections between the
      integers and the decimal forms. */
  lemma PrintParseRoundTrip(s: string)
    requires Canonical(s)
    ensures ParseInt(s).Ok? && IntToString(ParseInt(s).value) == s
  {
    var neg := |s| > 0 && s[0] == '-';
    var body := if neg then s[1..] else s;
    DigitsPrintRoundTrip(body);
    assert Unsigned(s) == body;
    if neg {
      assert s == "-" + body;
    }
  }

  /** A leading zero does not change the value of a digit run. */
  lemma {:induction false} DigitsLeadingZero(d: string)
    requires AllDigits(d)
    ensures AllDigits("0" + d) && DigitsValue("0" + d) == DigitsValue(d)
    decreases |d|
  {
    var z := "0" + d;
    if |d| == 0 {
      assert z[..0] == "";
    } else {
      DigitsLeadingZero(d[..|d| - 1]);
      assert z[..|z| - 1] == "0" + d[..|d| - 1];
      assert z[|z| - 1] == d[|d| - 1];
    }
  }

  /** `int("0" + d) == int(d)` for a digit run `d`, so `int("007") == 7`. */
  lemma ParseIntLeadingZero(d: string)
    requires |d| > 0 && AllDigits(d)
    ensures ParseInt("0" + d) == ParseInt(d)
  {
    DigitsLeadingZero(d);
    assert !HasSign(d) by { assert IsDigit(d[0]); }
    assert Unsigned("0" + d) == "0" + d;
  }

  /** `int("+" + d) == int(d)` for a digit run `d`. */
  lemma ParseIntPlus(d: string)
    requires |d| > 0 && AllDigits(d)
    ensures ParseInt("+" + d) == ParseInt(d)
  {
    assert !HasSign(d) by { assert IsDigit(d[0]); }
    assert Unsigned("+" + d) == d;
  }

  /** `int("-" + d) == -int(d)` for a digit run `d`, so `int("-0") == 0`. */
  lemma ParseIntMinus(d: string)
    requires |d| > 0 && AllDigits(d)
    ensures ParseInt(d).Ok? && ParseInt("-" + d) == Ok(-ParseInt(d).value)
  {
    assert !HasSign(d) by { assert IsDigit(d[0]); }
    assert Unsigned("-" + d) == d;
  }

  /** Every string `int()` accepts, `float()` accepts with the same value. */
  lemma ParseFloatExtendsParseInt(s: string)
    requires ParseInt(s).Ok?
    ensures ParseFloat(s) == Ok(ParseInt(s).value as real)
  {
    var body := Unsigned(s);
    DotAtAbsent(body);
    assert body[..|body|] == body;
  }

  lemma {:induction false} DotAtAbsent(s: string)
    requires AllDigits(s)
    ensures DotAt(s) == |s|
  {
    if |s| > 0 {
      DotAtAbsent(s[1..]);
    }
  }

  /** Coercing an already coerced default changes nothing (the schema keeps the
      coerced default, so a second pass over it sees the same value). */
  lemma CoerceIdempotent(declared: Json, default: Json)
    requires CoerceDefault(declared, default).Ok?
    ensures CoerceDefault(declared, CoerceDefault(declared, default).value) == CoerceDefault(declared, default)
  {
  }

  lemma ParseIntExamples()
    ensures ParseInt("5") == Ok(5)
    ensures ParseInt("-12") == Ok(-12)
    ensures ParseInt("5.0").Err?
  {
    assert DigitsValue("1") == 1 by { assert "1"[..0] == ""; }
    assert DigitsValue("12") == 12 by { assert "12"[..1] == "1"; }
    assert DigitsValue("5") == 5 by { assert "5"[..0] == ""; }
    assert Unsigned("-12") == "12";
    assert !IsDigit("5.0"[1]);
  }

  lemma ParseFloatExample()
    ensures ParseFloat("1.5") == Ok(1.5)
  {
    assert DigitsValue("1") == 1 by { assert "1"[..0] == ""; }
    assert DigitsValue("5") == 5 by { assert "5"[..0] == ""; }
    assert DotAt("1.5") == 1 by { assert DotAt("5") == 1 by { assert DotAt("") == 0; } }
    assert "1.5"[..1] == "1";
    assert "1.5"[2..] == "5";
  }
}
