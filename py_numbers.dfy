/**
 * Python's `int(x)` and `float(s)` as the validators apply them to JSON values, restricted
 * to ASCII decimal digits: a sign, digits and (for `float`) at most one decimal point.
 */
module PyNumbers {
  import opened Wrappers
  import opened Strings
  import opened Json

  function DigitValue(c: char): (d: nat)
    requires IsDigit(c)
    ensures d < 10 && DigitChar(d) == c
  {
    c as int - '0' as int
  }

  predicate AllDigits(s: string) {
    forall i :: 0 <= i < |s| ==> IsDigit(s[i])
  }

  /** The value of a string of decimal digits, read left to right. */
  function DigitsValue(s: string): nat
    requires AllDigits(s)
  {
    if |s| == 0 then 0 else 10 * DigitsValue(s[..|s| - 1]) + DigitValue(s[|s| - 1])
  }

  /** Reading back the digits of a natural number gives the number. */
  lemma {:induction false} DigitsValueOfNatToString(n: nat)
    ensures AllDigits(NatToString(n)) && DigitsValue(NatToString(n)) == n
  {
    if n >= 10 {
      DigitsValueOfNatToString(n / 10);
      var s := NatToString(n);
      assert s[..|s| - 1] == NatToString(n / 10);
    }
  }

  /** An optional leading sign: the sign's factor and the text after it. */
  function SplitSign(t: string): (r: (int, string))
    ensures r.0 == 1 || r.0 == -1
    ensures |r.1| <= |t|
  {
    if |t| > 0 && t[0] == '-' then (-1, t[1..])
    else if |t| > 0 && t[0] == '+' then (1, t[1..])
    else (1, t)
  }

  /** `int(s)` for a string: surrounding whitespace, an optional sign, then at least one digit. */
  function ParseInt(s: string): (r: Option<int>)
    ensures r.Some? ==> Strip(s) != ""
  {
    var (sign, digits) := SplitSign(Strip(s));
    if |digits| > 0 && AllDigits(digits) then Some(sign * DigitsValue(digits)) else None
  }

  /** `str(i)` is read back by `int()`. */
  lemma ParseIntOfIntToString(i: int)
    ensures ParseInt(IntToString(i)) == Some(i)
  {
    var s := IntToString(i);
    var a: nat := if i < 0 then -i else i;
    DigitsValueOfNatToString(a);
    assert !IsSpace(s[|s| - 1]);
    StripTrimmed(s);
    if i < 0 {
      assert s[1..] == NatToString(a);
    }
  }

  /** `int(x)` of a JSON value that is not already an `int` (or `bool`). */
  function PyInt(j: Json): (r: Result<int, PyError>)
    ensures j.JStr? ==> (r.Ok? <==> ParseInt(j.s).Some?)
    ensures j.JDec? && j.mant >= 0 ==> r == Ok(j.mant / Pow10(j.exp))
    ensures (j.JArr? || j.JObj? || j.JNull?) ==> r.Err?
  {
    match j
    case JInt(i) => Ok(i)
    case JBool(b) => Ok(if b then 1 else 0)
    case JDec(m, e) => Ok(if m >= 0 then m / Pow10(e) else -((-m) / Pow10(e)))
    case JStr(s) =>
      (match ParseInt(s)
       case Some(i) => Ok(i)
       case None => Err(ValueError("invalid literal for int() with base 10: '" + s + "'")))
    case _ => Err(TypeError("int() argument must be a string, a bytes-like object or a real number, not '"
                            + TypeName(j) + "'"))
  }

  /** Position of the first `c` in `s`, or `|s|` when there is none. */
  function FirstIndexOf(s: string, c: char): (i: nat)
    ensures i <= |s|
    ensures forall k :: 0 <= k < i ==> s[k] != c
    ensures i < |s| ==> s[i] == c
  {
    if |s| == 0 then 0 else if s[0] == c then 0 else 1 + FirstIndexOf(s[1..], c)
  }

  /**
   * `float(s)` for a decimal string, as `(mantissa, exponent)` meaning `mantissa / 10^exponent`:
   * an optional sign, digits with at most one `.`, and at least one digit in all.
   */
  function ParseDecimal(s: string): (r: Option<(int, nat)>)
    ensures r.Some? ==> Strip(s) != ""
  {
    var (sign, body) := SplitSign(Strip(s));
    var dot := FirstIndexOf(body, '.');
    var whole := body[..dot];
    var frac := if dot < |body| then body[dot + 1..] else "";
    if |whole| + |frac| > 0 && AllDigits(whole) && AllDigits(frac) then
      assert AllDigits(whole + frac);
      Some((sign * DigitsValue(whole + frac), |frac|))
    else None
  }

  /** A plain integer string is read by `float()` as that integer with no fractional digits. */
  lemma ParseDecimalOfIntToString(i: int)
    ensures ParseDecimal(IntToString(i)) == Some((i, 0))
  {
    var s := IntToString(i);
    var a: nat := if i < 0 then -i else i;
    DigitsValueOfNatToString(a);
    assert !IsSpace(s[|s| - 1]);
    StripTrimmed(s);
    var body := SplitSign(s).1;
    assert body == NatToString(a) by {
      if i < 0 {
        assert s[1..] == NatToString(a);
      }
    }
    assert forall k :: 0 <= k < |body| ==> body[k] != '.';
    assert body[..|body|] + "" == body;
  }

  /** Digits are positional: the digits of `x` followed by those of `y` are worth `x` shifted past `y`, plus `y`. */
  lemma {:induction false} DigitsValueAppend(x: string, y: string)
    requires AllDigits(x) && AllDigits(y)
    ensures AllDigits(x + y) && DigitsValue(x + y) == DigitsValue(x) * Pow10(|y|) + DigitsValue(y)
    decreases |y|
  {
    if |y| == 0 {
      assert x + y == x;
    } else {
      var y' := y[..|y| - 1];
      var xy := x + y;
      assert xy[..|xy| - 1] == x + y' && xy[|xy| - 1] == y[|y| - 1];
      DigitsValueAppend(x, y');
      ShiftByTen(DigitsValue(x), Pow10(|y'|));
    }
  }

  lemma ShiftByTen(a: int, p: int)
    ensures 10 * (a * p) == a * (10 * p)
  {
  }

  /** Digits, a point and digits are read as the digits without the point, scaled by the fractional ones. */
  lemma ParseDecimalOfDigits(whole: string, frac: string)
    requires |whole| > 0 && AllDigits(whole) && AllDigits(frac)
    ensures ParseDecimal(whole + "." + frac) == Some((DigitsValue(whole + frac), |frac|))
  {
    var s := whole + "." + frac;
    StripTrimmed(s);
    assert SplitSign(s) == (1, s);
    var dot := FirstIndexOf(s, '.');
    assert s[|whole|] == '.';
    assert forall k :: 0 <= k < |whole| ==> s[k] == whole[k];
    assert dot == |whole|;
    assert s[..dot] == whole && s[dot + 1..] == frac;
  }

  /** A point is not a digit, with or without a sign before it. */
  lemma SignedRejectsPoint(t: string, j: nat)
    requires j < |t| && t[j] == '.'
    ensures !AllDigits(SplitSign(t).1)
  {
    if t[0] == '-' || t[0] == '+' {
      assert SplitSign(t).1[j - 1] == '.';
    } else {
      assert SplitSign(t).1[j] == '.';
    }
  }

  /** Text holding a point is not an integer: `int("2020.0")` raises. */
  lemma ParseIntRejectsPoint(s: string)
    requires '.' in s
    ensures ParseInt(s).None?
  {
    var k :| 0 <= k < |s| && s[k] == '.';
    StripKeeps(s, k);
    var t := Strip(s);
    var j :| 0 <= j < |t| && t[j] == '.';
    SignedRejectsPoint(t, j);
  }

  /** Whether `mant / 10^exp` is a whole number (`float.is_integer()`). */
  predicate IsWhole(mant: int, exp: nat) {
    mant % Pow10(exp) == 0
  }

  /**
   * The number a decimal string denotes after `float()` and the validator's
   * `int(f) if f.is_integer() else f`: an `int` for whole values, a `float` otherwise.
   */
  function WholeOrDecimal(mant: int, exp: nat): (r: Json)
    ensures r.JInt? <==> IsWhole(mant, exp)
    ensures r.JInt? ==> r.i * Pow10(exp) == mant
    ensures r.JDec? ==> r == JDec(mant, exp)
  {
    if IsWhole(mant, exp) then JInt(mant / Pow10(exp)) else JDec(mant, exp)
  }
}
