/** Cells of a pandas column and the numeric coercion the analysis script applies to them. */
module Cells {

  datatype Option<+T> = None | Some(value: T)

  /** One cell of a DataFrame column. `Missing` stands for NaN, None and pandas' NA alike;
      `Int` is an integer-typed cell (int64 or Int64), `Float` a float64 cell, `Text` a string. */
  datatype Cell = Missing | Int(i: int) | Float(x: real) | Text(s: string)

  predicate IsDigit(c: char) { '0' <= c <= '9' }

  predicate AllDigits(s: string) { forall k :: 0 <= k < |s| ==> IsDigit(s[k]) }

  function DigitValue(c: char): nat
    requires IsDigit(c)
  {
    (c as int) - ('0' as int)
  }

  function DigitChar(d: nat): (c: char)
    requires d < 10
    ensures IsDigit(c) && DigitValue(c) == d
  {
    ('0' as int + d) as char
  }

  /** The value of a string of decimal digits, most significant first. */
  function DigitsValue(s: string): nat
    requires AllDigits(s)
  {
    if s == [] then 0 else 10 * DigitsValue(s[..|s| - 1]) + DigitValue(s[|s| - 1])
  }

  function Pow10(k: nat): (p: nat)
    ensures p >= 1
  {
    if k == 0 then 1 else 10 * Pow10(k - 1)
  }

  /** Index of the first occurrence of `c` in `s`, or `|s|` when there is none. */
  function IndexOf(s: string, c: char): (i: nat)
    ensures i <= |s|
    ensures i < |s| ==> s[i] == c
    ensures forall k :: 0 <= k < i ==> s[k] != c
  {
    if s == [] then 0 else if s[0] == c then 0 else 1 + IndexOf(s[1..], c)
  }

  /** `x` with the decimal point moved `k` places to the left. */
  function Shift(x: real, k: nat): real
  {
    if k == 0 then x else Shift(x, k - 1) / 10.0
  }

  lemma {:induction false} ShiftIsDivision(x: real, k: nat)
    ensures Shift(x, k) == x / Pow10(k) as real
  {
    if k > 0 {
      ShiftIsDivision(x, k - 1);
      var p := Pow10(k - 1) as real;
      assert Pow10(k) as real == 10.0 * p;
      assert x / p / 10.0 == x / (10.0 * p);
    }
  }

  /** The number written `whole.frac`, when both parts are digit strings and not both empty. */
  function DecimalValue(whole: string, frac: string): (r: Option<real>)
    ensures r.Some? ==> AllDigits(whole) && AllDigits(frac)
  {
    if AllDigits(whole) && AllDigits(frac) && |whole| + |frac| > 0 then
      Some(DigitsValue(whole) as real + Shift(DigitsValue(frac) as real, |frac|))
    else
      None
  }

  /** An unsigned decimal literal: digits with at most one '.', and at least one digit. */
  function ParseUnsigned(s: string): (r: Option<real>)
    ensures r.Some? ==> forall k :: 0 <= k < |s| ==> IsDigit(s[k]) || s[k] == '.'
  {
    var dot := IndexOf(s, '.');
    var frac := if dot < |s| then s[dot + 1..] else "";
    var r := DecimalValue(s[..dot], frac);
    assert r.Some? ==> forall k :: dot < k < |s| ==> s[k] == frac[k - dot - 1];
    r
  }

  lemma NoDotInDigits(s: string)
    requires AllDigits(s)
    ensures IndexOf(s, '.') == |s|
  {
    forall k | 0 <= k < |s| ensures s[k] != '.' { assert IsDigit(s[k]); }
  }

  lemma DecimalValueOfWhole(s: string)
    requires |s| > 0 && AllDigits(s)
    ensures DecimalValue(s, "") == Some(DigitsValue(s) as real)
  {
    assert DigitsValue("") == 0 && Pow10(0) == 1;
  }

  lemma ParseUnsignedOfDigits(s: string)
    requires |s| > 0 && AllDigits(s)
    ensures ParseUnsigned(s) == Some(DigitsValue(s) as real)
  {
    NoDotInDigits(s);
    assert s[..IndexOf(s, '.')] == s;
    DecimalValueOfWhole(s);
  }

  /** Python's `float(s)` on the decimal literals the stats file holds: an optional sign
      followed by an unsigned decimal literal. Anything else is a `ValueError` (None). */
  function ParseDecimal(s: string): (r: Option<real>)
    ensures r.Some? ==> forall k :: 0 <= k < |s| ==> IsDigit(s[k]) || s[k] in ".+-"
  {
    if |s| > 0 && (s[0] == '-' || s[0] == '+') then
      var v := ParseUnsigned(s[1..]);
      assert v.Some? ==> forall k :: 1 <= k < |s| ==> s[k] == s[1..][k - 1];
      if v.None? then None else if s[0] == '-' then Some(-v.value) else v
    else
      ParseUnsigned(s)
  }

  /** The first '.' after a run of digits is the one that ends the run. */
  lemma {:induction false} IndexOfAfterDigits(whole: string, rest: string)
    requires AllDigits(whole) && |rest| > 0 && rest[0] == '.'
    ensures IndexOf(whole + rest, '.') == |whole|
    decreases |whole|
  {
    if whole == [] {
      assert whole + rest == rest;
    } else {
      assert (whole + rest)[0] == whole[0] && IsDigit(whole[0]);
      assert (whole + rest)[1..] == whole[1..] + rest;
      IndexOfAfterDigits(whole[1..], rest);
    }
  }

  lemma ParseUnsignedOfLiteral(whole: string, frac: string)
    requires AllDigits(whole) && AllDigits(frac)
    ensures ParseUnsigned(whole + "." + frac) == DecimalValue(whole, frac)
  {
    var u := whole + "." + frac;
    IndexOfAfterDigits(whole, "." + frac);
    assert u == whole + ("." + frac);
    assert u[..|whole|] == whole && u[|whole| + 1..] == frac;
  }

  lemma ParseDecimalUnsigned(u: string)
    requires |u| > 0 && u[0] != '-' && u[0] != '+'
    ensures ParseDecimal(u) == ParseUnsigned(u)
  {
  }

  lemma ParseDecimalSigned(sign: string, u: string, v: real)
    requires sign == "-" || sign == "+"
    requires ParseUnsigned(u) == Some(v)
    ensures ParseDecimal(sign + u) == Some(if sign == "-" then -v else v)
  {
    assert (sign + u)[0] == sign[0] && (sign + u)[1..] == u;
  }

  /** The value of `whole.frac`: the whole digits plus the fraction digits scaled by
      10^-|frac|. */
  lemma DecimalValueOfParts(whole: string, frac: string)
    requires AllDigits(whole) && AllDigits(frac) && |whole| + |frac| > 0
    ensures DecimalValue(whole, frac) == Some(DigitsValue(whole) as real + DigitsValue(frac) as real / Pow10(|frac|) as real)
  {
    ShiftIsDivision(DigitsValue(frac) as real, |frac|);
  }

  lemma ParseDecimalOfUnsignedLiteral(whole: string, frac: string, v: real)
    requires AllDigits(whole) && DecimalValue(whole, frac) == Some(v)
    ensures ParseDecimal("" + whole + "." + frac) == Some(v)
  {
    var u := whole + "." + frac;
    ParseUnsignedOfLiteral(whole, frac);
    assert "" + whole + "." + frac == u;
    assert u[0] == if |whole| > 0 then whole[0] else '.';
    assert |whole| > 0 ==> IsDigit(whole[0]);
    ParseDecimalUnsigned(u);
  }

  lemma ParseDecimalOfSignedLiteral(sign: string, whole: string, frac: string, v: real)
    requires sign == "-" || sign == "+"
    requires AllDigits(whole) && DecimalValue(whole, frac) == Some(v)
    ensures ParseDecimal(sign + whole + "." + frac) == Some(if sign == "-" then -v else v)
  {
    ParseUnsignedOfLiteral(whole, frac);
    Regroup(sign, whole, frac);
    ParseDecimalSigned(sign, whole + "." + frac, v);
  }

  lemma Regroup(sign: string, whole: string, frac: string)
    ensures sign + whole + "." + frac == sign + (whole + "." + frac)
  {
  }

  /** Python's `float()` of a literal with a fractional part, such as "0.453", "-2.5" or
      "+.5": the value `whole.frac` (DecimalValueOfParts: the whole digits plus the fraction
      digits divided by 10^|frac|), negated under a minus sign. */
  lemma ParseDecimalOfLiteral(sign: string, whole: string, frac: string)
    requires sign == "" || sign == "-" || sign == "+"
    requires AllDigits(whole) && AllDigits(frac) && |whole| + |frac| > 0
    ensures DecimalValue(whole, frac).Some?
    ensures ParseDecimal(sign + whole + "." + frac) ==
              Some(if sign == "-" then -DecimalValue(whole, frac).value else DecimalValue(whole, frac).value)
  {
    DecimalValueOfParts(whole, frac);
    var v := DecimalValue(whole, frac).value;
    if sign == "" {
      ParseDecimalOfUnsignedLiteral(whole, frac, v);
      assert sign + whole + "." + frac == "" + whole + "." + frac;
    } else {
      ParseDecimalOfSignedLiteral(sign, whole, frac, v);
    }
  }

  lemma DigitsOf453()
    ensures AllDigits("0") && AllDigits("453")
    ensures DigitsValue("0") == 0 && DigitsValue("453") == 453 && Pow10(|"453"|) == 1000
  {
    assert DigitsValue("4") == 4 && DigitsValue("45") == 45;
    assert Pow10(1) == 10 && Pow10(2) == 100;
  }

  lemma DigitsOf25()
    ensures AllDigits("2") && AllDigits("5")
    ensures DigitsValue("2") == 2 && DigitsValue("5") == 5 && Pow10(|"5"|) == 10
  {
  }

  /** "0.453" reads as 0.453. */
  lemma ParseDecimalOfFraction()
    ensures ParseDecimal("0.453") == Some(0.453)
  {
    DigitsOf453();
    DecimalValueOfParts("0", "453");
    ParseDecimalOfLiteral("", "0", "453");
    assert "" + "0" + "." + "453" == "0.453";
  }

  /** "-2.5" reads as -2.5. */
  lemma ParseDecimalOfNegative()
    ensures ParseDecimal("-2.5") == Some(-2.5)
  {
    DigitsOf25();
    DecimalValueOfParts("2", "5");
    ParseDecimalOfLiteral("-", "2", "5");
    assert "-" + "2" + "." + "5" == "-2.5";
  }

  /** `str(n)` for a natural number: its decimal digits, without leading zeros. */
  function NatToString(n: nat): (s: string)
    ensures |s| > 0 && AllDigits(s)
  {
    if n < 10 then [DigitChar(n)] else NatToString(n / 10) + [DigitChar(n % 10)]
  }

  lemma {:induction false} DigitsValueOfNatToString(n: nat)
    ensures DigitsValue(NatToString(n)) == n
  {
    if n >= 10 {
      var s := NatToString(n);
      assert s[..|s| - 1] == NatToString(n / 10);
      DigitsValueOfNatToString(n / 10);
    }
  }

  /** Round trip: the decimal text of a natural number parses back to that number. */
  lemma ParseDecimalOfNatToString(n: nat)
    ensures ParseDecimal(NatToString(n)) == Some(n as real)
  {
    DigitsValueOfNatToString(n);
    ParseUnsignedOfDigits(NatToString(n));
  }

  /** `pd.to_numeric(cell, errors='coerce')`: numbers stay, text is parsed, and what does not
      parse becomes NaN (None). */
  function ToNumeric(c: Cell): (r: Option<real>)
    ensures c.Missing? ==> r.None?
    ensures c.Int? ==> r == Some(c.i as real)
    ensures c.Float? ==> r == Some(c.x)
  {
    match c
    case Missing => None
    case Int(i) => Some(i as real)
    case Float(x) => Some(x)
    case Text(s) => ParseDecimal(s)
  }
}
