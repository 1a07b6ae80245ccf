/**
 * The numeric conversion the scanner applies to a finished token,
 * sscanf(accum, "%lf", &d), restricted to the tokens the scanner can build:
 * strings of ASCII digits, '.' and '-'. On such a token the conversion reads
 * an optional '-', then digits with at most one '.', needs at least one
 * digit, and ignores whatever follows the longest such prefix. The model
 * gives the exact decimal value as a real; when no number can be read the
 * conversion fails and stores nothing (None).
 */
module Decimal {
  import opened Wrappers

  predicate IsDigit(c: char)
  {
    '0' <= c <= '9'
  }

  function DigitValue(c: char): nat
    requires IsDigit(c)
  {
    c as int - '0' as int
  }

  /** The number of leading decimal digits of s. */
  function LeadingDigits(s: seq<char>): (k: nat)
    ensures k <= |s|
    ensures forall i :: 0 <= i < k ==> IsDigit(s[i])
    ensures k < |s| ==> !IsDigit(s[k])
  {
    if s != [] && IsDigit(s[0]) then 1 + LeadingDigits(s[1..]) else 0
  }

  predicate AllDigits(s: seq<char>)
  {
    forall i :: 0 <= i < |s| ==> IsDigit(s[i])
  }

  /** The value of a digit string, most significant digit first. */
  function DigitsValue(s: seq<char>): nat
    requires AllDigits(s)
  {
    if s == [] then 0 else 10 * DigitsValue(s[..|s| - 1]) + DigitValue(s[|s| - 1])
  }

  function Pow10(k: nat): (p: nat)
    ensures p >= 1
  {
    if k == 0 then 1 else 10 * Pow10(k - 1)
  }

  /** The value of the digits d₁d₂…dₖ after a decimal point: 0.d₁d₂…dₖ */
  function FractionValue(s: seq<char>): real
    requires AllDigits(s)
  {
    DigitsValue(s) as real / Pow10(|s|) as real
  }

  /** The digits after the decimal point of u = digits '.' digits ..., or none. */
  function Fraction(u: seq<char>): (frac: seq<char>)
    ensures AllDigits(frac)
  {
    var k := LeadingDigits(u);
    if k < |u| && u[k] == '.' then u[k + 1..][..LeadingDigits(u[k + 1..])] else []
  }

  /**
   * The magnitude part of the conversion: the value of the longest prefix
   * of u of the form digits ('.' digits)?, which must hold at least one digit.
   */
  function ParseUnsigned(u: seq<char>): Option<real>
  {
    var k := LeadingDigits(u);
    var frac := Fraction(u);
    if k + |frac| == 0 then None
    else Some(DigitsValue(u[..k]) as real + FractionValue(frac))
  }

  /**
   * sscanf "%lf" on a token: the exact value of its longest prefix of the
   * form '-'? digits ('.' digits)?, which must hold at least one digit.
   */
  function ParseDecimal(t: seq<char>): Option<real>
  {
    if |t| > 0 && t[0] == '-' then
      match ParseUnsigned(t[1..])
      case None => None
      case Some(v) => Some(-v)
    else ParseUnsigned(t)
  }

  /**
   * A token converts exactly when, after an optional '-', it starts with a
   * digit or with '.' followed by a digit. So "", "-", "." and "--5" fail.
   */
  lemma ParseDecimalSucceedsIff(t: seq<char>)
    ensures ParseDecimal(t).Some? <==>
      var u := if |t| > 0 && t[0] == '-' then t[1..] else t;
      (|u| > 0 && IsDigit(u[0])) || (|u| > 1 && u[0] == '.' && IsDigit(u[1]))
  {
    var u := if |t| > 0 && t[0] == '-' then t[1..] else t;
    assert ParseDecimal(t).Some? <==> ParseUnsigned(u).Some?;
    if |u| > 0 && IsDigit(u[0]) {
      assert LeadingDigits(u) >= 1;
    } else if |u| > 1 && u[0] == '.' && IsDigit(u[1]) {
      assert LeadingDigits(u) == 0;
      assert LeadingDigits(u[1..]) >= 1;
    } else {
      assert LeadingDigits(u) == 0;
    }
  }

  /** A plain digit string converts to its value. */
  lemma ParseDigits(t: seq<char>)
    requires |t| > 0 && AllDigits(t)
    ensures ParseDecimal(t) == Some(DigitsValue(t) as real)
  {
    DigitsPrefix(t);
    assert t[..|t|] == t;
    assert Fraction(t) == [];
    assert FractionValue([]) == 0.0 by {
      assert DigitsValue([]) == 0 && Pow10(0) == 1;
    }
    assert ParseUnsigned(t) == Some(DigitsValue(t) as real + FractionValue([]));
  }

  /** On an all-digit string the leading digits are the whole string. */
  lemma {:induction false} DigitsPrefix(t: seq<char>)
    requires AllDigits(t)
    ensures LeadingDigits(t) == |t|
  {
    if t != [] {
      DigitsPrefix(t[1..]);
    }
  }

  /** A leading '-' negates: "-" followed by a token not starting with '-'. */
  lemma ParseNegative(t: seq<char>)
    requires |t| == 0 || t[0] != '-'
    ensures ParseDecimal(['-'] + t) ==
      match ParseDecimal(t)
      case None => None
      case Some(v) => Some(-v)
  {
    assert (['-'] + t)[1..] == t;
  }

  /** Characters after the longest numeric prefix are ignored: "3-4" reads 3. */
  lemma ParseStopsAtSecondSign()
    ensures ParseDecimal("3-4") == Some(3.0)
  {
    assert LeadingDigits("3-4") == 1;
    assert "3-4"[..1] == "3";
    assert DigitsValue("3") == 3;
    assert Fraction("3-4") == [];
  }

  /** Only one '.' is read: "1.2.3" reads 1.2. */
  lemma ParseStopsAtSecondPoint()
    ensures ParseDecimal("1.2.3") == Some(1.2)
  {
    assert LeadingDigits("1.2.3") == 1;
    assert "1.2.3"[2..] == "2.3";
    assert LeadingDigits("2.3") == 1;
    assert Fraction("1.2.3") == "2";
    assert "1.2.3"[..1] == "1";
    assert DigitsValue("1") == 1 && DigitsValue("2") == 2;
    assert FractionValue("2") == 0.2;
  }

  /** A number may start at the point: "-.5" reads −0.5. */
  lemma ParseNegativeFraction()
    ensures ParseDecimal("-.5") == Some(-0.5)
  {
    assert "-.5"[1..] == ".5";
    assert LeadingDigits(".5") == 0;
    assert ".5"[1..] == "5";
    assert Fraction(".5") == "5";
    assert ".5"[..0] == [];
    assert DigitsValue("5") == 5;
    assert FractionValue("5") == 0.5;
  }

  /** Tokens with no digit in their numeric prefix fail: "", "-", "." and "--5". */
  lemma ParseRejectsNonNumbers()
    ensures ParseDecimal("") == None && ParseDecimal("-") == None
    ensures ParseDecimal(".") == None && ParseDecimal("--5") == None
  {
    assert "-"[1..] == [];
    assert LeadingDigits([]) == 0 && Fraction([]) == [];
    assert LeadingDigits(".") == 0 && "."[1..] == [];
    assert Fraction(".") == [];
    assert "--5"[1..] == "-5";
    assert LeadingDigits("-5") == 0;
    assert Fraction("-5") == [];
  }
}
