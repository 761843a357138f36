/**
 * Numbers read from request text. The validator library's `isInt` and
 * `isFloat` and JavaScript's `Number` share one decimal syntax: an optional
 * sign, digits with at most one decimal point, and an optional exponent.
 * A text in that syntax is read here as the exact decimal it spells, so
 * `"2.50"` is two and a half. `Number` also reads `Infinity` and the
 * `0x`, `0o` and `0b` integer literals.
 */
module Numbers {
  import opened Wrappers
  import opened Text

  predicate AllDigits(s: string) { forall i :: 0 <= i < |s| ==> IsDigit(s[i]) }

  /** The text after an optional leading sign. */
  function Unsigned(s: string): string
  {
    if s != [] && (s[0] == '+' || s[0] == '-') then s[1..] else s
  }

  /** The integer syntax of the library's `isInt`: an optional sign and at least one digit. */
  predicate IsIntText(s: string) { Unsigned(s) != [] && AllDigits(Unsigned(s)) }

  /** The integer an `isInt`-shaped text denotes. */
  function ParseInt(s: string): (r: Option<int>)
    ensures r.Some? <==> IsIntText(s)
  {
    var d := Unsigned(s);
    if d == [] || !AllDigits(d) then None
    else
      var n: int := ParseNat(d);
      if s[0] == '-' then Some(-n) else Some(n)
  }

  /** Every integer's rendering parses back to that integer. */
  lemma ParseIntToString(i: int)
    ensures ParseInt(IntToString(i)) == Some(i)
  {
    ParseIntText(IntToString(i), i);
  }

  lemma ParseIntText(s: string, i: int)
    requires s == IntToString(i)
    ensures ParseInt(s) == Some(i)
  {
    var n: nat := if i < 0 then -i else i;
    var d := NatToString(n);
    ParseNatToString(n);
    assert IsDigit(d[0]);
    if i < 0 {
      assert s == "-" + d;
      assert Unsigned(s) == d;
    } else {
      assert Unsigned(s) == d;
    }
  }

  // ---------------------------------------------------------------------------
  // Decimals

  /** The number `mantissa * 10^exponent`. */
  datatype Decimal = Decimal(mantissa: int, exponent: int)

  /** `n * 10^k`, written as repeated multiplication by ten. */
  function Shift(n: int, k: nat): int
  {
    if k == 0 then n else 10 * Shift(n, k - 1)
  }

  /** `a >= b`, both scaled to the smaller of their exponents. */
  predicate AtLeast(a: Decimal, b: Decimal)
  {
    var k := if a.exponent <= b.exponent then a.exponent else b.exponent;
    Shift(a.mantissa, a.exponent - k) >= Shift(b.mantissa, b.exponent - k)
  }

  /** `0.01`, the bound of `isFloat({ min: 0.01 })`. */
  const Hundredth := Decimal(1, -2)

  /** Where the exponent begins: the first `e` or `E`, or the end of the text. */
  function ExponentAt(s: string): (i: nat)
    ensures i <= |s|
    ensures i < |s| ==> s[i] == 'e' || s[i] == 'E'
  {
    if s == [] || s[0] == 'e' || s[0] == 'E' then 0 else 1 + ExponentAt(s[1..])
  }

  /** Where the decimal point is, or the end of the text. */
  function PointAt(s: string): (i: nat)
    ensures i <= |s|
    ensures i < |s| ==> s[i] == '.'
  {
    if s == [] || s[0] == '.' then 0 else 1 + PointAt(s[1..])
  }

  /** `ExponentAt` is the first marker: a position with none before it and one at it, or the end. */
  lemma {:induction false} ExponentAtFirst(s: string, i: nat)
    requires i <= |s| && forall j :: 0 <= j < i ==> s[j] != 'e' && s[j] != 'E'
    requires i < |s| ==> s[i] == 'e' || s[i] == 'E'
    ensures ExponentAt(s) == i
  {
    if i > 0 {
      assert s[0] != 'e' && s[0] != 'E';
      assert forall j :: 0 <= j < i - 1 ==> s[1..][j] == s[j + 1];
      ExponentAtFirst(s[1..], i - 1);
    }
  }

  /** `PointAt` is the first point: a position with none before it and one at it, or the end. */
  lemma {:induction false} PointAtFirst(s: string, i: nat)
    requires i <= |s| && forall j :: 0 <= j < i ==> s[j] != '.'
    requires i < |s| ==> s[i] == '.'
    ensures PointAt(s) == i
  {
    if i > 0 {
      assert s[0] != '.';
      assert forall j :: 0 <= j < i - 1 ==> s[1..][j] == s[j + 1];
      PointAtFirst(s[1..], i - 1);
    }
  }

  /**
   * The digits around the point of a mantissa read as one integer, scaled
   * down by the number of fraction digits; `None` when the mantissa has no
   * digit or a character that is neither a digit nor its one point.
   */
  function Mantissa(m: string): Option<Decimal>
  {
    var p := PointAt(m);
    Digits(m[..p], if p < |m| then m[p + 1..] else [])
  }

  /** The digits before and after a point as one decimal. */
  function Digits(whole: string, frac: string): Option<Decimal>
  {
    var a := ReadDigits(whole);
    var b := ReadDigits(frac);
    if a.None? || b.None? || (whole == [] && frac == []) then None
    else Some(Decimal(Shift(a.value, |frac|) + b.value, 0 - |frac|))
  }

  /** The value of a run of digits, read left to right; `None` at the first non-digit. */
  function ReadDigits(s: string): Option<nat>
  {
    if s == [] then Some(0)
    else if !IsDigit(s[|s| - 1]) then None
    else
      match ReadDigits(s[..|s| - 1])
      case None => None
      case Some(v) => Some(v * 10 + (s[|s| - 1] as int - '0' as int))
  }

  /** `ReadDigits` accepts exactly the runs of digits, and reads them as `ParseNat` does. */
  lemma {:induction false} ReadDigitsParseNat(s: string)
    ensures ReadDigits(s).Some? <==> AllDigits(s)
    ensures AllDigits(s) ==> ReadDigits(s) == Some(ParseNat(s))
  {
    if s != [] {
      var init := s[..|s| - 1];
      ReadDigitsParseNat(init);
      assert forall i :: 0 <= i < |init| ==> init[i] == s[i];
      if AllDigits(init) && IsDigit(s[|s| - 1]) {
        assert AllDigits(s);
      }
    }
  }

  /** The exponent after the marker at `e`, or 0 when there is none. */
  function Exponent(u: string, e: nat): Option<int>
    requires e <= |u|
  {
    if e == |u| then Some(0) else ReadInt(u[e + 1..])
  }

  /** An optional sign and at least one digit, as the library's `isInt` reads them. */
  function ReadInt(s: string): Option<int>
  {
    var d := Unsigned(s);
    var v := ReadDigits(d);
    if d == [] || v.None? then None
    else if s[0] == '-' then Some(-(v.value as int)) else Some(v.value)
  }

  /** `ReadInt` is `ParseInt`, without its quantified syntax check. */
  lemma ReadIntParseInt(s: string)
    ensures ReadInt(s) == ParseInt(s)
  {
    ReadDigitsParseNat(Unsigned(s));
  }

  /**
   * `parseFloat` of a text that `isFloat` accepts: the sign, the digits
   * around the point as one mantissa, and the exponent less the number of
   * fraction digits. `None` for a text outside the syntax, and for one with
   * no digit before the exponent (`"."`, `"-"`, `"e5"`), which reads as NaN.
   */
  function ParseFloat(s: string): (r: Option<Decimal>)
    ensures r.Some? ==> s != [] && (r.value.mantissa < 0 ==> s[0] == '-')
  {
    MagnitudeSign(Unsigned(s));
    match Magnitude(Unsigned(s))
    case Some(m) =>
      Some(if s[0] == '-' then Decimal(-m.mantissa, m.exponent) else m)
    case None => None
  }

  /** The value of an unsigned float text; its mantissa is never negative. */
  function Magnitude(u: string): Option<Decimal>
  {
    var e := ExponentAt(u);
    var m := Mantissa(u[..e]);
    var x := Exponent(u, e);
    if m.None? || x.None? then None else Some(Decimal(m.value.mantissa, m.value.exponent + x.value))
  }

  /** A magnitude reads at least one digit and is never negative. */
  lemma MagnitudeSign(u: string)
    ensures Magnitude(u).Some? ==> u != [] && Magnitude(u).value.mantissa >= 0
  {
    var m := u[..ExponentAt(u)];
    var p := PointAt(m);
    var whole := m[..p];
    var frac := if p < |m| then m[p + 1..] else [];
    assert Magnitude(u).Some? ==> Digits(whole, frac).Some?;
    var a := ReadDigits(whole);
    if a.Some? {
      ShiftSign(a.value, |frac|);
    }
    if Magnitude(u).Some? {
      assert whole != [] || frac != [];
    }
  }

  /** A text without an exponent has the value of its mantissa. */
  lemma MagnitudeOf(u: string, d: Decimal)
    requires ExponentAt(u) == |u| && Mantissa(u) == Some(d)
    ensures Magnitude(u) == Some(d)
  {
    var e := ExponentAt(u);
    assert u[..e] == u;
    assert Mantissa(u[..e]) == Some(d);
    assert Exponent(u, e) == Some(0);
    assert Decimal(d.mantissa, d.exponent + 0) == d;
  }

  /** Digits alone are a mantissa without a fraction. */
  lemma MantissaDigits(d: string, v: nat)
    requires d != [] && AllDigits(d) && v == ParseNat(d)
    ensures ExponentAt(d) == |d| && Mantissa(d) == Some(Decimal(v, 0))
  {
    PointAtFirst(d, |d|);
    ExponentAtFirst(d, |d|);
    assert d[..|d|] == d;
    assert Mantissa(d) == Digits(d, []);
    ReadDigitsParseNat(d);
    assert ReadDigits(d) == Some(v) && ReadDigits([]) == Some(0);
    assert Shift(v, 0) == v;
  }

  /** Digits around a point, at least one of them, read as one decimal. */
  lemma DigitsValue(w: string, f: string)
    requires AllDigits(w) && AllDigits(f) && (w != [] || f != [])
    ensures Digits(w, f) == Some(Decimal(Shift(ParseNat(w), |f|) + ParseNat(f), 0 - |f|))
  {
    ReadDigitsParseNat(w);
    ReadDigitsParseNat(f);
  }

  lemma MagnitudeDigits(d: string)
    requires d != [] && AllDigits(d)
    ensures Magnitude(d) == Some(Decimal(ParseNat(d), 0))
  {
    MantissaDigits(d, ParseNat(d));
    MagnitudeOf(d, Decimal(ParseNat(d), 0));
  }

  /** A text of digits alone reads as that integer. */
  lemma ParseFloatDigits(d: string)
    requires d != [] && AllDigits(d)
    ensures ParseFloat(d) == Some(Decimal(ParseNat(d), 0))
  {
    MagnitudeDigits(d);
    ParseFloatSigned(d, Decimal(ParseNat(d), 0));
  }

  /** The sign in front of an unsigned text negates its value and nothing else. */
  lemma ParseFloatSigned(u: string, m: Decimal)
    requires u != [] && IsDigit(u[0]) && Magnitude(u) == Some(m)
    ensures ParseFloat(u) == Some(m)
    ensures ParseFloat("-" + u) == Some(Decimal(-m.mantissa, m.exponent))
    ensures ParseFloat("+" + u) == Some(m)
  {
    assert Unsigned(u) == u;
    ParseFloatOf(u, m);
    var neg := "-" + u;
    assert neg[0] == '-' && neg[1..] == u;
    ParseFloatOf(neg, m);
    var pos := "+" + u;
    assert pos[0] == '+' && pos[1..] == u;
    ParseFloatOf(pos, m);
  }

  lemma ParseFloatOf(s: string, m: Decimal)
    requires s != [] && Magnitude(Unsigned(s)) == Some(m)
    ensures ParseFloat(s) == Some(if s[0] == '-' then Decimal(-m.mantissa, m.exponent) else m)
  {
  }

  /** Every integer's rendering reads as that integer. */
  lemma ParseFloatOfInt(i: int)
    ensures ParseFloat(IntToString(i)) == Some(Decimal(i, 0))
  {
    var d := NatToString(if i < 0 then -i else i);
    MagnitudeDigits(d);
    ParseFloatSigned(d, Decimal(ParseNat(d), 0));
    ParseNatToString(if i < 0 then -i else i);
  }

  /** Digits, a point and more digits read as one mantissa scaled by the fraction's length. */
  lemma ParseFloatPoint(w: string, f: string)
    requires w != [] && AllDigits(w) && AllDigits(f)
    ensures ParseFloat(w + "." + f) == Some(Decimal(Shift(ParseNat(w), |f|) + ParseNat(f), 0 - |f|))
  {
    var u := w + "." + f;
    var d := Decimal(Shift(ParseNat(w), |f|) + ParseNat(f), 0 - |f|);
    MagnitudePoint(w, f, u, d);
    ParseFloatSigned(u, d);
  }

  lemma MagnitudePoint(w: string, f: string, u: string, d: Decimal)
    requires w != [] && AllDigits(w) && AllDigits(f)
    requires u == w + "." + f && d == Decimal(Shift(ParseNat(w), |f|) + ParseNat(f), 0 - |f|)
    ensures u != [] && IsDigit(u[0]) && Magnitude(u) == Some(d)
  {
    MantissaPoint(w, f);
    MagnitudeOf(u, d);
    assert u[0] == w[0];
  }

  lemma MantissaPoint(w: string, f: string)
    requires w != [] && AllDigits(w) && AllDigits(f)
    ensures ExponentAt(w + "." + f) == |w + "." + f|
    ensures Mantissa(w + "." + f) == Some(Decimal(Shift(ParseNat(w), |f|) + ParseNat(f), 0 - |f|))
  {
    var u := w + "." + f;
    PointPosition(w, f);
    MantissaSplit(u, |w|);
    assert Mantissa(u) == Digits(w, f);
    DigitsValue(w, f);
  }

  /** Where the markers are in digits, a point and digits. */
  lemma PointPosition(w: string, f: string)
    requires AllDigits(w) && AllDigits(f)
    ensures ExponentAt(w + "." + f) == |w + "." + f| && PointAt(w + "." + f) == |w|
    ensures (w + "." + f)[..|w|] == w && (w + "." + f)[|w| + 1..] == f
  {
    var u := w + "." + f;
    assert forall j :: 0 <= j < |u| ==> u[j] != 'e' && u[j] != 'E' by {
      forall j | 0 <= j < |u| ensures u[j] != 'e' && u[j] != 'E' {
        if j < |w| { assert u[j] == w[j]; } else if j > |w| { assert u[j] == f[j - |w| - 1]; }
      }
    }
    ExponentAtFirst(u, |u|);
    assert forall j :: 0 <= j < |w| ==> u[j] != '.' by {
      forall j | 0 <= j < |w| ensures u[j] != '.' { assert u[j] == w[j]; }
    }
    PointAtFirst(u, |w|);
    assert u[..|w|] == w && u[|w| + 1..] == f;
  }

  /** A mantissa whose point is at `p`: the digits before and after it. */
  lemma MantissaSplit(m: string, p: nat)
    requires p < |m| && PointAt(m) == p
    ensures Mantissa(m) == Digits(m[..p], m[p + 1..])
  {
  }

  // ---------------------------------------------------------------------------
  // Number(text)

  /** What JavaScript's `Number` makes of a text, when it is not NaN. */
  datatype JsNum = Finite(value: Decimal) | Infinite(negative: bool)

  predicate NonNegative(n: JsNum)
  {
    if n.Finite? then n.value.mantissa >= 0 else !n.negative
  }

  /** The value of a hexadecimal digit, or -1. */
  function HexValue(c: char): int
  {
    if IsDigit(c) then c as int - '0' as int
    else if 'a' <= c <= 'f' then c as int - 'a' as int + 10
    else if 'A' <= c <= 'F' then c as int - 'A' as int + 10
    else -1
  }

  /** The value of `s` read in `base`, when every character is a digit of that base. */
  function RadixValue(s: string, base: nat): (r: Option<nat>)
    requires 2 <= base <= 16
    ensures r.Some? <==> forall i :: 0 <= i < |s| ==> 0 <= HexValue(s[i]) < base
  {
    if s == [] then Some(0)
    else
      var init := s[..|s| - 1];
      var d := HexValue(s[|s| - 1]);
      assert forall i :: 0 <= i < |init| ==> init[i] == s[i];
      match RadixValue(init, base)
      case None => None
      case Some(v) =>
        if 0 <= d < base then
          var x: int := v * base;
          assert x >= 0;
          Some(x + d)
        else None
  }

  /** The base a `0x`, `0o` or `0b` prefix names, or 0 for none of them. */
  function RadixOf(c: char): nat
  {
    if c == 'x' || c == 'X' then 16 else if c == 'o' || c == 'O' then 8 else if c == 'b' || c == 'B' then 2 else 0
  }

  /**
   * `Number(s)`: surrounding white space is ignored and a blank text is 0;
   * otherwise `Infinity` with an optional sign, an unsigned `0x`/`0o`/`0b`
   * literal, or the decimal syntax. `None` is NaN.
   */
  function TextToNumber(s: string): (r: Option<JsNum>)
    ensures IsBlank(s) ==> r == Some(Finite(Decimal(0, 0)))
    ensures r.Some? && r.value.Finite? && r.value.value.mantissa < 0 ==> Trim(s)[0] == '-'
  {
    var t := Trim(s);
    if t == [] then Some(Finite(Decimal(0, 0)))
    else if t == "Infinity" || t == "+Infinity" then Some(Infinite(false))
    else if t == "-Infinity" then Some(Infinite(true))
    else if |t| > 2 && t[0] == '0' && RadixOf(t[1]) > 0 then
      match RadixValue(t[2..], RadixOf(t[1]))
      case None => None
      case Some(n) => Some(Finite(Decimal(n, 0)))
    else
      match ParseFloat(t)
      case None => None
      case Some(d) => Some(Finite(d))
  }

  /** A trimmed text that is neither an infinity nor a radix literal is read by `parseFloat`'s syntax. */
  lemma TextToNumberDecimal(s: string)
    requires s != [] && Trim(s) == s && ParseFloat(s).Some?
    requires s != "Infinity" && s != "+Infinity" && s != "-Infinity"
    requires !(|s| > 2 && s[0] == '0' && RadixOf(s[1]) > 0)
    ensures TextToNumber(s) == Some(Finite(ParseFloat(s).value))
  {
  }

  /** `Number(String(i))` is `i`. */
  lemma TextToNumberOfInt(i: int)
    ensures TextToNumber(IntToString(i)) == Some(Finite(Decimal(i, 0)))
  {
    IntTextNumber(IntToString(i), i);
  }

  lemma IntTextNumber(s: string, i: int)
    requires s == IntToString(i)
    ensures TextToNumber(s) == Some(Finite(Decimal(i, 0)))
  {
    var d := NatToString(if i < 0 then -i else i);
    LeadingZero(if i < 0 then -i else i);
    assert IsDigit(d[0]) && IsDigit(d[|d| - 1]);
    if i < 0 {
      assert s == "-" + d;
      assert s[1] == d[0] && s[|s| - 1] == d[|d| - 1];
    } else {
      assert s == d;
    }
    TrimFixesUnpadded(s);
    assert "Infinity"[0] == 'I' && "+Infinity"[0] == '+' && "-Infinity"[1] == 'I';
    assert s != "Infinity" && s != "+Infinity" && s != "-Infinity";
    assert !(|s| > 2 && s[0] == '0');
    ParseFloatOfInt(i);
  }

  /** `String(n)` begins with `0` only for zero itself. */
  lemma {:induction false} LeadingZero(n: nat)
    ensures NatToString(n)[0] == '0' <==> n == 0
  {
    if n >= 10 {
      LeadingZero(n / 10);
      assert NatToString(n)[0] == NatToString(n / 10)[0];
    }
  }

  // ---------------------------------------------------------------------------
  // Amounts written in cedis

  /**
   * The cedi text of an amount in pesewas (`Text.MoneyText`) reads as that
   * amount over one hundred: the mantissa is the amount without the trailing
   * zeros the text leaves out, and the exponent says how many are left out.
   */
  lemma MoneyTextValue(c: int) returns (n: int, j: nat)
    ensures j <= 2 && Shift(n, j) == c
    ensures ParseFloat(MoneyText(c)) == Some(Decimal(n, j as int - 2))
  {
    n, j := MoneyTextRead(c, MoneyText(c));
  }

  lemma MoneyTextRead(c: int, s: string) returns (n: int, j: nat)
    requires s == MoneyText(c)
    ensures j <= 2 && Shift(n, j) == c
    ensures ParseFloat(s) == Some(Decimal(n, j as int - 2))
  {
    var m: nat := if c < 0 then -c else c;
    MoneyTextParts(c, m);
    var u, k;
    u, k, j := UnsignedMoney(m);
    if c < 0 {
      n := -(k as int);
      assert s == "-" + u;
      NegatedRead(u, s, k, j, n);
      ShiftNegate(k, j);
    } else {
      n := k;
      assert s == u;
      ParseFloatSigned(u, Decimal(k, j as int - 2));
    }
  }

  /** The cedi text of a non-negative amount and the power of ten it leaves out. */
  lemma UnsignedMoney(m: nat) returns (u: string, k: nat, j: nat)
    ensures u == NatToString(m / MinorPerMajor) + Cents(m % MinorPerMajor)
    ensures j <= 2 && Shift(k, j) == m
    ensures u != [] && IsDigit(u[0]) && Magnitude(u) == Some(Decimal(k, j as int - 2))
  {
    var whole := m / MinorPerMajor;
    var r := m % MinorPerMajor;
    var w := NatToString(whole);
    ParseNatToString(whole);
    u := w + Cents(r);
    k, j := MoneyScale(w, whole, r, u);
  }

  /** `Number` reads a cedi text as `parseFloat` does: no padding, no `Infinity`, no radix prefix. */
  lemma MoneyTextNumber(c: int)
    ensures ParseFloat(MoneyText(c)).Some?
    ensures TextToNumber(MoneyText(c)) == Some(Finite(ParseFloat(MoneyText(c)).value))
  {
    var n, j := MoneyTextValue(c);
    MoneyTextNumberOf(c, MoneyText(c));
  }

  lemma MoneyTextNumberOf(c: int, s: string)
    requires s == MoneyText(c) && ParseFloat(s).Some?
    ensures TextToNumber(s) == Some(Finite(ParseFloat(s).value))
  {
    var m: nat := if c < 0 then -c else c;
    MoneyTextParts(c, m);
    var u := UnsignedMoneyShape(m);
    if c < 0 {
      assert s == "-" + u;
      assert s[1] == u[0] && s[|s| - 1] == u[|u| - 1];
    } else {
      assert s == u;
    }
    DecimalShapeNumber(s);
  }

  /**
   * A text that starts with a digit or a minus and a digit, ends with a
   * digit, and has no letter in second place after a leading zero is read by
   * `parseFloat`'s syntax.
   */
  lemma DecimalShapeNumber(s: string)
    requires s != [] && IsDigit(s[|s| - 1]) && ParseFloat(s).Some?
    requires IsDigit(s[0]) || (s[0] == '-' && |s| > 1 && IsDigit(s[1]))
    requires |s| > 1 && s[0] == '0' ==> IsDigit(s[1]) || s[1] == '.'
    ensures TextToNumber(s) == Some(Finite(ParseFloat(s).value))
  {
    TrimFixesUnpadded(s);
    assert s != "Infinity" && s != "+Infinity" by {
      assert "Infinity"[0] == 'I' && "+Infinity"[0] == '+';
    }
    assert s != "-Infinity" by {
      assert "-Infinity"[1] == 'I';
    }
    TextToNumberDecimal(s);
  }

  /** An unsigned cedi text begins and ends with a digit, and its second character is a digit or the point. */
  lemma UnsignedMoneyShape(m: nat) returns (u: string)
    ensures u == NatToString(m / MinorPerMajor) + Cents(m % MinorPerMajor)
    ensures IsDigit(u[0]) && IsDigit(u[|u| - 1])
    ensures |u| > 1 ==> IsDigit(u[1]) || u[1] == '.'
  {
    var w := NatToString(m / MinorPerMajor);
    var t := Cents(m % MinorPerMajor);
    u := w + t;
    assert u[0] == w[0];
    if t == [] {
      assert u == w;
    } else {
      assert u[|u| - 1] == t[|t| - 1];
      assert t[0] == '.';
      if |w| == 1 {
        assert u[1] == t[0];
      } else {
        assert u[1] == w[1];
      }
    }
  }

  /** A minus sign before an unsigned reading negates the mantissa, and so the scaled value. */
  lemma NegatedRead(u: string, s: string, k: nat, j: nat, n: int)
    requires u != [] && IsDigit(u[0]) && Magnitude(u) == Some(Decimal(k, j as int - 2))
    requires s == "-" + u && n == -(k as int)
    ensures ParseFloat(s) == Some(Decimal(n, j as int - 2))
  {
    assert s[0] == '-' && s[1..] == u;
    ParseFloatOf(s, Decimal(k, j as int - 2));
  }

  /** The sign, the whole cedis and the pesewas of a cedi text. */
  lemma MoneyTextParts(c: int, m: nat)
    requires m == (if c < 0 then -c else c)
    ensures c < 0 ==> MoneyText(c) == "-" + (NatToString(m / MinorPerMajor) + Cents(m % MinorPerMajor))
    ensures c >= 0 ==> MoneyText(c) == NatToString(m / MinorPerMajor) + Cents(m % MinorPerMajor)
  {
  }

  lemma {:induction false} ShiftNegate(n: int, k: nat)
    ensures Shift(-n, k) == -Shift(n, k)
  {
    if k > 0 {
      ShiftNegate(n, k - 1);
    }
  }

  /** The unsigned cedi text and the power of ten it leaves out. */
  lemma MoneyScale(w: string, whole: nat, r: nat, u: string) returns (n: nat, j: nat)
    requires w == NatToString(whole) && ParseNat(w) == whole && r < MinorPerMajor && u == w + Cents(r)
    ensures j <= 2 && Shift(n, j) == whole * 100 + r
    ensures u != [] && IsDigit(u[0]) && Magnitude(u) == Some(Decimal(n, j as int - 2))
  {
    if r == 0 {
      n, j := whole, 2;
      assert u == w;
      WholeScale(w, whole);
    } else if r % 10 == 0 {
      n, j := whole * 10 + r / 10, 1;
      TenthsScale(w, whole, r / 10, u);
    } else {
      n, j := whole * 100 + r, 0;
      HundredthsScale(w, whole, r, u);
    }
  }

  /** Whole cedis: the digits alone, two zeros left out. */
  lemma WholeScale(w: string, whole: nat)
    requires w == NatToString(whole) && ParseNat(w) == whole
    ensures Shift(whole, 2) == whole * 100
    ensures w != [] && IsDigit(w[0]) && Magnitude(w) == Some(Decimal(whole, 0))
  {
    MagnitudeDigits(w);
    assert Shift(whole, 1) == whole * 10;
  }

  /** One fraction digit: one zero left out. */
  lemma TenthsScale(w: string, whole: nat, t: nat, u: string)
    requires w == NatToString(whole) && ParseNat(w) == whole && 0 < t < 10
    requires u == w + "." + [DigitChar(t)]
    ensures Shift(whole * 10 + t, 1) == whole * 100 + t * 10
    ensures u != [] && IsDigit(u[0]) && Magnitude(u) == Some(Decimal(whole * 10 + t, -1))
  {
    var f := [DigitChar(t)];
    assert ParseNat(f) == t by { assert f[..0] == []; }
    assert Shift(whole, 1) == whole * 10;
    MagnitudePoint(w, f, u, Decimal(whole * 10 + t, -1));
  }

  /** Two fraction digits: nothing left out. */
  lemma HundredthsScale(w: string, whole: nat, r: nat, u: string)
    requires w == NatToString(whole) && ParseNat(w) == whole && 0 < r < 100
    requires u == w + "." + [DigitChar(r / 10), DigitChar(r % 10)]
    ensures u != [] && IsDigit(u[0]) && Magnitude(u) == Some(Decimal(whole * 100 + r, -2))
  {
    var f := [DigitChar(r / 10), DigitChar(r % 10)];
    assert ParseNat(f) == r by {
      assert f[..1] == [DigitChar(r / 10)];
      assert f[..1][..0] == [];
      assert ParseNat(f[..1]) == r / 10;
      assert ParseNat(f) == (r / 10) * 10 + r % 10;
    }
    assert Shift(whole, 1) == whole * 10;
    assert Shift(whole, 2) == whole * 100;
    MagnitudePoint(w, f, u, Decimal(whole * 100 + r, -2));
  }

  /** Scaling keeps the sign of what is scaled. */
  lemma {:induction false} ShiftSign(n: int, k: nat)
    ensures Shift(n, k) >= 1 <==> n >= 1
    ensures Shift(n, k) >= 0 <==> n >= 0
  {
    if k > 0 {
      ShiftSign(n, k - 1);
    }
  }

  /**
   * An amount in pesewas, written in cedis as JavaScript prints it, passes
   * `isFloat({ min: 0.01 })` exactly when it is at least one pesewa.
   */
  lemma MoneyTextAtLeastHundredth(c: int)
    ensures ParseFloat(MoneyText(c)).Some?
    ensures AtLeast(ParseFloat(MoneyText(c)).value, Hundredth) <==> c >= 1
    ensures ParseFloat(MoneyText(c)).value.mantissa >= 0 <==> c >= 0
  {
    var n, j := MoneyTextValue(c);
    ShiftSign(n, j);
    AtLeastHundredth(n, j);
  }

  /** A decimal of at least two fraction digits is at least `0.01` when its mantissa, scaled to hundredths, is at least 1. */
  lemma AtLeastHundredth(n: int, j: nat)
    requires j <= 2
    ensures AtLeast(Decimal(n, j as int - 2), Hundredth) <==> Shift(n, j) >= 1
  {
    var a := Decimal(n, j as int - 2);
    var k := if a.exponent <= Hundredth.exponent then a.exponent else Hundredth.exponent;
    assert k == -2;
    assert a.exponent - k == j;
    assert Hundredth.exponent - k == 0;
    assert Shift(Hundredth.mantissa, 0) == 1;
  }
}
