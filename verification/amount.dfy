/**
 * The "Valor NF" text normaliser and the decimal parse behind
 * `pd.to_numeric(..., errors="coerce").fillna(0.0)`.
 *
 * A textual amount goes through three passes in this order: every point is
 * dropped (read as a thousands separator), every comma becomes a point (the
 * decimal separator), and every character other than a digit, a point or a
 * minus sign is dropped. The outcome is then read as a decimal number; text
 * that is not one counts as zero. Amounts are exact reals here.
 */
module Amount {
  import opened Wrappers
  import opened Text

  /** An ASCII decimal digit. */
  predicate IsDigit(c: char) {
    '0' <= c <= '9'
  }

  /** What the third pass keeps: a digit, a point or a minus sign. */
  predicate IsKept(c: char) {
    IsDigit(c) || c == '.' || c == '-'
  }

  /** The number of occurrences of `c` in `s`. */
  function Count(s: string, c: char): nat {
    if s == [] then 0 else (if s[0] == c then 1 else 0) + Count(s[1..], c)
  }

  /** Pass 1, `str.replace(r"\.", "")`: every point removed. */
  function DropPoints(s: string): string {
    if s == [] then []
    else if s[0] == '.' then DropPoints(s[1..])
    else [s[0]] + DropPoints(s[1..])
  }

  /** Pass 2, `str.replace(",", ".")`: every comma turned into a point. */
  function CommasToPoints(s: string): string {
    if s == [] then []
    else [if s[0] == ',' then '.' else s[0]] + CommasToPoints(s[1..])
  }

  /** Pass 3, `str.replace(r"[^\d\.-]", "")`: only digits, points and minus signs kept. */
  function KeepNumeric(s: string): string {
    if s == [] then []
    else if IsKept(s[0]) then [s[0]] + KeepNumeric(s[1..])
    else KeepNumeric(s[1..])
  }

  /** The three passes of the text branch, in the order the script applies them. */
  function Normalize(s: string): string {
    KeepNumeric(CommasToPoints(DropPoints(s)))
  }

  /** Pass 1 leaves no point and every other character as often as before. */
  lemma {:induction false} DropPointsCounts(s: string)
    ensures Count(DropPoints(s), '.') == 0
    ensures forall c :: c != '.' ==> Count(DropPoints(s), c) == Count(s, c)
  {
    if s != [] {
      DropPointsCounts(s[1..]);
      var r := DropPoints(s[1..]);
      assert ([s[0]] + r)[1..] == r;
    }
  }

  /** Pass 2 changes only commas, each into a point. */
  lemma {:induction false} CommasToPointsCounts(s: string)
    ensures Count(CommasToPoints(s), '.') == Count(s, '.') + Count(s, ',')
    ensures forall c :: c != '.' && c != ',' ==> Count(CommasToPoints(s), c) == Count(s, c)
  {
    if s != [] {
      CommasToPointsCounts(s[1..]);
      var r := CommasToPoints(s[1..]);
      var c0 := if s[0] == ',' then '.' else s[0];
      assert ([c0] + r)[1..] == r;
    }
  }

  /** Pass 3 leaves only kept characters, and each kept character as often as before. */
  lemma {:induction false} KeepNumericCounts(s: string)
    ensures forall k :: 0 <= k < |KeepNumeric(s)| ==> IsKept(KeepNumeric(s)[k])
    ensures forall c :: IsKept(c) ==> Count(KeepNumeric(s), c) == Count(s, c)
  {
    if s != [] {
      KeepNumericCounts(s[1..]);
      var r := KeepNumeric(s[1..]);
      assert ([s[0]] + r)[1..] == r;
    }
  }

  /**
   * What the normaliser promises: the result holds only digits, points and
   * minus signs; it has as many points as the input had commas, so no point
   * of the input survives; and it keeps every digit and minus sign of the
   * input, as often as there.
   */
  lemma NormalizeCounts(s: string)
    ensures forall k :: 0 <= k < |Normalize(s)| ==> IsKept(Normalize(s)[k])
    ensures Count(Normalize(s), '.') == Count(s, ',')
    ensures forall c :: IsDigit(c) || c == '-' ==> Count(Normalize(s), c) == Count(s, c)
  {
    var d := DropPoints(s);
    var e := CommasToPoints(d);
    DropPointsCounts(s);
    CommasToPointsCounts(d);
    KeepNumericCounts(e);
  }

  /** What one input character becomes once all three passes are done. */
  function NormalizeChar(c: char): string {
    if c == ',' then "." else if IsDigit(c) || c == '-' then [c] else ""
  }

  /** A reference definition of the normaliser: a single left-to-right pass. */
  function NormalizeOnePass(s: string): string {
    if s == [] then "" else NormalizeChar(s[0]) + NormalizeOnePass(s[1..])
  }

  /** The three passes, applied in order, agree with the single-pass reading. */
  lemma {:induction false} NormalizeIsOnePass(s: string)
    ensures Normalize(s) == NormalizeOnePass(s)
  {
    if s != [] {
      var c, rest := s[0], s[1..];
      NormalizeIsOnePass(rest);
      if c != '.' {
        var d := DropPoints(rest);
        assert DropPoints(s) == [c] + d;
        var c' := if c == ',' then '.' else c;
        assert ([c] + d)[1..] == d;
        assert CommasToPoints([c] + d) == [c'] + CommasToPoints(d);
        var e := CommasToPoints(d);
        assert ([c'] + e)[1..] == e;
        assert KeepNumeric([c'] + e) == (if IsKept(c') then [c'] else []) + KeepNumeric(e);
      }
    }
  }

  /** The single pass works character by character, so it distributes over concatenation. */
  lemma {:induction false} NormalizeOnePassConcat(a: string, b: string)
    ensures NormalizeOnePass(a + b) == NormalizeOnePass(a) + NormalizeOnePass(b)
  {
    if a != [] {
      assert (a + b)[1..] == a[1..] + b;
      NormalizeOnePassConcat(a[1..], b);
    } else {
      assert a + b == b;
    }
  }

  /** Normalising a concatenation normalises each part on its own. */
  lemma NormalizeConcat(a: string, b: string)
    ensures Normalize(a + b) == Normalize(a) + Normalize(b)
  {
    NormalizeIsOnePass(a + b);
    NormalizeIsOnePass(a);
    NormalizeIsOnePass(b);
    NormalizeOnePassConcat(a, b);
  }

  predicate AllDigits(s: string) {
    forall k :: 0 <= k < |s| ==> IsDigit(s[k])
  }

  function DigitValue(c: char): nat
    requires IsDigit(c)
  {
    c as int - '0' as int
  }

  function DigitChar(d: nat): char
    requires d < 10
  {
    ('0' as int + d) as char
  }

  /** Reads the digits of `s` after the digits already read into `acc`. */
  function DigitsFrom(acc: nat, s: string): nat
    requires AllDigits(s)
    decreases |s|
  {
    if s == [] then acc else DigitsFrom(10 * acc + DigitValue(s[0]), s[1..])
  }

  /** The value of a string of decimal digits, most significant first. */
  function DigitsValue(s: string): nat
    requires AllDigits(s)
  {
    DigitsFrom(0, s)
  }

  /** One more digit at the end shifts the value one decimal place. */
  lemma {:induction false} DigitsFromAppend(acc: nat, s: string, c: char)
    requires AllDigits(s) && IsDigit(c)
    ensures AllDigits(s + [c])
    decreases |s|
    ensures DigitsFrom(acc, s + [c]) == 10 * DigitsFrom(acc, s) + DigitValue(c)
  {
    assert AllDigits(s + [c]);
    if s != [] {
      assert (s + [c])[1..] == s[1..] + [c];
      DigitsFromAppend(10 * acc + DigitValue(s[0]), s[1..], c);
    }
  }

  function Pow10(n: nat): (r: nat)
    ensures r > 0
  {
    if n == 0 then 1 else 10 * Pow10(n - 1)
  }

  /**
   * The grammar the parse accepts, without the sign: only digits and points,
   * at most one point, and at least one digit ("5", "5.", ".5", "12.50").
   */
  predicate IsUnsignedDecimal(u: string) {
    && (forall k :: 0 <= k < |u| ==> IsDigit(u[k]) || u[k] == '.')
    && (forall i, j :: 0 <= i < j < |u| && u[i] == '.' ==> u[j] != '.')
    && (exists k :: 0 <= k < |u| && IsDigit(u[k]))
  }

  /** The whole grammar: an optional leading minus sign, then an unsigned decimal. */
  predicate IsDecimal(s: string) {
    if |s| > 0 && s[0] == '-' then IsUnsignedDecimal(s[1..]) else IsUnsignedDecimal(s)
  }

  /** The value of a whole part and a `k`-digit fraction part. */
  function DecimalValue(whole: int, frac: int, k: nat): real {
    whole as real + frac as real / Pow10(k) as real
  }

  /** Reads digits with at most one point as a value. */
  function ParseUnsigned(u: string): Option<real> {
    match IndexOf(u, '.')
    case None =>
      if u != [] && AllDigits(u) then Some(DigitsValue(u) as real) else None
    case Some(i) =>
      var whole, frac := u[..i], u[i + 1..];
      if AllDigits(whole) && AllDigits(frac) && |whole| + |frac| > 0
      then Some(DecimalValue(DigitsValue(whole), DigitsValue(frac), |frac|))
      else None
  }

  /** The unsigned reading succeeds exactly on the unsigned grammar, with a non-negative value. */
  lemma UnsignedGrammar(u: string)
    ensures ParseUnsigned(u).Some? <==> IsUnsignedDecimal(u)
    ensures ParseUnsigned(u).Some? ==> ParseUnsigned(u).value >= 0.0
  {
    IndexOfSpec(u, '.');
    match IndexOf(u, '.')
    case None =>
      if u != [] && AllDigits(u) {
        assert IsDigit(u[0]);
      }
    case Some(i) =>
      var whole, frac := u[..i], u[i + 1..];
      assert forall k :: 0 <= k < |frac| ==> frac[k] == u[i + 1 + k];
      if AllDigits(whole) && AllDigits(frac) && |whole| + |frac| > 0 {
        assert forall j :: 0 <= j < |u| && j != i ==> IsDigit(u[j]) by {
          forall j | 0 <= j < |u| && j != i ensures IsDigit(u[j]) {
            if j < i { assert u[j] == whole[j]; } else { assert u[j] == frac[j - i - 1]; }
          }
        }
        assert if |whole| > 0 then IsDigit(u[0]) else IsDigit(u[i + 1]);
        DecimalValueNonNegative(DigitsValue(whole), DigitsValue(frac), |frac|);
      }
  }

  lemma DecimalValueNonNegative(whole: nat, frac: nat, k: nat)
    ensures DecimalValue(whole, frac, k) >= 0.0
  {
    var p := Pow10(k) as real;
    assert frac as real / p >= 0.0;
  }

  /**
   * `pd.to_numeric` on one normalised cell: an optional minus sign, then
   * the unsigned reading; `None` (later counted as zero) when that fails.
   */
  function Parse(s: string): Option<real> {
    if |s| > 0 && s[0] == '-' then
      match ParseUnsigned(s[1..])
      case Some(v) => Some(-v)
      case None => None
    else
      ParseUnsigned(s)
  }

  /**
   * The parse succeeds exactly when the text follows the decimal grammar;
   * a value read without a leading minus sign is never negative.
   */
  lemma ParseGrammar(s: string)
    ensures Parse(s).Some? <==> IsDecimal(s)
    ensures Parse(s).Some? && (s == [] || s[0] != '-') ==> Parse(s).value >= 0.0
  {
    if |s| > 0 && s[0] == '-' {
      UnsignedGrammar(s[1..]);
    } else {
      UnsignedGrammar(s);
    }
  }

  /** The amount one textual cell contributes: the parsed value, or zero. */
  function Amount(s: string): real {
    Parse(Normalize(s)).GetOr(0.0)
  }

  /** Text the normaliser reduces to something that is not a number counts as zero. */
  lemma AmountOfMalformed(s: string)
    requires !IsDecimal(Normalize(s))
    ensures Amount(s) == 0.0
  {
    ParseGrammar(Normalize(s));
  }

  /** The digits of `n` in decimal, most significant first, without leading zeros. */
  function NatText(n: nat): (r: string)
    ensures |r| > 0 && AllDigits(r) && DigitsValue(r) == n
    ensures n > 0 ==> r[0] != '0'
  {
    if n < 10 then
      assert DigitsFrom(0, [DigitChar(n)]) == DigitsFrom(n, []);
      [DigitChar(n)]
    else
      DigitsFromAppend(0, NatText(n / 10), DigitChar(n % 10));
      NatText(n / 10) + [DigitChar(n % 10)]
  }

  /** The `k` decimals of a fraction `f / 10^k`, leading zeros included. */
  function FractionText(f: nat, k: nat): (r: string)
    requires f < Pow10(k)
    ensures |r| == k && AllDigits(r) && DigitsValue(r) == f
  {
    if k == 0 then ""
    else
      DigitsFromAppend(0, FractionText(f / 10, k - 1), DigitChar(f % 10));
      FractionText(f / 10, k - 1) + [DigitChar(f % 10)]
  }

  /** The text of a whole part `q` and a `k`-digit fraction `f`, without a sign. */
  function UnsignedText(q: nat, f: nat, k: nat): string
    requires f < Pow10(k)
  {
    if k == 0 then NatText(q) else NatText(q) + "." + FractionText(f, k)
  }

  /**
   * The canonical decimal text of `m / 10^k` with exactly `k` decimals (an
   * optional minus sign, no thousands separator), the form in which the
   * parser's round trip is stated.
   */
  function Render(m: int, k: nat): string {
    var a: nat := if m < 0 then -m else m;
    var p := Pow10(k);
    assert 0 <= a / p && a % p < p by { DivMod(a, p); }
    var text := UnsignedText(a / p, a % p, k);
    if m < 0 then "-" + text else text
  }

  lemma DivMod(a: nat, p: nat)
    requires p > 0
    ensures 0 <= a / p && 0 <= a % p < p && a == (a / p) * p + a % p
  {
  }

  lemma DivideByPower(a: nat, k: nat)
    ensures DecimalValue(a / Pow10(k), a % Pow10(k), k) == Scaled(a, k)
  {
    RealSplit(a, Pow10(k));
  }

  /** Dividing `q * p + r` by `p` gives `q` plus the fraction `r / p`. */
  lemma RealSplit(a: nat, p: nat)
    requires p > 0
    ensures (a / p) as real + (a % p) as real / p as real == a as real / p as real
  {
    DivMod(a, p);
    var q, r := a / p, a % p;
    var pr := p as real;
    assert (r as real / pr) * pr == r as real;
    assert a as real == q as real * pr + r as real;
    assert (q as real + r as real / pr) * pr == a as real;
  }

  /** Digits followed by a point and more digits split at that point. */
  lemma PointSplits(whole: string, frac: string)
    requires AllDigits(whole) && AllDigits(frac) && |whole| + |frac| > 0
    ensures ParseUnsigned(whole + "." + frac)
            == Some(DecimalValue(DigitsValue(whole), DigitsValue(frac), |frac|))
  {
    var text := whole + "." + frac;
    var idx := IndexOf(text, '.');
    assert text[|whole|] == '.';
    assert '.' !in whole;
    IndexOfSpec(text, '.');
    assert text[..|whole|] == whole;
    assert idx == Some(|whole|);
    assert text[|whole| + 1..] == frac;
  }

  /** The exact value of `m / 10^k`. */
  function Scaled(m: int, k: nat): real {
    m as real / Pow10(k) as real
  }

  /** The unsigned text starts with a digit and reads back as its whole part plus its fraction. */
  lemma ParseUnsignedText(q: nat, f: nat, k: nat)
    requires f < Pow10(k)
    ensures var text := UnsignedText(q, f, k);
            text != [] && IsDigit(text[0]) && ParseUnsigned(text) == Some(DecimalValue(q, f, k))
  {
    var whole := NatText(q);
    if k == 0 {
      assert '.' !in whole;
      IndexOfSpec(whole, '.');
      assert ParseUnsigned(whole) == Some(q as real);
    } else {
      var frac := FractionText(f, k);
      assert (whole + "." + frac)[0] == whole[0];
      PointSplits(whole, frac);
    }
  }

  lemma ScaledNegate(m: int, k: nat)
    ensures Scaled(-m, k) == -Scaled(m, k)
  {
    var x, y := m as real, Pow10(k) as real;
    assert (-m) as real == -x;
    NegateQuotient(x, y);
  }

  lemma NegateQuotient(x: real, y: real)
    requires y > 0.0
    ensures (-x) / y == -(x / y)
  {
    var q := x / y;
    assert q * y == x;
    assert (-q) * y == -x;
  }

  /** An optional leading minus sign negates what the rest reads as. */
  lemma ParseSigned(u: string, v: real, negative: bool)
    requires u != [] && IsDigit(u[0]) && ParseUnsigned(u) == Some(v)
    ensures Parse((if negative then "-" else "") + u) == Some(if negative then -v else v)
  {
    if negative {
      ParseNegative(u);
    } else {
      assert "" + u == u;
    }
  }

  /** A leading minus sign negates what the rest reads as. */
  lemma ParseNegative(u: string)
    ensures Parse("-" + u) == (match ParseUnsigned(u) case Some(v) => Some(-v) case None => None)
  {
    assert ("-" + u)[1..] == u;
  }

  /** A rendered amount is a sign and the text of its magnitude's whole and fraction parts. */
  lemma RenderParts(m: int, k: nat) returns (q: nat, f: nat)
    ensures f < Pow10(k)
    ensures Render(m, k) == (if m < 0 then "-" else "") + UnsignedText(q, f, k)
    ensures (if m < 0 then -DecimalValue(q, f, k) else DecimalValue(q, f, k)) == Scaled(m, k)
  {
    var a: nat := if m < 0 then -m else m;
    var p := Pow10(k);
    DivMod(a, p);
    q, f := a / p, a % p;
    SignedSplit(m, k);
  }

  lemma SignedSplit(m: int, k: nat)
    ensures var a := if m < 0 then -m else m;
            var v := DecimalValue(a / Pow10(k), a % Pow10(k), k);
            (if m < 0 then -v else v) == Scaled(m, k)
  {
    var a: nat := if m < 0 then -m else m;
    DivideByPower(a, k);
    if m < 0 {
      ScaledNegate(-m, k);
    }
  }

  /** Reading back a rendered amount gives the amount itself. */
  lemma ParseRender(m: int, k: nat)
    ensures Parse(Render(m, k)) == Some(Scaled(m, k))
  {
    var q, f := RenderParts(m, k);
    ParseUnsignedText(q, f, k);
    ReadBack(Render(m, k), UnsignedText(q, f, k), DecimalValue(q, f, k), Scaled(m, k), m < 0);
  }

  /** A text made of an optional minus sign and an unsigned number reads back as the signed value. */
  lemma ReadBack(text: string, u: string, v: real, x: real, negative: bool)
    requires text == (if negative then "-" else "") + u
    requires u != [] && IsDigit(u[0]) && ParseUnsigned(u) == Some(v)
    requires x == (if negative then -v else v)
    ensures Parse(text) == Some(x)
  {
    ParseSigned(u, v, negative);
  }

  /** A Brazilian figure loses its thousands point and gets a decimal point. */
  lemma NormalizeThousands()
    ensures Normalize("1.234,56") == "1234.56"
  {
    assert "1.234,56" == "1.234" + ",56";
    NormalizeConcat("1.234", ",56");
    NormalizeThousandsPart();
    NormalizeCommaCents();
  }

  lemma NormalizeThousandsPart()
    ensures Normalize("1.234") == "1234"
  {
    NormalizeIsOnePass("1.234");
  }

  lemma NormalizeCommaCents()
    ensures Normalize(",56") == ".56"
  {
    NormalizeIsOnePass(",56");
  }

  /** A currency prefix and the space after it are dropped. */
  lemma NormalizeCurrency()
    ensures Normalize("R$ 750,50") == "750.50"
  {
    assert "R$ 750,50" == "R$ " + "750,50";
    NormalizeConcat("R$ ", "750,50");
    NormalizeCurrencySign();
    NormalizeCents();
  }

  lemma NormalizeCurrencySign()
    ensures Normalize("R$ ") == ""
  {
    NormalizeIsOnePass("R$ ");
  }

  lemma NormalizeCents()
    ensures Normalize("750,50") == "750.50"
  {
    NormalizeIsOnePass("750,50");
  }

  /** Text the parse refuses: nothing, a bare sign, two points, a trailing sign. */
  lemma ParseRejects()
    ensures Parse("") == None
    ensures Parse("-") == None
    ensures Parse("1.2.3") == None
    ensures Parse("5-") == None
  {
  }

  /** "1234.56" reads as 1234 plus 56 hundredths. */
  lemma ParseTwoDecimals()
    ensures Parse("1234.56") == Some(1234.56)
  {
    assert "1234.56" == "1234" + "." + "56";
    PointSplits("1234", "56");
    DigitsOf1234();
    DigitsOf56();
    Hundredths(1234, 56);
  }

  lemma Hundredths(whole: nat, cents: nat)
    ensures DecimalValue(whole, cents, 2) == whole as real + cents as real / 100.0
  {
    assert Pow10(2) == 100;
  }

  lemma DigitsOf1234()
    ensures DigitsValue("1234") == 1234
  {
  }

  lemma DigitsOf56()
    ensures DigitsValue("56") == 56
  {
  }

  /** "750.50" reads as 750 plus 50 hundredths. */
  lemma ParseCurrencyText()
    ensures Parse("750.50") == Some(750.50)
  {
    assert "750.50" == "750" + "." + "50";
    PointSplits("750", "50");
    DigitsOf750();
    DigitsOf50();
    Hundredths(750, 50);
  }

  lemma DigitsOf750()
    ensures DigitsValue("750") == 750
  {
  }

  lemma DigitsOf50()
    ensures DigitsValue("50") == 50
  {
  }

  /** A Brazilian figure with a thousands point reads as its value. */
  lemma AmountThousands()
    ensures Amount("1.234,56") == 1234.56
  {
    NormalizeThousands();
    ParseTwoDecimals();
  }

  /** A figure with a currency prefix reads as its value. */
  lemma AmountCurrency()
    ensures Amount("R$ 750,50") == 750.50
  {
    NormalizeCurrency();
    ParseCurrencyText();
  }

  /** A point written as a decimal separator is dropped too: "1234.56" reads as 123456. */
  lemma AmountPointIsDropped()
    ensures Amount("1234.56") == 123456.0
  {
    NormalizePointText();
    ParseSixDigits();
  }

  lemma NormalizePointText()
    ensures Normalize("1234.56") == "123456"
  {
    assert "1234.56" == "1234" + ".56";
    NormalizeConcat("1234", ".56");
    NormalizeWhole();
    NormalizePointCents();
  }

  lemma NormalizeWhole()
    ensures Normalize("1234") == "1234"
  {
    NormalizeIsOnePass("1234");
  }

  lemma NormalizePointCents()
    ensures Normalize(".56") == "56"
  {
    NormalizeIsOnePass(".56");
  }

  lemma ParseSixDigits()
    ensures Parse("123456") == Some(123456.0)
  {
    DigitsOf123456();
  }

  lemma DigitsOf123456()
    ensures DigitsValue("123456") == 123456
  {
  }

  /** Accounting parentheses are dropped, so a bracketed figure reads as positive. */
  lemma AmountParenthesesArePositive()
    ensures Amount("(1.234,56)") == 1234.56
  {
    NormalizeParentheses();
    ParseTwoDecimals();
  }

  lemma NormalizeParentheses()
    ensures Normalize("(1.234,56)") == "1234.56"
  {
    assert "(1.234,56)" == "(" + "1.234,56" + ")";
    NormalizeConcat("(" + "1.234,56", ")");
    NormalizeConcat("(", "1.234,56");
    NormalizeThousands();
    NormalizeIsOnePass("(");
    NormalizeIsOnePass(")");
  }

  /** A trailing minus sign makes the text unparseable, so the figure counts as zero. */
  lemma AmountTrailingMinusIsZero()
    ensures Amount("10,00-") == 0.0
  {
    NormalizeTrailingMinus();
    assert Parse("10.00-") == None;
  }

  lemma NormalizeTrailingMinus()
    ensures Normalize("10,00-") == "10.00-"
  {
    NormalizeIsOnePass("10,00-");
  }

  /** A missing text cell, rendered "nan", counts as zero. */
  lemma AmountOfNan()
    ensures Amount("nan") == 0.0
  {
    NormalizeIsOnePass("nan");
  }
}
