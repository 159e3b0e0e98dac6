/**
 * The two JavaScript number conversions the aggregation relies on:
 * `Number.prototype.toFixed` (the text of a number rounded to `d` places)
 * and `parseFloat` (the number at the start of a text). Every
 * `parseFloat(x.toFixed(d))` of the source is modelled as `Round(x, d)`;
 * `ParseFloatToFixed` proves that the two agree.
 */
module JsNumbers {
  import opened Options
  import opened JsStrings

  function Pow10(d: nat): (p: nat)
    ensures p >= 1
  {
    if d == 0 then 1 else 10 * Pow10(d - 1)
  }

  function Abs(x: real): (a: real)
    ensures a >= 0.0 && (a == x || a == -x)
  {
    if x < 0.0 then -x else x
  }

  predicate IsDigit(c: char) {
    '0' <= c <= '9'
  }

  predicate AllDigits(s: string) {
    forall i | 0 <= i < |s| :: IsDigit(s[i])
  }

  function DigitChar(k: nat): (c: char)
    requires k < 10
    ensures IsDigit(c) && c as int - '0' as int == k
  {
    ('0' as int + k) as char
  }

  function DigitValue(c: char): nat
    requires IsDigit(c)
  {
    c as int - '0' as int
  }

  /** The decimal numeral of `n`, as JavaScript writes a non-negative integer. */
  function Digits(n: nat): (s: string)
    ensures 1 <= |s| && AllDigits(s)
  {
    if n < 10 then [DigitChar(n)] else Digits(n / 10) + [DigitChar(n % 10)]
  }

  /** The value of a string of decimal digits; 0 for the empty string. */
  function Value(s: string): nat
    requires AllDigits(s)
  {
    if s == [] then 0 else 10 * Value(s[..|s| - 1]) + DigitValue(s[|s| - 1])
  }

  lemma {:induction false} ValueOfDigits(n: nat)
    ensures Value(Digits(n)) == n
  {
    if n >= 10 {
      var s := Digits(n);
      assert s[..|s| - 1] == Digits(n / 10);
      ValueOfDigits(n / 10);
    }
  }

  function Zeros(k: nat): (s: string)
    ensures |s| == k && AllDigits(s)
  {
    seq(k, _ => '0')
  }

  lemma {:induction false} ValueOfZeros(k: nat)
    ensures Value(Zeros(k)) == 0
  {
    if k > 0 {
      assert Zeros(k)[..k - 1] == Zeros(k - 1);
      ValueOfZeros(k - 1);
    }
  }

  /** Leading zeros do not change the value of a numeral. */
  lemma {:induction false} ValueIgnoresLeadingZeros(k: nat, s: string)
    requires AllDigits(s)
    ensures AllDigits(Zeros(k) + s) && Value(Zeros(k) + s) == Value(s)
    decreases |s|
  {
    var t := Zeros(k) + s;
    if s == [] {
      assert t == Zeros(k);
      ValueOfZeros(k);
    } else {
      assert t[..|t| - 1] == Zeros(k) + s[..|s| - 1];
      ValueIgnoresLeadingZeros(k, s[..|s| - 1]);
    }
  }

  /** `n` written with at least `width` digits, padded on the left with zeros. */
  function PadDigits(n: nat, width: nat): (s: string)
    ensures |s| >= width && |s| >= 1 && AllDigits(s)
  {
    var t := Digits(n);
    if |t| < width then Zeros(width - |t|) + t else t
  }

  lemma PadDigitsValue(n: nat, width: nat)
    ensures Value(PadDigits(n, width)) == n
  {
    ValueOfDigits(n);
    var t := Digits(n);
    if |t| < width {
      ValueIgnoresLeadingZeros(width - |t|, t);
    }
  }

  /** The value of a numeral split in two: the digits of the head are worth `10^|tail|` each. */
  lemma {:induction false} ValueOfConcat(head: string, tail: string)
    requires AllDigits(head) && AllDigits(tail)
    ensures AllDigits(head + tail)
    ensures Value(head + tail) == Value(head) * Pow10(|tail|) + Value(tail)
    decreases |tail|
  {
    var s := head + tail;
    if tail == [] {
      assert s == head;
    } else {
      var t := tail[..|tail| - 1];
      assert s[..|s| - 1] == head + t;
      ValueOfConcat(head, t);
      ConcatStep(Value(head), Pow10(|t|), Value(t), DigitValue(s[|s| - 1]));
    }
  }

  lemma ConcatStep(h: int, p: int, v: int, c: int)
    ensures 10 * (h * p + v) + c == h * (10 * p) + (10 * v + c)
  {
  }

  /**
   * The integer `n` of `Number.prototype.toFixed` for a non-negative `x`:
   * `n / 10^d - x` is as close to zero as possible, the larger `n` on a tie.
   */
  function ScaledHalfUp(x: real, d: nat): (n: nat)
    requires x >= 0.0
    ensures n as real <= x * Pow10(d) as real + 0.5 < n as real + 1.0
  {
    (x * Pow10(d) as real + 0.5).Floor
  }

  /** An integer part and a fraction part joined by a decimal point. */
  function Decimal(whole: string, fraction: string): (s: string)
    requires |whole| > 0 && |fraction| > 0
    ensures |s| > 0 && s[0] == whole[0] && s[|s| - 1] == fraction[|fraction| - 1]
  {
    whole + "." + fraction
  }

  /**
   * The digits `toFixed` writes for the scaled integer `n`: its numeral,
   * padded with zeros to at least `d + 1` digits, with a point before the
   * last `d` of them.
   */
  function FixedBody(n: nat, d: nat): (s: string)
    ensures |s| > 0 && IsDigit(s[0]) && IsDigit(s[|s| - 1])
  {
    if d == 0 then Digits(n)
    else
      var m := PadDigits(n, d + 1);
      Decimal(m[..|m| - d], m[|m| - d..])
  }

  /** `x.toFixed(d)`: a minus sign for a negative `x`, then `|x|` rounded to `d` decimals. */
  function ToFixed(x: real, d: nat): (s: string)
    ensures |s| > 0 && (s[0] == '-' <==> x < 0.0) && IsDigit(s[|s| - 1])
  {
    var body := FixedBody(ScaledHalfUp(Abs(x), d), d);
    if x < 0.0 then "-" + body else body
  }

  /** `parseFloat(x.toFixed(d))` as a number: `x` rounded half away from zero to `d` decimals. */
  function Round(x: real, d: nat): real {
    var v := ScaledHalfUp(Abs(x), d) as real / Pow10(d) as real;
    if x < 0.0 then -v else v
  }

  lemma DivideMonotone(a: real, b: real, p: real)
    requires p > 0.0 && a <= b
    ensures a / p <= b / p
  {
    assert b / p - a / p == (b - a) / p;
  }

  /** `n / p` is within half of `1 / p` of `a` when `n` is `a * p` rounded half up. */
  lemma HalfUnitBound(a: real, n: real, p: real)
    requires p > 0.0 && n <= a * p + 0.5 < n + 1.0
    ensures -(0.5 / p) <= n / p - a <= 0.5 / p
  {
    var e := n - a * p;
    assert n / p - a == e / p by {
      assert a * p / p == a;
    }
    DivideMonotone(e, 0.5, p);
    DivideMonotone(-0.5, e, p);
    assert -0.5 / p == -(0.5 / p);
  }

  /** Rounding to `d` places moves a number by at most half a unit in the last place. */
  lemma RoundIsClose(x: real, d: nat)
    ensures Abs(Round(x, d) - x) <= 0.5 / Pow10(d) as real
  {
    var a := Abs(x);
    var p := Pow10(d) as real;
    var n := ScaledHalfUp(a, d) as real;
    HalfUnitBound(a, n, p);
    var v := n / p;
    assert Round(x, d) == if x < 0.0 then -v else v;
  }

  lemma FloorOfHalfAbove(k: int)
    ensures (k as real + 0.5).Floor == k
  {
  }

  /** The sign and magnitude of `k / p`. */
  lemma QuotientMagnitude(k: int, p: real, m: nat)
    requires p > 0.0 && m == (if k < 0 then -k else k)
    ensures k as real / p < 0.0 <==> k < 0
    ensures Abs(k as real / p) == m as real / p
    ensures Abs(k as real / p) * p == m as real
  {
    if k < 0 {
      DivideMonotone(k as real, 0.0, p);
      assert m as real / p == -(k as real / p);
    } else {
      DivideMonotone(0.0, k as real, p);
    }
  }

  /** A number with at most `d` decimals, `k / 10^d`, is its own rounding. */
  lemma RoundExact(k: int, d: nat)
    ensures Round(k as real / Pow10(d) as real, d) == k as real / Pow10(d) as real
  {
    var m: nat := if k < 0 then -k else k;
    QuotientMagnitude(k, Pow10(d) as real, m);
    RoundOfExact(k as real / Pow10(d) as real, d, m);
  }

  /** A number whose magnitude is `m` units of `10^-d` rounds to itself. */
  lemma RoundOfExact(x: real, d: nat, m: nat)
    requires Abs(x) * Pow10(d) as real == m as real && Abs(x) == m as real / Pow10(d) as real
    ensures Round(x, d) == x
  {
    HalfUpOfExact(Abs(x), d, m);
    RoundOfMagnitude(x, d, m);
    SignedMagnitude(x, m as real / Pow10(d) as real);
  }

  /** `Round` puts the sign of `x` back on the rounded magnitude. */
  lemma RoundOfMagnitude(x: real, d: nat, m: nat)
    requires ScaledHalfUp(Abs(x), d) == m
    ensures Round(x, d) == if x < 0.0 then -(m as real / Pow10(d) as real) else m as real / Pow10(d) as real
  {
  }

  lemma SignedMagnitude(x: real, v: real)
    requires Abs(x) == v
    ensures (if x < 0.0 then -v else v) == x
  {
  }

  /** A magnitude that is a whole number of units `10^-d` scales to that number. */
  lemma HalfUpOfExact(a: real, d: nat, m: nat)
    requires a >= 0.0 && a * Pow10(d) as real == m as real
    ensures ScaledHalfUp(a, d) == m
  {
    FloorOfHalfAbove(m);
    assert a * Pow10(d) as real + 0.5 == m as real + 0.5;
  }

  /** The length of the run of decimal digits at the start of `s`. */
  function DigitRun(s: string): (k: nat)
    ensures k <= |s| && AllDigits(s[..k]) && (k < |s| ==> !IsDigit(s[k]))
  {
    if |s| > 0 && IsDigit(s[0]) then
      var k := 1 + DigitRun(s[1..]);
      assert s[..k] == [s[0]] + s[1..][..k - 1];
      k
    else 0
  }

  lemma {:induction false} DigitRunAfterDigits(a: string, b: string)
    requires AllDigits(a)
    ensures DigitRun(a + b) == |a| + DigitRun(b)
  {
    if a != [] {
      assert (a + b)[1..] == a[1..] + b;
      DigitRunAfterDigits(a[1..], b);
    } else {
      assert a + b == b;
    }
  }

  /** The parts of a decimal literal: the digits before and after the point, and the exponent. */
  datatype Literal = Literal(whole: string, fraction: string, exponent: int)

  /**
   * The exponent of an optional ExponentPart at the start of `rest` (`e` or
   * `E`, an optional sign, at least one digit); 0 when there is none.
   */
  function Exponent(rest: string): int {
    if |rest| >= 2 && (rest[0] == 'e' || rest[0] == 'E') then
      var signed := rest[1..];
      var digits := if signed[0] == '-' || signed[0] == '+' then signed[1..] else signed;
      var k := DigitRun(digits);
      if k == 0 then 0
      else if signed[0] == '-' then -(Value(digits[..k]) as int)
      else Value(digits[..k])
    else 0
  }

  /**
   * The longest prefix of `u` that is an unsigned decimal literal: digits, an
   * optional fraction and an optional exponent, with at least one digit
   * before or after the point.
   */
  function Lex(u: string): (r: Option<Literal>)
    ensures r.Some? ==> AllDigits(r.value.whole) && AllDigits(r.value.fraction)
  {
    var i := DigitRun(u);
    var afterInt := u[i..];
    var hasDot := |afterInt| > 0 && afterInt[0] == '.';
    var f := if hasDot then DigitRun(afterInt[1..]) else 0;
    if i == 0 && f == 0 then None
    else
      var frac := if hasDot then afterInt[1..][..f] else [];
      var rest := if hasDot then afterInt[1 + f..] else afterInt;
      Some(Literal(u[..i], frac, Exponent(rest)))
  }

  /** The value of the digits after a decimal point: `0.d1d2...` is `d1d2... / 10^length`. */
  function FractionValue(s: string): real
    requires AllDigits(s)
  {
    Value(s) as real / Pow10(|s|) as real
  }

  /** `m` times ten to the power `e`. */
  function Scale(m: real, e: int): real
    decreases if e < 0 then -e else e
  {
    if e == 0 then m else if e > 0 then 10.0 * Scale(m, e - 1) else Scale(m, e + 1) / 10.0
  }

  function LiteralValue(l: Literal): real
    requires AllDigits(l.whole) && AllDigits(l.fraction)
  {
    Scale(Value(l.whole) as real + FractionValue(l.fraction), l.exponent)
  }

  function ParseUnsigned(u: string): Option<real> {
    match Lex(u)
    case None => None
    case Some(l) => Some(LiteralValue(l))
  }

  /** `parseFloat(s)`, with `None` for `NaN`: leading white space, an optional sign, a literal. */
  function ParseFloat(s: string): Option<real> {
    ParseSigned(TrimStart(s))
  }

  /** An optional sign, then an unsigned literal. */
  function ParseSigned(t: string): Option<real> {
    var signed := |t| > 0 && (t[0] == '-' || t[0] == '+');
    match ParseUnsigned(if signed then t[1..] else t)
    case None => None
    case Some(v) => Some(if signed && t[0] == '-' then -v else v)
  }

  /** `(a * p + b) / p` is `a + b / p`. */
  lemma ShiftPoint(a: nat, b: nat, p: nat)
    requires p >= 1
    ensures a as real + b as real / p as real == (a * p + b) as real / p as real
  {
    assert (a * p + b) as real == a as real * p as real + b as real;
    assert (a as real * p as real) / p as real == a as real;
  }

  lemma {:induction false} DigitRunOfNumeral(t: string)
    requires AllDigits(t)
    ensures DigitRun(t) == |t|
  {
    DigitRunAfterDigits(t, []);
    assert t + [] == t;
  }

  lemma LexNumeral(t: string)
    requires |t| > 0 && AllDigits(t) && DigitRun(t) == |t|
    ensures Lex(t) == Some(Literal(t, [], 0))
  {
    assert t[..|t|] == t;
    assert t[|t|..] == [];
  }

  /** A bare numeral reads back as its value. */
  lemma ParseNumeral(t: string)
    requires |t| > 0 && AllDigits(t)
    ensures ParseUnsigned(t) == Some(Value(t) as real)
  {
    DigitRunOfNumeral(t);
    LexNumeral(t);
    assert FractionValue([]) == 0.0;
  }

  lemma LexDecimal(u: string, whole: string, fraction: string)
    requires |whole| > 0 && AllDigits(whole) && |fraction| > 0 && AllDigits(fraction)
    requires u == whole + ("." + fraction)
    requires DigitRun(u) == |whole| && DigitRun(fraction) == |fraction|
    ensures Lex(u) == Some(Literal(whole, fraction, 0))
  {
    var tail := "." + fraction;
    assert u[..|whole|] == whole;
    assert u[|whole|..] == tail;
    assert tail[1..] == fraction;
    assert fraction[..|fraction|] == fraction;
    assert tail[1 + |fraction|..] == [];
  }

  lemma LexOfDecimal(whole: string, fraction: string)
    requires |whole| > 0 && AllDigits(whole) && |fraction| > 0 && AllDigits(fraction)
    ensures Lex(Decimal(whole, fraction)) == Some(Literal(whole, fraction, 0))
  {
    var tail := "." + fraction;
    var u := whole + tail;
    assert Decimal(whole, fraction) == u;
    DigitRunAfterDigits(whole, tail);
    assert DigitRun(tail) == 0;
    DigitRunOfNumeral(fraction);
    LexDecimal(u, whole, fraction);
  }

  /** `whole.fraction` reads back as the value of `whole` plus `fraction` scaled by its length. */
  lemma ParseDecimal(whole: string, fraction: string)
    requires |whole| > 0 && AllDigits(whole) && |fraction| > 0 && AllDigits(fraction)
    ensures ParseUnsigned(Decimal(whole, fraction))
         == Some(Value(whole) as real + FractionValue(fraction))
  {
    LexOfDecimal(whole, fraction);
    LiteralWithoutExponent(whole, fraction);
    ParseOfLex(Decimal(whole, fraction), Literal(whole, fraction, 0), Value(whole) as real + FractionValue(fraction));
  }

  lemma ParseOfLex(u: string, l: Literal, v: real)
    requires Lex(u) == Some(l) && LiteralValue(l) == v
    ensures ParseUnsigned(u) == Some(v)
  {
  }

  lemma LiteralWithoutExponent(whole: string, fraction: string)
    requires AllDigits(whole) && AllDigits(fraction)
    ensures LiteralValue(Literal(whole, fraction, 0)) == Value(whole) as real + FractionValue(fraction)
  {
  }

  lemma ParseFixedFraction(n: nat, d: nat, m: string, whole: string, fraction: string)
    requires d > 0 && m == PadDigits(n, d + 1)
    requires whole == m[..|m| - d] && fraction == m[|m| - d..]
    ensures ParseUnsigned(Decimal(whole, fraction)) == Some(n as real / Pow10(d) as real)
  {
    PaddedSplitValue(n, d, m, whole, fraction);
    var w := n as real / Pow10(d) as real;
    ShiftPoint(Value(whole), Value(fraction), Pow10(d));
    assert w == Value(whole) as real + FractionValue(fraction);
    ParseDecimal(whole, fraction);
  }

  lemma PaddedSplitValue(n: nat, d: nat, m: string, whole: string, fraction: string)
    requires d > 0 && m == PadDigits(n, d + 1)
    requires whole == m[..|m| - d] && fraction == m[|m| - d..]
    ensures |fraction| == d && Value(whole) * Pow10(d) + Value(fraction) == n
  {
    assert m == whole + fraction;
    ValueOfConcat(whole, fraction);
    PadDigitsValue(n, d + 1);
  }

  lemma ParseFixedWhole(n: nat, d: nat)
    requires d == 0
    ensures ParseUnsigned(FixedBody(n, d)) == Some(n as real / Pow10(d) as real)
  {
    assert FixedBody(n, d) == Digits(n);
    ParseNumeral(Digits(n));
    ValueOfDigits(n);
    assert Pow10(0) == 1;
  }

  lemma ParseFixedPointed(n: nat, d: nat)
    requires d > 0
    ensures ParseUnsigned(FixedBody(n, d)) == Some(n as real / Pow10(d) as real)
  {
    var m := PadDigits(n, d + 1);
    assert FixedBody(n, d) == Decimal(m[..|m| - d], m[|m| - d..]);
    ParseFixedFraction(n, d, m, m[..|m| - d], m[|m| - d..]);
  }

  /** The digits of `toFixed` read back as the scaled integer over `10^d`. */
  lemma ParseFixedBody(n: nat, d: nat)
    ensures ParseUnsigned(FixedBody(n, d)) == Some(n as real / Pow10(d) as real)
  {
    if d == 0 {
      ParseFixedWhole(n, d);
    } else {
      ParseFixedPointed(n, d);
    }
  }

  lemma ParseFloatUnsigned(u: string)
    requires |u| > 0 && IsDigit(u[0])
    ensures ParseFloat(u) == ParseUnsigned(u)
  {
    assert !IsSpace(u[0]);
    assert TrimStart(u) == u;
    NoSignBeforeDigit(u);
  }

  /** A literal that starts with a digit carries no sign. */
  lemma NoSignBeforeDigit(t: string)
    requires |t| > 0 && IsDigit(t[0])
    ensures ParseSigned(t) == ParseUnsigned(t)
  {
    assert t[0] != '-' && t[0] != '+';
  }

  lemma ParseSignedNegative(u: string, v: real, t: string, w: real)
    requires ParseUnsigned(u) == Some(v) && t == "-" + u && w == -v
    ensures ParseSigned(t) == Some(w)
  {
    assert t[1..] == u;
  }

  lemma ParseFloatNegative(u: string, v: real, t: string, w: real)
    requires ParseUnsigned(u) == Some(v) && t == "-" + u && w == -v
    ensures ParseFloat(t) == Some(w)
  {
    assert TrimStart(t) == t;
    ParseSignedNegative(u, v, t, w);
  }

  lemma ParseFloatToFixedNegative(x: real, d: nat)
    requires x < 0.0
    ensures ParseFloat(ToFixed(x, d)) == Some(Round(x, d))
  {
    var n := ScaledHalfUp(Abs(x), d);
    var v := n as real / Pow10(d) as real;
    var body := FixedBody(n, d);
    ParseFixedBody(n, d);
    var w := Round(x, d);
    assert w == -v;
    ParseFloatNegative(body, v, ToFixed(x, d), w);
  }

  lemma ParseFloatToFixedNonNegative(x: real, d: nat)
    requires x >= 0.0
    ensures ParseFloat(ToFixed(x, d)) == Some(Round(x, d))
  {
    var n := ScaledHalfUp(Abs(x), d);
    var body := FixedBody(n, d);
    ParseFixedBody(n, d);
    assert ToFixed(x, d) == body;
    ParseFloatUnsigned(body);
  }

  /** `parseFloat(x.toFixed(2))` is within half a cent of `x`. */
  lemma CentsClose(x: real)
    ensures Abs(Round(x, 2) - x) <= 0.005
  {
    RoundIsClose(x, 2);
    assert Pow10(2) == 100;
  }

  /** `parseFloat(x.toFixed(1))` is within half a tenth of `x`. */
  lemma TenthsClose(x: real)
    ensures Abs(Round(x, 1) - x) <= 0.05
  {
    RoundIsClose(x, 1);
    assert Pow10(1) == 10;
  }

  /** `parseFloat(x.toFixed(d))` is `Round(x, d)`. */
  lemma ParseFloatToFixed(x: real, d: nat)
    ensures ParseFloat(ToFixed(x, d)) == Some(Round(x, d))
  {
    if x < 0.0 {
      ParseFloatToFixedNegative(x, d);
    } else {
      ParseFloatToFixedNonNegative(x, d);
    }
  }
}
