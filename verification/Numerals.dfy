/**
 Decimal numerals as strings: reading them, printing them and padding them with zeros.
 */
module Numerals {
  predicate IsDigit(c: char) { '0' <= c <= '9' }

  predicate Digits(t: string) { forall i :: 0 <= i < |t| ==> IsDigit(t[i]) }

  function DigitChar(d: nat): char
    requires d < 10
  {
    '0' + d as char
  }

  function DigitValue(c: char): nat
    requires IsDigit(c)
  {
    c as int - '0' as int
  }

  function Value(t: string): nat
    requires Digits(t)
  {
    if t == "" then 0 else Value(t[..|t| - 1]) * 10 + DigitValue(t[|t| - 1])
  }

  /** The shortest numeral of n. */
  function Decimal(n: nat): string {
    if n < 10 then [DigitChar(n)] else Decimal(n / 10) + [DigitChar(n % 10)]
  }

  function Zeros(k: nat): string {
    seq(k, _ => '0')
  }

  /** The numeral of n with leading zeros up to a width; a longer numeral stays as it is. */
  function Pad(n: nat, width: nat): string {
    var d := Decimal(n);
    if |d| < width then Zeros(width - |d|) + d else d
  }

  lemma {:induction false} DecimalValue(n: nat)
    ensures |Decimal(n)| >= 1 && Digits(Decimal(n)) && Value(Decimal(n)) == n
    ensures n > 0 ==> Decimal(n)[0] != '0'
  {
    if n >= 10 {
      DecimalValue(n / 10);
      var d := Decimal(n);
      assert d[..|d| - 1] == Decimal(n / 10);
    } else {
      assert Value(Decimal(n)[..0]) == 0;
    }
  }

  lemma {:induction false} ZerosValue(k: nat, t: string)
    requires Digits(t)
    ensures Digits(Zeros(k) + t) && Value(Zeros(k) + t) == Value(t)
  {
    var z := Zeros(k) + t;
    if k == 0 && t == "" {
    } else if t == "" {
      ZerosValue(k - 1, t);
      assert z[..|z| - 1] == Zeros(k - 1) + t;
    } else {
      ZerosValue(k, t[..|t| - 1]);
      assert z[..|z| - 1] == Zeros(k) + t[..|t| - 1];
    }
  }

  lemma PadValue(n: nat, width: nat)
    ensures Digits(Pad(n, width)) && Value(Pad(n, width)) == n
    ensures |Pad(n, width)| == if |Decimal(n)| < width then width else |Decimal(n)|
  {
    DecimalValue(n);
    if |Decimal(n)| < width {
      ZerosValue(width - |Decimal(n)|, Decimal(n));
    }
  }

  /** Among numerals of one length the value determines the text. */
  lemma {:induction false} SameLengthSameText(t: string, u: string)
    requires Digits(t) && Digits(u) && |t| == |u| && Value(t) == Value(u)
    ensures t == u
  {
    if t == "" {
    } else {
      var k := |t| - 1;
      SameLengthSameText(t[..k], u[..k]);
      assert t == t[..k] + [t[k]] && u == u[..k] + [u[k]];
    }
  }

  /** No numeral of a value is shorter than its decimal form. */
  lemma {:induction false} DecimalShortest(t: string)
    requires Digits(t) && t != ""
    ensures |Decimal(Value(t))| <= |t|
  {
    var u := t[..|t| - 1];
    if u == "" {
    } else {
      DecimalShortest(u);
      assert Value(t) / 10 == Value(u);
    }
  }

  /** A numeral without a leading zero is the decimal form of its value. */
  lemma {:induction false} DecimalCanonical(t: string)
    requires Digits(t) && t != "" && t[0] != '0'
    ensures Value(t) > 0 && Decimal(Value(t)) == t
  {
    var u := t[..|t| - 1];
    assert t == u + [t[|t| - 1]];
    if u == "" {
      assert Value(u) == 0;
    } else {
      DecimalCanonical(u);
      assert Value(t) / 10 == Value(u) && Value(t) % 10 == DigitValue(t[|t| - 1]);
    }
  }

  lemma {:induction false} DecimalMonotone(m: nat, n: nat)
    requires m <= n
    ensures |Decimal(m)| <= |Decimal(n)|
  {
    if m < 10 {
    } else {
      DecimalMonotone(m / 10, n / 10);
    }
  }

  /** Padding to the width of a numeral gives that numeral back, and keeps every smaller number at that width. */
  lemma PadRestores(t: string, n: nat)
    requires Digits(t) && t != "" && n <= Value(t)
    ensures |Pad(n, |t|)| == |t|
    ensures n == Value(t) ==> Pad(n, |t|) == t
  {
    PadValue(n, |t|);
    DecimalShortest(t);
    DecimalMonotone(n, Value(t));
    if n == Value(t) {
      SameLengthSameText(Pad(n, |t|), t);
    }
  }

  function Power(k: nat): nat {
    if k == 0 then 1 else 10 * Power(k - 1)
  }

  lemma {:induction false} ValueConcat(t: string, u: string)
    requires Digits(t) && Digits(u)
    ensures Digits(t + u) && Value(t + u) == Value(t) * Power(|u|) + Value(u)
  {
    if u == "" {
      assert t + u == t;
    } else {
      var v, c := u[..|u| - 1], u[|u| - 1];
      ValueConcat(t, v);
      assert (t + u)[..|t + u| - 1] == t + v;
      assert Value(t) * Power(|u|) == 10 * (Value(t) * Power(|v|));
    }
  }

  /** Four more digits. */
  lemma FourDigits(t: string, a: char, b: char, c: char, d: char)
    requires Digits(t) && IsDigit(a) && IsDigit(b) && IsDigit(c) && IsDigit(d)
    ensures Digits(t + [a, b, c, d])
    ensures Value(t + [a, b, c, d]) == 10000 * Value(t) + 1000 * DigitValue(a) + 100 * DigitValue(b) + 10 * DigitValue(c) + DigitValue(d)
  {
    var u := [a, b, c, d];
    ValueConcat(t, u);
    assert u[..3] == [a, b, c] && u[..3][..2] == [a, b] && u[..3][..2][..1] == [a];
    assert Value([a]) == DigitValue(a) && Value([a, b]) == 10 * DigitValue(a) + DigitValue(b);
    assert Value([a, b, c]) == 10 * Value([a, b]) + DigitValue(c);
    assert Power(1) == 10 && Power(2) == 100 && Power(3) == 1000;
    assert Power(4) == 10000;
  }
}
