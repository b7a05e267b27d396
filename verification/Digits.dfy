/** Decimal digit strings, most significant digit first, as the source's integer formatting and parsing see them. */
module Digits {

  predicate IsDigit(c: char) {
    '0' <= c <= '9'
  }

  predicate AllDigits(s: string) {
    forall i :: 0 <= i < |s| ==> IsDigit(s[i])
  }

  function DigitValue(c: char): (d: nat)
    requires IsDigit(c)
    ensures d < 10
  {
    c as int - '0' as int
  }

  function DigitChar(d: nat): (c: char)
    requires d < 10
    ensures IsDigit(c) && DigitValue(c) == d
  {
    ('0' as int + d) as char
  }

  /** The number a digit string denotes; the empty string denotes 0. */
  function Value(s: string): nat
    requires AllDigits(s)
  {
    if s == "" then 0 else Value(s[..|s| - 1]) * 10 + DigitValue(s[|s| - 1])
  }

  function Pow10(n: nat): (p: nat)
    ensures p > 0
  {
    if n == 0 then 1 else Pow10(n - 1) * 10
  }

  /** `n.to_string()`. */
  function ToDecimal(n: nat): (s: string)
    ensures AllDigits(s) && |s| >= 1
  {
    if n < 10 then [DigitChar(n)] else ToDecimal(n / 10) + [DigitChar(n % 10)]
  }

  function Zeros(n: nat): (s: string)
    ensures |s| == n && forall i :: 0 <= i < n ==> s[i] == '0'
  {
    seq(n, _ => '0')
  }

  /** `{s:0>width$}`. */
  function PadLeft(s: string, width: nat): string {
    if |s| >= width then s else Zeros(width - |s|) + s
  }

  /** `{s:0<width$}`. */
  function PadRight(s: string, width: nat): string {
    if |s| >= width then s else s + Zeros(width - |s|)
  }

  lemma ValueAppend(s: string, c: char)
    requires AllDigits(s) && IsDigit(c)
    ensures AllDigits(s + [c]) && Value(s + [c]) == Value(s) * 10 + DigitValue(c)
  {
    assert (s + [c])[..|s|] == s;
  }

  lemma {:induction false} ValueOfDecimal(n: nat)
    ensures Value(ToDecimal(n)) == n
    ensures ToDecimal(n)[0] == '0' ==> n == 0 && |ToDecimal(n)| == 1
  {
    if n >= 10 {
      ValueOfDecimal(n / 10);
      ValueAppend(ToDecimal(n / 10), DigitChar(n % 10));
    } else {
      ValueAppend("", DigitChar(n));
      assert "" + [DigitChar(n)] == ToDecimal(n);
    }
  }

  lemma DecimalIsInjective(m: nat, n: nat)
    requires ToDecimal(m) == ToDecimal(n)
    ensures m == n
  {
    ValueOfDecimal(m);
    ValueOfDecimal(n);
  }

  lemma TimesTen(n: nat, power: nat)
    ensures n * power * 10 == n * (power * 10)
  {}

  lemma {:induction false} ValueConcat(a: string, b: string)
    requires AllDigits(a) && AllDigits(b)
    ensures AllDigits(a + b) && Value(a + b) == Value(a) * Pow10(|b|) + Value(b)
  {
    if b == "" {
      assert a + b == a;
    } else {
      var init, last := b[..|b| - 1], b[|b| - 1];
      ValueConcat(a, init);
      assert a + b == a + init + [last];
      ValueAppend(a + init, last);
      TimesTen(Value(a), Pow10(|init|));
    }
  }

  lemma {:induction false} ValueOfZeros(n: nat)
    ensures Value(Zeros(n)) == 0
  {
    if n > 0 {
      assert Zeros(n)[..n - 1] == Zeros(n - 1);
      ValueOfZeros(n - 1);
    }
  }

  lemma {:induction false} ValueIsBelow(s: string)
    requires AllDigits(s)
    ensures Value(s) < Pow10(|s|)
  {
    if s != "" {
      ValueIsBelow(s[..|s| - 1]);
    }
  }

  lemma {:induction false} Pow10IsMonotone(m: nat, n: nat)
    requires m <= n
    ensures Pow10(m) <= Pow10(n)
  {
    if m < n {
      Pow10IsMonotone(m, n - 1);
    }
  }

  /** Digit strings of one length are equal when their values are. */
  lemma {:induction false} ValueIsInjective(a: string, b: string)
    requires AllDigits(a) && AllDigits(b) && |a| == |b| && Value(a) == Value(b)
    ensures a == b
  {
    if a != "" {
      var x, y := Value(a[..|a| - 1]), Value(b[..|b| - 1]);
      assert x * 10 + DigitValue(a[|a| - 1]) == y * 10 + DigitValue(b[|b| - 1]);
      ValueIsInjective(a[..|a| - 1], b[..|b| - 1]);
      assert a == a[..|a| - 1] + [a[|a| - 1]];
    }
  }

  lemma PadLeftKeepsValue(s: string, width: nat)
    requires AllDigits(s)
    ensures AllDigits(PadLeft(s, width)) && Value(PadLeft(s, width)) == Value(s)
  {
    if |s| < width {
      ValueOfZeros(width - |s|);
      ValueConcat(Zeros(width - |s|), s);
    }
  }

  lemma {:induction false} DecimalLength(n: nat, width: nat)
    requires n < Pow10(width) && width > 0
    ensures |ToDecimal(n)| <= width
  {
    assert Pow10(1) == Pow10(0) * 10;
    if n >= 10 {
      DecimalLength(n / 10, width - 1);
    }
  }

  /** `n` in exactly `width` digits when it fits, as `{n:0width$}` prints it. */
  function Fixed(n: nat, width: nat): string {
    PadLeft(ToDecimal(n), width)
  }

  lemma FixedRoundTrip(n: nat, width: nat)
    requires n < Pow10(width) && width > 0
    ensures |Fixed(n, width)| == width && AllDigits(Fixed(n, width)) && Value(Fixed(n, width)) == n
  {
    DecimalLength(n, width);
    PadLeftKeepsValue(ToDecimal(n), width);
    ValueOfDecimal(n);
  }
}
