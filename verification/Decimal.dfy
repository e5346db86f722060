/** Decimal numerals, zero-padded on the left: `padStart` and Python's `02d`. */
module Decimal {
  predicate IsDigit(c: char) { '0' <= c <= '9' }

  predicate IsNumeral(s: string) {
    s != "" && forall i | 0 <= i < |s| :: IsDigit(s[i])
  }

  function Digit(d: nat): char
    requires d < 10
  {
    '0' + d as char
  }

  function DigitValue(c: char): nat
    requires IsDigit(c)
  {
    c as nat - '0' as nat
  }

  function Digits(n: nat): string {
    if n < 10 then [Digit(n)] else Digits(n / 10) + [Digit(n % 10)]
  }

  function Zeros(n: nat): string {
    if n == 0 then "" else "0" + Zeros(n - 1)
  }

  function Pad(n: nat, width: nat): string {
    var d := Digits(n);
    if |d| < width then Zeros(width - |d|) + d else d
  }

  function Value(s: string): nat
    requires forall i | 0 <= i < |s| :: IsDigit(s[i])
  {
    if s == "" then 0
    else
      assert IsDigit(s[|s| - 1]);
      10 * Value(s[..|s| - 1]) + DigitValue(s[|s| - 1])
  }

  lemma {:induction false} DigitsValue(n: nat)
    ensures IsNumeral(Digits(n)) && Value(Digits(n)) == n
  {
    if n >= 10 {
      DigitsValue(n / 10);
      assert Digits(n)[..|Digits(n)| - 1] == Digits(n / 10);
    }
  }

  lemma {:induction false} ZerosValue(k: nat, s: string)
    requires IsNumeral(s)
    ensures |Zeros(k)| == k && IsNumeral(Zeros(k) + s) && Value(Zeros(k) + s) == Value(s)
  {
    if k == 0 {
      assert Zeros(k) + s == s;
    } else {
      ZerosValue(k - 1, s);
      LeadingZero(Zeros(k - 1) + s);
      assert Zeros(k) + s == ['0'] + (Zeros(k - 1) + s);
    }
  }

  lemma {:induction false} LeadingZero(s: string)
    requires forall i | 0 <= i < |s| :: IsDigit(s[i])
    ensures IsNumeral(['0'] + s) && Value(['0'] + s) == Value(s)
  {
    var t := ['0'] + s;
    if s != "" {
      LeadingZero(s[..|s| - 1]);
      assert t[..|t| - 1] == ['0'] + s[..|s| - 1];
    }
  }

  /** Padding loses nothing: the numeral reads back as the number. */
  lemma PadValue(n: nat, width: nat)
    ensures IsNumeral(Pad(n, width)) && Value(Pad(n, width)) == n && |Pad(n, width)| >= width
  {
    DigitsValue(n);
    ZerosValue(if |Digits(n)| < width then width - |Digits(n)| else 0, Digits(n));
  }

  lemma {:induction false} DigitsLength(n: nat, k: nat)
    requires k > 0 && n < Power10(k)
    ensures |Digits(n)| <= k
    decreases k
  {
    assert Power10(1) == 10;
    if n >= 10 {
      DigitsLength(n / 10, k - 1);
    }
  }

  function Power10(k: nat): nat {
    if k == 0 then 1 else 10 * Power10(k - 1)
  }

  lemma PadLength(n: nat, width: nat)
    requires width > 0 && n < Power10(width)
    ensures |Pad(n, width)| == width
  {
    DigitsValue(n);
    DigitsLength(n, width);
    if |Digits(n)| < width {
      ZerosValue(width - |Digits(n)|, Digits(n));
    }
  }

  /** Numerals closed by the same non-digit are told apart by what they denote. */
  lemma PrefixInjective(a: string, b: string, stop: char, x: string, y: string)
    requires IsNumeral(a) && IsNumeral(b) && !IsDigit(stop)
    requires a + [stop] + x == b + [stop] + y
    ensures a == b && x == y
  {
    var s := a + [stop] + x;
    assert s[|a|] == stop && s[|b|] == stop;
    assert forall i | 0 <= i < |a| :: IsDigit(s[i]) && s[i] == a[i];
    assert forall i | 0 <= i < |b| :: IsDigit(s[i]) && s[i] == b[i];
    assert |a| == |b|;
    assert s[..|a|] == a && s[..|b|] == b;
    assert s[|a| + 1..] == x && s[|b| + 1..] == y;
  }
}
