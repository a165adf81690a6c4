/** Decimal digits: printing natural numbers and reading them back. */
module Text {

  predicate IsDigit(c: char) {
    '0' <= c <= '9'
  }

  predicate AllDigits(s: string) {
    forall i | 0 <= i < |s| :: IsDigit(s[i])
  }

  function DigitValue(c: char): (d: nat)
    requires IsDigit(c)
    ensures d < 10
  {
    c as int - '0' as int
  }

  function DigitChar(d: nat): (c: char)
    requires d < 10
    ensures IsDigit(c) && DigitValue(c) == d
  {
    ('0' as int + d) as char
  }

  /** The number a string of digits denotes; the empty string denotes zero. */
  function Value(s: string): nat
    requires AllDigits(s)
  {
    if s == [] then 0 else Value(s[..|s| - 1]) * 10 + DigitValue(s[|s| - 1])
  }

  /** `%d` of a natural number. */
  function PrintNat(n: nat): string {
    if n < 10 then [DigitChar(n)] else PrintNat(n / 10) + [DigitChar(n % 10)]
  }

  /** `%d` of an integer. */
  function PrintInt(n: int): string {
    if n < 0 then "-" + PrintNat(-n) else PrintNat(n)
  }

  function Zeros(n: nat): (s: string)
    ensures |s| == n && forall i | 0 <= i < n :: s[i] == '0'
  {
    seq(n, _ => '0')
  }

  /** A natural number below `10^width`, padded with zeros to `width` digits. */
  function Pad(n: nat, width: nat): string {
    var digits := PrintNat(n);
    if |digits| < width then Zeros(width - |digits|) + digits else digits
  }

  function Pow10(n: nat): (p: nat)
    ensures p > 0
  {
    if n == 0 then 1 else 10 * Pow10(n - 1)
  }

  lemma {:induction false} PrintNatDigits(n: nat)
    ensures AllDigits(PrintNat(n)) && |PrintNat(n)| > 0 && Value(PrintNat(n)) == n
  {
    if n >= 10 {
      PrintNatDigits(n / 10);
      assert PrintNat(n)[..|PrintNat(n)| - 1] == PrintNat(n / 10);
    } else {
      assert PrintNat(n)[..0] == [];
    }
  }

  lemma PrintDigit(d: nat)
    requires d < 10
    ensures PrintNat(d) == [DigitChar(d)]
  {
  }

  lemma PrintOneMore(n: nat, d: nat)
    requires n > 0 && d < 10
    ensures PrintNat(10 * n + d) == PrintNat(n) + [DigitChar(d)]
  {
  }

  /** No superfluous zero in front. */
  lemma {:induction false} PrintNatLeads(n: nat)
    ensures PrintNat(n) != "" && (PrintNat(n)[0] == '0' ==> n == 0 && PrintNat(n) == "0")
  {
    if n >= 10 {
      PrintNatLeads(n / 10);
    }
  }

  lemma {:induction false} PrintNatLength(n: nat, width: nat)
    requires width > 0 && n < Pow10(width)
    ensures |PrintNat(n)| <= width
  {
    if n >= 10 {
      PrintNatLength(n / 10, width - 1);
    }
  }

  lemma {:induction false} ValueConcat(a: string, b: string)
    requires AllDigits(a) && AllDigits(b)
    ensures AllDigits(a + b) && Value(a + b) == Value(a) * Pow10(|b|) + Value(b)
  {
    if b == [] {
      assert a + b == a;
    } else {
      var front := b[..|b| - 1];
      ValueConcat(a, front);
      assert (a + b)[..|a + b| - 1] == a + front;
      OneMoreDigit(Value(a), Pow10(|front|), Value(front), DigitValue(b[|b| - 1]));
    }
  }

  lemma OneMoreDigit(whole: int, power: int, frac: int, digit: int)
    ensures (whole * power + frac) * 10 + digit == whole * (10 * power) + (frac * 10 + digit)
  {
  }

  lemma {:induction false} ValueOfZeros(n: nat)
    ensures AllDigits(Zeros(n)) && Value(Zeros(n)) == 0
  {
    if n > 0 {
      ValueOfZeros(n - 1);
      assert Zeros(n)[..n - 1] == Zeros(n - 1);
    }
  }

  /** A padded number has exactly the width and keeps its value. */
  lemma {:induction false} PadValue(n: nat, width: nat)
    requires width > 0 && n < Pow10(width)
    ensures |Pad(n, width)| == width && AllDigits(Pad(n, width)) && Value(Pad(n, width)) == n
  {
    PrintNatDigits(n);
    PrintNatLength(n, width);
    var digits := PrintNat(n);
    ValueOfZeros(width - |digits|);
    ValueConcat(Zeros(width - |digits|), digits);
    if |digits| == width {
      assert Zeros(0) + digits == digits;
    }
  }
}
