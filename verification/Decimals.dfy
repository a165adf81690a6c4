/**
 Arbitrary-precision decimals as the service uses them: a coefficient and a power of ten,
 banker's rounding, comparison by value, and the fixed-point text form.
 */
module Decimals {
  import opened Wrappers
  import Int64
  import Text

  datatype Decimal = Decimal(coef: int, exp: int)

  function FromInt(n: int): Decimal {
    Decimal(n, 0)
  }

  /** The coefficient of `d` written with the smaller exponent `exp`. */
  function CoefAt(d: Decimal, exp: int): int
    requires exp <= d.exp
  {
    d.coef * Text.Pow10(d.exp - exp)
  }

  /** Equality of the numbers, whatever their exponents. */
  predicate Equal(a: Decimal, b: Decimal) {
    var exp := if a.exp < b.exp then a.exp else b.exp;
    CoefAt(a, exp) == CoefAt(b, exp)
  }

  function Mul(a: Decimal, b: Decimal): Decimal {
    Decimal(a.coef * b.coef, a.exp + b.exp)
  }

  /** `n / d` rounded to the nearest integer, ties to even. */
  function RoundHalfEven(n: int, d: int): int
    requires d > 0
  {
    var q, r := n / d, n % d;
    if 2 * r < d then q else if 2 * r > d then q + 1 else if q % 2 == 0 then q else q + 1
  }

  /** `q` is an integer nearest to `n / d`, and the even one when two are. */
  predicate IsNearestEven(n: int, d: int, q: int)
    requires d > 0
  {
    && -d <= 2 * (n - q * d) <= d
    && (2 * (n - q * d) == d || 2 * (n - q * d) == -d ==> q % 2 == 0)
  }

  lemma RoundHalfEvenIsNearest(n: int, d: int)
    requires d > 0
    ensures IsNearestEven(n, d, RoundHalfEven(n, d))
  {
    var q, r := n / d, n % d;
    assert n - q * d == r;
    assert n - (q + 1) * d == r - d;
  }

  lemma NearestEvenUnique(n: int, d: int, p: int, q: int)
    requires d > 0 && IsNearestEven(n, d, p) && IsNearestEven(n, d, q)
    ensures p == q
  {
    var x, y := n - p * d, n - q * d;
    assert x - y == (q - p) * d && y - x == (p - q) * d;
    if p < q {
      GapAtLeast(q - p, d);
    } else if q < p {
      GapAtLeast(p - q, d);
    }
  }

  lemma GapAtLeast(k: int, d: int)
    requires k >= 1 && d > 0
    ensures k * d >= d && (k >= 2 ==> k * d >= 2 * d)
  {
    assert k * d == d + (k - 1) * d;
    if k >= 2 {
      assert k * d == 2 * d + (k - 2) * d;
    }
  }

  /** Cancelling a common factor does not change the rounded quotient. */
  lemma RoundScaled(n: int, d: int, k: int)
    requires d > 0 && k > 0
    ensures k * d > 0 && RoundHalfEven(k * n, k * d) == RoundHalfEven(n, d)
  {
    var q := RoundHalfEven(n, d);
    RoundHalfEvenIsNearest(n, d);
    ScaleOrder(1, d, k);
    NearestScaled(n, d, k, q);
    RoundHalfEvenIsNearest(k * n, k * d);
    NearestEvenUnique(k * n, k * d, q, RoundHalfEven(k * n, k * d));
  }

  lemma NearestScaled(n: int, d: int, k: int, q: int)
    requires d > 0 && k > 0 && k * d > 0 && IsNearestEven(n, d, q)
    ensures IsNearestEven(k * n, k * d, q)
  {
    ScaledGap(n, d, k, q);
    ScaledBounds(2 * (n - q * d), d, k);
  }

  lemma ScaledBounds(x: int, d: int, k: int)
    requires -d <= x <= d && k > 0
    ensures -(k * d) <= k * x <= k * d
    ensures (k * x == k * d ==> x == d) && (k * x == -(k * d) ==> x == -d)
  {
    ScaleOrder(x, d, k);
    ScaleOrder(-d, x, k);
    if x < d {
      ScaleOrder(x + 1, d, k);
    }
    if -d < x {
      ScaleOrder(-d, x - 1, k);
    }
    assert k * (x + 1) == k * x + k && k * (x - 1) == k * x - k && k * -d == -(k * d);
  }

  lemma ScaledGap(n: int, d: int, k: int, q: int)
    ensures 2 * (k * n - q * (k * d)) == k * (2 * (n - q * d))
  {
    assert q * (k * d) == k * (q * d);
    assert k * (n - q * d) == k * n - k * (q * d);
  }

  lemma ScaleOrder(x: int, y: int, k: int)
    requires x <= y && k > 0
    ensures k * x <= k * y
  {
    assert k * (y - x) >= 0;
  }

  /** A multiple of the divisor is not rounded. */
  lemma RoundExact(n: int, d: int)
    requires d > 0
    ensures RoundHalfEven(n * d, d) == n
  {
    RoundHalfEvenIsNearest(n * d, d);
    NearestEvenUnique(n * d, d, n, RoundHalfEven(n * d, d));
  }

  /** `RoundBank(places)`: the nearest multiple of `10^-places`, ties to the even coefficient. */
  function RoundBank(d: Decimal, places: int): (r: Decimal)
    requires places >= 0
    ensures r.exp == -places
  {
    if d.exp >= -places then Decimal(CoefAt(d, -places), -places)
    else Decimal(RoundHalfEven(d.coef, Text.Pow10(-places - d.exp)), -places)
  }

  lemma {:induction false} Pow10Add(a: nat, b: nat)
    ensures Text.Pow10(a + b) == Text.Pow10(a) * Text.Pow10(b)
  {
    if a > 0 {
      Pow10Add(a - 1, b);
      assert Text.Pow10(a + b) == 10 * Text.Pow10(a - 1 + b);
      assert 10 * (Text.Pow10(a - 1) * Text.Pow10(b)) == (10 * Text.Pow10(a - 1)) * Text.Pow10(b);
    }
  }

  lemma CoefAtTwice(d: Decimal, mid: int, low: int)
    requires low <= mid <= d.exp
    ensures CoefAt(d, low) == CoefAt(d, mid) * Text.Pow10(mid - low)
  {
    Pow10Add(d.exp - mid, mid - low);
    assert d.coef * (Text.Pow10(d.exp - mid) * Text.Pow10(mid - low)) ==
        d.coef * Text.Pow10(d.exp - mid) * Text.Pow10(mid - low);
  }

  /** Rounding depends on the number only, not on how it is written. */
  lemma RoundBankOfEqual(a: Decimal, b: Decimal, places: int)
    requires places >= 0
    requires Equal(a, b) && a.exp <= b.exp
    ensures RoundBank(a, places) == RoundBank(b, places)
  {
    var k := Text.Pow10(b.exp - a.exp);
    assert Text.Pow10(0) == 1;
    assert a.coef == b.coef * k;
    if a.exp >= -places {
      CoefAtTwice(b, a.exp, -places);
    } else if b.exp >= -places {
      var d := Text.Pow10(-places - a.exp);
      CoefAtTwice(b, -places, a.exp);
      RoundExact(CoefAt(b, -places), d);
    } else {
      var d := Text.Pow10(-places - b.exp);
      Pow10Add(b.exp - a.exp, -places - b.exp);
      assert k * b.coef == a.coef;
      RoundScaled(b.coef, d, k);
    }
  }

  /** `IntPart`: the integer part as an `int64`, keeping the low 64 bits when it does not fit. */
  function IntPart(d: Decimal): int {
    Int64.Wrap(if d.exp >= 0 then CoefAt(d, 0) else Int64.TruncDiv(d.coef, Text.Pow10(-d.exp)))
  }

  /** `1 / d`, which division computes to 16 places, halves away from zero. */
  function Inverse(d: Decimal): Decimal
    requires d.coef > 0 && d.exp <= 0
  {
    Decimal((2 * Text.Pow10(16 - d.exp) + d.coef) / (2 * d.coef), -16)
  }

  /** The service prints rates with six decimals. */
  const UNIT: int := 1_000_000

  /** The text of `coef / 1,000,000` with exactly six decimals. */
  function PrintFixed(coef: int): string {
    var m := if coef < 0 then -coef else coef;
    (if coef < 0 then "-" else "") + Text.PrintNat(m / UNIT) + "." + Text.Pad(m % UNIT, 6)
  }

  /** `StringFixedBank(6)`. */
  function StringFixedBank(d: Decimal): string {
    PrintFixed(RoundBank(d, 6).coef)
  }

  function Signed(negative: bool, magnitude: int): int {
    if negative then -magnitude else magnitude
  }

  /** An optional sign and at least one digit. */
  function ParseInteger(s: string): Option<int> {
    var negative := s != "" && s[0] == '-';
    var digits := if s != "" && (s[0] == '-' || s[0] == '+') then s[1..] else s;
    if digits == "" || !Text.AllDigits(digits) then None
    else Some(Signed(negative, Text.Value(digits)))
  }

  /** Index of the first character of `s` in `chars`, or the length of `s`. */
  function IndexAny(s: string, chars: string): (i: nat)
    ensures i <= |s|
  {
    if s == "" || s[0] in chars then 0 else 1 + IndexAny(s[1..], chars)
  }

  /**
   `NewFromString`: an integer with at most one point in it, then an optional exponent. The point is
   taken out and the characters after it count into the exponent.
   */
  function Parse(text: string): Option<Decimal> {
    var e := IndexAny(text, "eE");
    var mantissa := text[..e];
    var shift := if e < |text| then ParseInteger(text[e + 1..]) else Some(0);
    var p := IndexAny(mantissa, ".");
    if shift.None? then None
    else if p == |mantissa| then
      var n := ParseInteger(mantissa);
      if n.None? then None else Some(Decimal(n.value, shift.value))
    else
      var tail := mantissa[p + 1..];
      var n := ParseInteger(mantissa[..p] + tail);
      if '.' in tail || n.None? then None else Some(Decimal(n.value, shift.value - |tail|))
  }

  lemma {:induction false} IndexAnyAt(a: string, b: string, chars: string)
    requires forall i | 0 <= i < |a| :: a[i] !in chars
    requires b == "" || b[0] in chars
    ensures IndexAny(a + b, chars) == |a|
  {
    var i := IndexAny(a + b, chars);
    if a == "" {
      assert a + b == b;
    } else {
      assert (a + b)[1..] == a[1..] + b;
      IndexAnyAt(a[1..], b, chars);
    }
  }

  lemma ParseIntegerText(negative: bool, digits: string)
    requires digits != "" && Text.AllDigits(digits)
    ensures ParseInteger((if negative then "-" else "") + digits) ==
            Some(Signed(negative, Text.Value(digits)))
  {
    var s := (if negative then "-" else "") + digits;
    if negative {
      assert s[1..] == digits;
    } else {
      assert s == digits;
    }
  }

  /** Fixed-point text parses to the coefficient and places it was printed from. */
  lemma ParsePrintFixed(coef: int)
    ensures Parse(PrintFixed(coef)) == Some(Decimal(coef, -6))
  {
    var front, frac := FixedPieces(coef);
    ParsePointed(front, frac, coef, PrintFixed(coef));
  }

  lemma FixedPieces(coef: int) returns (front: string, frac: string)
    ensures PrintFixed(coef) == front + "." + frac
    ensures forall i | 0 <= i < |front| :: front[i] == '-' || Text.IsDigit(front[i])
    ensures Text.AllDigits(frac) && |frac| == 6
    ensures ParseInteger(front + frac) == Some(coef)
  {
    var m := if coef < 0 then -coef else coef;
    FixedDigits(m);
    frac := Text.Pad(m % UNIT, 6);
    front := SignedFront(coef < 0, Text.PrintNat(m / UNIT), frac);
  }

  lemma FixedDigits(m: nat)
    ensures var whole, frac := Text.PrintNat(m / UNIT), Text.Pad(m % UNIT, 6);
            && whole != "" && Text.AllDigits(whole) && Text.AllDigits(frac) && |frac| == 6
            && Text.AllDigits(whole + frac) && Text.Value(whole + frac) == m
  {
    assert Text.Pow10(6) == UNIT;
    Text.PrintNatDigits(m / UNIT);
    Text.PadValue(m % UNIT, 6);
    Text.ValueConcat(Text.PrintNat(m / UNIT), Text.Pad(m % UNIT, 6));
  }

  lemma SignedFront(negative: bool, whole: string, frac: string) returns (front: string)
    requires whole != "" && Text.AllDigits(whole) && Text.AllDigits(frac) && Text.AllDigits(whole + frac)
    ensures front == (if negative then "-" else "") + whole
    ensures forall i | 0 <= i < |front| :: front[i] == '-' || Text.IsDigit(front[i])
    ensures ParseInteger(front + frac) == Some(Signed(negative, Text.Value(whole + frac)))
  {
    var sign := if negative then "-" else "";
    front := sign + whole;
    assert front + frac == sign + (whole + frac);
    ParseIntegerText(negative, whole + frac);
  }

  lemma ParsePointed(front: string, frac: string, n: int, text: string)
    requires text == front + "." + frac
    requires forall i | 0 <= i < |front| :: front[i] == '-' || Text.IsDigit(front[i])
    requires Text.AllDigits(frac) && ParseInteger(front + frac) == Some(n)
    ensures Parse(text) == Some(Decimal(n, 0 - |frac|))
  {
    NoExponent(text);
    assert text == front + ("." + frac);
    IndexAnyAt(front, "." + frac, ".");
    assert text[|front| + 1..] == frac && text[..|front|] == front;
  }

  lemma NoExponent(text: string)
    requires forall i | 0 <= i < |text| :: text[i] != 'e' && text[i] != 'E'
    ensures IndexAny(text, "eE") == |text| && text[..|text|] == text
  {
    IndexAnyAt(text, "", "eE");
    assert text + "" == text;
  }

  lemma FixedTextParses(d: Decimal)
    ensures Parse(StringFixedBank(d)) == Some(RoundBank(d, 6))
  {
    ParsePrintFixed(RoundBank(d, 6).coef);
  }

  lemma RoundBankIsExact(d: Decimal)
    ensures Equal(RoundBank(d, 6), d) <==> d.exp >= -6 || d.coef % Text.Pow10(-6 - d.exp) == 0
  {
    assert Text.Pow10(0) == 1;
    if d.exp < -6 {
      RoundingIsExact(d.coef, Text.Pow10(-6 - d.exp));
    }
  }

  /** Text with six decimals carries the number exactly when it is a multiple of a millionth. */
  lemma FixedTextIsExact(d: Decimal)
    ensures Parse(StringFixedBank(d)).Some?
    ensures Equal(Parse(StringFixedBank(d)).value, d) <==>
            d.exp >= -6 || d.coef % Text.Pow10(-6 - d.exp) == 0
  {
    FixedTextParses(d);
    RoundBankIsExact(d);
  }

  lemma RoundingIsExact(n: int, d: int)
    requires d > 0
    ensures RoundHalfEven(n, d) * d == n <==> n % d == 0
  {
    if n % d == 0 {
      assert n == (n / d) * d;
      RoundExact(n / d, d);
    }
    MultipleHasNoRemainder(RoundHalfEven(n, d), d);
  }

  lemma MultipleHasNoRemainder(k: int, d: int)
    requires d > 0
    ensures (k * d) % d == 0
  {
    var q, r := (k * d) / d, (k * d) % d;
    assert k * d == q * d + r;
    assert (k - q) * d == r == -((q - k) * d);
    if k - q >= 1 {
      GapAtLeast(k - q, d);
    } else if k - q <= -1 {
      GapAtLeast(q - k, d);
    }
  }
}
