/**
 The fixed exchange rate and the conversion of amounts in minor units
 (internal/services/transaction_service.go:516-530, internal/handlers/validation.go:22-31).
 */
module Rates {
  import opened Wrappers
  import opened Decimals
  import Int64
  import Text

  datatype Currency = USD | EUR

  const USD_EUR_RATE := Decimal(92, -2)

  predicate IsExchangePairAllowed(source: Currency, target: Currency) {
    (source == USD && target == EUR) || (source == EUR && target == USD)
  }

  /** The rate that applies when exchanging `source` into `target`. */
  function DirectionalRate(source: Currency, target: Currency): Decimal {
    if source == EUR && target == USD then RoundBank(Inverse(USD_EUR_RATE), 6) else USD_EUR_RATE
  }

  /** The inverse of 0.92, first cut to 16 places and then rounded to 6, is 1.086957. */
  lemma RatesAre()
    ensures DirectionalRate(USD, EUR) == Decimal(92, -2)
    ensures DirectionalRate(EUR, USD) == Decimal(1086957, -6)
  {
    assert Text.Pow10(18) == 1_000_000_000_000_000_000;
    assert Inverse(USD_EUR_RATE) == Decimal(10869565217391304, -16);
    assert Text.Pow10(10) == 10_000_000_000;
  }

  /** The rounded product before it is cut to 64 bits. */
  function Converted(amount: int, rate: Decimal): int {
    RoundBank(Mul(FromInt(amount), rate), 0).coef
  }

  function ConvertMinor(amount: int, rate: Decimal): int {
    IntPart(RoundBank(Mul(FromInt(amount), rate), 0))
  }

  lemma ConvertMinorIsConverted(amount: int, rate: Decimal)
    ensures ConvertMinor(amount, rate) == Int64.Wrap(Converted(amount, rate))
    ensures Int64.Fits(Converted(amount, rate)) ==> ConvertMinor(amount, rate) == Converted(amount, rate)
  {
  }

  /** Conversion at the two fixed rates as division by a power of ten. */
  lemma ConvertedAtFixedRates(amount: int)
    ensures Converted(amount, DirectionalRate(USD, EUR)) == RoundHalfEven(92 * amount, 100)
    ensures Converted(amount, DirectionalRate(EUR, USD)) == RoundHalfEven(1086957 * amount, 1_000_000)
  {
    RatesAre();
    assert Text.Pow10(2) == 100 && Text.Pow10(6) == 1_000_000;
  }

  /** Conversion depends on the number a rate denotes, not on how it is written. */
  lemma ConvertEqualRates(amount: int, a: Decimal, b: Decimal)
    requires Equal(a, b)
    ensures Converted(amount, a) == Converted(amount, b) && ConvertMinor(amount, a) == ConvertMinor(amount, b)
  {
    var low, high := if a.exp <= b.exp then a else b, if a.exp <= b.exp then b else a;
    assert Text.Pow10(0) == 1;
    var k := Text.Pow10(high.exp - low.exp);
    assert amount * (high.coef * k) == amount * high.coef * k;
    RoundBankOfEqual(Mul(FromInt(amount), low), Mul(FromInt(amount), high), 0);
  }

  /** Rates are one of the two fixed ones: 92 parts in a hundred or 1,086,957 in a million. */
  function Numerator(source: Currency): int {
    if source == USD then 92 else 1086957
  }

  function Denominator(source: Currency): int {
    if source == USD then 100 else 1_000_000
  }

  function Other(c: Currency): Currency {
    if c == USD then EUR else USD
  }

  /** `convertMinor` out of `source`, before the cut to 64 bits. */
  function Exchanged(source: Currency, amount: int): int {
    Converted(amount, DirectionalRate(source, Other(source)))
  }

  /** The result is the cent nearest to the exact product. */
  lemma ExchangedIsNearest(source: Currency, amount: int)
    ensures IsNearestEven(Numerator(source) * amount, Denominator(source), Exchanged(source, amount))
  {
    ConvertedAtFixedRates(amount);
    RoundHalfEvenIsNearest(Numerator(source) * amount, Denominator(source));
  }

  lemma ExchangedMonotone(source: Currency, a: int, b: int)
    requires a <= b
    ensures Exchanged(source, a) <= Exchanged(source, b)
  {
    ConvertedAtFixedRates(a);
    ConvertedAtFixedRates(b);
  }

  /** Positive amounts never vanish, and stay within a ninth of their size. */
  lemma ExchangedPositive(source: Currency, amount: int)
    requires amount > 0
    ensures 1 <= Exchanged(source, amount) <= amount + amount / 9 + 1
  {
    ConvertedAtFixedRates(amount);
  }

  predicate IsTie(source: Currency, amount: int) {
    2 * ((Numerator(source) * amount) % Denominator(source)) == Denominator(source)
  }

  /** No amount falls half way between two cents at 0.92; at 1.086957 one in a million does. */
  lemma Ties(amount: int)
    ensures !IsTie(USD, amount)
    ensures IsTie(EUR, amount) <==> amount % 1_000_000 == 500_000
  {
    if amount % 1_000_000 == 500_000 {
      assert 1086957 * amount == 1_000_000 * (1086957 * (amount / 1_000_000) + 543478) + 500_000;
    }
    if IsTie(EUR, amount) {
      TieAmount(amount, (1086957 * amount) / 1_000_000);
    }
  }

  lemma TieAmount(amount: int, q: int)
    requires 1086957 * amount == 1_000_000 * q + 500_000
    ensures amount % 1_000_000 == 500_000
  {
    // 909093 inverts 1086957 modulo a million
    var v := (909093 * 1086957 - 1) / 1_000_000;
    assert 909093 * 1086957 == 1_000_000 * v + 1;
    assert amount == 1_000_000 * (909093 * q - v * amount + 454546) + 500_000;
  }

  function Sum(amounts: seq<int>): int {
    if amounts == [] then 0 else Sum(amounts[..|amounts| - 1]) + amounts[|amounts| - 1]
  }

  function SumExchanged(source: Currency, amounts: seq<int>): int {
    if amounts == [] then 0
    else SumExchanged(source, amounts[..|amounts| - 1]) + Exchanged(source, amounts[|amounts| - 1])
  }

  /** Each part is off by at most half a cent. */
  lemma {:induction false} PartsError(source: Currency, amounts: seq<int>)
    ensures var error := SumExchanged(source, amounts) * Denominator(source) - Sum(amounts) * Numerator(source);
            -|amounts| * Denominator(source) <= 2 * error <= |amounts| * Denominator(source)
  {
    if amounts != [] {
      var front, last := amounts[..|amounts| - 1], amounts[|amounts| - 1];
      PartsError(source, front);
      ExchangedIsNearest(source, last);
      AddError(|front|, Numerator(source), Denominator(source), SumExchanged(source, front), Sum(front),
          Exchanged(source, last), last);
    }
  }

  lemma AddError(n: int, num: int, den: int, total: int, sum: int, part: int, amount: int)
    requires -n * den <= 2 * (total * den - sum * num) <= n * den
    requires -den <= 2 * (num * amount - part * den) <= den
    ensures -(n + 1) * den <= 2 * ((total + part) * den - (sum + amount) * num) <= (n + 1) * den
  {
    assert (total + part) * den - (sum + amount) * num == (total * den - sum * num) + (part * den - num * amount);
  }

  /** Exchanging in `n` parts instead of at once changes the total by at most `(n + 1) / 2` cents. */
  lemma SplittingError(source: Currency, amounts: seq<int>)
    ensures var difference := SumExchanged(source, amounts) - Exchanged(source, Sum(amounts));
            -(|amounts| + 1) <= 2 * difference <= |amounts| + 1
  {
    PartsError(source, amounts);
    ExchangedIsNearest(source, Sum(amounts));
  }

  /** There and back, as inequalities between integers. */
  ghost predicate ThereAndBack(source: Currency, amount: int, there: int, back: int) {
    && there == Exchanged(source, amount) && back == Exchanged(Other(source), there)
    && IsNearestEven(Numerator(source) * amount, Denominator(source), there)
    && IsNearestEven(Numerator(Other(source)) * there, Denominator(Other(source)), back)
  }

  lemma BothWays(source: Currency, amount: int) returns (there: int, back: int)
    ensures ThereAndBack(source, amount, there, back)
  {
    there := Exchanged(source, amount);
    back := Exchanged(Other(source), there);
    ExchangedIsNearest(source, amount);
    ExchangedIsNearest(Other(source), there);
  }

  /** A multiple of four within fifty of zero is within forty-eight. */
  lemma NearestOf92(n: int, q: int)
    requires -100 <= 2 * (92 * n - q * 100) <= 100
    ensures -48 <= 92 * n - 100 * q <= 48
  {
    assert 92 * n - 100 * q == 4 * (23 * n - 25 * q);
  }

  lemma EurArithmetic(amount: int, there: int, back: int)
    requires amount >= 0
    requires -1_000_000 <= 2 * (1086957 * amount - 1_000_000 * there) <= 1_000_000
    requires -48 <= 92 * there - 100 * back <= 48
    ensures back >= amount && (amount <= 136_363 ==> back == amount)
  {
  }

  lemma UsdArithmetic(amount: int, there: int, back: int)
    requires amount >= 0
    requires -48 <= 92 * amount - 100 * there <= 48
    requires -1_000_000 <= 2 * (1086957 * there - 1_000_000 * back) <= 1_000_000
    ensures back >= amount - 1
    ensures (back - amount) * 100_000_000 <= 102_180_000 + 44 * amount
    ensures amount <= 2_000_000 ==> back <= amount + 1
  {
  }

  /** EUR to USD and back never loses a cent, and returns the amount exactly up to 136,363 cents. */
  lemma EurRoundTrip(amount: int)
    requires amount >= 0
    ensures Exchanged(USD, Exchanged(EUR, amount)) >= amount
    ensures amount <= 136_363 ==> Exchanged(USD, Exchanged(EUR, amount)) == amount
  {
    var there, back := BothWays(EUR, amount);
    NearestOf92(there, back);
    EurArithmetic(amount, there, back);
  }

  /**
   USD to EUR and back loses at most a cent; the gain is at most 1.0218 cents and 0.44 millionths of
   the amount, so it stays within a cent up to 2,000,000 cents.
   */
  lemma UsdRoundTrip(amount: int)
    requires amount >= 0
    ensures var back := Exchanged(EUR, Exchanged(USD, amount));
            && back >= amount - 1
            && (back - amount) * 100_000_000 <= 102_180_000 + 44 * amount
            && (amount <= 2_000_000 ==> back <= amount + 1)
  {
    var there, back := BothWays(USD, amount);
    NearestOf92(amount, there);
    UsdArithmetic(amount, there, back);
  }

  /**
   Exactly which small amounts come back: up to 49,417 cents, a USD amount returns unchanged unless it is
   6 or 19 modulo 25, and then it gains or loses one cent.
   */
  lemma UsdRoundTripExactly(amount: int)
    requires 0 <= amount <= 49_417
    ensures Exchanged(EUR, Exchanged(USD, amount)) ==
            amount + if amount % 25 == 6 then 1 else if amount % 25 == 19 then -1 else 0
  {
    var there, back := BothWays(USD, amount);
    NearestOf92(amount, there);
    hide Exchanged;
    NotTied(there, back);
    SmallGain(amount, there, back);
  }

  lemma NotTied(there: int, back: int)
    requires 0 <= there < 500_000
    ensures 1086957 * there - 1_000_000 * back != 500_000 && 1086957 * there - 1_000_000 * back != -500_000
  {
    if 1086957 * there - 1_000_000 * back == 500_000 {
      TieAmount(there, back);
    }
    if 1086957 * there - 1_000_000 * back == -500_000 {
      TieAmount(there, back - 1);
    }
  }

  lemma SmallGain(amount: int, there: int, back: int)
    requires 0 <= amount <= 49_417
    requires -48 <= 92 * amount - 100 * there <= 48
    requires -1_000_000 <= 2 * (1086957 * there - 1_000_000 * back) <= 1_000_000
    requires 1086957 * there - 1_000_000 * back != 500_000 && 1086957 * there - 1_000_000 * back != -500_000
    ensures back == amount + if amount % 25 == 6 then 1 else if amount % 25 == 19 then -1 else 0
  {
    var k := 23 * amount - 25 * there;
    assert 92 * amount - 100 * there == 4 * k;
    Residue(amount, there, k);
    GainOf(amount, k, back - amount);
  }

  /** What the first conversion cuts off, in quarter cents of 23 parts in 25, is the amount's residue. */
  lemma Residue(amount: int, there: int, k: int)
    requires k == 23 * amount - 25 * there && -12 <= k <= 12
    ensures k == 12 <==> amount % 25 == 19
    ensures k == -12 <==> amount % 25 == 6
    ensures k == -11 <==> amount % 25 == 18
  {
    var n := 12 * there - 11 * amount;
    assert 12 * k == amount - 25 * n;
  }

  lemma GainOf(amount: int, k: int, gain: int)
    requires 0 <= amount <= 49_417 && -12 <= k <= 12
    requires k == 12 ==> amount <= 49_394
    requires k == -11 ==> amount <= 49_393
    requires -50_000_000 < 44 * amount - 4_347_828 * k - 100_000_000 * gain < 50_000_000
    ensures gain == if k == -12 then 1 else if k == 12 then -1 else 0
  {
  }

  /**
   Amounts that come back a cent up, a cent down, the first beyond the small ones, two cents up, and an EUR amount a
   cent up.
   */
  lemma RoundTripWitnesses()
    ensures Exchanged(USD, 6) == 6 && Exchanged(EUR, 6) == 7
    ensures Exchanged(USD, 19) == 17 && Exchanged(EUR, 17) == 18
    ensures Exchanged(USD, 49_418) == 45_465 && Exchanged(EUR, 45_465) == 49_419
    ensures Exchanged(USD, 2_223_331) == 2_045_465 && Exchanged(EUR, 2_045_465) == 2_223_333
    ensures Exchanged(EUR, 136_372) == 148_231 && Exchanged(USD, 148_231) == 136_373
  {
    hide Exchanged;
    Evaluate(USD, 6, 6);
    Evaluate(EUR, 6, 7);
    Evaluate(USD, 19, 17);
    Evaluate(EUR, 17, 18);
    Evaluate(USD, 49_418, 45_465);
    Evaluate(EUR, 45_465, 49_419);
    Evaluate(USD, 2_223_331, 2_045_465);
    Evaluate(EUR, 2_045_465, 2_223_333);
    Evaluate(EUR, 136_372, 148_231);
    Evaluate(USD, 148_231, 136_373);
  }

  /** A nearest integer found by hand is what the conversion returns. */
  lemma Evaluate(source: Currency, amount: int, result: int)
    requires IsNearestEven(Numerator(source) * amount, Denominator(source), result)
    ensures Exchanged(source, amount) == result
  {
    ExchangedIsNearest(source, amount);
    NearestEvenUnique(Numerator(source) * amount, Denominator(source), result, Exchanged(source, amount));
  }

  /** The text under which a rate is quoted and recorded. */
  function RateText(rate: Decimal): string {
    StringFixedBank(rate)
  }

  /** The two texts a recorded rate can have. */
  lemma RateTextsAre()
    ensures RateText(DirectionalRate(USD, EUR)) == "0.920000" && RateText(DirectionalRate(EUR, USD)) == "1.086957"
  {
    hide Text.PrintNat, Text.Pad, Inverse, DirectionalRate;
    RatesAre();
    assert Text.Pow10(4) == 10_000 && Text.Pow10(0) == 1;
    assert RoundBank(Decimal(92, -2), 6).coef == 920_000 && RoundBank(Decimal(1086957, -6), 6).coef == 1_086_957;
    RateDigits();
  }

  lemma RateDigits()
    ensures Text.PrintNat(0) == "0" && Text.Pad(920_000, 6) == "920000"
    ensures Text.PrintNat(1) == "1" && Text.Pad(86_957, 6) == "086957"
  {
    hide Text.PrintNat;
    Text.PrintDigit(0);
    Text.PrintDigit(1);
    Text.PrintDigit(8);
    Text.PrintDigit(9);
    Text.PrintOneMore(9, 2);
    Text.PrintOneMore(92, 0);
    Text.PrintOneMore(920, 0);
    Text.PrintOneMore(9200, 0);
    Text.PrintOneMore(92_000, 0);
    Text.PrintOneMore(8, 6);
    Text.PrintOneMore(86, 9);
    Text.PrintOneMore(869, 5);
    Text.PrintOneMore(8695, 7);
    assert Text.Zeros(1) == "0";
  }

  /** The recorded text of a directional rate reads back as that rate. */
  lemma RateTextReadsBack(source: Currency, target: Currency)
    ensures var rate := DirectionalRate(source, target);
            Parse(RateText(rate)).Some? && Equal(Parse(RateText(rate)).value, rate)
  {
    RatesAre();
    FixedTextIsExact(DirectionalRate(source, target));
  }

  /** `parseRate`: a positive decimal with at most six places. */
  function ParseRate(raw: string): (r: Option<Decimal>)
    ensures r.Some? ==> r.value.coef > 0 && r.value.exp >= -6
  {
    var rate := Parse(raw);
    if rate.None? || rate.value.coef <= 0 || rate.value.exp < -6 then None else rate
  }

  /** Plain decimal text is an accepted rate exactly when it is positive and has at most six places. */
  lemma PlainRateIsAccepted(whole: string, frac: string)
    requires Text.AllDigits(whole) && Text.AllDigits(frac) && whole + frac != ""
    ensures Text.AllDigits(whole + frac)
    ensures ParseRate(whole + "." + frac) ==
            if |frac| <= 6 && Text.Value(whole + frac) > 0 then Some(Decimal(Text.Value(whole + frac), 0 - |frac|))
            else None
  {
    Text.ValueConcat(whole, frac);
    ParseIntegerText(false, whole + frac);
    assert "" + (whole + frac) == whole + frac;
    ParsePointed(whole, frac, Text.Value(whole + frac), whole + "." + frac);
  }

  /** The handler's six-place normalisation loses nothing of a rate `parseRate` accepted. */
  lemma NormalisedRateIsExact(raw: string)
    requires ParseRate(raw).Some?
    ensures var text := RateText(ParseRate(raw).value);
            Parse(text).Some? && Equal(Parse(text).value, ParseRate(raw).value)
  {
    FixedTextIsExact(ParseRate(raw).value);
  }
}
