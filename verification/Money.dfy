/**
 Amounts in minor units and their text form (internal/money/money.go).
 A string is a sequence of Unicode scalar values; `len` counts UTF-8 bytes as Go does.
 */
module Money {
  import opened Wrappers
  import Int64
  import Text

  datatype ParseError = InvalidAmount | TooManyDecimals

  /** `unicode.IsSpace`, which `strings.TrimSpace` cuts on. */
  predicate IsSpace(c: char) {
    var u := c as int;
    || 0x09 <= u <= 0x0D || u in {0x20, 0x85, 0xA0, 0x1680, 0x2028, 0x2029, 0x202F, 0x205F, 0x3000}
    || 0x2000 <= u <= 0x200A
  }

  function TrimLeft(s: string): (t: string)
    ensures t != [] ==> !IsSpace(t[0])
  {
    if s != [] && IsSpace(s[0]) then TrimLeft(s[1..]) else s
  }

  function TrimRight(s: string): (t: string)
    ensures t <= s
    ensures t != [] ==> !IsSpace(t[|t| - 1])
  {
    if s != [] && IsSpace(s[|s| - 1]) then TrimRight(s[..|s| - 1]) else s
  }

  function TrimSpace(s: string): string {
    TrimRight(TrimLeft(s))
  }

  /** A string without space at either end is its own trimming. */
  lemma TrimSpaceIdentity(s: string)
    requires s != [] && !IsSpace(s[0]) && !IsSpace(s[|s| - 1])
    ensures TrimSpace(s) == s
  {
  }

  /** Trimming takes off spaces at both ends, and all of them. */
  lemma TrimSpaceCuts(s: string) returns (front: string, back: string)
    ensures s == front + TrimSpace(s) + back
    ensures (forall c | c in front :: IsSpace(c)) && (forall c | c in back :: IsSpace(c))
    ensures TrimSpace(s) != "" ==> !IsSpace(TrimSpace(s)[0]) && !IsSpace(TrimSpace(s)[|TrimSpace(s)| - 1])
  {
    front := TrimLeftCuts(s);
    back := TrimRightCuts(TrimLeft(s));
  }

  lemma {:induction false} TrimLeftCuts(s: string) returns (front: string)
    ensures s == front + TrimLeft(s) && forall c | c in front :: IsSpace(c)
  {
    front := "";
    if s != [] && IsSpace(s[0]) {
      front := TrimLeftCuts(s[1..]);
      front := [s[0]] + front;
    }
  }

  lemma {:induction false} TrimRightCuts(s: string) returns (back: string)
    ensures s == TrimRight(s) + back && forall c | c in back :: IsSpace(c)
  {
    back := "";
    if s != [] && IsSpace(s[|s| - 1]) {
      back := TrimRightCuts(s[..|s| - 1]);
      back := back + [s[|s| - 1]];
    }
  }

  function ByteLength(s: string): nat {
    if s == [] then 0
    else
      var u := s[|s| - 1] as int;
      ByteLength(s[..|s| - 1]) + (if u < 0x80 then 1 else if u < 0x800 then 2 else if u < 0x1_0000 then 3 else 4)
  }

  lemma {:induction false} ByteLengthBounds(s: string)
    ensures |s| <= ByteLength(s)
    ensures Text.AllDigits(s) ==> ByteLength(s) == |s|
  {
    if s != [] {
      ByteLengthBounds(s[..|s| - 1]);
    }
  }

  /** Index of the first point, or the length of `s` when there is none. */
  function FirstPoint(s: string): (i: nat)
    ensures i <= |s| && '.' !in s[..i]
    ensures i < |s| ==> s[i] == '.'
  {
    if s == [] || s[0] == '.' then 0
    else
      var i := 1 + FirstPoint(s[1..]);
      assert s[..i] == [s[0]] + s[1..][..i - 1];
      i
  }

  lemma {:induction false} FirstPointUnique(a: string, b: string)
    requires '.' !in a && (b == [] || b[0] == '.')
    ensures FirstPoint(a + b) == |a|
  {
    if a == [] {
      assert a + b == b;
    } else {
      assert (a + b)[1..] == a[1..] + b;
      FirstPointUnique(a[1..], b);
    }
  }

  /** What the grammar of amounts is made of: a sign, whole digits, and a point with at most two digits. */
  datatype Numeral = Numeral(sign: string, whole: string, point: bool, frac: string) {

    predicate Valid() {
      && (sign == "" || sign == "+" || sign == "-")
      && Text.AllDigits(whole)
      && Text.AllDigits(frac) && |frac| <= 2
      && (!point ==> frac == "")
      && Text.Value(whole) <= Int64.MAX
    }

    function ToText(): string {
      sign + whole + (if point then "." + frac else "")
    }

    /** The exact amount in cents, before any 64-bit wrap-around. */
    function Cents(): int
      requires Valid()
    {
      var cents := Text.Value(whole) * 100 + FracCents(frac);
      if sign == "-" then -cents else cents
    }
  }

  /** One decimal counts tens of cents, two count cents. */
  function FracCents(frac: string): nat
    requires Text.AllDigits(frac) && |frac| <= 2
  {
    if |frac| == 1 then Text.Value(frac) * 10 else Text.Value(frac)
  }

  /** The grammar: a trimmed string that is some numeral's text and not empty. */
  ghost predicate Accepts(t: string) {
    t != "" && exists n: Numeral :: n.Valid() && n.ToText() == t
  }

  function SignOf(t: string): (sign: string)
    ensures sign <= t && |sign| <= 1
    ensures sign == "" || sign == "-" || sign == "+"
  {
    if t != "" && (t[0] == '-' || t[0] == '+') then t[..1] else ""
  }

  /** The only way to read `t` as sign, whole part and fraction. */
  function Split(t: string): Numeral {
    var sign := SignOf(t);
    var rest := t[|sign|..];
    var i := FirstPoint(rest);
    if i < |rest| then Numeral(sign, rest[..i], true, rest[i + 1..]) else Numeral(sign, rest, false, "")
  }

  lemma SplitText(t: string)
    ensures Split(t).ToText() == t
  {
    var sign := SignOf(t);
    var rest := t[|sign|..];
    assert t == sign + rest;
    var i := FirstPoint(rest);
    if i < |rest| {
      CutAt(rest, i);
      JoinThree(sign, rest[..i], "." + rest[i + 1..]);
    } else {
      assert rest + "" == rest;
      JoinThree(sign, rest, "");
    }
  }

  lemma CutAt(s: string, i: nat)
    requires i < |s| && s[i] == '.'
    ensures s == s[..i] + ("." + s[i + 1..])
  {
  }

  lemma JoinThree(a: string, b: string, c: string)
    ensures a + b + c == a + (b + c)
  {
  }

  /** Numerals are read unambiguously. */
  lemma SplitUnique(n: Numeral)
    requires n.sign == "" || n.sign == "-" || n.sign == "+"
    requires Text.AllDigits(n.whole) && (!n.point ==> n.frac == "")
    ensures Split(n.ToText()) == n
  {
    var tail := if n.point then "." + n.frac else "";
    var rest := n.whole + tail;
    JoinThree(n.sign, n.whole, tail);
    SignOfText(n.sign, rest);
    SplitRest(n, tail);
  }

  lemma SplitRest(n: Numeral, tail: string)
    requires Text.AllDigits(n.whole) && (!n.point ==> n.frac == "")
    requires tail == if n.point then "." + n.frac else ""
    requires SignOf(n.sign + (n.whole + tail)) == n.sign
    ensures Split(n.sign + (n.whole + tail)) == n
  {
    hide SignOf, FirstPoint;
    var rest := n.whole + tail;
    assert (n.sign + rest)[|n.sign|..] == rest;
    FirstPointUnique(n.whole, tail);
    if n.point {
      CutAtPoint(n.whole, n.frac);
    } else {
      assert rest == n.whole;
    }
  }

  lemma CutAtPoint(whole: string, frac: string)
    ensures var rest := whole + ("." + frac);
            |whole| < |rest| && rest[..|whole|] == whole && rest[|whole| + 1..] == frac
  {
  }

  lemma SignOfText(sign: string, rest: string)
    requires sign == "" || sign == "-" || sign == "+"
    requires rest != "" ==> Text.IsDigit(rest[0]) || rest[0] == '.'
    ensures SignOf(sign + rest) == sign
  {
  }

  /**
   The meaning of `ParseMinor` on every input: the error kinds, the grammar, and the value
   with the wrap-around of 64-bit arithmetic.
   */
  function Parse(input: string): (r: Result<int, ParseError>) {
    var t := TrimSpace(input);
    if t == "" then Err(InvalidAmount) else FromParts(Split(t))
  }

  function FromParts(n: Numeral): (r: Result<int, ParseError>)
    requires n.sign == "" || n.sign == "+" || n.sign == "-"
    requires !n.point ==> n.frac == ""
  {
    if !Text.AllDigits(n.whole) then Err(InvalidAmount)
    else if ByteLength(n.frac) > 2 then Err(TooManyDecimals)
    else if !Text.AllDigits(n.frac) || Text.Value(n.whole) > Int64.MAX then Err(InvalidAmount)
    else
      ByteLengthBounds(n.frac);
      Ok(Int64.Wrap(n.Cents()))
  }

  /** `isDigits`: the loop over the runes of a string. */
  method IsDigits(value: string) returns (r: bool)
    ensures r == Text.AllDigits(value)
  {
    for i := 0 to |value|
      invariant Text.AllDigits(value[..i])
    {
      if value[i] < '0' || value[i] > '9' {
        return false;
      }
    }
    assert value[..|value|] == value;
    return true;
  }

  /** `strconv.ParseInt` in base 10 on a non-empty string of digits. */
  function ParseDigits(s: string): Option<int>
    requires Text.AllDigits(s)
  {
    if Text.Value(s) > Int64.MAX then None else Some(Text.Value(s))
  }

  method ParseMinor(input: string) returns (r: Result<int, ParseError>)
    ensures r == Parse(input)
  {
    var trimmed := TrimSpace(input);
    if trimmed == "" {
      return Err(InvalidAmount);
    }
    ghost var numeral := Split(trimmed);
    var sign := 1;
    if trimmed[0] == '-' {
      sign := -1;
      trimmed := trimmed[1..];
    } else if trimmed[0] == '+' {
      trimmed := trimmed[1..];
    }
    var point := FirstPoint(trimmed);
    var wholePart := trimmed[..point];
    var fracPart := if point < |trimmed| then trimmed[point + 1..] else "";
    SplitPieces(TrimSpace(input), trimmed);
    r := ParseParts(sign, wholePart, fracPart, numeral);
  }

  /** `ParseMinor` once the sign and the point are found (lines 30-61). */
  method ParseParts(sign: int, whole0: string, fracPart: string, ghost n: Numeral) returns (r: Result<int, ParseError>)
    requires n.whole == whole0 && n.frac == fracPart && sign == (if n.sign == "-" then -1 else 1)
    requires n.sign == "" || n.sign == "+" || n.sign == "-"
    requires !n.point ==> n.frac == ""
    ensures r == FromParts(n)
  {
    DefaultWhole(whole0);
    var wholePart := whole0;
    if wholePart == "" {
      wholePart := "0";
    }
    var digits := IsDigits(wholePart);
    if !digits {
      return Err(InvalidAmount);
    }
    if ByteLength(fracPart) > 2 {
      return Err(TooManyDecimals);
    }
    ByteLengthBounds(fracPart);
    if fracPart != "" {
      digits := IsDigits(fracPart);
      if !digits {
        return Err(InvalidAmount);
      }
    }
    var whole := ParseDigits(wholePart);
    if whole.None? {
      return Err(InvalidAmount);
    }
    var frac := 0;
    FracPieces(fracPart);
    if |fracPart| == 1 {
      frac := Text.DigitValue(fracPart[0]) * 10;
    } else if |fracPart| == 2 {
      var value := ParseDigits(fracPart);
      frac := value.value;
    }
    var minor := SignedMinor(sign, whole.value, frac);
    return Ok(minor);
  }

  /** A sign, digits and a point with more than two bytes after it, whatever they are. */
  ghost predicate OverlongText(n: Numeral) {
    && (n.sign == "" || n.sign == "+" || n.sign == "-") && Text.AllDigits(n.whole)
    && n.point && ByteLength(n.frac) > 2
  }

  /** Of the two errors, too many decimals is given for exactly such texts. */
  lemma TooManyDecimalsExactlyWhen(input: string)
    ensures Parse(input) == Err(TooManyDecimals) <==>
            TrimSpace(input) != "" && exists n: Numeral :: OverlongText(n) && n.ToText() == TrimSpace(input)
  {
    hide TrimSpace, FirstPoint, ByteLength, Text.AllDigits, Text.Value;
    var t := TrimSpace(input);
    SplitText(t);
    if Parse(input) == Err(TooManyDecimals) {
      NothingIsShort();
      assert OverlongText(Split(t));
    }
    forall n: Numeral | OverlongText(n) && n.ToText() == t ensures Split(t) == n {
      SplitUnique(n);
    }
  }

  lemma NothingIsShort()
    ensures ByteLength("") == 0
  {
  }

  /** The cents of a numeral are its digits, the decimals filled up to two. */
  lemma CentsAreDigits(n: Numeral)
    requires n.Valid()
    ensures var digits := n.whole + n.frac + Text.Zeros(2 - |n.frac|);
            Text.AllDigits(digits) && n.Cents() == if n.sign == "-" then 0 - Text.Value(digits) else Text.Value(digits)
  {
    var padded := n.frac + Text.Zeros(2 - |n.frac|);
    assert n.whole + n.frac + Text.Zeros(2 - |n.frac|) == n.whole + padded;
    assert Text.Pow10(2) == 100 && Text.Pow10(1) == 10;
    Text.ValueConcat(n.frac, Text.Zeros(2 - |n.frac|));
    Text.ValueOfZeros(2 - |n.frac|);
    Text.ValueConcat(n.whole, padded);
  }

  /** The last two lines of `ParseMinor`, every operation wrapping. */
  method SignedMinor(sign: int, whole: int, frac: int) returns (minor: int)
    requires sign == 1 || sign == -1
    ensures minor == Int64.Wrap(sign * (whole * 100 + frac))
  {
    Int64.WrapMinor(whole, frac, sign);
    minor := Int64.Wrap(Int64.Wrap(whole * 100) + frac);
    minor := Int64.Wrap(sign * minor);
  }

  lemma SplitPieces(t: string, rest: string)
    requires t != "" && rest == if t[0] == '-' || t[0] == '+' then t[1..] else t
    ensures Split(t).whole == rest[..FirstPoint(rest)]
    ensures Split(t).frac == if FirstPoint(rest) < |rest| then rest[FirstPoint(rest) + 1..] else ""
    ensures Split(t).sign == "-" <==> t[0] == '-'
    ensures Split(t).sign == "" || Split(t).sign == "+" || Split(t).sign == "-"
    ensures !Split(t).point ==> Split(t).frac == ""
  {
  }

  lemma DefaultWhole(whole: string)
    ensures var w := if whole == "" then "0" else whole;
            Text.AllDigits(w) == Text.AllDigits(whole) && (Text.AllDigits(w) ==> Text.Value(w) == Text.Value(whole))
  {
  }

  lemma FracPieces(frac: string)
    requires Text.AllDigits(frac) && |frac| <= 2
    ensures |frac| == 0 ==> FracCents(frac) == 0
    ensures |frac| == 1 ==> FracCents(frac) == Text.DigitValue(frac[0]) * 10
    ensures |frac| == 2 ==> FracCents(frac) == Text.Value(frac) < 100
  {
    if |frac| > 0 {
      var front := frac[..|frac| - 1];
      assert Text.Value(frac) == Text.Value(front) * 10 + Text.DigitValue(frac[|frac| - 1]);
      if |front| == 1 {
        assert front[..0] == "";
      }
    }
  }

  /** `ParseMinor` accepts exactly the grammar, and the value is the numeral's. */
  lemma ParseGrammar(input: string)
    ensures Parse(input).Ok? <==> Accepts(TrimSpace(input))
    ensures forall n: Numeral :: n.Valid() && n.ToText() == TrimSpace(input) != "" ==>
              Parse(input) == Ok(Int64.Wrap(n.Cents()))
  {
    var t := TrimSpace(input);
    SplitText(t);
    ByteLengthBounds(Split(t).frac);
    forall n: Numeral | n.Valid() && n.ToText() == t != ""
      ensures Parse(input) == Ok(Int64.Wrap(n.Cents()))
    {
      SplitUnique(n);
    }
    if Parse(input).Ok? {
      assert Split(t).Valid();
    }
  }

  /** `%02d`: at least two characters, the sign counting as one. */
  function PrintTwo(n: int): string {
    if 0 <= n < 10 then "0" + Text.PrintNat(n) else Text.PrintInt(n)
  }

  /** The text of every 64-bit amount; the minimum, whose negation wraps to itself, prints malformed. */
  function Format(value: int): string
    requires Int64.Fits(value)
  {
    if value == Int64.MIN then "-" + ("-" + Text.PrintNat(92233720368547758) + "." + "-8")
    else
      var magnitude := if value < 0 then -value else value;
      (if value < 0 then "-" else "") + Text.PrintNat(magnitude / 100) + "." + Text.Pad(magnitude % 100, 2)
  }

  method FormatMinor(amount: int) returns (formatted: string)
    requires Int64.Fits(amount)
    ensures formatted == Format(amount)
  {
    var value := amount;
    var negative := value < 0;
    if negative {
      value := Int64.Wrap(-value);
    }
    var whole := Int64.TruncDiv(value, 100);
    var frac := Int64.TruncMod(value, 100);
    formatted := Text.PrintInt(whole) + "." + PrintTwo(frac);
    FormatUnsigned(amount, value);
    if negative {
      formatted := "-" + formatted;
    }
  }

  /** What the code prints before the sign is put in front. */
  lemma FormatUnsigned(amount: int, value: int)
    requires Int64.Fits(amount) && value == if amount < 0 then Int64.Wrap(-amount) else amount
    ensures var text := Text.PrintInt(Int64.TruncDiv(value, 100)) + "." + PrintTwo(Int64.TruncMod(value, 100));
            (if amount < 0 then "-" + text else text) == Format(amount)
  {
    if amount == Int64.MIN {
      FormatMinimum(Int64.TruncDiv(value, 100), Int64.TruncMod(value, 100));
    } else {
      assert value == if amount < 0 then -amount else amount;
      PadTwo(value % 100);
      FormatOrdinary(value / 100, value % 100);
    }
  }

  lemma FormatMinimum(whole: int, frac: int)
    requires whole == -92233720368547758 && frac == -8
    ensures "-" + (Text.PrintInt(whole) + "." + PrintTwo(frac)) == "-" + ("-" + Text.PrintNat(-whole) + "." + "-8")
  {
    assert Text.PrintNat(8) == "8";
    assert PrintTwo(frac) == "-8";
    assert Text.PrintInt(whole) == "-" + Text.PrintNat(-whole);
  }

  lemma FormatOrdinary(whole: nat, frac: nat)
    requires frac < 100
    ensures "" + Text.PrintNat(whole) + "." + Text.Pad(frac, 2) == Text.PrintInt(whole) + "." + Text.Pad(frac, 2)
    ensures "-" + Text.PrintNat(whole) + "." + Text.Pad(frac, 2) ==
            "-" + (Text.PrintInt(whole) + "." + Text.Pad(frac, 2))
  {
    assert "" + Text.PrintNat(whole) == Text.PrintNat(whole);
    JoinThree("-" + Text.PrintNat(whole), ".", Text.Pad(frac, 2));
    JoinThree("-", Text.PrintNat(whole), "." + Text.Pad(frac, 2));
    JoinThree(Text.PrintNat(whole), ".", Text.Pad(frac, 2));
  }

  lemma PadTwo(n: nat)
    requires n < 100
    ensures Text.Pad(n, 2) == PrintTwo(n)
  {
    Text.PrintNatLength(n, 2);
    if n < 10 {
      assert Text.Zeros(1) == "0";
    } else {
      assert |Text.PrintNat(n / 10)| == 1;
    }
  }

  /** A printed amount is a valid numeral for that amount. */
  lemma FormatNumeral(v: int) returns (n: Numeral)
    requires Int64.MIN < v <= Int64.MAX
    ensures n.Valid() && n.ToText() == Format(v) && n.Cents() == v && n.whole != "" && n.point && |n.frac| == 2
    ensures n.sign == (if v < 0 then "-" else "") && n.whole == Text.PrintNat((if v < 0 then -v else v) / 100)
  {
    var m := if v < 0 then -v else v;
    Text.PrintNatDigits(m / 100);
    assert Text.Pow10(2) == 100;
    Text.PadValue(m % 100, 2);
    n := Numeral(if v < 0 then "-" else "", Text.PrintNat(m / 100), true, Text.Pad(m % 100, 2));
    assert n.ToText() == n.sign + n.whole + ("." + n.frac) == n.sign + n.whole + "." + n.frac;
  }

  /** The printed form: a minus only below zero, no superfluous zero in front, a point, and two decimals. */
  lemma FormatIsCanonical(v: int, n: Numeral)
    requires Int64.MIN < v <= Int64.MAX && n.Valid() && n.ToText() == Format(v)
    ensures n.Cents() == v && (n.sign == if v < 0 then "-" else "") && n.point && |n.frac| == 2
    ensures n.whole != "" && (n.whole[0] == '0' ==> n.whole == "0")
  {
    var printed := FormatNumeral(v);
    var m := if v < 0 then -v else v;
    SplitUnique(printed);
    SplitUnique(n);
    Text.PrintNatLeads(m / 100);
  }

  /** Reading back a printed amount returns it, for every 64-bit amount except the minimum. */
  lemma RoundTrip(v: int)
    requires Int64.Fits(v)
    ensures Parse(Format(v)) == Ok(v) <==> v != Int64.MIN
    ensures v == Int64.MIN ==> Parse(Format(v)) == Err(InvalidAmount)
  {
    if v == Int64.MIN {
      var t := Format(v);
      assert t[0] == '-' && t[1] == '-' && t[|t| - 1] == '8';
      TrimSpaceIdentity(t);
      var n := Split(t);
      assert t[1..][0] == '-';
      assert n.whole[0] == '-';
    } else {
      var n := FormatNumeral(v);
      var t := n.ToText();
      assert t[|t| - 1] == n.frac[1];
      assert t[0] == if n.sign != "" then n.sign[0] else n.whole[0];
      TrimSpaceIdentity(t);
      ParseGrammar(t);
    }
  }

  /** No two 64-bit amounts print alike. */
  lemma FormatInjective(v: int, w: int)
    requires Int64.Fits(v) && Int64.Fits(w) && Format(v) == Format(w)
    ensures v == w
  {
    RoundTrip(v);
    RoundTrip(w);
  }

  /** The text, trimmed, is this numeral's. */
  predicate Denotes(text: string, n: Numeral) {
    n.Valid() && n.ToText() == TrimSpace(text) != ""
  }

  /** Printing an accepted amount and reading it again changes nothing, unless its cents wrap to the minimum. */
  lemma NormaliseKeepsValue(s: string, n: Numeral)
    requires Denotes(s, n)
    ensures Parse(s).Ok? && (Parse(Format(Parse(s).value)) == Parse(s) <==> Int64.Wrap(n.Cents()) != Int64.MIN)
    ensures Int64.Fits(n.Cents()) && n.Cents() != Int64.MIN ==>
              Parse(s) == Ok(n.Cents()) && Parse(Format(n.Cents())) == Ok(n.Cents())
  {
    hide Parse, Format;
    ParseGrammar(s);
    RoundTrip(Int64.Wrap(n.Cents()));
  }

  /** `parseAmountMinor` (internal/handlers/validation.go): only positive amounts pass. */
  function ParseAmount(raw: string): (r: Result<int, ParseError>)
    ensures r.Ok? ==> 0 < r.value <= Int64.MAX
  {
    ParseGrammar(raw);
    match Parse(raw)
    case Ok(amount) => if amount <= 0 then Err(InvalidAmount) else Ok(amount)
    case Err(_) => Err(InvalidAmount)
  }

  /**
   Exactly the texts of the grammar whose cents are positive, after wrapping to 64 bits, are accepted, at that amount.
   */
  lemma AmountsAccepted(raw: string)
    ensures ParseAmount(raw).Ok? <==> exists n: Numeral :: Denotes(raw, n) && Int64.Wrap(n.Cents()) > 0
    ensures forall n: Numeral | Denotes(raw, n) ::
              ParseAmount(raw) == if Int64.Wrap(n.Cents()) > 0 then Ok(Int64.Wrap(n.Cents())) else Err(InvalidAmount)
  {
    hide Parse, TrimSpace;
    ParseGrammar(raw);
    if ParseAmount(raw).Ok? {
      var n: Numeral :| n.Valid() && n.ToText() == TrimSpace(raw);
      assert Denotes(raw, n);
    }
  }

  /** A sign, a point, or a sign and a point are accepted and mean zero; `parseAmountMinor` is what refuses them. */
  lemma BareSignIsZero(sign: string, point: bool)
    requires sign == "" || sign == "+" || sign == "-"
    requires sign != "" || point
    ensures Parse(sign + (if point then "." else "")) == Ok(0)
    ensures ParseAmount(sign + (if point then "." else "")) == Err(InvalidAmount)
  {
    hide Parse, TrimSpace, FirstPoint;
    var n := Numeral(sign, "", point, "");
    var t := sign + (if point then "." else "");
    assert n.ToText() == t;
    TrimSpaceIdentity(t);
    assert n.Valid() && n.Cents() == 0;
    ParseGrammar(t);
  }
}
