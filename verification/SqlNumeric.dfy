/**
 * Exact decimals in `services/sql_type.rs`: `parse_numeric` and `format_numeric` convert between text
 * and an `i128` scaled by a power of ten, without floating point.
 */
module SqlNumeric {
  import opened Wrappers
  import opened Digits
  import opened Text

  const I128_LIMIT: int := 0x8000_0000_0000_0000_0000_0000_0000_0000

  type I128 = n: int | -I128_LIMIT <= n < I128_LIMIT

  /** `tiberius::numeric::Numeric`, of which the source uses the two components only. */
  datatype Numeric = Numeric(value: I128, scale: nat)

  datatype NumericError = TooManyFractionDigits | NotAnInteger

  // ----- the library functions the source calls

  /** `str::len`, in UTF-8 bytes. */
  function ByteLength(s: string): nat {
    if s == "" then 0
    else
      var u := s[0] as int;
      (if u < 0x80 then 1 else if u < 0x800 then 2 else if u < 0x1_0000 then 3 else 4) + ByteLength(s[1..])
  }

  /** `str::parse::<i128>`: an optional sign, at least one digit, and no overflow. */
  function ParseI128(s: string): Option<I128> {
    var (negative, digits) :=
      if s != "" && s[0] == '-' then (true, s[1..])
      else if s != "" && s[0] == '+' then (false, s[1..])
      else (false, s);
    if digits == "" || !AllDigits(digits) then None
    else if negative then (if Value(digits) <= I128_LIMIT then Some(0 - Value(digits)) else None)
    else (if Value(digits) < I128_LIMIT then Some(Value(digits)) else None)
  }

  function UnsignedAbs(n: int): nat {
    if n < 0 then 0 - n else n
  }

  /** `i128` multiplication as a release build does it. */
  function WrapI128(n: int): I128 {
    (n + I128_LIMIT) % (2 * I128_LIMIT) - I128_LIMIT
  }

  // ----- the two conversions

  function ParseNumeric(text: string, scale: nat): Result<Numeric, NumericError> {
    var trimmed := Trim(text);
    var (sign, unsigned) :=
      if trimmed != "" && trimmed[0] == '-' then (-1, trimmed[1..])
      else (1, if trimmed != "" && trimmed[0] == '+' then trimmed[1..] else trimmed);
    var (intPart, fracPart) := match SplitOnce(unsigned, '.') case Some(parts) => parts case None => (unsigned, "");
    ParseParts(sign, intPart, fracPart, scale)
  }

  /** `parse_numeric` from the point where sign, integer part and fraction have been split. */
  function ParseParts(sign: int, intPart: string, fracPart: string, scale: nat): Result<Numeric, NumericError> {
    if ByteLength(fracPart) > scale then Err(TooManyFractionDigits)
    else
      var digits := intPart + PadRight(fracPart, scale);
      if digits == "" then Ok(Numeric(0, scale))
      else match ParseI128(digits)
        case None => Err(NotAnInteger)
        case Some(unscaled) => Ok(Numeric(WrapI128(sign * unscaled), scale))
  }

  function FormatNumeric(n: Numeric): string {
    var digits := ToDecimal(UnsignedAbs(n.value));
    var body :=
      if n.scale == 0 then digits
      else
        var padded := PadLeft(digits, n.scale + 1);
        var splitAt := |padded| - n.scale;
        padded[..splitAt] + "." + padded[splitAt..];
    if n.value < 0 then "-" + body else body
  }

  // ----- what decimal text denotes

  datatype Sign = Unsigned | Plus | Minus

  /** A plain decimal: an optional sign, digits, and optionally a point with more digits. */
  datatype Decimal = Decimal(sign: Sign, intDigits: string, fracDigits: Option<string>) {
    function Fraction(): string {
      match fracDigits case None => "" case Some(f) => f
    }

    predicate WellFormed() {
      AllDigits(intDigits) && AllDigits(Fraction())
    }

    function SignText(): string {
      match sign case Unsigned => "" case Plus => "+" case Minus => "-"
    }

    function Spelled(): string {
      SignText() + intDigits + match fracDigits case None => "" case Some(f) => "." + f
    }

    /** The absolute value times 10^scale. */
    function Magnitude(scale: nat): nat
      requires WellFormed() && |Fraction()| <= scale
    {
      Value(intDigits) * Pow10(scale) + Value(Fraction()) * Pow10(scale - |Fraction()|)
    }

    /** The value times 10^scale. */
    function Scaled(scale: nat): int
      requires WellFormed() && |Fraction()| <= scale
    {
      if sign == Minus then 0 - Magnitude(scale) else Magnitude(scale)
    }
  }

  predicate Blank(s: string) {
    forall i :: 0 <= i < |s| ==> IsWhitespace(s[i])
  }

  predicate Solid(s: string) {
    forall i :: 0 <= i < |s| ==> !IsWhitespace(s[i])
  }

  lemma {:induction false} TrimStartDropsBlank(blank: string, rest: string)
    requires Blank(blank)
    ensures TrimStart(blank + rest) == TrimStart(rest)
  {
    if blank == "" {
      assert blank + rest == rest;
    } else {
      assert (blank + rest)[1..] == blank[1..] + rest;
      TrimStartDropsBlank(blank[1..], rest);
    }
  }

  lemma {:induction false} TrimEndDropsBlank(rest: string, blank: string)
    requires Blank(blank)
    ensures TrimEnd(rest + blank) == TrimEnd(rest)
  {
    if blank == "" {
      assert rest + blank == rest;
    } else {
      assert (rest + blank)[..|rest + blank| - 1] == rest + blank[..|blank| - 1];
      TrimEndDropsBlank(rest, blank[..|blank| - 1]);
    }
  }

  lemma TrimStripsBlanks(before: string, s: string, after: string)
    requires Blank(before) && Solid(s) && Blank(after)
    ensures Trim(before + s + after) == s
  {
    assert before + s + after == before + (s + after);
    TrimStartDropsBlank(before, s + after);
    if s == "" {
      assert s + after == after + "";
      TrimStartDropsBlank(after, "");
    } else {
      assert (s + after)[0] == s[0];
      TrimEndDropsBlank(s, after);
    }
  }

  lemma {:induction false} DigitsAreBytes(s: string)
    requires AllDigits(s)
    ensures ByteLength(s) == |s|
  {
    if s != "" {
      DigitsAreBytes(s[1..]);
    }
  }

  lemma PadRightScales(s: string, width: nat)
    requires AllDigits(s) && |s| <= width
    ensures AllDigits(PadRight(s, width)) && |PadRight(s, width)| == width
    ensures Value(PadRight(s, width)) == Value(s) * Pow10(width - |s|)
  {
    if |s| < width {
      ValueOfZeros(width - |s|);
      ValueConcat(s, Zeros(width - |s|));
    }
  }

  /** `int_part` followed by the padded fraction denotes the magnitude. */
  lemma PaddedDigitsDenote(d: Decimal, scale: nat)
    requires d.WellFormed() && |d.Fraction()| <= scale
    ensures var digits := d.intDigits + PadRight(d.Fraction(), scale);
            AllDigits(digits) && Value(digits) == d.Magnitude(scale)
  {
    PadRightScales(d.Fraction(), scale);
    ValueConcat(d.intDigits, PadRight(d.Fraction(), scale));
  }

  /** How the source takes a spelled decimal apart again. */
  lemma SpellingSplits(d: Decimal)
    requires d.WellFormed()
    ensures Solid(d.Spelled())
    ensures var body := d.Spelled()[|d.SignText()|..];
            && (body == "" || (body[0] != '-' && body[0] != '+'))
            && (match SplitOnce(body, '.') case Some(parts) => parts case None => (body, ""))
                 == (d.intDigits, d.Fraction())
  {
    hide SplitOnce;
    var body := d.Spelled()[|d.SignText()|..];
    match d.fracDigits
    case None =>
      assert body == d.intDigits;
      SplitOnceFindsNone(body, '.');
    case Some(f) =>
      assert body == d.intDigits + ['.'] + f;
      SplitOnceFindsFirst(d.intDigits, '.', f);
  }

  /** The outcome for a plain decimal: the exact scaled value, or the error it meets first. */
  function Exactly(d: Decimal, scale: nat): Result<Numeric, NumericError>
    requires d.WellFormed()
  {
    if |d.Fraction()| > scale then Err(TooManyFractionDigits)
    else if d.Magnitude(scale) >= I128_LIMIT then Err(NotAnInteger)
    else Ok(Numeric(d.Scaled(scale), scale))
  }

  lemma WrapKeepsI128(n: int)
    requires -I128_LIMIT <= n < I128_LIMIT
    ensures WrapI128(n) == n
  {}

  lemma ParseOfDigits(digits: string)
    requires AllDigits(digits) && digits != ""
    ensures ParseI128(digits) == if Value(digits) < I128_LIMIT then Some(Value(digits)) else None
  {
    assert IsDigit(digits[0]);
  }

  lemma PartsAreExact(d: Decimal, scale: nat)
    requires d.WellFormed()
    ensures ParseParts(if d.sign == Minus then -1 else 1, d.intDigits, d.Fraction(), scale) == Exactly(d, scale)
  {
    DigitsAreBytes(d.Fraction());
    if |d.Fraction()| <= scale {
      var digits := d.intDigits + PadRight(d.Fraction(), scale);
      PaddedDigitsDenote(d, scale);
      DigitsScale(digits, d.Magnitude(scale), d.sign == Minus, scale);
    }
  }

  /** The end of `ParseParts` on a digit string. */
  lemma DigitsScale(digits: string, magnitude: nat, negative: bool, scale: nat)
    requires AllDigits(digits) && Value(digits) == magnitude
    ensures digits == "" ==> magnitude == 0
    ensures digits != "" && magnitude >= I128_LIMIT ==> ParseI128(digits) == None
    ensures digits != "" && magnitude < I128_LIMIT ==>
      ParseI128(digits) == Some(magnitude)
      && WrapI128((if negative then -1 else 1) * magnitude) == if negative then 0 - magnitude else magnitude
  {
    if digits != "" {
      ParseOfDigits(digits);
      if magnitude < I128_LIMIT {
        WrapKeepsI128(if negative then 0 - magnitude else magnitude);
      }
    }
  }

  /**
   * `parse_numeric` is exact on every plain decimal, blanks around it allowed: it yields the value times
   * 10^scale when the fraction fits the scale and the result fits an `i128`, and an error otherwise.
   */
  lemma ParseIsExact(before: string, d: Decimal, after: string, scale: nat)
    requires Blank(before) && Blank(after) && d.WellFormed()
    ensures ParseNumeric(before + d.Spelled() + after, scale) == Exactly(d, scale)
  {
    SpellingSplits(d);
    TrimStripsBlanks(before, d.Spelled(), after);
    PartsAreExact(d, scale);
    assert d.sign == Unsigned ==> d.Spelled()[0..] == d.Spelled();
    assert d.sign != Unsigned ==> d.Spelled()[0] == d.SignText()[0];
  }

  predicate IsSign(c: char) {
    c == '-' || c == '+'
  }

  /** The decimal a text spells if it spells one: its first sign, and what stands before and after its first point. */
  function Dissected(text: string): Decimal {
    var sign := if text != "" && text[0] == '-' then Minus else if text != "" && text[0] == '+' then Plus else Unsigned;
    var unsigned := if sign == Unsigned then text else text[1..];
    match SplitOnce(unsigned, '.')
    case None => Decimal(sign, unsigned, None)
    case Some((intDigits, fraction)) => Decimal(sign, intDigits, Some(fraction))
  }

  lemma DissectedSpells(text: string)
    ensures Dissected(text).Spelled() == text
  {
    hide SplitOnce;
    var d := Dissected(text);
    var unsigned := if d.sign == Unsigned then text else text[1..];
    SplitOnceJoins(unsigned, '.');
    assert text == d.SignText() + unsigned;
    match d.fracDigits
    case None => assert d.intDigits + "" == unsigned;
    case Some(f) => SignStaysInFront(d.SignText(), d.intDigits, f);
  }

  lemma SignStaysInFront(sign: string, intDigits: string, fraction: string)
    ensures sign + intDigits + ("." + fraction) == sign + (intDigits + "." + fraction)
  {}

  lemma ParseOfDissected(text: string, scale: nat)
    ensures var d := Dissected(Trim(text));
            ParseNumeric(text, scale) == ParseParts(if d.sign == Minus then -1 else 1, d.intDigits, d.Fraction(), scale)
  {
    hide ParseParts, SplitOnce, Trim;
  }

  /** Digits without a sign among them are read only if all of them are digits. */
  lemma OnlyDigitsAreRead(sign: int, intPart: string, fracPart: string, scale: nat)
    requires ParseParts(sign, intPart, fracPart, scale).Ok?
    requires forall c :: c in intPart || c in fracPart ==> !IsSign(c)
    ensures AllDigits(intPart) && AllDigits(fracPart)
  {
    hide ByteLength, Value;
    var padded := PadRight(fracPart, scale);
    var digits := intPart + padded;
    assert fracPart <= padded;
    if digits == "" {
      assert intPart == "" && fracPart == "";
    } else {
      FirstIsNoSign(intPart, fracPart, scale);
      assert AllDigits(digits);
      assert forall i :: 0 <= i < |intPart| ==> intPart[i] == digits[i];
      assert forall i :: 0 <= i < |fracPart| ==> fracPart[i] == digits[|intPart| + i];
    }
  }

  lemma FirstIsNoSign(intPart: string, fracPart: string, scale: nat)
    requires forall c :: c in intPart || c in fracPart ==> !IsSign(c)
    requires intPart + PadRight(fracPart, scale) != ""
    ensures !IsSign((intPart + PadRight(fracPart, scale))[0])
  {
    var padded := PadRight(fracPart, scale);
    if intPart != "" {
      assert intPart[0] in intPart;
    } else if fracPart != "" {
      assert padded[0] == fracPart[0] && fracPart[0] in fracPart;
    }
  }

  /**
   * And nothing else is read: a text with no sign but its first character that `parse_numeric` accepts is a
   * plain decimal with blanks around it, and is read as exactly that.
   */
  lemma OnlyDecimalsAreRead(text: string, scale: nat)
    requires forall i :: 1 <= i < |Trim(text)| ==> !IsSign(Trim(text)[i])
    requires ParseNumeric(text, scale).Ok?
    ensures var d := Dissected(Trim(text));
            && Trim(text) == d.Spelled() && d.WellFormed()
            && ParseNumeric(text, scale) == Exactly(d, scale)
  {
    hide Trim, ParseNumeric, ParseParts, SplitOnce;
    var trimmed := Trim(text);
    var d := Dissected(trimmed);
    DissectedSpells(trimmed);
    ParseOfDissected(text, scale);
    DissectedHasNoSigns(trimmed);
    OnlyDigitsAreRead(if d.sign == Minus then -1 else 1, d.intDigits, d.Fraction(), scale);
    PartsAreExact(d, scale);
  }

  lemma DissectedHasNoSigns(text: string)
    requires forall i :: 1 <= i < |text| ==> !IsSign(text[i])
    ensures forall c :: c in Dissected(text).intDigits || c in Dissected(text).Fraction() ==> !IsSign(c)
  {
    var d := Dissected(text);
    var unsigned := if d.sign == Unsigned then text else text[1..];
    assert forall i :: 0 <= i < |unsigned| ==> !IsSign(unsigned[i]);
    SplitOnceJoins(unsigned, '.');
    assert forall c :: c in d.intDigits || c in d.Fraction() ==> c in unsigned;
  }

  /** `integer digits + scale <= 38` never overflows. */
  lemma PrecisionFitsI128(d: Decimal, scale: nat)
    requires d.WellFormed() && |d.Fraction()| <= scale && |d.intDigits| + scale <= 38
    ensures d.Magnitude(scale) < I128_LIMIT
  {
    PaddedDigitsDenote(d, scale);
    var digits := d.intDigits + PadRight(d.Fraction(), scale);
    PadRightScales(d.Fraction(), scale);
    ValueIsBelow(digits);
    Pow10IsMonotone(|digits|, 38);
    Pow10Of38();
  }

  lemma {:induction false} Pow10Adds(m: nat, n: nat)
    ensures Pow10(m + n) == Pow10(m) * Pow10(n)
  {
    if n > 0 {
      Pow10Adds(m, n - 1);
      assert Pow10(m) * Pow10(n - 1) * 10 == Pow10(m) * Pow10(n);
    }
  }

  lemma Pow10Of16()
    ensures Pow10(16) == 10_000_000_000_000_000
  {
    assert Pow10(1) == 10 && Pow10(2) == 100;
    Pow10Adds(2, 2);
    Pow10Adds(4, 4);
    Pow10Adds(8, 8);
  }

  lemma Pow10Of38()
    ensures Pow10(38) == 100_000_000_000_000_000_000_000_000_000_000_000_000 < I128_LIMIT
  {
    Pow10Of16();
    Pow10Adds(16, 16);
    assert Pow10(33) == Pow10(32) * 10 && Pow10(34) == Pow10(33) * 10 && Pow10(35) == Pow10(34) * 10;
    assert Pow10(36) == Pow10(35) * 10 && Pow10(37) == Pow10(36) * 10;
  }

  /** The decimal `format_numeric` spells. */
  function Canonical(n: Numeric): Decimal {
    var digits := ToDecimal(UnsignedAbs(n.value));
    var padded := PadLeft(digits, n.scale + 1);
    var splitAt := if n.scale == 0 then |digits| else |padded| - n.scale;
    var sign := if n.value < 0 then Minus else Unsigned;
    if n.scale == 0 then Decimal(sign, digits, None)
    else Decimal(sign, padded[..splitAt], Some(padded[splitAt..]))
  }

  /** Cutting the last `scale` digits off splits the value at 10^scale. */
  lemma CutSplitsValue(digits: string, scale: nat)
    requires AllDigits(digits) && |digits| >= scale
    ensures var (intDigits, fraction) := (digits[..|digits| - scale], digits[|digits| - scale..]);
            && AllDigits(intDigits) && AllDigits(fraction)
            && Value(intDigits) * Pow10(scale) + Value(fraction) == Value(digits)
  {
    hide Value, Pow10;
    var intDigits, fraction := digits[..|digits| - scale], digits[|digits| - scale..];
    assert intDigits + fraction == digits;
    ValueConcat(intDigits, fraction);
  }

  lemma MagnitudeAtFullScale(d: Decimal, scale: nat)
    requires d.WellFormed() && |d.Fraction()| == scale
    ensures d.Magnitude(scale) == Value(d.intDigits) * Pow10(scale) + Value(d.Fraction())
  {
    assert Pow10(scale - |d.Fraction()|) == 1;
  }

  lemma CanonicalInteger(n: Numeric)
    requires n.scale == 0
    ensures Canonical(n).WellFormed() && Canonical(n).Magnitude(0) == UnsignedAbs(n.value)
  {
    ValueOfDecimal(UnsignedAbs(n.value));
    MagnitudeAtFullScale(Canonical(n), 0);
    assert Pow10(0) == 1 && Value("") == 0;
  }

  lemma PaddedValue(magnitude: nat, width: nat)
    ensures var padded := PadLeft(ToDecimal(magnitude), width);
            AllDigits(padded) && Value(padded) == magnitude && |padded| >= width
  {
    ValueOfDecimal(magnitude);
    PadLeftKeepsValue(ToDecimal(magnitude), width);
  }

  lemma CanonicalFraction(n: Numeric)
    requires n.scale > 0
    ensures var d := Canonical(n);
            d.WellFormed() && |d.Fraction()| == n.scale && d.Magnitude(n.scale) == UnsignedAbs(n.value)
  {
    hide UnsignedAbs, ToDecimal, PadLeft, Value, AllDigits, Pow10;
    var d, padded := Canonical(n), PadLeft(ToDecimal(UnsignedAbs(n.value)), n.scale + 1);
    PaddedValue(UnsignedAbs(n.value), n.scale + 1);
    CutSplitsValue(padded, n.scale);
    assert d.intDigits == padded[..|padded| - n.scale] && d.Fraction() == padded[|padded| - n.scale..];
    MagnitudeAtFullScale(d, n.scale);
  }

  lemma CanonicalLeadingDigit(n: Numeric)
    ensures var intDigits := Canonical(n).intDigits;
            |intDigits| >= 1 && (intDigits[0] == '0' ==> |intDigits| == 1)
  {
    ValueOfDecimal(UnsignedAbs(n.value));
  }

  /**
   * The text of `format_numeric` denotes exactly value / 10^scale, with exactly `scale` fraction digits
   * (and no point for scale 0), at least one integer digit, no superfluous leading zero, and a minus
   * sign only on negative values.
   */
  lemma FormatDenotesValue(n: Numeric)
    ensures var d := Canonical(n);
            && FormatNumeric(n) == d.Spelled() && d.WellFormed()
            && |d.Fraction()| == n.scale && (d.fracDigits.None? <==> n.scale == 0)
            && d.Scaled(n.scale) == n.value
            && |d.intDigits| >= 1 && (d.intDigits[0] == '0' ==> |d.intDigits| == 1)
            && d.sign == if n.value < 0 then Minus else Unsigned
  {
    if n.scale == 0 {
      CanonicalInteger(n);
    } else {
      CanonicalFraction(n);
    }
    CanonicalLeadingDigit(n);
    FormatIsCanonicalSpelling(n);
  }

  lemma FormatIsCanonicalSpelling(n: Numeric)
    ensures FormatNumeric(n) == Canonical(n).Spelled()
  {
    var d := Canonical(n);
    if n.scale > 0 {
      var padded := PadLeft(ToDecimal(UnsignedAbs(n.value)), n.scale + 1);
      assert d.intDigits + "." + d.Fraction() == padded[..|padded| - n.scale] + "." + padded[|padded| - n.scale..];
      assert d.Spelled() == d.SignText() + (d.intDigits + "." + d.Fraction());
    } else {
      assert d.Spelled() == d.SignText() + d.intDigits;
    }
  }

  /** Reading back what was printed gives the same number, for every `i128` except its minimum. */
  lemma RoundTripIffNotMinimum(n: Numeric)
    ensures ParseNumeric(FormatNumeric(n), n.scale) == Ok(n) <==> n.value != -I128_LIMIT
  {
    var d := Canonical(n);
    FormatDenotesValue(n);
    assert "" + d.Spelled() + "" == d.Spelled();
    ParseIsExact("", d, "", n.scale);
  }

  /** Printing is canonical: parse, print, parse, print gives the first print again. */
  lemma FormatAfterParseIsIdempotent(before: string, d: Decimal, after: string, scale: nat)
    requires Blank(before) && Blank(after) && d.WellFormed()
    requires |d.Fraction()| <= scale && d.Magnitude(scale) < I128_LIMIT
    ensures ParseNumeric(before + d.Spelled() + after, scale).Ok?
    ensures var text := FormatNumeric(ParseNumeric(before + d.Spelled() + after, scale).value);
            && ParseNumeric(text, scale).Ok?
            && FormatNumeric(ParseNumeric(text, scale).value) == text
  {
    ParseIsExact(before, d, after, scale);
    RoundTripIffNotMinimum(ParseNumeric(before + d.Spelled() + after, scale).value);
  }
}
