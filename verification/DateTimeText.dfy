/**
 * The date and time texts of `services/sql_type.rs`.  `chrono` is not part of the repository; what is
 * modelled of it here is the format items the source names: `%Y-%m-%d`, `%H:%M:%S`, `%.f`, and the
 * timestamps of section 5.6 of RFC 3339.
 */
module DateTimeText {
  import opened Wrappers
  import opened Digits
  import opened Calendar

  const SECOND: nat := 1_000_000_000
  const MINUTE: nat := 60 * SECOND
  const HOUR: nat := 60 * MINUTE
  const DAY: nat := 24 * HOUR

  /** A `NaiveDateTime`: a date and the nanoseconds since its midnight. */
  datatype Clock = Clock(date: Date, ns: nat)

  // ----- printing

  /** `%Y`: four digits, with a sign outside 0..9999. */
  function YearText(year: int): string {
    if year < 0 then "-" + Fixed(-year, 4)
    else if year > 9999 then "+" + Fixed(year, 4)
    else Fixed(year, 4)
  }

  function DateText(d: Date): string {
    YearText(d.year) + "-" + Fixed(d.month, 2) + "-" + Fixed(d.day, 2)
  }

  /** `%.f`: nothing, or the shortest of 3, 6 and 9 digits that is exact. */
  function FractionText(ns: nat): string {
    if ns == 0 then ""
    else if ns % 1_000_000 == 0 then "." + Fixed(ns / 1_000_000, 3)
    else if ns % 1000 == 0 then "." + Fixed(ns / 1000, 6)
    else "." + Fixed(ns, 9)
  }

  function FieldsText(hour: nat, minute: nat, second: nat, fraction: nat): string {
    Fixed(hour, 2) + ":" + Fixed(minute, 2) + ":" + Fixed(second, 2) + FractionText(fraction)
  }

  function TimeText(ns: nat): string {
    FieldsText(ns / HOUR, ns / MINUTE % 60, ns / SECOND % 60, ns % SECOND)
  }

  function ClockText(c: Clock): string {
    DateText(c.date) + "T" + TimeText(c.ns)
  }

  /** `+HH:MM`. */
  function OffsetText(minutes: int): string {
    var size := if minutes < 0 then -minutes else minutes;
    (if minutes < 0 then "-" else "+") + Fixed(size / 60, 2) + ":" + Fixed(size % 60, 2)
  }

  // ----- scanning

  /** How many leading digits `s` has, counting no further than `max`. */
  function DigitRun(s: string, max: nat): (n: nat)
    ensures n <= |s| && n <= max && AllDigits(s[..n])
  {
    if max == 0 || s == "" || !IsDigit(s[0]) then 0
    else
      var n := DigitRun(s[1..], max - 1);
      assert forall i :: 1 <= i < n + 1 ==> s[i] == s[1..][..n][i - 1];
      n + 1
  }

  /** A number of `min` to `max` digits, as many as there are. */
  function ScanNumber(s: string, min: nat, max: nat): Option<(nat, string)> {
    var n := DigitRun(s, max);
    if n < min then None else Some((Value(s[..n]), s[n..]))
  }

  function Literal(s: string, c: char): Option<string> {
    if s != "" && s[0] == c then Some(s[1..]) else None
  }

  /** RFC 3339 wants exactly four digits; `%Y` takes up to four, or a sign and any number. */
  function ScanYear(s: string, rfc: bool): Option<(int, string)> {
    if rfc then ScanNumber(s, 4, 4)
    else if s != "" && s[0] == '+' then ScanNumber(s[1..], 1, |s|)
    else if s != "" && s[0] == '-' then
      var (year, rest) :- ScanNumber(s[1..], 1, |s|);
      Some((0 - year, rest))
    else ScanNumber(s, 1, 4)
  }

  function ScanTwo(s: string, rfc: bool): Option<(nat, string)> {
    ScanNumber(s, if rfc then 2 else 1, 2)
  }

  function ScanDate(s: string, rfc: bool): Option<(Date, string)> {
    var (year, s1) :- ScanYear(s, rfc);
    var s2 :- Literal(s1, '-');
    var (month, s3) :- ScanTwo(s2, rfc);
    var s4 :- Literal(s3, '-');
    var (day, s5) :- ScanTwo(s4, rfc);
    if ValidDate(Date(year, month, day)) then Some((Date(year, month, day), s5)) else None
  }

  /** `%.f`: optional; at most nine digits count and the rest are skipped. */
  function ScanFraction(s: string): Option<(nat, string)> {
    if s == "" || s[0] != '.' then Some((0, s))
    else
      var n := DigitRun(s[1..], 9);
      if n == 0 then None
      else Some((Value(s[1..][..n]) * Pow10(9 - n), s[1 + DigitRun(s[1..], |s|)..]))
  }

  function ScanMinutes(s: string, rfc: bool): Option<(nat, string)> {
    var (hour, s1) :- ScanTwo(s, rfc);
    var s2 :- Literal(s1, ':');
    var (minute, s3) :- ScanTwo(s2, rfc);
    if hour < 24 && minute < 60 then Some((hour * HOUR + minute * MINUTE, s3)) else None
  }

  function ScanSeconds(s: string, rfc: bool): Option<(nat, string)> {
    var (minutes, s1) :- ScanMinutes(s, rfc);
    var s2 :- Literal(s1, ':');
    var (second, s3) :- ScanTwo(s2, rfc);
    if second < 60 then Some((minutes + second * SECOND, s3)) else None
  }

  function ScanTime(s: string, rfc: bool): Option<(nat, string)> {
    var (seconds, s1) :- ScanSeconds(s, rfc);
    var (fraction, s2) :- ScanFraction(s1);
    Some((seconds + fraction, s2))
  }

  /** RFC 3339 lets its letters be lower case. */
  function Separator(s: string, rfc: bool): Option<string> {
    if rfc && s != "" && s[0] == 't' then Some(s[1..]) else Literal(s, 'T')
  }

  function ScanClock(s: string, rfc: bool): Option<(Clock, string)> {
    var (date, s1) :- ScanDate(s, rfc);
    var s2 :- Separator(s1, rfc);
    var (ns, s3) :- ScanTime(s2, rfc);
    Some((Clock(date, ns), s3))
  }

  function ScanOffset(s: string): Option<(int, string)> {
    if s != "" && (s[0] == 'Z' || s[0] == 'z') then Some((0, s[1..]))
    else if s == "" || (s[0] != '+' && s[0] != '-') then None
    else
      var (hours, s1) :- ScanNumber(s[1..], 2, 2);
      var s2 :- Literal(s1, ':');
      var (minutes, s3) :- ScanNumber(s2, 2, 2);
      if hours >= 24 || minutes >= 60 then None
      else Some((if s[0] == '-' then 0 - (hours * 60 + minutes) else hours * 60 + minutes, s3))
  }

  /** Accepts a scan that used up the whole text. */
  function Whole<T>(scanned: Option<(T, string)>): Option<T> {
    var (value, rest) :- scanned;
    if rest == "" then Some(value) else None
  }

  // ----- what is scanned says what it is read as

  /** A scanned number is the value of the digits it takes off. */
  lemma NumberSays(s: string, min: nat, max: nat) returns (digits: string)
    requires ScanNumber(s, min, max).Some?
    ensures s == digits + ScanNumber(s, min, max).value.1 && AllDigits(digits) && min <= |digits| <= max
    ensures ScanNumber(s, min, max).value.0 == Value(digits)
  {
    digits := s[..DigitRun(s, max)];
  }

  lemma TwoSays(s: string, rfc: bool) returns (digits: string)
    requires ScanTwo(s, rfc).Some?
    ensures s == digits + ScanTwo(s, rfc).value.1 && TwoDigits(digits, rfc)
    ensures ScanTwo(s, rfc).value.0 == Value(digits)
  {
    digits := NumberSays(s, if rfc then 2 else 1, 2);
  }

  /** RFC 3339 wants two digits; the formats also take one. */
  predicate TwoDigits(digits: string, rfc: bool) {
    AllDigits(digits) && (if rfc then |digits| == 2 else 1 <= |digits| <= 2)
  }

  /** What may stand for a year: four digits; for the formats up to four, or a sign and any number. */
  predicate SpellsYear(text: string, year: int, rfc: bool) {
    || (AllDigits(text) && |text| <= 4 && (rfc ==> |text| == 4) && |text| >= 1 && year == Value(text))
    || (!rfc && |text| > 1 && AllDigits(text[1..])
        && ((text[0] == '+' && year == Value(text[1..])) || (text[0] == '-' && year == 0 - Value(text[1..]))))
  }

  lemma YearSays(s: string, rfc: bool) returns (text: string)
    requires ScanYear(s, rfc).Some?
    ensures s == text + ScanYear(s, rfc).value.1 && SpellsYear(text, ScanYear(s, rfc).value.0, rfc)
  {
    hide ScanNumber, Value;
    if !rfc && s != "" && (s[0] == '+' || s[0] == '-') {
      var digits := NumberSays(s[1..], 1, |s|);
      text := [s[0]] + digits;
      assert text[1..] == digits && s == [s[0]] + s[1..];
    } else {
      text := NumberSays(s, if rfc then 4 else 1, 4);
    }
  }

  lemma LiteralSays(s: string, c: char)
    requires Literal(s, c).Some?
    ensures s == [c] + Literal(s, c).value
  {}

  /** A scanned date is one of the calendar, and its text has year, month and day in this order. */
  lemma DateSays(s: string, rfc: bool) returns (year: string, month: string, day: string)
    requires ScanDate(s, rfc).Some?
    ensures var (d, rest) := ScanDate(s, rfc).value;
            && ValidDate(d) && s == year + ("-" + (month + ("-" + (day + rest))))
            && SpellsYear(year, d.year, rfc)
            && TwoDigits(month, rfc) && d.month == Value(month)
            && TwoDigits(day, rfc) && d.day == Value(day)
  {
    hide ScanYear, ScanTwo, Literal, SpellsYear, TwoDigits, Value, ValidDate;
    var s1 := ScanYear(s, rfc).value.1;
    var s2 := Literal(s1, '-').value;
    var s3 := ScanTwo(s2, rfc).value.1;
    var s4 := Literal(s3, '-').value;
    year := YearSays(s, rfc);
    LiteralSays(s1, '-');
    month := TwoSays(s2, rfc);
    LiteralSays(s3, '-');
    day := TwoSays(s4, rfc);
  }

  lemma MinutesSay(s: string, rfc: bool) returns (hour: string, minute: string)
    requires ScanMinutes(s, rfc).Some?
    ensures var (ns, rest) := ScanMinutes(s, rfc).value;
            && s == hour + (":" + (minute + rest)) && TwoDigits(hour, rfc) && TwoDigits(minute, rfc)
            && Value(hour) < 24 && Value(minute) < 60 && ns == Value(hour) * HOUR + Value(minute) * MINUTE
  {
    hide ScanTwo, Literal, TwoDigits, Value;
    var s1 := ScanTwo(s, rfc).value.1;
    hour := TwoSays(s, rfc);
    LiteralSays(s1, ':');
    minute := TwoSays(Literal(s1, ':').value, rfc);
  }

  /** A scanned time of day has hours below 24, and minutes and seconds below 60, in this order. */
  lemma SecondsSay(s: string, rfc: bool) returns (hour: string, minute: string, second: string)
    requires ScanSeconds(s, rfc).Some?
    ensures var (ns, rest) := ScanSeconds(s, rfc).value;
            && s == hour + (":" + (minute + (":" + (second + rest))))
            && TwoDigits(hour, rfc) && TwoDigits(minute, rfc) && TwoDigits(second, rfc)
            && Value(hour) < 24 && Value(minute) < 60 && Value(second) < 60
            && ns == Value(hour) * HOUR + Value(minute) * MINUTE + Value(second) * SECOND
  {
    hide ScanMinutes, ScanTwo, Literal, TwoDigits, Value;
    var s1 := ScanMinutes(s, rfc).value.1;
    hour, minute := MinutesSay(s, rfc);
    LiteralSays(s1, ':');
    second := TwoSays(Literal(s1, ':').value, rfc);
  }

  /** A scanned fraction is absent, or a point and digits of which the first nine count. */
  lemma FractionSays(s: string) returns (digits: string)
    requires ScanFraction(s).Some?
    ensures var (ns, rest) := ScanFraction(s).value;
            && AllDigits(digits) && ns < SECOND
            && (if digits == "" then s == rest && ns == 0
                else s == "." + (digits + rest)
                     && ns == if |digits| >= 9 then Value(digits[..9]) else Value(digits) * Pow10(9 - |digits|))
  {
    if s == "" || s[0] != '.' {
      digits := "";
    } else {
      var tail, n := s[1..], DigitRun(s[1..], 9);
      digits := tail[..DigitRun(tail, |s|)];
      FewerDigits(tail, 9, |s|);
      ValueIsBelow(tail[..n]);
      FractionIsBelow(Value(tail[..n]), n);
      assert s == "." + (digits + s[1 + DigitRun(tail, |s|)..]);
      assert n < 9 ==> tail[..n] == digits;
      assert n == 9 ==> tail[..n] == digits[..9];
    }
  }

  lemma FractionIsBelow(value: nat, n: nat)
    requires n <= 9 && value < Pow10(n)
    ensures value * Pow10(9 - n) < SECOND
  {
    SmallPowers();
    assert Pow10(1) == 10 && Pow10(5) == 100_000 && Pow10(7) == 10_000_000 && Pow10(8) == 100_000_000;
    if {
      case n == 0 =>
      case n == 1 =>
      case n == 2 =>
      case n == 3 =>
      case n == 4 =>
      case n == 5 =>
      case n == 6 =>
      case n == 7 =>
      case n == 8 =>
      case n == 9 =>
    }
  }

  /** Counting no further than `few` finds the same digits, or `few` of them. */
  lemma {:induction false} FewerDigits(s: string, few: nat, many: nat)
    requires few <= many || |s| < many
    ensures DigitRun(s, few) == if DigitRun(s, many) <= few then DigitRun(s, many) else few
    decreases few
  {
    if few > 0 && many > 0 && s != "" && IsDigit(s[0]) {
      FewerDigits(s[1..], few - 1, many - 1);
    }
  }

  /** A scanned offset is zulu, or a sign, hours below 24 and minutes below 60, all of two digits. */
  lemma OffsetSays(s: string) returns (hours: string, minutes: string)
    requires ScanOffset(s).Some?
    ensures var (offset, rest) := ScanOffset(s).value;
            && -1440 < offset < 1440 && s != ""
            && (if s[0] == 'Z' || s[0] == 'z' then offset == 0 && rest == s[1..]
                else
                  && (s[0] == '+' || s[0] == '-') && s == [s[0]] + (hours + (":" + (minutes + rest)))
                  && TwoDigits(hours, true) && TwoDigits(minutes, true) && Value(hours) < 24 && Value(minutes) < 60
                  && offset == (if s[0] == '-' then -1 else 1) * (Value(hours) * 60 + Value(minutes)))
  {
    hide ScanNumber, Literal, Value;
    hours, minutes := "", "";
    if s[0] != 'Z' && s[0] != 'z' {
      var s1 := ScanNumber(s[1..], 2, 2).value.1;
      hours := NumberSays(s[1..], 2, 2);
      LiteralSays(s1, ':');
      minutes := NumberSays(Literal(s1, ':').value, 2, 2);
      assert s == [s[0]] + s[1..];
    }
  }

  lemma TimeIsWithinTheDay(s: string, rfc: bool)
    requires ScanTime(s, rfc).Some?
    ensures ScanTime(s, rfc).value.0 < DAY
  {
    hide ScanSeconds, ScanFraction, Value;
    var hour, minute, second := SecondsSay(s, rfc);
    var digits := FractionSays(ScanSeconds(s, rfc).value.1);
  }

  /** The fraction is printed with the fewest of 0, 3, 6 and 9 digits that are exact. */
  lemma FractionIsShortest(ns: nat)
    requires 0 < ns < SECOND
    ensures FractionText(ns)[0] == '.'
    ensures |FractionText(ns)| == if ns % 1_000_000 == 0 then 4 else if ns % 1000 == 0 then 7 else 10
  {
    SmallPowers();
    if ns % 1_000_000 == 0 {
      FixedRoundTrip(ns / 1_000_000, 3);
    } else if ns % 1000 == 0 {
      FixedRoundTrip(ns / 1000, 6);
    } else {
      FixedRoundTrip(ns, 9);
    }
  }

  // ----- scanning what was printed

  /** `s` cannot lengthen a number printed before it. */
  predicate EndsNumber(s: string) {
    s == "" || !IsDigit(s[0])
  }

  lemma {:induction false} DigitRunStops(digits: string, rest: string, max: nat)
    requires AllDigits(digits) && |digits| <= max && (|digits| == max || EndsNumber(rest))
    ensures DigitRun(digits + rest, max) == |digits|
  {
    if digits == "" {
      assert digits + rest == rest;
    } else {
      assert (digits + rest)[1..] == digits[1..] + rest;
      DigitRunStops(digits[1..], rest, max - 1);
    }
  }

  lemma ScanFixed(n: nat, width: nat, rest: string, min: nat, max: nat)
    requires width > 0 && n < Pow10(width) && min <= width <= max && (width == max || EndsNumber(rest))
    ensures ScanNumber(Fixed(n, width) + rest, min, max) == Some((n, rest))
  {
    FixedRoundTrip(n, width);
    DigitRunStops(Fixed(n, width), rest, max);
    assert (Fixed(n, width) + rest)[..width] == Fixed(n, width);
    assert (Fixed(n, width) + rest)[width..] == rest;
  }

  lemma SmallPowers()
    ensures Pow10(0) == 1 && Pow10(2) == 100 && Pow10(3) == 1000 && Pow10(4) == 10_000
    ensures Pow10(6) == 1_000_000 && Pow10(9) == 1_000_000_000
  {
    assert Pow10(1) == 10 && Pow10(2) == 100;
    assert Pow10(4) == 10_000;
    assert Pow10(5) == 100_000 && Pow10(6) == 1_000_000;
    assert Pow10(7) == 10_000_000 && Pow10(8) == 100_000_000;
  }

  lemma ScanAllDigits(digits: string, rest: string, max: nat)
    requires AllDigits(digits) && 1 <= |digits| <= max && EndsNumber(rest)
    ensures ScanNumber(digits + rest, 1, max) == Some((Value(digits), rest))
  {
    DigitRunStops(digits, rest, max);
    assert (digits + rest)[..|digits|] == digits && (digits + rest)[|digits|..] == rest;
  }

  lemma FixedKeepsValue(n: nat, width: nat)
    ensures AllDigits(Fixed(n, width)) && |Fixed(n, width)| >= 1 && Value(Fixed(n, width)) == n
  {
    PadLeftKeepsValue(ToDecimal(n), width);
    ValueOfDecimal(n);
  }

  lemma ScanSignedYearText(year: int, rest: string)
    requires EndsNumber(rest) && !(0 <= year <= 9999)
    ensures ScanYear(YearText(year) + rest, false) == Some((year, rest))
  {
    hide ScanNumber, Fixed, Value, AllDigits;
    var s, size := YearText(year) + rest, if year < 0 then 0 - year else year;
    var digits := Fixed(size, 4);
    FixedKeepsValue(size, 4);
    assert s[1..] == digits + rest;
    ScanAllDigits(digits, rest, |s|);
  }

  /** `%Y` reads back every year it prints, and RFC 3339 every year of four digits. */
  lemma ScanYearText(year: int, rest: string, rfc: bool)
    requires EndsNumber(rest) && (rfc ==> 0 <= year <= 9999)
    ensures ScanYear(YearText(year) + rest, rfc) == Some((year, rest))
  {
    hide ScanNumber, Fixed;
    if 0 <= year <= 9999 {
      SmallPowers();
      FixedRoundTrip(year, 4);
      assert IsDigit((YearText(year) + rest)[0]);
      ScanFixed(year, 4, rest, if rfc then 4 else 1, 4);
    } else {
      ScanSignedYearText(year, rest);
    }
  }

  lemma DateFieldsAreSmall(d: Date)
    requires ValidDate(d)
    ensures d.month < 100 && d.day < 100
  {}

  lemma ScanDateText(d: Date, rest: string, rfc: bool)
    requires ValidDate(d) && EndsNumber(rest) && (rfc ==> 0 <= d.year <= 9999)
    ensures ScanDate(DateText(d) + rest, rfc) == Some((d, rest))
  {
    hide ScanNumber, ScanTwo, ScanYear, YearText, Fixed, Pow10, ValidDate;
    var s4 := Fixed(d.day, 2) + rest;
    var s3 := "-" + s4;
    var s2 := Fixed(d.month, 2) + s3;
    var s1 := "-" + s2;
    assert DateText(d) + rest == YearText(d.year) + s1;
    DateFieldsAreSmall(d);
    ScanYearText(d.year, s1, rfc);
    ScanTwoDigits(d.month, s3, rfc);
    ScanTwoDigits(d.day, rest, rfc);
    assert s1[1..] == s2 && s3[1..] == s4;
  }

  lemma ScanFractionDigits(n: nat, width: nat, rest: string)
    requires 0 < width <= 9 && n < Pow10(width) && EndsNumber(rest)
    ensures ScanFraction("." + Fixed(n, width) + rest) == Some((n * Pow10(9 - width), rest))
  {
    hide Fixed, DigitRun, Value, Pow10;
    var s := "." + Fixed(n, width) + rest;
    FixedRoundTrip(n, width);
    assert s[1..] == Fixed(n, width) + rest;
    DigitRunStops(Fixed(n, width), rest, 9);
    DigitRunStops(Fixed(n, width), rest, |s|);
    assert s[1..][..width] == Fixed(n, width);
    assert s[1 + width..] == rest;
  }

  lemma NoFraction(rest: string)
    requires rest == "" || rest[0] != '.'
    ensures ScanFraction(rest) == Some((0, rest))
  {}

  lemma ScanFractionText(ns: nat, rest: string)
    requires ns < SECOND && EndsNumber(rest) && (rest == "" || rest[0] != '.')
    ensures ScanFraction(FractionText(ns) + rest) == Some((ns, rest))
  {
    hide ScanFraction, Fixed, Pow10;
    SmallPowers();
    if ns == 0 {
      NoFraction(rest);
      assert FractionText(ns) + rest == rest;
    } else if ns % 1_000_000 == 0 {
      ScanFractionDigits(ns / 1_000_000, 3, rest);
    } else if ns % 1000 == 0 {
      ScanFractionDigits(ns / 1000, 6, rest);
    } else {
      ScanFractionDigits(ns, 9, rest);
    }
  }

  /** Hours, minutes, seconds and fraction make up the nanoseconds again. */
  lemma ClockFields(ns: nat) returns (hour: nat, minute: nat, second: nat, fraction: nat)
    requires ns < DAY
    ensures hour < 24 && minute < 60 && second < 60 && fraction < SECOND
    ensures TimeText(ns) == FieldsText(hour, minute, second, fraction)
    ensures hour * HOUR + minute * MINUTE + second * SECOND + fraction == ns
  {
    hour, minute, second, fraction := ns / HOUR, ns / MINUTE % 60, ns / SECOND % 60, ns % SECOND;
    FieldsAddUp(ns);
  }

  lemma FieldsAddUp(ns: nat)
    requires ns < DAY
    ensures ns / HOUR < 24
    ensures ns / HOUR * HOUR + ns / MINUTE % 60 * MINUTE + ns / SECOND % 60 * SECOND + ns % SECOND == ns
  {
    MinutesOfSeconds(ns);
    HoursOfSeconds(ns);
    SecondsAddUp(ns / SECOND);
    assert ns == ns / SECOND * SECOND + ns % SECOND;
  }

  lemma SecondsAddUp(seconds: nat)
    ensures seconds / 3600 * 3600 + seconds / 60 % 60 * 60 + seconds % 60 == seconds
  {
    assert seconds / 3600 == seconds / 60 / 60;
  }

  lemma MinutesOfSeconds(ns: nat)
    ensures ns / MINUTE == ns / SECOND / 60
  {}

  lemma HoursOfSeconds(ns: nat)
    ensures ns / HOUR == ns / SECOND / 3600
  {}

  lemma ScanExactlyTwo(n: nat, rest: string)
    requires n < 100
    ensures ScanNumber(Fixed(n, 2) + rest, 2, 2) == Some((n, rest))
  {
    SmallPowers();
    ScanFixed(n, 2, rest, 2, 2);
  }

  lemma ScanTwoDigits(n: nat, rest: string, rfc: bool)
    requires n < 100 && EndsNumber(rest)
    ensures ScanTwo(Fixed(n, 2) + rest, rfc) == Some((n, rest))
  {
    SmallPowers();
    ScanFixed(n, 2, rest, if rfc then 2 else 1, 2);
  }

  lemma ScanMinutesText(hour: nat, minute: nat, rest: string, rfc: bool)
    requires hour < 24 && minute < 60 && EndsNumber(rest)
    ensures ScanMinutes(Fixed(hour, 2) + (":" + (Fixed(minute, 2) + rest)), rfc)
         == Some((hour * HOUR + minute * MINUTE, rest))
  {
    var s1 := ":" + (Fixed(minute, 2) + rest);
    hide ScanTwo, Fixed;
    ScanTwoDigits(hour, s1, rfc);
    assert s1[1..] == Fixed(minute, 2) + rest;
    ScanTwoDigits(minute, rest, rfc);
  }

  lemma ScanSecondsText(hour: nat, minute: nat, second: nat, rest: string, rfc: bool)
    requires hour < 24 && minute < 60 && second < 60 && EndsNumber(rest)
    ensures ScanSeconds(Fixed(hour, 2) + ":" + Fixed(minute, 2) + ":" + Fixed(second, 2) + rest, rfc)
         == Some((hour * HOUR + minute * MINUTE + second * SECOND, rest))
  {
    hide ScanTwo, ScanMinutes, Fixed;
    var s3 := ":" + (Fixed(second, 2) + rest);
    ScanMinutesText(hour, minute, s3, rfc);
    assert s3[1..] == Fixed(second, 2) + rest;
    ScanTwoDigits(second, rest, rfc);
    Regroup(Fixed(hour, 2), ":", Fixed(minute, 2), ":", Fixed(second, 2), rest);
  }

  lemma ScanTimeJoins(s: string, s1: string, rest: string, seconds: nat, fraction: nat, rfc: bool)
    requires ScanSeconds(s, rfc) == Some((seconds, s1)) && ScanFraction(s1) == Some((fraction, rest))
    ensures ScanTime(s, rfc) == Some((seconds + fraction, rest))
  {
    hide ScanSeconds, ScanFraction;
  }

  lemma FractionEndsNumber(ns: nat, rest: string)
    requires ns < SECOND && EndsNumber(rest)
    ensures EndsNumber(FractionText(ns) + rest)
  {}

  lemma ScanFieldsText(hour: nat, minute: nat, second: nat, fraction: nat, rest: string, rfc: bool)
    requires hour < 24 && minute < 60 && second < 60 && fraction < SECOND
    requires EndsNumber(rest) && (rest == "" || rest[0] != '.')
    ensures ScanTime(FieldsText(hour, minute, second, fraction) + rest, rfc)
         == Some((hour * HOUR + minute * MINUTE + second * SECOND + fraction, rest))
  {
    hide ScanTime, ScanSeconds, ScanFraction, FractionText, Fixed;
    var clock, tail := Fixed(hour, 2) + ":" + Fixed(minute, 2) + ":" + Fixed(second, 2), FractionText(fraction) + rest;
    FractionEndsNumber(fraction, rest);
    ScanSecondsText(hour, minute, second, tail, rfc);
    ScanFractionText(fraction, rest);
    ScanTimeJoins(clock + tail, tail, rest, hour * HOUR + minute * MINUTE + second * SECOND, fraction, rfc);
    RegroupTail(clock, FractionText(fraction), rest);
  }

  lemma ScanTimeText(ns: nat, rest: string, rfc: bool)
    requires ns < DAY && EndsNumber(rest) && (rest == "" || rest[0] != '.')
    ensures ScanTime(TimeText(ns) + rest, rfc) == Some((ns, rest))
  {
    hide ScanTime, TimeText, FieldsText;
    var hour, minute, second, fraction := ClockFields(ns);
    ScanFieldsText(hour, minute, second, fraction, rest, rfc);
  }

  lemma RegroupTail(a: string, b: string, c: string)
    ensures a + b + c == a + (b + c)
  {}

  lemma Regroup(a: string, b: string, c: string, d: string, e: string, f: string)
    ensures a + b + c + d + e + f == a + (b + (c + (d + (e + f))))
  {}

  lemma ScanClockText(c: Clock, rest: string, rfc: bool)
    requires ValidDate(c.date) && c.ns < DAY && (rfc ==> 0 <= c.date.year <= 9999)
    requires EndsNumber(rest) && (rest == "" || rest[0] != '.')
    ensures ScanClock(ClockText(c) + rest, rfc) == Some((c, rest))
  {
    hide ScanDate, ScanTime, DateText, TimeText, ValidDate;
    var s1 := "T" + (TimeText(c.ns) + rest);
    assert ClockText(c) + rest == DateText(c.date) + s1;
    ScanDateText(c.date, s1, rfc);
    ScanTimeText(c.ns, rest, rfc);
    assert s1[1..] == TimeText(c.ns) + rest;
  }

  lemma ScanOffsetFields(sign: char, hours: nat, minutes: nat)
    requires (sign == '+' || sign == '-') && hours < 24 && minutes < 60
    ensures ScanOffset([sign] + Fixed(hours, 2) + ":" + Fixed(minutes, 2))
         == Some((if sign == '-' then 0 - (hours * 60 + minutes) else hours * 60 + minutes, ""))
  {
    hide Fixed, ScanNumber, ScanTwo, Pow10;
    var s := [sign] + Fixed(hours, 2) + ":" + Fixed(minutes, 2);
    var s1 := ":" + (Fixed(minutes, 2) + "");
    assert s[1..] == Fixed(hours, 2) + s1;
    assert s1[1..] == Fixed(minutes, 2) + "";
    ScanExactlyTwo(hours, s1);
    ScanExactlyTwo(minutes, "");
  }

  lemma ScanOffsetText(minutes: int)
    requires -1440 < minutes < 1440
    ensures ScanOffset(OffsetText(minutes)) == Some((minutes, ""))
  {
    hide Fixed, ScanOffset;
    var size := if minutes < 0 then 0 - minutes else minutes;
    ScanOffsetFields(if minutes < 0 then '-' else '+', size / 60, size % 60);
  }
}
