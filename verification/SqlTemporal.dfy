/**
 * Temporal cells in `services/sql_type.rs`: `temporal_to_json` renders what the wire carries, and
 * `parse_naive_time`, `parse_naive_datetime` and the date and `datetimeoffset` bindings read text back.
 */
module SqlTemporal {
  import opened Wrappers
  import opened Digits
  import opened Calendar
  import opened DateTimeText

  const I64_LIMIT: nat := 0x8000_0000_0000_0000

  type U64 = n: nat | n < 2 * I64_LIMIT
  type U32 = n: nat | n < 0x1_0000_0000

  /** Fraction digits of a time column; the wire goes up to 7, the arithmetic works up to 9. */
  type Scale = n: nat | n <= 9

  /** Minutes east of UTC that `FixedOffset` accepts. */
  type Offset = n: int | -1440 < n < 1440

  datatype Cell =
    | DateCell(days: int)
    | TimeCell(increments: U64, scale: Scale)
    | SmallDateTimeCell(days: int, minutes: U32)
    | DateTimeCell(days: int, ticks: U32)
    | DateTime2Cell(days: int, increments: U64, scale: Scale)
    | DateTimeOffsetCell(days: int, increments: U64, scale: Scale, offset: Offset)

  function WrapI64(n: int): int {
    (n + I64_LIMIT) % (2 * I64_LIMIT) - I64_LIMIT
  }

  function DaysToDate(days: int, startYear: int): (d: Date)
    ensures ValidDate(d)
  {
    AddDays(NewYear(startYear), days)
  }

  /** `increments as i64 * 10i64.pow(9 - scale)` added to midnight, which wraps at 24 hours. */
  function TimeOfDay(increments: U64, scale: Scale): nat {
    WrapI64(WrapI64(increments) * Pow10(9 - scale)) % DAY
  }

  /** Nanoseconds of 1/300 s ticks, truncated. */
  function TickNs(ticks: U32): nat {
    ticks * 1_000_000_000 / 300
  }

  /** The clock `minutes` later. */
  function Shift(c: Clock, minutes: int): Clock
    requires ValidDate(c.date)
  {
    var total := c.ns + minutes * MINUTE;
    Clock(AddDays(c.date, total / DAY), total % DAY)
  }

  function OffsetClockText(utc: Clock, offset: int): string
    requires ValidDate(utc.date)
  {
    ClockText(Shift(utc, offset)) + OffsetText(offset)
  }

  function TemporalText(cell: Cell): string {
    match cell
    case DateCell(days) => DateText(DaysToDate(days, 1))
    case TimeCell(increments, scale) => TimeText(TimeOfDay(increments, scale))
    case SmallDateTimeCell(days, minutes) =>
      var ns := minutes * MINUTE % DAY;
      DateText(DaysToDate(days, 1900)) + "T" + FieldsText(ns / HOUR, ns / MINUTE % 60, ns / SECOND % 60, 0)
    case DateTimeCell(days, ticks) => ClockText(Clock(DaysToDate(days, 1900), TickNs(ticks) % DAY))
    case DateTime2Cell(days, increments, scale) => ClockText(Clock(DaysToDate(days, 1), TimeOfDay(increments, scale)))
    case DateTimeOffsetCell(days, increments, scale, offset) =>
      OffsetClockText(Clock(DaysToDate(days, 1), TimeOfDay(increments, scale)), offset)
  }

  // ----- reading text for binding

  function ParseDate(s: string): Option<Date> {
    Whole(ScanDate(s, false))
  }

  /** The three formats in turn. */
  function ParseNaiveTime(s: string): Option<nat> {
    match Whole(ScanTime(s, false))
    case Some(ns) => Some(ns)
    case None =>
      match Whole(ScanSeconds(s, false))
      case Some(ns) => Some(ns)
      case None => Whole(ScanMinutes(s, false))
  }

  /** The UTC clock and the offset of an RFC 3339 timestamp. */
  function ParseRfc3339(s: string): Option<(Clock, int)> {
    AtOffset(ScanClock(s, true))
  }

  /** The instant of a scanned local clock with its offset still to come. */
  function AtOffset(scanned: Option<(Clock, string)>): Option<(Clock, int)> {
    var (local, rest) :- scanned;
    var offset :- Whole(ScanOffset(rest));
    if ValidDate(local.date) then Some((Shift(local, -offset), offset)) else None
  }

  function ParseNaiveDatetime(s: string): Option<Clock> {
    match Whole(ScanClock(s, false))
    case Some(c) => Some(c)
    case None =>
      match ParseRfc3339(s)
      case Some((utc, _)) => Some(utc)
      case None => None
  }

  // ----- days

  /**
   * Any day number, from any epoch year, renders to a text that reads back as the same date, and that
   * date lies exactly that many days from the epoch.
   */
  lemma DateTextKeepsTheDay(days: int, startYear: int)
    ensures ParseDate(DateText(DaysToDate(days, startYear))) == Some(DaysToDate(days, startYear))
    ensures DayNumber(DaysToDate(days, startYear)) - DayNumber(NewYear(startYear)) == days
  {
    var d := DaysToDate(days, startYear);
    ScanDateText(d, "", false);
    assert DateText(d) + "" == DateText(d);
    AddDaysMovesDayNumber(NewYear(startYear), days);
  }

  /** The 1900 epoch is 693,595 days after the epoch of year 1. */
  lemma EpochsAreAFixedGapApart(days: int)
    ensures DaysToDate(days, 1900) == DaysToDate(days + 693_595, 1)
  {
    AddDaysMovesDayNumber(NewYear(1900), days);
    AddDaysMovesDayNumber(NewYear(1), days + 693_595);
    DayNumberIsInjective(DaysToDate(days, 1900), DaysToDate(days + 693_595, 1));
  }

  /** Different day numbers never share a text. */
  lemma DateTextIsInjective(m: int, n: int, startYear: int)
    requires DateText(DaysToDate(m, startYear)) == DateText(DaysToDate(n, startYear))
    ensures m == n
  {
    DateTextKeepsTheDay(m, startYear);
    DateTextKeepsTheDay(n, startYear);
  }

  // ----- ticks and increments

  /** The tick can be read back from the truncated nanoseconds. */
  lemma TickIsRecoverable(ticks: U32)
    ensures (TickNs(ticks) * 300 + 999_999_999) / 1_000_000_000 == ticks
  {}

  /** The nanoseconds are the largest whole number within the tick's time. */
  lemma TickIsTruncated(ticks: U32)
    ensures TickNs(ticks) * 300 <= ticks * 1_000_000_000 < (TickNs(ticks) + 1) * 300
  {}

  lemma TicksAreIncreasing(early: U32, late: U32)
    requires early < late
    ensures TickNs(early) < TickNs(late)
  {}

  /** Ticks stay within one day exactly below 300 * 86,400. */
  lemma TicksWithinTheDay(ticks: U32)
    ensures TickNs(ticks) < DAY <==> ticks < 25_920_000
  {}

  lemma ScaleSplits(scale: Scale)
    ensures Pow10(scale) * Pow10(9 - scale) == 1_000_000_000
  {
    SmallPowers();
    assert Pow10(1) == 10 && Pow10(5) == 100_000 && Pow10(7) == 10_000_000 && Pow10(8) == 100_000_000;
    if {
      case scale == 0 =>
      case scale == 1 =>
      case scale == 2 =>
      case scale == 3 =>
      case scale == 4 =>
      case scale == 5 =>
      case scale == 6 =>
      case scale == 7 =>
      case scale == 8 =>
      case scale == 9 =>
    }
  }

  lemma ModDay(n: int)
    ensures 0 <= n % DAY < DAY
    ensures 0 <= n < DAY ==> n % DAY == n
  {}

  lemma SmallProductsDoNotWrap(increments: U64, scale: Scale)
    requires increments * Pow10(9 - scale) < DAY
    ensures TimeOfDay(increments, scale) == increments * Pow10(9 - scale)
  {
    var product := increments * Pow10(9 - scale);
    ScaledAtLeast(Pow10(9 - scale), 1, increments);
    assert WrapI64(increments) == increments && WrapI64(product) == product;
    ModDay(product);
  }

  /**
   * The `time_of_day` product neither overflows an `i64` nor wraps midnight if and only if the
   * increments are fewer than a day holds.
   */
  lemma TimeOfDayIsExact(increments: U64, scale: Scale)
    ensures TimeOfDay(increments, scale) == increments * Pow10(9 - scale)
       <==> increments < 86_400 * Pow10(scale)
  {
    var unit, perDay := Pow10(9 - scale), 86_400 * Pow10(scale);
    DayHoldsIncrements(scale);
    if increments < perDay {
      ScaledBelow(increments, perDay, unit);
      SmallProductsDoNotWrap(increments, scale);
    } else {
      ScaledAtLeast(increments, perDay, unit);
      ModDay(WrapI64(WrapI64(increments) * unit));
    }
  }

  lemma DayHoldsIncrements(scale: Scale)
    ensures (86_400 * Pow10(scale)) * Pow10(9 - scale) == DAY
  {
    ScaleSplits(scale);
    assert (86_400 * Pow10(scale)) * Pow10(9 - scale) == 86_400 * (Pow10(scale) * Pow10(9 - scale));
  }

  lemma ScaledBelow(a: nat, b: nat, unit: nat)
    requires a < b && unit > 0
    ensures a * unit < b * unit
  {}

  lemma ScaledAtLeast(a: nat, b: nat, unit: nat)
    requires a >= b
    ensures a * unit >= b * unit
  {}

  // ----- whole cells

  /** Every time of day reads back from its text. */
  lemma TimeTextKeepsTheTime(ns: nat)
    requires ns < DAY
    ensures ParseNaiveTime(TimeText(ns)) == Some(ns)
  {
    ScanTimeText(ns, "", false);
    assert TimeText(ns) + "" == TimeText(ns);
  }

  /** `HH:MM` is read too, by the last format. */
  lemma ShortTimeIsRead(hour: nat, minute: nat)
    requires hour < 24 && minute < 60
    ensures ParseNaiveTime(Fixed(hour, 2) + ":" + Fixed(minute, 2)) == Some(hour * HOUR + minute * MINUTE)
  {
    hide Fixed, ScanMinutes;
    var s := Fixed(hour, 2) + ":" + Fixed(minute, 2);
    ScanMinutesText(hour, minute, "", false);
    assert s == Fixed(hour, 2) + (":" + (Fixed(minute, 2) + ""));
  }

  /** The fraction being optional, the second format reads nothing that the first does not. */
  lemma SecondFormatIsRedundant(s: string)
    requires Whole(ScanSeconds(s, false)).Some?
    ensures Whole(ScanTime(s, false)) == Whole(ScanSeconds(s, false))
  {
    hide ScanSeconds;
  }

  /** Every date with time reads back from its text. */
  lemma ClockTextKeepsTheClock(c: Clock)
    requires ValidDate(c.date) && c.ns < DAY
    ensures ParseNaiveDatetime(ClockText(c)) == Some(c)
  {
    ScanClockText(c, "", false);
    assert ClockText(c) + "" == ClockText(c);
  }

  /** Nanoseconds since the midnight that begins year 1. */
  function Instant(c: Clock): int {
    DayNumber(c.date) * DAY + c.ns
  }

  lemma ShiftMovesInstant(c: Clock, minutes: int)
    requires ValidDate(c.date)
    ensures ValidDate(Shift(c, minutes).date) && Shift(c, minutes).ns < DAY
    ensures Instant(Shift(c, minutes)) == Instant(c) + minutes * MINUTE
  {
    var total := c.ns + minutes * MINUTE;
    AddDaysMovesDayNumber(c.date, total / DAY);
    assert total == total / DAY * DAY + total % DAY;
  }

  lemma InstantIsInjective(a: Clock, b: Clock)
    requires ValidDate(a.date) && ValidDate(b.date) && a.ns < DAY && b.ns < DAY
    requires Instant(a) == Instant(b)
    ensures a == b
  {
    assert DayNumber(a.date) == Instant(a) / DAY && DayNumber(b.date) == Instant(b) / DAY;
    DayNumberIsInjective(a.date, b.date);
  }

  lemma ShiftBack(c: Clock, minutes: int)
    requires ValidDate(c.date) && c.ns < DAY
    ensures Shift(Shift(c, minutes), -minutes) == c
  {
    ShiftMovesInstant(c, minutes);
    ShiftMovesInstant(Shift(c, minutes), -minutes);
    InstantIsInjective(Shift(Shift(c, minutes), -minutes), c);
  }

  /** RFC 3339 has four-digit years only: a signed year is not read. */
  lemma SignedYearIsNotRfc3339(c: Clock, rest: string)
    requires ValidDate(c.date) && !(0 <= c.date.year <= 9999)
    ensures ScanClock(ClockText(c) + rest, true) == None
  {
    var s := ClockText(c) + rest;
    assert s[0] == YearText(c.date.year)[0];
    assert DigitRun(s, 4) == 0;
  }

  lemma ClockAtOffset(local: Clock, offset: Offset)
    requires ValidDate(local.date)
    ensures AtOffset(Some((local, OffsetText(offset)))) == Some((Shift(local, -offset), offset))
  {
    ScanOffsetText(offset);
  }

  lemma LocalTextReadsBack(local: Clock, offset: Offset)
    requires ValidDate(local.date) && local.ns < DAY && 0 <= local.date.year <= 9999
    ensures ParseRfc3339(ClockText(local) + OffsetText(offset)) == Some((Shift(local, -offset), offset))
  {
    var tail := OffsetText(offset);
    assert tail[0] == '+' || tail[0] == '-';
    ScanClockText(local, tail, true);
    ClockAtOffset(local, offset);
  }

  /** The offset left over makes the first format fail, so the datetime parser falls through to RFC 3339. */
  lemma OffsetIsNotPartOfTheClock(local: Clock, offset: Offset)
    requires ValidDate(local.date) && local.ns < DAY
    ensures Whole(ScanClock(ClockText(local) + OffsetText(offset), false)) == None
  {
    var tail := OffsetText(offset);
    assert tail[0] == '+' || tail[0] == '-';
    ScanClockText(local, tail, false);
  }

  /** What the RFC 3339 reader makes of a printed local time is its instant and offset, or nothing. */
  lemma OffsetTextReadsInstantOrNothing(utc: Clock, offset: Offset)
    requires ValidDate(utc.date) && utc.ns < DAY
    ensures ParseRfc3339(OffsetClockText(utc, offset))
         == if 0 <= Shift(utc, offset).date.year <= 9999 then Some((utc, offset)) else None
  {
    hide ParseNaiveDatetime, OffsetText, ClockText, ScanClock, AtOffset;
    var local := Shift(utc, offset);
    ShiftMovesInstant(utc, offset);
    if 0 <= local.date.year <= 9999 {
      LocalTextReadsBack(local, offset);
      ShiftBack(utc, offset);
    } else {
      SignedYearIsNotRfc3339(local, OffsetText(offset));
      NothingAtOffset();
    }
  }

  lemma NothingAtOffset()
    ensures AtOffset(None) == None
  {}

  /** The datetime parser reads such a text as RFC 3339 or not at all. */
  lemma OffsetTextIsNotAClock(utc: Clock, offset: Offset)
    requires ValidDate(utc.date) && utc.ns < DAY
    ensures ParseNaiveDatetime(OffsetClockText(utc, offset))
         == match ParseRfc3339(OffsetClockText(utc, offset)) case Some((c, _)) => Some(c) case None => None
  {
    hide ParseRfc3339, Whole, ScanClock, ClockText, OffsetText;
    ShiftMovesInstant(utc, offset);
    OffsetIsNotPartOfTheClock(Shift(utc, offset), offset);
  }

  /**
   * A `datetimeoffset` shows local time: adding the offset, printing and reading back returns the same
   * instant and offset, and `parse_naive_datetime` the UTC clock, if and only if the local year has four
   * digits.
   */
  lemma OffsetTextKeepsTheInstant(utc: Clock, offset: Offset)
    requires ValidDate(utc.date) && utc.ns < DAY
    ensures var text, local := OffsetClockText(utc, offset), Shift(utc, offset);
            && (ParseRfc3339(text) == Some((utc, offset)) <==> 0 <= local.date.year <= 9999)
            && (ParseNaiveDatetime(text) == Some(utc) <==> 0 <= local.date.year <= 9999)
  {
    hide ParseRfc3339, Whole, ScanClock, OffsetClockText;
    OffsetTextReadsInstantOrNothing(utc, offset);
    ShiftMovesInstant(utc, offset);
    OffsetTextIsNotAClock(utc, offset);
  }

  /** The cells SQL Server sends: times within the day, and local years that RFC 3339 can write. */
  predicate InRange(cell: Cell) {
    match cell
    case DateCell(_) => true
    case TimeCell(increments, scale) => increments < 86_400 * Pow10(scale)
    case SmallDateTimeCell(_, minutes) => minutes < 1440
    case DateTimeCell(_, ticks) => ticks < 25_920_000
    case DateTime2Cell(_, increments, scale) => increments < 86_400 * Pow10(scale)
    case DateTimeOffsetCell(days, increments, scale, offset) =>
      && increments < 86_400 * Pow10(scale)
      && 0 <= Shift(Clock(DaysToDate(days, 1), increments * Pow10(9 - scale)), offset).date.year <= 9999
  }

  /** What a cell or its text says: a date, nanoseconds since its midnight and an offset, where it has them. */
  datatype Moment = Moment(date: Option<Date>, ns: Option<int>, offset: Option<int>)

  /** What the wire value means, without wrapping or text. */
  function Meaning(cell: Cell): Moment {
    match cell
    case DateCell(days) => Moment(Some(DaysToDate(days, 1)), None, None)
    case TimeCell(increments, scale) => Moment(None, Some(increments * Pow10(9 - scale)), None)
    case SmallDateTimeCell(days, minutes) => Moment(Some(DaysToDate(days, 1900)), Some(minutes * MINUTE), None)
    case DateTimeCell(days, ticks) => Moment(Some(DaysToDate(days, 1900)), Some(TickNs(ticks)), None)
    case DateTime2Cell(days, increments, scale) =>
      Moment(Some(DaysToDate(days, 1)), Some(increments * Pow10(9 - scale)), None)
    case DateTimeOffsetCell(days, increments, scale, offset) =>
      Moment(Some(DaysToDate(days, 1)), Some(increments * Pow10(9 - scale)), Some(offset))
  }

  function ClockMoment(c: Option<Clock>): Moment {
    match c
    case Some(clock) => Moment(Some(clock.date), Some(clock.ns), None)
    case None => Moment(None, None, None)
  }

  function InstantMoment(instant: Option<(Clock, int)>): Moment {
    match instant
    case Some((utc, offset)) => Moment(Some(utc.date), Some(utc.ns), Some(offset))
    case None => Moment(None, None, None)
  }

  /** The binding parser for the cell's own type. */
  function ReadBack(cell: Cell, text: string): Moment {
    match cell
    case DateCell(_) => Moment(ParseDate(text), None, None)
    case TimeCell(_, _) => Moment(None, match ParseNaiveTime(text) case Some(ns) => Some(ns) case None => None, None)
    case DateTimeOffsetCell(_, _, _, _) => InstantMoment(ParseRfc3339(text))
    case _ => ClockMoment(ParseNaiveDatetime(text))
  }

  lemma WholeMinutesHaveNoFraction(minutes: nat)
    ensures 0 <= minutes * MINUTE % DAY < DAY && minutes * MINUTE % DAY % SECOND == 0
    ensures minutes * MINUTE % DAY == minutes * MINUTE <==> minutes < 1440
  {
    ModDay(minutes * MINUTE);
    assert DAY == 86_400 * SECOND && minutes * MINUTE == (60 * minutes) * SECOND;
    SecondsOfDay(60 * minutes);
  }

  lemma SecondsOfDay(seconds: nat)
    ensures seconds * SECOND % DAY == seconds % 86_400 * SECOND
  {
    var days, rest := seconds / 86_400, seconds % 86_400;
    assert seconds * SECOND == days * DAY + rest * SECOND;
    DaysDropOut(days, rest * SECOND);
  }

  lemma DaysDropOut(days: nat, rest: nat)
    requires rest < DAY
    ensures (days * DAY + rest) % DAY == rest
  {}

  lemma SmallDateTimeText(days: int, minutes: U32)
    ensures TemporalText(SmallDateTimeCell(days, minutes))
         == ClockText(Clock(DaysToDate(days, 1900), minutes * MINUTE % DAY))
  {
    hide DateText, FieldsText, DaysToDate;
    WholeMinutesHaveNoFraction(minutes);
  }

  /** A clock cell reads back as the date and time that are printed for it. */
  lemma ClockCellReadsBack(cell: Cell, c: Clock)
    requires cell.SmallDateTimeCell? || cell.DateTimeCell? || cell.DateTime2Cell?
    requires ValidDate(c.date) && c.ns < DAY && TemporalText(cell) == ClockText(c)
    ensures ReadBack(cell, TemporalText(cell)) == ClockMoment(Some(c))
  {
    hide TemporalText, ClockText, ParseNaiveDatetime, ValidDate;
    ClockTextKeepsTheClock(c);
  }

  lemma SmallDateTimeReadsBackIff(days: int, minutes: U32)
    ensures var cell := SmallDateTimeCell(days, minutes);
            ReadBack(cell, TemporalText(cell)) == Meaning(cell) <==> InRange(cell)
  {
    hide TemporalText, ReadBack, ClockText, DaysToDate, ValidDate;
    SmallDateTimeText(days, minutes);
    WholeMinutesHaveNoFraction(minutes);
    ClockCellReadsBack(SmallDateTimeCell(days, minutes), Clock(DaysToDate(days, 1900), minutes * MINUTE % DAY));
  }

  lemma DateTimeReadsBackIff(days: int, ticks: U32)
    ensures var cell := DateTimeCell(days, ticks);
            ReadBack(cell, TemporalText(cell)) == Meaning(cell) <==> InRange(cell)
  {
    hide ReadBack, ClockText, DaysToDate, ValidDate, TickNs;
    TicksWithinTheDay(ticks);
    ModDay(TickNs(ticks));
    ClockCellReadsBack(DateTimeCell(days, ticks), Clock(DaysToDate(days, 1900), TickNs(ticks) % DAY));
  }

  lemma TimeOfDayIsWithinTheDay(increments: U64, scale: Scale)
    ensures TimeOfDay(increments, scale) < DAY
  {
    ModDay(WrapI64(WrapI64(increments) * Pow10(9 - scale)));
  }

  lemma DateTime2ReadsBackIff(days: int, increments: U64, scale: Scale)
    ensures var cell := DateTime2Cell(days, increments, scale);
            ReadBack(cell, TemporalText(cell)) == Meaning(cell) <==> InRange(cell)
  {
    hide ReadBack, ClockText, DaysToDate, ValidDate, TimeOfDay, Pow10;
    TimeOfDayIsExact(increments, scale);
    TimeOfDayIsWithinTheDay(increments, scale);
    ClockCellReadsBack(DateTime2Cell(days, increments, scale),
                       Clock(DaysToDate(days, 1), TimeOfDay(increments, scale)));
  }

  lemma TimeReadsBackIff(increments: U64, scale: Scale)
    ensures var cell := TimeCell(increments, scale);
            ReadBack(cell, TemporalText(cell)) == Meaning(cell) <==> InRange(cell)
  {
    hide TimeOfDay, TimeText, ParseNaiveTime, Pow10;
    TimeOfDayIsExact(increments, scale);
    TimeOfDayIsWithinTheDay(increments, scale);
    TimeTextKeepsTheTime(TimeOfDay(increments, scale));
  }

  lemma DateReadsBack(days: int)
    ensures ReadBack(DateCell(days), TemporalText(DateCell(days))) == Meaning(DateCell(days))
  {
    hide ParseDate, DateText, DaysToDate;
    DateTextKeepsTheDay(days, 1);
  }

  lemma OffsetReadsBackIff(days: int, increments: U64, scale: Scale, offset: Offset)
    ensures var cell := DateTimeOffsetCell(days, increments, scale, offset);
            ReadBack(cell, TemporalText(cell)) == Meaning(cell) <==> InRange(cell)
  {
    hide TimeOfDay, OffsetClockText, ParseRfc3339, Pow10, Shift, DaysToDate, ValidDate;
    TimeOfDayIsExact(increments, scale);
    TimeOfDayIsWithinTheDay(increments, scale);
    OffsetTextReadsInstantOrNothing(Clock(DaysToDate(days, 1), TimeOfDay(increments, scale)), offset);
  }

  /**
   * Rendering a cell and binding its text again gives the value the wire carried if and only if the cell
   * is one that SQL Server sends.
   */
  lemma TemporalTextKeepsTheValue(cell: Cell)
    ensures ReadBack(cell, TemporalText(cell)) == Meaning(cell) <==> InRange(cell)
  {
    hide ReadBack, TemporalText, Meaning, Pow10, Shift, DaysToDate;
    match cell
    case DateCell(days) => DateReadsBack(days);
    case TimeCell(increments, scale) => TimeReadsBackIff(increments, scale);
    case SmallDateTimeCell(days, minutes) => SmallDateTimeReadsBackIff(days, minutes);
    case DateTimeCell(days, ticks) => DateTimeReadsBackIff(days, ticks);
    case DateTime2Cell(days, increments, scale) => DateTime2ReadsBackIff(days, increments, scale);
    case DateTimeOffsetCell(days, increments, scale, offset) => OffsetReadsBackIff(days, increments, scale, offset);
  }

  /** An hour east of the last half hour of 9999 the local year is 10000, and the text is read by nobody. */
  lemma LastHalfHourIsLost()
    ensures var utc := Clock(Date(9999, 12, 31), 23 * HOUR + 30 * MINUTE);
            && Shift(utc, 60) == Clock(Date(10_000, 1, 1), 30 * MINUTE)
            && ParseRfc3339(OffsetClockText(utc, 60)) == None
            && ParseNaiveDatetime(OffsetClockText(utc, 60)) == None
  {
    hide ParseRfc3339, ParseNaiveDatetime, OffsetClockText;
    var utc := Clock(Date(9999, 12, 31), 23 * HOUR + 30 * MINUTE);
    OffsetTextReadsInstantOrNothing(utc, 60);
    OffsetTextIsNotAClock(utc, 60);
  }

  lemma ClockIsInRange(s: string, rfc: bool)
    requires ScanClock(s, rfc).Some?
    ensures ValidDate(ScanClock(s, rfc).value.0.date) && ScanClock(s, rfc).value.0.ns < DAY
  {
    hide ScanDate, ScanTime, Separator, ValidDate, SpellsYear, TwoDigits;
    var year, month, day := DateSays(s, rfc);
    TimeIsWithinTheDay(Separator(ScanDate(s, rfc).value.1, rfc).value, rfc);
  }

  lemma MinutesAreWithinTheDay(s: string, rfc: bool)
    ensures ScanMinutes(s, rfc).Some? ==> ScanMinutes(s, rfc).value.0 < DAY
    ensures ScanSeconds(s, rfc).Some? ==> ScanSeconds(s, rfc).value.0 < DAY
  {
    hide ScanMinutes, ScanSeconds, TwoDigits, Value;
    if ScanMinutes(s, rfc).Some? {
      var hour, minute := MinutesSay(s, rfc);
    }
    if ScanSeconds(s, rfc).Some? {
      var hour, minute, second := SecondsSay(s, rfc);
    }
  }

  lemma InstantIsInRange(s: string)
    requires ParseRfc3339(s).Some?
    ensures var (utc, offset) := ParseRfc3339(s).value;
            ValidDate(utc.date) && utc.ns < DAY && -1440 < offset < 1440
  {
    hide ScanClock, ScanOffset, ValidDate, Shift;
    ClockIsInRange(s, true);
    var (local, rest) := ScanClock(s, true).value;
    var hours, minutes := OffsetSays(rest);
    ShiftMovesInstant(local, -ScanOffset(rest).value.0);
  }

  lemma TimeReadIsInRange(s: string)
    requires ParseNaiveTime(s).Some?
    ensures ParseNaiveTime(s).value < DAY
  {
    hide ScanTime, ScanSeconds, ScanMinutes;
    if ScanTime(s, false).Some? {
      TimeIsWithinTheDay(s, false);
    }
    MinutesAreWithinTheDay(s, false);
  }

  /** Nothing outside the calendar, the day or the offsets is ever bound. */
  lemma OnlyValidTimesAreRead(s: string)
    ensures ParseDate(s).Some? ==> ValidDate(ParseDate(s).value)
    ensures ParseNaiveTime(s).Some? ==> ParseNaiveTime(s).value < DAY
    ensures ParseNaiveDatetime(s).Some? ==>
      ValidDate(ParseNaiveDatetime(s).value.date) && ParseNaiveDatetime(s).value.ns < DAY
    ensures ParseRfc3339(s).Some? ==>
      var (utc, offset) := ParseRfc3339(s).value;
      ValidDate(utc.date) && utc.ns < DAY && -1440 < offset < 1440
  {
    hide ScanDate, ScanClock, ValidDate, ParseRfc3339, ParseNaiveTime;
    if ParseDate(s).Some? {
      var year, month, day := DateSays(s, false);
    }
    if ParseNaiveTime(s).Some? {
      TimeReadIsInRange(s);
    }
    if ScanClock(s, false).Some? {
      ClockIsInRange(s, false);
    }
    if ParseRfc3339(s).Some? {
      InstantIsInRange(s);
    }
  }
}
