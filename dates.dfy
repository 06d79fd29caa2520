/**
 * java.time.LocalDate, DayOfWeek and YearMonth, as far as the app uses them:
 * the proleptic ISO calendar, day stepping, comparison, the epoch-day count
 * behind getDayOfWeek, and the ISO-8601 text form written by toString and
 * read by LocalDate.parse.
 */
module Dates {
  import opened Wrappers
  import opened Text

  const MIN_YEAR := -999_999_999
  const MAX_YEAR := 999_999_999

  datatype Date = Date(year: int, month: int, day: int)

  /** ISO leap-year rule (IsoChronology.isLeapYear). */
  predicate IsLeapYear(y: int) {
    y % 4 == 0 && (y % 100 != 0 || y % 400 == 0)
  }

  function LengthOfMonth(y: int, m: int): (n: int)
    requires 1 <= m <= 12
    ensures 28 <= n <= 31
  {
    if m == 2 then (if IsLeapYear(y) then 29 else 28)
    else if m == 4 || m == 6 || m == 9 || m == 11 then 30
    else 31
  }

  predicate ValidDate(d: Date) {
    1 <= d.month <= 12 && 1 <= d.day <= LengthOfMonth(d.year, d.month)
  }

  /** A calendar date. Years are unbounded; InRange is LocalDate's year range. */
  type LocalDate = d: Date | ValidDate(d) witness Date(1970, 1, 1)

  predicate InRange(d: Date) {
    MIN_YEAR <= d.year <= MAX_YEAR
  }

  /** LocalDate.MIN and LocalDate.MAX. */
  const MIN: LocalDate := Date(MIN_YEAR, 1, 1)
  const MAX: LocalDate := Date(MAX_YEAR, 12, 31)

  /** LocalDate.isBefore: the chronological (lexicographic) order. */
  predicate IsBefore(a: Date, b: Date) {
    a.year < b.year || (a.year == b.year && (a.month < b.month || (a.month == b.month && a.day < b.day)))
  }

  predicate IsAfter(a: Date, b: Date) {
    IsBefore(b, a)
  }

  // ---------------------------------------------------------------------
  // Day stepping

  function NextDay(d: LocalDate): LocalDate {
    if d.day < LengthOfMonth(d.year, d.month) then Date(d.year, d.month, d.day + 1)
    else if d.month < 12 then Date(d.year, d.month + 1, 1)
    else Date(d.year + 1, 1, 1)
  }

  function PrevDay(d: LocalDate): LocalDate {
    if d.day > 1 then Date(d.year, d.month, d.day - 1)
    else if d.month > 1 then Date(d.year, d.month - 1, LengthOfMonth(d.year, d.month - 1))
    else Date(d.year - 1, 12, 31)
  }

  /** LocalDate.plusDays for a non-negative count (overflow past MAX not modelled). */
  function PlusDays(d: LocalDate, n: nat): LocalDate
    decreases n
  {
    if n == 0 then d else PlusDays(NextDay(d), n - 1)
  }

  /** LocalDate.minusDays for a non-negative count. */
  function MinusDays(d: LocalDate, n: nat): LocalDate
    decreases n
  {
    if n == 0 then d else MinusDays(PrevDay(d), n - 1)
  }

  /** plusDays with a signed count. */
  function AddDays(d: LocalDate, k: int): LocalDate {
    if k >= 0 then PlusDays(d, k) else MinusDays(d, -k)
  }

  lemma NextPrevInverse(d: LocalDate)
    ensures NextDay(PrevDay(d)) == d
    ensures PrevDay(NextDay(d)) == d
  {
  }

  // ---------------------------------------------------------------------
  // Epoch days: 1970-01-01 is day 0

  /** Number of leap years in [1, y) counted the proleptic way, offset-free. */
  function LeapYearsBefore(y: int): int {
    (y - 1) / 4 - (y - 1) / 100 + (y - 1) / 400
  }

  function DaysBeforeYear(y: int): int {
    365 * (y - 1970) + LeapYearsBefore(y) - LeapYearsBefore(1970)
  }

  function DaysBeforeMonth(y: int, m: int): int
    requires 1 <= m <= 12
  {
    [0, 31, 59, 90, 120, 151, 181, 212, 243, 273, 304, 334][m - 1]
      + (if m > 2 && IsLeapYear(y) then 1 else 0)
  }

  /** LocalDate.toEpochDay. */
  function EpochDay(d: LocalDate): int {
    DaysBeforeYear(d.year) + DaysBeforeMonth(d.year, d.month) + d.day - 1
  }

  /** Floor division steps by one exactly at multiples. */
  lemma DivStep(y: int, c: int)
    requires c == 4 || c == 100 || c == 400
    ensures y / c - (y - 1) / c == (if y % c == 0 then 1 else 0)
  {
    var q, r := y / c, y % c;
    assert y == c * q + r && 0 <= r < c;
    if r == 0 {
      assert y - 1 == c * (q - 1) + (c - 1);
    } else {
      assert y - 1 == c * q + (r - 1);
    }
  }

  lemma DaysInYear(y: int)
    ensures DaysBeforeYear(y + 1) == DaysBeforeYear(y) + (if IsLeapYear(y) then 366 else 365)
  {
    DivStep(y, 4);
    DivStep(y, 100);
    DivStep(y, 400);
    if y % 100 == 0 {
      var q := y / 100;
      assert y == 4 * (25 * q);
    }
    if y % 400 == 0 {
      var q := y / 400;
      assert y == 100 * (4 * q);
    }
  }

  lemma DaysBeforeMonthStep(y: int, m: int)
    requires 1 <= m < 12
    ensures DaysBeforeMonth(y, m + 1) == DaysBeforeMonth(y, m) + LengthOfMonth(y, m)
  {
  }

  /** toEpochDay advances by one with each day. */
  lemma EpochDayNext(d: LocalDate)
    ensures EpochDay(NextDay(d)) == EpochDay(d) + 1
  {
    if d.day == LengthOfMonth(d.year, d.month) {
      if d.month < 12 {
        DaysBeforeMonthStep(d.year, d.month);
      } else {
        DaysInYear(d.year);
      }
    }
  }

  lemma EpochDayPrev(d: LocalDate)
    ensures EpochDay(PrevDay(d)) == EpochDay(d) - 1
  {
    EpochDayNext(PrevDay(d));
    NextPrevInverse(d);
  }

  lemma {:induction false} EpochDayPlus(d: LocalDate, n: nat)
    ensures EpochDay(PlusDays(d, n)) == EpochDay(d) + n
    decreases n
  {
    if n > 0 {
      EpochDayNext(d);
      EpochDayPlus(NextDay(d), n - 1);
    }
  }

  lemma {:induction false} EpochDayMinus(d: LocalDate, n: nat)
    ensures EpochDay(MinusDays(d, n)) == EpochDay(d) - n
    decreases n
  {
    if n > 0 {
      assert MinusDays(d, n) == MinusDays(PrevDay(d), n - 1);
      EpochDayPrev(d);
      EpochDayMinus(PrevDay(d), n - 1);
    }
  }

  lemma EpochDayAdd(d: LocalDate, k: int)
    ensures EpochDay(AddDays(d, k)) == EpochDay(d) + k
  {
    if k >= 0 { EpochDayPlus(d, k); } else { EpochDayMinus(d, -k); }
  }

  lemma {:induction false} DaysBeforeMonthMonotone(y: int, m1: int, m2: int)
    requires 1 <= m1 < m2 <= 12
    ensures DaysBeforeMonth(y, m1) + LengthOfMonth(y, m1) <= DaysBeforeMonth(y, m2)
    decreases m2 - m1
  {
    DaysBeforeMonthStep(y, m1);
    if m1 + 1 < m2 {
      DaysBeforeMonthMonotone(y, m1 + 1, m2);
    }
  }

  /** A date's epoch day lies within its year's span. */
  lemma EpochDayWithinYear(d: LocalDate)
    ensures DaysBeforeYear(d.year) <= EpochDay(d) < DaysBeforeYear(d.year + 1)
  {
    DaysInYear(d.year);
    if d.month < 12 {
      DaysBeforeMonthMonotone(d.year, d.month, 12);
    }
  }

  lemma {:induction false} DaysBeforeYearMonotone(y1: int, y2: int)
    requires y1 < y2
    ensures DaysBeforeYear(y1 + 1) <= DaysBeforeYear(y2)
    decreases y2 - y1
  {
    if y1 + 1 < y2 {
      DaysInYear(y1 + 1);
      DaysBeforeYearMonotone(y1 + 1, y2);
    }
  }

  lemma EpochDayBefore(a: LocalDate, b: LocalDate)
    requires IsBefore(a, b)
    ensures EpochDay(a) < EpochDay(b)
  {
    if a.year < b.year {
      EpochDayWithinYear(a);
      EpochDayWithinYear(b);
      DaysBeforeYearMonotone(a.year, b.year);
    } else if a.month < b.month {
      DaysBeforeMonthMonotone(a.year, a.month, b.month);
    }
  }

  /** The epoch day orders dates exactly as LocalDate.compareTo does. */
  lemma EpochDayOrder(a: LocalDate, b: LocalDate)
    ensures IsBefore(a, b) <==> EpochDay(a) < EpochDay(b)
    ensures a == b <==> EpochDay(a) == EpochDay(b)
  {
    if IsBefore(a, b) {
      EpochDayBefore(a, b);
    } else if IsBefore(b, a) {
      EpochDayBefore(b, a);
    }
  }

  /** Two dates with the same epoch day are the same date. */
  lemma EpochDayInjective(a: LocalDate, b: LocalDate)
    requires EpochDay(a) == EpochDay(b)
    ensures a == b
  {
    EpochDayOrder(a, b);
  }

  /** 1970-01-01 is epoch day 0. */
  lemma EpochOrigin()
    ensures EpochDay(Date(1970, 1, 1)) == 0
  {
  }

  // ---------------------------------------------------------------------
  // Day of week

  datatype DayOfWeek = MONDAY | TUESDAY | WEDNESDAY | THURSDAY | FRIDAY | SATURDAY | SUNDAY {
    /** DayOfWeek.ordinal (getValue() - 1). */
    function Ordinal(): (n: nat)
      ensures n < 7
    {
      match this
      case MONDAY => 0
      case TUESDAY => 1
      case WEDNESDAY => 2
      case THURSDAY => 3
      case FRIDAY => 4
      case SATURDAY => 5
      case SUNDAY => 6
    }
  }

  function DayOfWeekFromOrdinal(n: nat): (w: DayOfWeek)
    requires n < 7
    ensures w.Ordinal() == n
  {
    [MONDAY, TUESDAY, WEDNESDAY, THURSDAY, FRIDAY, SATURDAY, SUNDAY][n]
  }

  lemma OrdinalInjective(a: DayOfWeek, b: DayOfWeek)
    requires a.Ordinal() == b.Ordinal()
    ensures a == b
  {
  }

  /** LocalDate.getDayOfWeek: floorMod(toEpochDay + 3, 7), Monday first. */
  function DayOfWeekOf(d: LocalDate): DayOfWeek {
    DayOfWeekFromOrdinal((EpochDay(d) + 3) % 7)
  }

  lemma ThursdayOrigin()
    ensures DayOfWeekOf(Date(1970, 1, 1)) == THURSDAY
  {
  }

  /** The weekdays cycle: the next day is the next weekday. */
  lemma DayOfWeekNext(d: LocalDate)
    ensures DayOfWeekOf(NextDay(d)).Ordinal() == (DayOfWeekOf(d).Ordinal() + 1) % 7
  {
    var e := EpochDay(d);
    EpochDayNext(d);
    assert DayOfWeekOf(NextDay(d)).Ordinal() == (e + 3 + 1) % 7;
    ModSevenAdd(e + 3, 1);
  }

  lemma ModSevenAdd(x: int, n: int)
    ensures (x + n) % 7 == (x % 7 + n) % 7
  {
    var q := x / 7;
    assert x + n == 7 * q + (x % 7 + n);
  }

  /** n days later the weekday has moved n places round the week. */
  lemma DayOfWeekPlus(d: LocalDate, n: nat)
    ensures DayOfWeekOf(PlusDays(d, n)).Ordinal() == (DayOfWeekOf(d).Ordinal() + n) % 7
  {
    EpochDayPlus(d, n);
    ModSevenAdd(EpochDay(d) + 3, n);
  }

  // ---------------------------------------------------------------------
  // Year-month

  datatype YM = YM(year: int, month: int)

  /** java.time.YearMonth. */
  type YearMonth = ym: YM | 1 <= ym.month <= 12 witness YM(1970, 1)

  function MonthLength(ym: YearMonth): int {
    LengthOfMonth(ym.year, ym.month)
  }

  /** YearMonth.atDay. */
  function AtDay(ym: YearMonth, day: int): (d: LocalDate)
    requires 1 <= day <= MonthLength(ym)
    ensures d.year == ym.year && d.month == ym.month && d.day == day
  {
    Date(ym.year, ym.month, day)
  }

  /** Day k of a month lies k - 1 days after its first day, and belongs to that month. */
  lemma AtDayEpoch(ym: YearMonth, day: int)
    requires 1 <= day <= MonthLength(ym)
    ensures EpochDay(AtDay(ym, day)) == EpochDay(AtDay(ym, 1)) + day - 1
    ensures YearMonthFrom(AtDay(ym, day)) == ym
  {
  }

  /** YearMonth.atEndOfMonth. */
  function AtEndOfMonth(ym: YearMonth): (d: LocalDate)
    ensures d.year == ym.year && d.month == ym.month && d.day == MonthLength(ym)
    ensures NextDay(d).day == 1
  {
    Date(ym.year, ym.month, LengthOfMonth(ym.year, ym.month))
  }

  /** YearMonth.from. */
  function YearMonthFrom(d: LocalDate): (ym: YearMonth)
    ensures ym.year == d.year && ym.month == d.month
    ensures AtDay(ym, d.day) == d
  {
    YM(d.year, d.month)
  }

  /** The month spans its days: end of month is (length - 1) days after day 1. */
  lemma MonthSpan(ym: YearMonth)
    ensures EpochDay(AtEndOfMonth(ym)) == EpochDay(AtDay(ym, 1)) + MonthLength(ym) - 1
  {
  }

  // ---------------------------------------------------------------------
  // ISO-8601 text

  /** The sign LocalDate.toString writes before the year: '-' below zero, '+' past 9999. */
  function YearSign(y: int): string {
    if y < 0 then "-" else if y > 9999 then "+" else ""
  }

  /** The year's digits: at least four, zero-padded. */
  function YearDigits(y: int): string {
    var a := if y < 0 then -y else y;
    if a < 1000 then PadDigits(a, 4) else NatToString(a)
  }

  /** The year part of LocalDate.toString. */
  function YearText(y: int): string {
    YearSign(y) + YearDigits(y)
  }

  /** LocalDate.toString: uuuu-MM-dd, with a sign and more digits beyond four. */
  function IsoDate(d: LocalDate): string {
    YearText(d.year) + "-" + PadDigits(d.month, 2) + "-" + PadDigits(d.day, 2)
  }

  /**
   * The year field of ISO_LOCAL_DATE (strict, sign style EXCEEDS_PAD): an
   * optional sign, then 4 to 10 digits; '+' is required beyond four digits
   * and allowed only there; "-0000" is refused. Yields the year and the text
   * after it.
   */
  function ParseYear(s: string): (r: Option<(int, string)>)
    ensures r.Some? ==> |r.value.1| < |s|
  {
    var signed := |s| > 0 && (s[0] == '+' || s[0] == '-');
    var negative := signed && s[0] == '-';
    ParseYearDigits(signed, negative, if signed then s[1..] else s)
  }

  /** The digits after the (possibly absent) sign, with the sign rules. */
  function ParseYearDigits(signed: bool, negative: bool, rest: string): (r: Option<(int, string)>)
    ensures r.Some? ==> |r.value.1| + 4 <= |rest|
  {
    var k := DigitRunLength(rest);
    if k < 4 || k > 10 then None
    else if signed && !negative && k <= 4 then None
    else if !signed && k > 4 then None
    else
      var magnitude: int := DigitsValue(rest[..k]);
      if negative && magnitude == 0 then None
      else
        var year: int := if negative then -magnitude else magnitude;
        Some((year, rest[k..]))
  }

  /** "-MM-dd" and the end of the text, then the strict range checks. */
  function ParseMonthDay(year: int, tail: string): (r: Option<LocalDate>)
    ensures r.Some? ==> r.value.year == year
  {
    if |tail| != 6 || tail[0] != '-' || tail[3] != '-' then None
    else if !AllDigits(tail[1..3]) || !AllDigits(tail[4..6]) then None
    else
      var month := DigitsValue(tail[1..3]);
      var day := DigitsValue(tail[4..6]);
      if year < MIN_YEAR || year > MAX_YEAR || month < 1 || month > 12 then None
      else if day < 1 || day > LengthOfMonth(year, month) then None
      else Some(Date(year, month, day))
  }

  /**
   * LocalDate.parse (ISO_LOCAL_DATE, strict resolver): None where the
   * library throws DateTimeParseException.
   */
  function ParseDate(s: string): (r: Option<LocalDate>)
    ensures r.Some? ==> InRange(r.value)
  {
    match ParseYear(s)
    case None => None
    case Some((year, tail)) =>
      var r := ParseMonthDay(year, tail);
      if r.Some? then assert r.value.year == year; r else r
  }

  /** The year's digits read back as |y|; four of them unless a sign is written. */
  lemma YearDigitsShape(y: int)
    requires MIN_YEAR <= y <= MAX_YEAR
    ensures var t := YearDigits(y);
      AllDigits(t) && DigitsValue(t) == (if y < 0 then -y else y)
      && 4 <= |t| <= 9 && (0 <= y <= 9999 ==> |t| == 4) && (y > 9999 ==> |t| > 4)
  {
    var a := if y < 0 then -y else y;
    assert Pow10(3) == 1000 && Pow10(4) == 10000 && Pow10(9) == 1_000_000_000;
    if a >= 1000 {
      var k := DigitCount(a);
      assert |NatToString(a)| == k;
      if k < 4 {
        Pow10Monotone(k, 3);
      }
      if k > 9 {
        Pow10Monotone(9, k - 1);
      }
      if a <= 9999 {
        DigitCountBetween(a, 4);
      }
      if a > 9999 && k <= 4 {
        Pow10Monotone(k, 4);
      }
    }
  }

  /** ParseYearDigits on a text that starts with the run digits and goes on with tail, once the sign checks pass. */
  lemma YearDigitsRun(signed: bool, negative: bool, rest: string, digits: string, tail: string)
    requires AllDigits(digits) && 4 <= |digits| <= 10
    requires DigitRunLength(rest) == |digits| && rest[..|digits|] == digits && rest[|digits|..] == tail
    requires signed && !negative ==> |digits| > 4
    requires !signed ==> |digits| <= 4
    requires negative ==> DigitsValue(digits) != 0
    ensures var magnitude: int := DigitsValue(digits);
      ParseYearDigits(signed, negative, rest) == Some((if negative then -magnitude else magnitude, tail))
  {}

  /** After '-': four to ten digits, not all zero, read as a negative year. */
  lemma NegativeYearDigits(digits: string, tail: string)
    requires AllDigits(digits) && 4 <= |digits| <= 10 && (tail == [] || !IsDigit(tail[0]))
    requires DigitsValue(digits) != 0
    ensures ParseYearDigits(true, true, digits + tail) == Some((-(DigitsValue(digits) as int), tail))
  {
    DigitRunOfConcat(digits, tail);
    YearDigitsRun(true, true, digits + tail, digits, tail);
  }

  /** After '+': five to ten digits. */
  lemma PositiveYearDigits(digits: string, tail: string)
    requires AllDigits(digits) && 4 < |digits| <= 10 && (tail == [] || !IsDigit(tail[0]))
    ensures ParseYearDigits(true, false, digits + tail) == Some((DigitsValue(digits) as int, tail))
  {
    DigitRunOfConcat(digits, tail);
    YearDigitsRun(true, false, digits + tail, digits, tail);
  }

  /** Without a sign: exactly four digits. */
  lemma UnsignedYearDigits(digits: string, tail: string)
    requires AllDigits(digits) && |digits| == 4 && (tail == [] || !IsDigit(tail[0]))
    ensures ParseYearDigits(false, false, digits + tail) == Some((DigitsValue(digits) as int, tail))
  {
    DigitRunOfConcat(digits, tail);
    YearDigitsRun(false, false, digits + tail, digits, tail);
  }

  lemma NegativeYearText(y: int, tail: string)
    requires MIN_YEAR <= y < 0 && (tail == [] || !IsDigit(tail[0]))
    ensures ParseYear(YearText(y) + tail) == Some((y, tail))
  {
    var digits := YearDigits(y);
    YearDigitsShape(y);
    var s := ['-'] + (digits + tail);
    assert YearText(y) + tail == s && s[1..] == digits + tail;
    NegativeYearDigits(digits, tail);
  }

  lemma PositiveYearText(y: int, tail: string)
    requires 9999 < y <= MAX_YEAR && (tail == [] || !IsDigit(tail[0]))
    ensures ParseYear(YearText(y) + tail) == Some((y, tail))
  {
    var digits := YearDigits(y);
    YearDigitsShape(y);
    var s := ['+'] + (digits + tail);
    assert YearText(y) + tail == s && s[1..] == digits + tail;
    PositiveYearDigits(digits, tail);
  }

  lemma UnsignedYearText(y: int, tail: string)
    requires 0 <= y <= 9999 && (tail == [] || !IsDigit(tail[0]))
    ensures ParseYear(YearText(y) + tail) == Some((y, tail))
  {
    var digits := YearDigits(y);
    YearDigitsShape(y);
    assert YearText(y) + tail == digits + tail;
    assert (digits + tail)[0] == digits[0];
    UnsignedYearDigits(digits, tail);
  }

  /** The year text, followed by a non-digit, parses back to the year. */
  lemma ParseYearText(y: int, tail: string)
    requires MIN_YEAR <= y <= MAX_YEAR
    requires tail == [] || !IsDigit(tail[0])
    ensures ParseYear(YearText(y) + tail) == Some((y, tail))
  {
    if y < 0 {
      NegativeYearText(y, tail);
    } else if y > 9999 {
      PositiveYearText(y, tail);
    } else {
      UnsignedYearText(y, tail);
    }
  }

  /** The "-MM-dd" tail of IsoDate: a dash at 0 and 3, two digits each. */
  lemma MonthDayTail(d: LocalDate)
    ensures var t := "-" + PadDigits(d.month, 2) + "-" + PadDigits(d.day, 2);
      |t| == 6 && t[0] == '-' && t[3] == '-' && t[1..3] == PadDigits(d.month, 2) && t[4..6] == PadDigits(d.day, 2)
  {
  }

  lemma ParseMonthDayText(d: LocalDate)
    requires InRange(d)
    ensures ParseMonthDay(d.year, "-" + PadDigits(d.month, 2) + "-" + PadDigits(d.day, 2)) == Some(d)
  {
    MonthDayTail(d);
  }

  /** toString then parse gives the date back, for every date in LocalDate's range. */
  lemma ParseIsoDate(d: LocalDate)
    requires InRange(d)
    ensures ParseDate(IsoDate(d)) == Some(d)
  {
    var tail := "-" + PadDigits(d.month, 2) + "-" + PadDigits(d.day, 2);
    assert IsoDate(d) == YearText(d.year) + tail;
    ParseYearText(d.year, tail);
    ParseMonthDayText(d);
  }
}
