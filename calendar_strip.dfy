/**
 * The date strip at the top of the dashboard: 45 consecutive dates around
 * today, the index it first scrolls to, and which cell is marked selected.
 * Today is a parameter (LocalDate.now).
 */
module CalendarStrip {
  import opened Dates

  /** The date of cell i: today plus i - 14 days. */
  function StripDate(today: LocalDate, i: int): LocalDate {
    AddDays(today, i - 14)
  }

  /**
   * Cell i lies i - 14 days from today, cell 14 is today itself, and each
   * cell holds the day after the one before it.
   */
  lemma StripDateFacts(today: LocalDate)
    ensures forall i :: 0 <= i < 45 ==> EpochDay(StripDate(today, i)) == EpochDay(today) + i - 14
    ensures StripDate(today, 14) == today
    ensures forall i :: 0 <= i < 44 ==> StripDate(today, i + 1) == NextDay(StripDate(today, i))
  {
    forall i | 0 <= i < 45 ensures EpochDay(StripDate(today, i)) == EpochDay(today) + i - 14 {
      EpochDayAdd(today, i - 14);
    }
    EpochDayInjective(StripDate(today, 14), today);
    forall i | 0 <= i < 44 ensures StripDate(today, i + 1) == NextDay(StripDate(today, i)) {
      EpochDayNext(StripDate(today, i));
      EpochDayInjective(StripDate(today, i + 1), NextDay(StripDate(today, i)));
    }
  }

  /**
   * `(-14..30).map { today.plusDays(it) }`: 45 consecutive dates running
   * from 14 days before today to 30 days after it, with today in cell 14.
   */
  function DateStrip(today: LocalDate): (dates: seq<LocalDate>)
    ensures |dates| == 45
    ensures dates[14] == today
    ensures forall i :: 0 <= i < 45 ==> EpochDay(dates[i]) == EpochDay(today) + i - 14
    ensures forall i :: 0 <= i < 44 ==> dates[i + 1] == NextDay(dates[i])
  {
    StripDateFacts(today);
    seq(45, i => StripDate(today, i))
  }

  /** `indexOfFirst { it == x }`: the first index holding x, or -1. */
  function IndexOfFirst(dates: seq<LocalDate>, x: LocalDate): (r: int)
    ensures -1 <= r < |dates|
    ensures r == -1 <==> x !in dates
    ensures r >= 0 ==> dates[r] == x && x !in dates[..r]
  {
    if dates == [] then -1
    else if dates[0] == x then 0
    else
      var r := IndexOfFirst(dates[1..], x);
      if r == -1 then -1
      else
        assert dates[..r + 1] == [dates[0]] + dates[1..][..r];
        r + 1
  }

  /** `indexOfFirst { ... }.takeIf { it >= 0 } ?: 14`. */
  function StartIndex(dates: seq<LocalDate>, selectedDate: LocalDate): int {
    var i := IndexOfFirst(dates, selectedDate);
    if i >= 0 then i else 14
  }

  /** A date is on the strip exactly when it lies within 14 days before and 30 days after today. */
  lemma OnStrip(today: LocalDate, date: LocalDate)
    ensures var offset := EpochDay(date) - EpochDay(today);
            date in DateStrip(today) <==> -14 <= offset <= 30
  {
    var dates := DateStrip(today);
    var offset := EpochDay(date) - EpochDay(today);
    if -14 <= offset <= 30 {
      EpochDayInjective(dates[offset + 14], date);
      assert dates[offset + 14] in dates;
    }
  }

  /**
   * The strip first shows the selected date's cell when it lies within 14
   * days before and 30 days after today, and today's cell otherwise.
   */
  lemma StartIndexOnStrip(today: LocalDate, selectedDate: LocalDate)
    ensures var offset := EpochDay(selectedDate) - EpochDay(today);
            StartIndex(DateStrip(today), selectedDate) == if -14 <= offset <= 30 then offset + 14 else 14
  {
    OnStrip(today, selectedDate);
  }

  /** `isSelected = date == selectedDate`. */
  predicate IsSelected(date: LocalDate, selectedDate: LocalDate) {
    date == selectedDate
  }

  /** At most one cell of the strip is marked selected, and it is the start cell. */
  lemma OneSelectedCell(today: LocalDate, selectedDate: LocalDate, i: int, j: int)
    requires 0 <= i < 45 && 0 <= j < 45
    requires IsSelected(DateStrip(today)[i], selectedDate)
    ensures IsSelected(DateStrip(today)[j], selectedDate) <==> i == j
    ensures StartIndex(DateStrip(today), selectedDate) == i
  {
    StartIndexOnStrip(today, selectedDate);
  }
}
