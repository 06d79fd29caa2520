/**
 * The next-alarm resolver: which days a medicine rule is scheduled on (with
 * its own fallbacks for dates that do not parse), and the single next
 * (date, time, dose) to ring, searched today and then over the next 7 days.
 * The alarm is kept as a local date and time; its conversion to epoch
 * milliseconds in the device's time zone is not part of this model.
 */
module Scheduler {
  import opened Wrappers
  import opened Dates
  import opened Times
  import opened Data
  import opened Sorting
  import ViewModel

  /**
   * isScheduledForDay: a start date that does not parse counts as
   * LocalDate.MAX, an end date that does not parse as no end.
   */
  predicate IsScheduledForDay(m: Medicine, date: LocalDate) {
    var start := ParseDate(m.startDate).GetOr(MAX);
    var end := if m.endDate.Some? then ParseDate(m.endDate.value) else None;
    && !IsBefore(date, start)
    && (end.None? || !IsAfter(date, end.value))
    && DayOfWeekOf(date) in m.daysOfWeek
  }

  /** When both dates parse, the scheduler and the expander agree day by day. */
  lemma SchedulerAgreesWithExpander(m: Medicine, date: LocalDate)
    requires ViewModel.ParseMedicine(m).Some?
    ensures IsScheduledForDay(m, date) <==> ViewModel.AppearsOn(m, date)
  {
  }

  /** An unparsable start date leaves only LocalDate.MAX itself in range. */
  lemma BadStartOnlyMax(m: Medicine, date: LocalDate)
    requires ParseDate(m.startDate).None? && InRange(date)
    ensures IsScheduledForDay(m, date) ==> date == MAX
  {
  }

  /** An unparsable end date is treated as no end date at all. */
  lemma BadEndIsNoEnd(m: Medicine, date: LocalDate)
    requires m.endDate.Some? && ParseDate(m.endDate.value).None?
    ensures IsScheduledForDay(m, date) <==> IsScheduledForDay(m.(endDate := None), date)
  {
  }

  /**
   * The two components disagree on a rule whose end date does not parse:
   * the expander never lists it, the scheduler still rings for it.
   */
  lemma ExpanderSchedulerDiverge(m: Medicine, date: LocalDate)
    requires m.endDate.Some? && ParseDate(m.endDate.value).None?
    requires IsScheduledForDay(m.(endDate := None), date)
    ensures IsScheduledForDay(m, date) && !ViewModel.AppearsOn(m, date)
  {
  }

  // ---------------------------------------------------------------------
  // Dose times

  /** A dose paired with its parsed time. */
  datatype DoseTime = DoseTime(dose: Dose, time: LocalTime)

  /** The doses whose time parses, in their order (mapNotNull). */
  function ParsedDoseTimes(doses: seq<Dose>): (r: seq<DoseTime>)
    ensures |r| <= |doses|
    ensures forall dt :: dt in r <==> dt.dose in doses && ParseTime(dt.dose.time) == Some(dt.time)
  {
    if doses == [] then []
    else
      var rest := ParsedDoseTimes(doses[1..]);
      assert forall d :: d in doses <==> d == doses[0] || d in doses[1..];
      match ParseTime(doses[0].time)
      case Some(t) => [DoseTime(doses[0], t)] + rest
      case None => rest
  }

  function TimeKey(dt: DoseTime): seq<int> {
    [dt.time]
  }

  /** mapNotNull keeps order: parsing a concatenation concatenates the results. */
  lemma {:induction false} ParsedDoseTimesAppend(a: seq<Dose>, b: seq<Dose>)
    ensures ParsedDoseTimes(a + b) == ParsedDoseTimes(a) + ParsedDoseTimes(b)
  {
    if a == [] {
      assert a + b == b;
    } else {
      assert (a + b)[0] == a[0] && (a + b)[1..] == a[1..] + b;
      ParsedDoseTimesAppend(a[1..], b);
    }
  }

  /** Dose i is the first of `doses` whose time parses to `time`. */
  predicate FirstParsingAt(doses: seq<Dose>, i: int, time: LocalTime) {
    && 0 <= i < |doses|
    && ParseTime(doses[i].time) == Some(time)
    && forall j :: 0 <= j < i ==> ParseTime(doses[j].time) != Some(time)
  }

  /** When the first dose parses to `time`, it is the first dose at that time. */
  lemma FirstDoseAtHead(doses: seq<Dose>, time: LocalTime, dose: Dose)
    requires doses != [] && ParseTime(doses[0].time) == Some(time)
    ensures FirstDoseAtTime(doses, time, dose) <==> dose == doses[0]
    ensures (exists i :: FirstParsingAt(doses, i, time) && doses[i] == dose) <==> dose == doses[0]
  {
    var p := ParsedDoseTimes(doses);
    assert p == [DoseTime(doses[0], time)] + ParsedDoseTimes(doses[1..]);
    assert FilterKey(p, TimeKey, [time])[0] == DoseTime(doses[0], time) by {
      assert p[0] == DoseTime(doses[0], time) && p[1..] == ParsedDoseTimes(doses[1..]);
    }
    if dose == doses[0] {
      assert FirstParsingAt(doses, 0, time);
    }
    if exists i :: FirstParsingAt(doses, i, time) && doses[i] == dose {
      var i :| FirstParsingAt(doses, i, time) && doses[i] == dose;
      assert i == 0;
    }
  }

  /** When the first dose does not parse to `time`, the first dose at that time is found in the rest. */
  lemma FirstDoseAtTail(doses: seq<Dose>, time: LocalTime, dose: Dose)
    requires doses != [] && ParseTime(doses[0].time) != Some(time)
    ensures FirstDoseAtTime(doses, time, dose) <==> FirstDoseAtTime(doses[1..], time, dose)
  {
    var rest := doses[1..];
    var p := ParsedDoseTimes(doses);
    match ParseTime(doses[0].time)
    case None =>
    case Some(t) =>
      assert p == [DoseTime(doses[0], t)] + ParsedDoseTimes(rest);
      assert p[1..] == ParsedDoseTimes(rest);
      assert TimeKey(p[0]) != [time];
  }

  /** Likewise, the first dose whose time parses to `time` comes after a head that does not. */
  lemma FirstParsingAtTail(doses: seq<Dose>, time: LocalTime, dose: Dose)
    requires doses != [] && ParseTime(doses[0].time) != Some(time)
    ensures (exists i :: FirstParsingAt(doses, i, time) && doses[i] == dose) <==>
              exists i :: FirstParsingAt(doses[1..], i, time) && doses[1..][i] == dose
  {
    var rest := doses[1..];
    if exists i :: FirstParsingAt(doses, i, time) && doses[i] == dose {
      var i :| FirstParsingAt(doses, i, time) && doses[i] == dose;
      assert FirstParsingAt(rest, i - 1, time) && rest[i - 1] == dose;
    }
    if exists i :: FirstParsingAt(rest, i, time) && rest[i] == dose {
      var i :| FirstParsingAt(rest, i, time) && rest[i] == dose;
      assert FirstParsingAt(doses, i + 1, time) && doses[i + 1] == dose;
    }
  }

  /**
   * The head of the parsed doses with a given time is the first dose, in
   * the medicine's dose order, whose time text parses to that time.
   */
  lemma {:induction false} FirstDoseAtIndex(doses: seq<Dose>, time: LocalTime, dose: Dose)
    ensures FirstDoseAtTime(doses, time, dose) <==>
              exists i :: FirstParsingAt(doses, i, time) && doses[i] == dose
  {
    if doses != [] {
      if ParseTime(doses[0].time) == Some(time) {
        FirstDoseAtHead(doses, time, dose);
      } else {
        FirstDoseAtIndex(doses[1..], time, dose);
        FirstDoseAtTail(doses, time, dose);
        FirstParsingAtTail(doses, time, dose);
      }
    }
  }

  /** The parsed doses sorted by time, equal times in dose order (stable sortedBy). */
  function DoseTimes(m: Medicine): seq<DoseTime> {
    SortBy(ParsedDoseTimes(m.doses), TimeKey)
  }

  lemma DoseTimesSorted(m: Medicine)
    ensures var ts := DoseTimes(m);
      (forall i, j :: 0 <= i < j < |ts| ==> ts[i].time <= ts[j].time)
      && multiset(ts) == multiset(ParsedDoseTimes(m.doses))
      && forall k :: FilterKey(ts, TimeKey, k) == FilterKey(ParsedDoseTimes(m.doses), TimeKey, k)
  {
    var ts := DoseTimes(m);
    SortByCorrect(ParsedDoseTimes(m.doses), TimeKey);
    forall i, j | 0 <= i < j < |ts| ensures ts[i].time <= ts[j].time {
      LexLeqSingleton(ts[i].time, ts[j].time);
    }
  }

  /** firstOrNull { it.time.isAfter(now) }, as an index (|ts| when there is none). */
  function IndexOfFirstAfter(ts: seq<DoseTime>, now: LocalTime): (k: nat)
    ensures k <= |ts|
    ensures forall j :: 0 <= j < k ==> !TimeIsAfter(ts[j].time, now)
    ensures k < |ts| ==> TimeIsAfter(ts[k].time, now)
  {
    if ts == [] then 0
    else if TimeIsAfter(ts[0].time, now) then 0
    else 1 + IndexOfFirstAfter(ts[1..], now)
  }

  // ---------------------------------------------------------------------
  // The next alarm

  /** A trigger: a local date and time, and the dose it is for. */
  datatype Alarm = Alarm(date: LocalDate, time: LocalTime, dose: Dose)

  predicate AlarmBefore(a: Alarm, b: Alarm) {
    IsBefore(a.date, b.date) || (a.date == b.date && a.time < b.time)
  }

  /**
   * An alarm the resolver may return: within the 8 days today..today+7, on
   * a scheduled day, for one of the medicine's doses whose time parses, and
   * strictly later than now when it is today.
   */
  predicate IsCandidate(m: Medicine, today: LocalDate, now: LocalTime, a: Alarm) {
    && 0 <= EpochDay(a.date) - EpochDay(today) <= 7
    && IsScheduledForDay(m, a.date)
    && a.dose in m.doses && ParseTime(a.dose.time) == Some(a.time)
    && (a.date == today ==> TimeIsAfter(a.time, now))
  }

  /** The earliest candidate: no candidate rings before it. */
  ghost predicate IsEarliestCandidate(m: Medicine, today: LocalDate, now: LocalTime, a: Alarm) {
    IsCandidate(m, today, now, a) && forall c :: IsCandidate(m, today, now, c) ==> !AlarmBefore(c, a)
  }

  /** On equal times, the dose that comes first among the parsed doses. */
  predicate FirstDoseAtTime(doses: seq<Dose>, time: LocalTime, dose: Dose) {
    var f := FilterKey(ParsedDoseTimes(doses), TimeKey, [time]);
    f != [] && f[0] == DoseTime(dose, time)
  }

  lemma CandidateInDoseTimes(m: Medicine, today: LocalDate, now: LocalTime, c: Alarm)
    requires IsCandidate(m, today, now, c)
    ensures DoseTime(c.dose, c.time) in DoseTimes(m)
  {
    DoseTimesSorted(m);
    assert DoseTime(c.dose, c.time) in multiset(ParsedDoseTimes(m.doses));
  }

  /** A candidate's date is today plus its distance in days. */
  lemma CandidateDate(today: LocalDate, d: LocalDate)
    requires 0 <= EpochDay(d) - EpochDay(today)
    ensures d == PlusDays(today, EpochDay(d) - EpochDay(today))
  {
    EpochDayPlus(today, EpochDay(d) - EpochDay(today));
    EpochDayInjective(d, PlusDays(today, EpochDay(d) - EpochDay(today)));
  }

  /** The dose picked as the head of the sorted times is the first one at its time. */
  lemma HeadIsFirstAtTime(m: Medicine, k: nat)
    requires k < |DoseTimes(m)|
    requires forall j :: 0 <= j < k ==> DoseTimes(m)[j].time != DoseTimes(m)[k].time
    ensures FirstDoseAtTime(m.doses, DoseTimes(m)[k].time, DoseTimes(m)[k].dose)
  {
    var ts := DoseTimes(m);
    SortByCorrect(ParsedDoseTimes(m.doses), TimeKey);
    FilterKeyHead(ts, TimeKey, k);
    assert forall j :: 0 <= j < k ==> TimeKey(ts[j]) != TimeKey(ts[k]) by {
      forall j | 0 <= j < k ensures TimeKey(ts[j]) != TimeKey(ts[k]) {
        assert TimeKey(ts[j])[0] == ts[j].time;
      }
    }
  }

  /**
   * findNextAlarm: today's first dose time after now if today is scheduled,
   * else the first dose time of the first scheduled day among the next 7.
   */
  method FindNextAlarm(medicine: Medicine, today: LocalDate, now: LocalTime) returns (r: Option<Alarm>)
    ensures r.Some? ==> IsEarliestCandidate(medicine, today, now, r.value)
    ensures r.Some? ==> FirstDoseAtTime(medicine.doses, r.value.time, r.value.dose)
    ensures r.None? ==> forall c :: !IsCandidate(medicine, today, now, c)
  {
    var doseTimes := DoseTimes(medicine);
    if IsScheduledForDay(medicine, today) {
      var k := IndexOfFirstAfter(doseTimes, now);
      if k < |doseTimes| {
        var a := Alarm(today, doseTimes[k].time, doseTimes[k].dose);
        TodayAlarmEarliest(medicine, today, now, k);
        HeadIsFirstAtTime(medicine, k);
        return Some(a);
      }
    }
    ghost var noneToday := !IsScheduledForDay(medicine, today)
      || forall j :: 0 <= j < |doseTimes| ==> !TimeIsAfter(doseTimes[j].time, now);
    assert noneToday;
    for i := 1 to 8
      invariant doseTimes == [] || NotScheduledBefore(medicine, today, i)
    {
      var checkDate := PlusDays(today, i);
      if IsScheduledForDay(medicine, checkDate) {
        if doseTimes != [] {
          LaterAlarmEarliest(medicine, today, now, i);
          HeadIsFirstAtTime(medicine, 0);
          return Some(Alarm(checkDate, doseTimes[0].time, doseTimes[0].dose));
        }
      }
    }
    NoAlarm(medicine, today, now);
    return None;
  }

  /** In a time-sorted list the first time after now is the least time after now. */
  lemma FirstAfterIsLeast(ts: seq<DoseTime>, now: LocalTime, k: nat, j: nat)
    requires forall a, b :: 0 <= a < b < |ts| ==> ts[a].time <= ts[b].time
    requires k == IndexOfFirstAfter(ts, now) && k < |ts|
    requires j < |ts| && TimeIsAfter(ts[j].time, now)
    ensures ts[k].time <= ts[j].time
  {
  }

  /** The today branch returns the earliest candidate. */
  lemma TodayAlarmEarliest(m: Medicine, today: LocalDate, now: LocalTime, k: nat)
    requires IsScheduledForDay(m, today)
    requires k == IndexOfFirstAfter(DoseTimes(m), now) && k < |DoseTimes(m)|
    ensures IsEarliestCandidate(m, today, now, Alarm(today, DoseTimes(m)[k].time, DoseTimes(m)[k].dose))
  {
    var ts := DoseTimes(m);
    var a := Alarm(today, ts[k].time, ts[k].dose);
    DoseTimesSorted(m);
    assert ts[k] in multiset(ParsedDoseTimes(m.doses));
    assert IsCandidate(m, today, now, a);
    forall c | IsCandidate(m, today, now, c) ensures !AlarmBefore(c, a) {
      TodayCandidateNotEarlier(m, today, now, k, c);
    }
  }

  /** No candidate rings before the first dose time after now today. */
  lemma TodayCandidateNotEarlier(m: Medicine, today: LocalDate, now: LocalTime, k: nat, c: Alarm)
    requires k == IndexOfFirstAfter(DoseTimes(m), now) && k < |DoseTimes(m)|
    requires IsCandidate(m, today, now, c)
    ensures !AlarmBefore(c, Alarm(today, DoseTimes(m)[k].time, DoseTimes(m)[k].dose))
  {
    var ts := DoseTimes(m);
    EpochDayOrder(c.date, today);
    if c.date == today {
      DoseTimesSorted(m);
      CandidateInDoseTimes(m, today, now, c);
      var j :| 0 <= j < |ts| && ts[j] == DoseTime(c.dose, c.time);
      FirstAfterIsLeast(ts, now, k, j);
    }
  }

  /** None of the days today+1 .. today+(i-1) is scheduled. */
  ghost predicate NotScheduledBefore(m: Medicine, today: LocalDate, i: nat)
    decreases i
  {
    i <= 1 || (NotScheduledBefore(m, today, i - 1) && !IsScheduledForDay(m, PlusDays(today, i - 1)))
  }

  lemma {:induction false} NotScheduledBeforeAll(m: Medicine, today: LocalDate, i: nat)
    requires NotScheduledBefore(m, today, i)
    ensures forall j :: 1 <= j < i ==> !IsScheduledForDay(m, PlusDays(today, j))
    decreases i
  {
    if i > 1 {
      NotScheduledBeforeAll(m, today, i - 1);
    }
  }

  /** The loop branch at day i returns the earliest candidate. */
  lemma LaterAlarmEarliest(m: Medicine, today: LocalDate, now: LocalTime, i: nat)
    requires 1 <= i <= 7 && DoseTimes(m) != []
    requires IsScheduledForDay(m, PlusDays(today, i))
    requires !IsScheduledForDay(m, today)
      || forall j :: 0 <= j < |DoseTimes(m)| ==> !TimeIsAfter(DoseTimes(m)[j].time, now)
    requires NotScheduledBefore(m, today, i)
    ensures IsEarliestCandidate(m, today, now, Alarm(PlusDays(today, i), DoseTimes(m)[0].time, DoseTimes(m)[0].dose))
  {
    NotScheduledBeforeAll(m, today, i);
    var ts := DoseTimes(m);
    var d := PlusDays(today, i);
    var a := Alarm(d, ts[0].time, ts[0].dose);
    DoseTimesSorted(m);
    EpochDayPlus(today, i);
    assert ts[0] in multiset(ParsedDoseTimes(m.doses));
    forall c | IsCandidate(m, today, now, c) ensures !AlarmBefore(c, a) {
      LaterCandidateNotEarlier(m, today, now, i, c);
    }
  }

  /** Under the loop's hypotheses, no candidate rings before day i's first dose time. */
  lemma LaterCandidateNotEarlier(m: Medicine, today: LocalDate, now: LocalTime, i: nat, c: Alarm)
    requires 1 <= i <= 7 && DoseTimes(m) != []
    requires !IsScheduledForDay(m, today)
      || forall j :: 0 <= j < |DoseTimes(m)| ==> !TimeIsAfter(DoseTimes(m)[j].time, now)
    requires forall j :: 1 <= j < i ==> !IsScheduledForDay(m, PlusDays(today, j))
    requires IsCandidate(m, today, now, c)
    ensures !AlarmBefore(c, Alarm(PlusDays(today, i), DoseTimes(m)[0].time, DoseTimes(m)[0].dose))
  {
    var ts := DoseTimes(m);
    var d := PlusDays(today, i);
    DoseTimesSorted(m);
    EpochDayPlus(today, i);
    CandidateDate(today, c.date);
    CandidateInDoseTimes(m, today, now, c);
    var j :| 0 <= j < |ts| && ts[j] == DoseTime(c.dose, c.time);
    EpochDayOrder(c.date, d);
  }

  /** When the loop finds nothing, there is no candidate. */
  lemma NoAlarm(m: Medicine, today: LocalDate, now: LocalTime)
    requires !IsScheduledForDay(m, today)
      || forall j :: 0 <= j < |DoseTimes(m)| ==> !TimeIsAfter(DoseTimes(m)[j].time, now)
    requires DoseTimes(m) == [] || NotScheduledBefore(m, today, 8)
    ensures forall c :: !IsCandidate(m, today, now, c)
  {
    if DoseTimes(m) != [] {
      NotScheduledBeforeAll(m, today, 8);
    }
    var ts := DoseTimes(m);
    forall c | IsCandidate(m, today, now, c) ensures false {
      CandidateDate(today, c.date);
      CandidateInDoseTimes(m, today, now, c);
    }
  }

  // ---------------------------------------------------------------------
  // Consequences of the specification

  /** A candidate rings strictly after now and within a week of today. */
  lemma CandidateHorizon(m: Medicine, today: LocalDate, now: LocalTime, a: Alarm)
    requires IsCandidate(m, today, now, a)
    ensures AlarmBefore(Alarm(today, now, a.dose), a)
    ensures !IsBefore(a.date, today) && !IsAfter(a.date, PlusDays(today, 7))
  {
    EpochDayOrder(today, a.date);
    EpochDayPlus(today, 7);
    EpochDayOrder(PlusDays(today, 7), a.date);
  }

  /** If today still has a dose after now, the earliest alarm is today. */
  lemma TodayWins(m: Medicine, today: LocalDate, now: LocalTime, a: Alarm, c: Alarm)
    requires IsEarliestCandidate(m, today, now, a)
    requires IsCandidate(m, today, now, c) && c.date == today
    ensures a.date == today && a.time <= c.time
  {
    EpochDayOrder(a.date, today);
  }

  /** Any two earliest candidates ring at the same moment. */
  lemma EarliestUnique(m: Medicine, today: LocalDate, now: LocalTime, a: Alarm, b: Alarm)
    requires IsEarliestCandidate(m, today, now, a) && IsEarliestCandidate(m, today, now, b)
    ensures a.date == b.date && a.time == b.time
  {
    EpochDayOrder(a.date, b.date);
  }

  /** No parsable dose time means no alarm at all. */
  lemma CandidateNeedsTimes(m: Medicine, today: LocalDate, now: LocalTime)
    ensures (exists c :: IsCandidate(m, today, now, c)) ==> ParsedDoseTimes(m.doses) != []
  {
    forall c | IsCandidate(m, today, now, c) ensures ParsedDoseTimes(m.doses) != [] {
      assert DoseTime(c.dose, c.time) in ParsedDoseTimes(m.doses);
    }
  }

  /**
   * An alarm found at one moment is still the alarm found later the same
   * day, as long as it has not rung yet: every candidate at the later
   * moment was already a candidate at the earlier one.
   */
  lemma AlarmMonotone(m: Medicine, today: LocalDate, now1: LocalTime, now2: LocalTime, a: Alarm)
    requires now1 <= now2
    requires IsEarliestCandidate(m, today, now1, a)
    requires a.date == today ==> TimeIsAfter(a.time, now2)
    ensures IsEarliestCandidate(m, today, now2, a)
  {
    forall c | IsCandidate(m, today, now2, c) ensures IsCandidate(m, today, now1, c) {
    }
  }
}
