/**
 * The home screen's view model: reminder instances (one medicine on one
 * date), the expansion of medicine rules over the visible month padded by 15
 * days on each side, the soft-delete filter, the selected day's dose totals,
 * and the selected-date / viewed-month state.
 */
module ViewModel {
  import opened Wrappers
  import opened Text
  import opened Dates
  import opened Times
  import opened Data

  // ---------------------------------------------------------------------
  // Status lookups

  /** `statuses[key] ?: DoseStatus.PENDING`: a missing status is pending. */
  function StatusOrPending(statuses: map<string, DoseStatus>, key: string): DoseStatus {
    if key in statuses then statuses[key] else PENDING
  }

  /** The key of one dose's status in the flat status map: "instanceId-doseId". */
  function StatusKey(instanceId: string, doseId: string): string {
    instanceId + "-" + doseId
  }

  /** The ids of a list of doses. */
  function DoseIdSet(doses: seq<Dose>): set<string> {
    set i | 0 <= i < |doses| :: doses[i].id
  }

  lemma {:induction false} DoseIdSetSize(doses: seq<Dose>)
    ensures |DoseIdSet(doses)| <= |doses|
  {
    if doses != [] {
      DoseIdSetSize(doses[1..]);
      assert DoseIdSet(doses) == {doses[0].id} + DoseIdSet(doses[1..]) by {
        forall id | id in DoseIdSet(doses) ensures id in {doses[0].id} + DoseIdSet(doses[1..]) {
          var i :| 0 <= i < |doses| && doses[i].id == id;
          if i > 0 {
            assert doses[1..][i - 1].id == id;
          }
        }
        forall id | id in DoseIdSet(doses[1..]) ensures id in DoseIdSet(doses) {
          var i :| 0 <= i < |doses[1..]| && doses[1..][i].id == id;
          assert doses[i + 1].id == id;
        }
      }
    }
  }

  lemma SubsetSize<T>(a: set<T>, b: set<T>)
    requires a <= b
    ensures |a| <= |b|
    ensures a < b ==> |a| < |b|
  {
    assert b == a + (b - a);
    assert a * (b - a) == {};
  }

  // ---------------------------------------------------------------------
  // Pending dose times

  /** The doses whose instance status is pending (a missing status counts). */
  function PendingDoses(doses: seq<Dose>, statuses: map<string, DoseStatus>): (r: seq<Dose>)
    ensures forall d :: d in r <==> d in doses && StatusOrPending(statuses, d.id) == PENDING
  {
    if doses == [] then []
    else
      (if StatusOrPending(statuses, doses[0].id) == PENDING then [doses[0]] else [])
        + PendingDoses(doses[1..], statuses)
  }

  /** Every dose time is LocalTime text (LocalTime.parse would throw otherwise). */
  predicate TimesParse(doses: seq<Dose>) {
    forall i :: 0 <= i < |doses| ==> ParseTime(doses[i].time).Some?
  }

  function ParsedTimes(doses: seq<Dose>): (ts: seq<LocalTime>)
    requires TimesParse(doses)
    ensures |ts| == |doses|
    ensures forall i :: 0 <= i < |doses| ==> ParseTime(doses[i].time) == Some(ts[i])
  {
    if doses == [] then []
    else [ParseTime(doses[0].time).value] + ParsedTimes(doses[1..])
  }

  function TimesAfter(ts: seq<LocalTime>, now: LocalTime): (r: seq<LocalTime>)
    ensures forall t :: t in r <==> t in ts && TimeIsAfter(t, now)
  {
    if ts == [] then []
    else (if TimeIsAfter(ts[0], now) then [ts[0]] else []) + TimesAfter(ts[1..], now)
  }

  /** Kotlin's minOrNull on times. */
  function MinTime(ts: seq<LocalTime>): (r: Option<LocalTime>)
    ensures r.None? <==> ts == []
    ensures r.Some? ==> r.value in ts && forall t :: t in ts ==> r.value <= t
  {
    if ts == [] then None
    else
      assert forall t :: t in ts <==> t == ts[0] || t in ts[1..];
      match MinTime(ts[1..])
      case None => Some(ts[0])
      case Some(m) => Some(if m < ts[0] then m else ts[0])
  }

  // ---------------------------------------------------------------------
  // Reminder instances

  /** One medicine on one date, with the statuses of its doses keyed by dose id. */
  datatype ReminderInstance = ReminderInstance(
    instanceId: string,
    date: LocalDate,
    medicine: Medicine,
    doseStatuses: map<string, DoseStatus>)
  {
    function TakenKeys(): set<string> {
      set k | k in doseStatuses && doseStatuses[k] == TAKEN
    }

    /** takenDoseCount: the entries of the status map that are TAKEN. */
    function TakenDoseCount(): nat {
      |TakenKeys()|
    }

    predicate AllDosesTaken() {
      |doseStatuses| > 0 && forall k :: k in doseStatuses ==> doseStatuses[k] == TAKEN
    }

    predicate SomeDosesTaken() {
      (exists k :: k in doseStatuses && doseStatuses[k] == TAKEN) && !AllDosesTaken()
    }

    predicate PendingTimesParse() {
      TimesParse(PendingDoses(medicine.doses, doseStatuses))
    }

    /** The times of the doses still pending in this instance. */
    function PendingTimes(): seq<LocalTime>
      requires PendingTimesParse()
    {
      ParsedTimes(PendingDoses(medicine.doses, doseStatuses))
    }

    /**
     * getNextUpcomingDoseTime: the earliest pending time strictly after
     * `currentTime`, else the earliest pending time, else nothing.
     */
    function NextUpcomingDoseTime(currentTime: LocalTime): (r: Option<LocalTime>)
      requires PendingTimesParse()
      ensures r.None? <==> PendingTimes() == []
      ensures r.Some? ==> r.value in PendingTimes()
      ensures (exists t :: t in PendingTimes() && TimeIsAfter(t, currentTime)) ==>
                r.Some? && TimeIsAfter(r.value, currentTime)
                && forall t :: t in PendingTimes() && TimeIsAfter(t, currentTime) ==> r.value <= t
      ensures (forall t :: t in PendingTimes() ==> !TimeIsAfter(t, currentTime)) ==>
                (r.Some? ==> forall t :: t in PendingTimes() ==> r.value <= t)
    {
      var ts := PendingTimes();
      match MinTime(TimesAfter(ts, currentTime))
      case Some(t) => Some(t)
      case None => MinTime(ts)
    }
  }

  /** A pending dose contributes its parsed time. */
  lemma PendingTimeOfDose(x: ReminderInstance, dose: Dose, t: LocalTime)
    requires x.PendingTimesParse()
    requires dose in x.medicine.doses && StatusOrPending(x.doseStatuses, dose.id) == PENDING
    requires ParseTime(dose.time) == Some(t)
    ensures t in x.PendingTimes()
  {
    var pending := PendingDoses(x.medicine.doses, x.doseStatuses);
    assert dose in pending;
    var i :| 0 <= i < |pending| && pending[i] == dose;
    var ts := x.PendingTimes();
    assert ParseTime(pending[i].time) == Some(ts[i]);
  }

  /** The times in PendingTimes are exactly the parsed times of the pending doses. */
  lemma PendingTimesMembers(x: ReminderInstance, t: LocalTime)
    requires x.PendingTimesParse()
    ensures t in x.PendingTimes() <==>
      exists dose :: dose in x.medicine.doses && StatusOrPending(x.doseStatuses, dose.id) == PENDING
                     && ParseTime(dose.time) == Some(t)
  {
    var pending := PendingDoses(x.medicine.doses, x.doseStatuses);
    var ts := x.PendingTimes();
    if t in ts {
      var i :| 0 <= i < |ts| && ts[i] == t;
      assert pending[i] in pending;
    }
    forall dose | dose in x.medicine.doses && StatusOrPending(x.doseStatuses, dose.id) == PENDING
                  && ParseTime(dose.time) == Some(t)
      ensures t in ts
    {
      PendingTimeOfDose(x, dose, t);
    }
  }

  /**
   * allDosesTaken holds iff there are statuses and all are TAKEN; someDosesTaken
   * iff some but not all are; never both.
   */
  lemma TakenPredicates(x: ReminderInstance)
    ensures x.AllDosesTaken() <==> 0 < x.TakenDoseCount() == |x.doseStatuses|
    ensures x.SomeDosesTaken() <==> 0 < x.TakenDoseCount() < |x.doseStatuses|
    ensures !(x.AllDosesTaken() && x.SomeDosesTaken())
  {
    var keys := x.doseStatuses.Keys;
    var taken := x.TakenKeys();
    SubsetSize(taken, keys);
    if x.AllDosesTaken() {
      assert taken == keys;
    } else if exists k :: k in keys && x.doseStatuses[k] != TAKEN {
      var k :| k in keys && x.doseStatuses[k] != TAKEN;
      assert k !in taken;
      assert taken < keys;
    }
    if exists k :: k in x.doseStatuses && x.doseStatuses[k] == TAKEN {
      var k :| k in x.doseStatuses && x.doseStatuses[k] == TAKEN;
      assert k in taken;
    }
  }

  // ---------------------------------------------------------------------
  // Expanding medicine rules

  /** A medicine whose start and optional end date parsed. */
  datatype ParsedMedicine = ParsedMedicine(medicine: Medicine, start: LocalDate, end: Option<LocalDate>)

  /** The try block of the expander: both dates must parse or the rule is dropped. */
  function ParseMedicine(m: Medicine): (r: Option<ParsedMedicine>)
    ensures r.Some? <==> ParseDate(m.startDate).Some? && (m.endDate.Some? ==> ParseDate(m.endDate.value).Some?)
    ensures r.Some? ==>
              && r.value.medicine == m
              && ParseDate(m.startDate) == Some(r.value.start)
              && r.value.end == (if m.endDate.Some? then ParseDate(m.endDate.value) else None)
  {
    match ParseDate(m.startDate)
    case None => None
    case Some(start) =>
      match m.endDate
      case None => Some(ParsedMedicine(m, start, None))
      case Some(e) =>
        match ParseDate(e)
        case None => None
        case Some(end) => Some(ParsedMedicine(m, start, Some(end)))
  }

  /** mapNotNull over the medicines. */
  function ParseMedicines(meds: seq<Medicine>): seq<ParsedMedicine> {
    if meds == [] then []
    else
      (if ParseMedicine(meds[0]).Some? then [ParseMedicine(meds[0]).value] else [])
        + ParseMedicines(meds[1..])
  }

  /** The three filters of the expander: weekday, end date, start date. */
  predicate OccursOn(p: ParsedMedicine, d: LocalDate) {
    DayOfWeekOf(d) in p.medicine.daysOfWeek
    && (p.end.None? || !IsAfter(d, p.end.value))
    && !IsBefore(d, p.start)
  }

  /**
   * When a medicine rule appears on a date, read off its stored fields: both
   * dates are valid ISO text, d's weekday is listed, d is not before the start
   * and not after the end if there is one.
   */
  predicate AppearsOn(m: Medicine, d: LocalDate) {
    && ParseDate(m.startDate).Some?
    && (m.endDate.Some? ==> ParseDate(m.endDate.value).Some?)
    && DayOfWeekOf(d) in m.daysOfWeek
    && !IsBefore(d, ParseDate(m.startDate).value)
    && (m.endDate.Some? ==> !IsAfter(d, ParseDate(m.endDate.value).value))
  }

  /** The stable instance id "medId-YYYY-MM-DD". */
  function InstanceId(medicineId: string, d: LocalDate): string {
    medicineId + "-" + IsoDate(d)
  }

  /** The instance's status map: one entry per dose id, read from the flat map. */
  function InstanceStatuses(instanceId: string, doses: seq<Dose>, statuses: map<string, DoseStatus>)
    : map<string, DoseStatus>
  {
    map id | id in DoseIdSet(doses) :: StatusOrPending(statuses, StatusKey(instanceId, id))
  }

  function MakeInstance(m: Medicine, statuses: map<string, DoseStatus>, d: LocalDate): ReminderInstance {
    var id := InstanceId(m.id, d);
    ReminderInstance(id, d, m, InstanceStatuses(id, m.doses, statuses))
  }

  /** The instances of one date, in the order of the medicines. */
  function InstancesOn(parsed: seq<ParsedMedicine>, statuses: map<string, DoseStatus>, d: LocalDate)
    : seq<ReminderInstance>
  {
    if parsed == [] then []
    else
      (if OccursOn(parsed[0], d) then [MakeInstance(parsed[0].medicine, statuses, d)] else [])
        + InstancesOn(parsed[1..], statuses, d)
  }

  /** Reference definition: one instance per medicine that appears, medicine by medicine. */
  function InstancesOfMedicines(meds: seq<Medicine>, statuses: map<string, DoseStatus>, d: LocalDate)
    : seq<ReminderInstance>
  {
    if meds == [] then []
    else
      (if AppearsOn(meds[0], d) then [MakeInstance(meds[0], statuses, d)] else [])
        + InstancesOfMedicines(meds[1..], statuses, d)
  }

  lemma ParsedOccursIffAppears(m: Medicine, d: LocalDate)
    ensures ParseMedicine(m).Some? && OccursOn(ParseMedicine(m).value, d) <==> AppearsOn(m, d)
  {
  }

  lemma InstancesOnCons(p: ParsedMedicine, rest: seq<ParsedMedicine>, statuses: map<string, DoseStatus>, d: LocalDate)
    ensures InstancesOn([p] + rest, statuses, d)
         == (if OccursOn(p, d) then [MakeInstance(p.medicine, statuses, d)] else []) + InstancesOn(rest, statuses, d)
  {
    assert ([p] + rest)[1..] == rest;
  }

  /**
   * Dropping malformed rules first and then filtering gives exactly the
   * medicines that appear on d, in their order.
   */
  lemma {:induction false} ExpansionByMedicine(meds: seq<Medicine>, statuses: map<string, DoseStatus>, d: LocalDate)
    ensures InstancesOn(ParseMedicines(meds), statuses, d) == InstancesOfMedicines(meds, statuses, d)
  {
    if meds != [] {
      var m := meds[0];
      var rest := ParseMedicines(meds[1..]);
      ExpansionByMedicine(meds[1..], statuses, d);
      ParsedOccursIffAppears(m, d);
      if ParseMedicine(m).Some? {
        var p := ParseMedicine(m).value;
        assert ParseMedicines(meds) == [p] + rest;
        InstancesOnCons(p, rest, statuses, d);
      } else {
        assert ParseMedicines(meds) == rest;
      }
    }
  }

  /** An instance lists on d exactly when its medicine appears on d. */
  lemma {:induction false} InstancesOfMedicinesMembers(meds: seq<Medicine>, statuses: map<string, DoseStatus>, d: LocalDate)
    ensures forall x :: x in InstancesOfMedicines(meds, statuses, d) <==>
      exists m :: m in meds && AppearsOn(m, d) && x == MakeInstance(m, statuses, d)
  {
    if meds != [] {
      InstancesOfMedicinesMembers(meds[1..], statuses, d);
      assert forall m :: m in meds <==> m == meds[0] || m in meds[1..];
    }
  }

  /** A medicine whose dates do not parse never yields an instance. */
  lemma MalformedNeverAppears(m: Medicine, d: LocalDate)
    requires ParseDate(m.startDate).None? || (m.endDate.Some? && ParseDate(m.endDate.value).None?)
    ensures ParseMedicine(m).None? && !AppearsOn(m, d)
  {
  }

  /**
   * The shape of an instance: its id is the medicine id, '-', and the ISO
   * date; its status map has exactly the dose ids as keys, each holding the
   * flat status under "instanceId-doseId", or PENDING.
   */
  lemma InstanceShape(m: Medicine, statuses: map<string, DoseStatus>, d: LocalDate)
    ensures var x := MakeInstance(m, statuses, d);
      x.instanceId == m.id + "-" + IsoDate(d)
      && x.date == d && x.medicine == m
      && x.doseStatuses.Keys == DoseIdSet(m.doses)
      && forall i :: 0 <= i < |m.doses| ==>
           x.doseStatuses[m.doses[i].id] == StatusOrPending(statuses, x.instanceId + "-" + m.doses[i].id)
  {
  }

  /** Distinct in-range dates give distinct instance ids for one medicine. */
  lemma InstanceIdsDistinct(medicineId: string, d1: LocalDate, d2: LocalDate)
    requires InRange(d1) && InRange(d2) && d1 != d2
    ensures InstanceId(medicineId, d1) != InstanceId(medicineId, d2)
  {
    var p := medicineId + "-";
    if InstanceId(medicineId, d1) == InstanceId(medicineId, d2) {
      assert IsoDate(d1) == (p + IsoDate(d1))[|p|..];
      assert IsoDate(d2) == (p + IsoDate(d2))[|p|..];
      ParseIsoDate(d1);
      ParseIsoDate(d2);
    }
  }

  // ---------------------------------------------------------------------
  // Dates mapped to their instances

  /** One entry of the date-sorted map. */
  datatype DayEntry = DayEntry(date: LocalDate, instances: seq<ReminderInstance>)

  /** The entries are in strictly ascending date order (a sorted map). */
  predicate StrictlyAscending(s: seq<DayEntry>) {
    forall i, j :: 0 <= i < j < |s| ==> IsBefore(s[i].date, s[j].date)
  }

  predicate NoEmptyDays(s: seq<DayEntry>) {
    forall i :: 0 <= i < |s| ==> s[i].instances != []
  }

  /** `map[date] ?: emptyList()`. */
  function Lookup(s: seq<DayEntry>, d: LocalDate): seq<ReminderInstance> {
    if s == [] then []
    else if s[0].date == d then s[0].instances
    else Lookup(s[1..], d)
  }

  lemma {:induction false} LookupAbsent(s: seq<DayEntry>, d: LocalDate)
    requires forall i :: 0 <= i < |s| ==> s[i].date != d
    ensures Lookup(s, d) == []
  {
    if s != [] {
      LookupAbsent(s[1..], d);
    }
  }

  /** In a sorted map, looking up a listed date finds that entry. */
  lemma {:induction false} LookupFound(s: seq<DayEntry>, i: nat)
    requires StrictlyAscending(s) && i < |s|
    ensures Lookup(s, s[i].date) == s[i].instances
  {
    if i > 0 {
      assert IsBefore(s[0].date, s[i].date);
      LookupFound(s[1..], i - 1);
    }
  }

  /** A date missing from the map looks up as the empty list, and only then. */
  lemma LookupEmptyIffAbsent(s: seq<DayEntry>, d: LocalDate)
    requires StrictlyAscending(s) && NoEmptyDays(s)
    ensures Lookup(s, d) == [] <==> forall i :: 0 <= i < |s| ==> s[i].date != d
  {
    if exists i :: 0 <= i < |s| && s[i].date == d {
      var i :| 0 <= i < |s| && s[i].date == d;
      LookupFound(s, i);
    } else {
      LookupAbsent(s, d);
    }
  }

  // ---------------------------------------------------------------------
  // The visible window

  /** The visible month's first day minus 15 days. */
  function WindowStart(ym: YearMonth): LocalDate {
    MinusDays(AtDay(ym, 1), 15)
  }

  /** The visible month's last day plus 15 days. */
  function WindowEnd(ym: YearMonth): LocalDate {
    PlusDays(AtEndOfMonth(ym), 15)
  }

  predicate InWindow(ym: YearMonth, d: LocalDate) {
    !IsBefore(d, WindowStart(ym)) && !IsAfter(d, WindowEnd(ym))
  }

  /** The window covers the month and 15 days either side: length + 30 dates. */
  lemma WindowSpan(ym: YearMonth)
    ensures EpochDay(WindowStart(ym)) == EpochDay(AtDay(ym, 1)) - 15
    ensures EpochDay(WindowEnd(ym)) == EpochDay(AtEndOfMonth(ym)) + 15
    ensures EpochDay(WindowEnd(ym)) - EpochDay(WindowStart(ym)) + 1 == MonthLength(ym) + 30
  {
    EpochDayMinus(AtDay(ym, 1), 15);
    EpochDayPlus(AtEndOfMonth(ym), 15);
    MonthSpan(ym);
  }

  /** A date is in the window exactly when its epoch day is between the ends. */
  lemma InWindowByEpoch(ym: YearMonth, d: LocalDate)
    ensures InWindow(ym, d) <==> EpochDay(WindowStart(ym)) <= EpochDay(d) <= EpochDay(WindowEnd(ym))
  {
    EpochDayOrder(d, WindowStart(ym));
    EpochDayOrder(WindowEnd(ym), d);
  }

  /** Every day of the month itself lies in its window. */
  lemma MonthInWindow(ym: YearMonth, d: LocalDate)
    requires d.year == ym.year && d.month == ym.month
    ensures InWindow(ym, d)
  {
    WindowSpan(ym);
    InWindowByEpoch(ym, d);
    EpochDayOrder(d, AtDay(ym, 1));
    EpochDayOrder(AtEndOfMonth(ym), d);
  }

  /**
   * The entries a walk of n days from d records, given what each day holds
   * and how to step to the next day: each date whose list is not empty, in
   * the order visited.
   */
  ghost function WalkDays(
    dayOf: LocalDate -> seq<ReminderInstance>, next: LocalDate -> LocalDate, d: LocalDate, n: nat): seq<DayEntry>
    decreases n
  {
    if n == 0 then []
    else if dayOf(d) != [] then [DayEntry(d, dayOf(d))] + WalkDays(dayOf, next, next(d), n - 1)
    else WalkDays(dayOf, next, next(d), n - 1)
  }

  /**
   * A numbering of the days that the step advances by one and that orders
   * and tells apart dates as the calendar does; NextDay and EpochDay form one.
   */
  ghost predicate DayNumbering(next: LocalDate -> LocalDate, index: LocalDate -> int) {
    && (forall x: LocalDate :: index(next(x)) == index(x) + 1)
    && (forall x: LocalDate, y: LocalDate :: index(x) < index(y) ==> IsBefore(x, y))
    && (forall x: LocalDate, y: LocalDate :: index(x) == index(y) ==> x == y)
  }

  lemma CalendarNumbering()
    ensures DayNumbering(NextDay, EpochDay)
  {
    forall x: LocalDate ensures EpochDay(NextDay(x)) == EpochDay(x) + 1 {
      EpochDayNext(x);
    }
    forall x: LocalDate, y: LocalDate | EpochDay(x) < EpochDay(y) ensures IsBefore(x, y) {
      EpochDayOrder(x, y);
    }
    forall x: LocalDate, y: LocalDate | EpochDay(x) == EpochDay(y) ensures x == y {
      EpochDayOrder(x, y);
    }
  }

  /** The walk only records the days it visits, and never an empty one. */
  lemma {:induction false} WalkBounds(
    dayOf: LocalDate -> seq<ReminderInstance>, next: LocalDate -> LocalDate, index: LocalDate -> int,
    d: LocalDate, n: nat)
    requires DayNumbering(next, index)
    ensures var w := WalkDays(dayOf, next, d, n);
      NoEmptyDays(w) && forall i :: 0 <= i < |w| ==> index(d) <= index(w[i].date) < index(d) + n
    decreases n
  {
    if n > 0 {
      var rest := WalkDays(dayOf, next, next(d), n - 1);
      WalkBounds(dayOf, next, index, next(d), n - 1);
      if dayOf(d) != [] {
        var w := [DayEntry(d, dayOf(d))] + rest;
        assert WalkDays(dayOf, next, d, n) == w;
        forall i | 0 < i < |w| ensures w[i] == rest[i - 1] {
        }
      } else {
        assert WalkDays(dayOf, next, d, n) == rest;
      }
    }
  }

  /** The walk visits days in increasing order. */
  lemma {:induction false} WalkAscending(
    dayOf: LocalDate -> seq<ReminderInstance>, next: LocalDate -> LocalDate, index: LocalDate -> int,
    d: LocalDate, n: nat)
    requires DayNumbering(next, index)
    ensures StrictlyAscending(WalkDays(dayOf, next, d, n))
    decreases n
  {
    if n > 0 {
      var rest := WalkDays(dayOf, next, next(d), n - 1);
      WalkAscending(dayOf, next, index, next(d), n - 1);
      WalkBounds(dayOf, next, index, next(d), n - 1);
      if dayOf(d) != [] {
        var w := [DayEntry(d, dayOf(d))] + rest;
        assert WalkDays(dayOf, next, d, n) == w;
        forall i, j | 0 <= i < j < |w| ensures IsBefore(w[i].date, w[j].date) {
          assert w[j] == rest[j - 1];
          if i > 0 {
            assert w[i] == rest[i - 1];
          }
        }
      } else {
        assert WalkDays(dayOf, next, d, n) == rest;
      }
    }
  }

  /** Looking a date up in the walk finds its list exactly when the date was visited. */
  lemma {:induction false} WalkLookup(
    dayOf: LocalDate -> seq<ReminderInstance>, next: LocalDate -> LocalDate, index: LocalDate -> int,
    d: LocalDate, n: nat, x: LocalDate)
    requires DayNumbering(next, index)
    ensures Lookup(WalkDays(dayOf, next, d, n), x) == if index(d) <= index(x) < index(d) + n then dayOf(x) else []
    decreases n
  {
    if n > 0 {
      var rest := WalkDays(dayOf, next, next(d), n - 1);
      WalkLookup(dayOf, next, index, next(d), n - 1, x);
      if dayOf(d) != [] {
        assert WalkDays(dayOf, next, d, n) == [DayEntry(d, dayOf(d))] + rest;
        assert ([DayEntry(d, dayOf(d))] + rest)[1..] == rest;
      } else {
        assert WalkDays(dayOf, next, d, n) == rest;
      }
    }
  }

  /** A walk along the calendar records ascending, non-empty dates within its span. */
  lemma CalendarWalkEntries(dayOf: LocalDate -> seq<ReminderInstance>, d: LocalDate, n: nat)
    ensures var w := WalkDays(dayOf, NextDay, d, n);
      && StrictlyAscending(w) && NoEmptyDays(w)
      && forall i :: 0 <= i < |w| ==> EpochDay(d) <= EpochDay(w[i].date) < EpochDay(d) + n
  {
    CalendarNumbering();
    WalkBounds(dayOf, NextDay, EpochDay, d, n);
    WalkAscending(dayOf, NextDay, EpochDay, d, n);
  }

  /** A walk along the calendar holds a date's list exactly when the date is within its span. */
  lemma CalendarWalkLookup(dayOf: LocalDate -> seq<ReminderInstance>, d: LocalDate, n: nat, x: LocalDate)
    ensures Lookup(WalkDays(dayOf, NextDay, d, n), x)
      == if EpochDay(d) <= EpochDay(x) < EpochDay(d) + n then dayOf(x) else []
  {
    CalendarNumbering();
    WalkLookup(dayOf, NextDay, EpochDay, d, n, x);
  }

  /** While d is not after e, n steps from d land just past e only when one more step is left from the next day. */
  lemma ReachStep(d: LocalDate, e: LocalDate, n: nat)
    requires PlusDays(d, n) == NextDay(e) && !IsAfter(d, e)
    ensures n > 0 && PlusDays(NextDay(d), n - 1) == NextDay(e)
  {
    EpochDayPlus(d, n);
    EpochDayNext(e);
    EpochDayOrder(e, d);
  }

  /** Once d is after e, n steps from d land just past e only for n = 0. */
  lemma ReachEnd(d: LocalDate, e: LocalDate, n: nat)
    requires PlusDays(d, n) == NextDay(e) && IsAfter(d, e)
    ensures n == 0
  {
    EpochDayPlus(d, n);
    EpochDayNext(e);
    EpochDayOrder(e, d);
  }

  /** From the window's first day, length + 30 steps land on the day after its last. */
  lemma WindowReach(ym: YearMonth)
    ensures PlusDays(WindowStart(ym), MonthLength(ym) + 30) == NextDay(WindowEnd(ym))
  {
    WindowSpan(ym);
    EpochDayPlus(WindowStart(ym), MonthLength(ym) + 30);
    EpochDayNext(WindowEnd(ym));
    EpochDayInjective(PlusDays(WindowStart(ym), MonthLength(ym) + 30), NextDay(WindowEnd(ym)));
  }

  /** One step of a walk along the calendar, after the entries already recorded. */
  lemma WalkAdvance(
    dayOf: LocalDate -> seq<ReminderInstance>, done: seq<DayEntry>, d: LocalDate, n: nat, total: seq<DayEntry>)
    requires n > 0 && done + WalkDays(dayOf, NextDay, d, n) == total
    ensures dayOf(d) == [] ==> done + WalkDays(dayOf, NextDay, NextDay(d), n - 1) == total
    ensures dayOf(d) != [] ==> (done + [DayEntry(d, dayOf(d))]) + WalkDays(dayOf, NextDay, NextDay(d), n - 1) == total
  {
    var rest := WalkDays(dayOf, NextDay, NextDay(d), n - 1);
    if dayOf(d) != [] {
      assert done + ([DayEntry(d, dayOf(d))] + rest) == (done + [DayEntry(d, dayOf(d))]) + rest;
    }
  }

  /** A walk of no days adds nothing. */
  lemma WalkEnd(dayOf: LocalDate -> seq<ReminderInstance>, done: seq<DayEntry>, d: LocalDate)
    ensures done + WalkDays(dayOf, NextDay, d, 0) == done
  {
    assert done + [] == done;
  }

  /** The walk over the window records dates of the window only, in ascending order, none empty. */
  lemma WindowEntries(dayOf: LocalDate -> seq<ReminderInstance>, ym: YearMonth)
    ensures var r := WalkDays(dayOf, NextDay, WindowStart(ym), MonthLength(ym) + 30);
      StrictlyAscending(r) && NoEmptyDays(r) && forall i :: 0 <= i < |r| ==> InWindow(ym, r[i].date)
  {
    var r := WalkDays(dayOf, NextDay, WindowStart(ym), MonthLength(ym) + 30);
    WindowSpan(ym);
    CalendarWalkEntries(dayOf, WindowStart(ym), MonthLength(ym) + 30);
    forall i | 0 <= i < |r| ensures InWindow(ym, r[i].date) {
      InWindowByEpoch(ym, r[i].date);
    }
  }

  /** In the walk over the window a date finds its list exactly when it lies in the window. */
  lemma WindowLookup(dayOf: LocalDate -> seq<ReminderInstance>, ym: YearMonth, d: LocalDate)
    ensures Lookup(WalkDays(dayOf, NextDay, WindowStart(ym), MonthLength(ym) + 30), d)
      == if InWindow(ym, d) then dayOf(d) else []
  {
    WindowSpan(ym);
    CalendarWalkLookup(dayOf, WindowStart(ym), MonthLength(ym) + 30, d);
    InWindowByEpoch(ym, d);
  }

  /** Walking the whole window gives the method's contract. */
  lemma GroupDone(r: seq<DayEntry>, dayOf: LocalDate -> seq<ReminderInstance>, ym: YearMonth)
    requires r == WalkDays(dayOf, NextDay, WindowStart(ym), MonthLength(ym) + 30)
    ensures StrictlyAscending(r) && NoEmptyDays(r)
    ensures forall i :: 0 <= i < |r| ==> InWindow(ym, r[i].date)
    ensures forall d: LocalDate :: Lookup(r, d) == (if InWindow(ym, d) then dayOf(d) else [])
  {
    WindowEntries(dayOf, ym);
    forall d: LocalDate ensures Lookup(r, d) == (if InWindow(ym, d) then dayOf(d) else []) {
      WindowLookup(dayOf, ym, d);
    }
  }

  /** dayOf gives each date's instances. */
  ghost predicate Expands(
    dayOf: LocalDate -> seq<ReminderInstance>, parsed: seq<ParsedMedicine>, statuses: map<string, DoseStatus>)
  {
    forall x {:trigger InstancesOn(parsed, statuses, x)} :: dayOf(x) == InstancesOn(parsed, statuses, x)
  }

  /** Some function gives each date's instances: the expander itself. */
  lemma ExpandsExists(parsed: seq<ParsedMedicine>, statuses: map<string, DoseStatus>)
    ensures exists dayOf :: Expands(dayOf, parsed, statuses)
  {
    var f: LocalDate -> seq<ReminderInstance> := (d: LocalDate) => InstancesOn(parsed, statuses, d);
    assert Expands(f, parsed, statuses);
  }

  /** Reading one date off a function that gives each date's instances. */
  lemma ExpandsAt(
    dayOf: LocalDate -> seq<ReminderInstance>, parsed: seq<ParsedMedicine>, statuses: map<string, DoseStatus>, d: LocalDate)
    requires Expands(dayOf, parsed, statuses)
    ensures dayOf(d) == InstancesOn(parsed, statuses, d)
  {
  }

  /**
   * groupRemindersByVisibleMonth: walks the window a day at a time and
   * records each date that has instances, in ascending date order.
   */
  method GroupRemindersByVisibleMonth(
    medicines: seq<Medicine>, doseStatuses: map<string, DoseStatus>, visibleMonth: YearMonth)
    returns (reminders: seq<DayEntry>)
    ensures StrictlyAscending(reminders) && NoEmptyDays(reminders)
    ensures forall i :: 0 <= i < |reminders| ==> InWindow(visibleMonth, reminders[i].date)
    ensures forall d: LocalDate ::
      Lookup(reminders, d)
        == (if InWindow(visibleMonth, d) then InstancesOn(ParseMedicines(medicines), doseStatuses, d) else [])
  {
    var parsed := ParseMedicines(medicines);
    ExpandsExists(parsed, doseStatuses);
    ghost var dayOf :| Expands(dayOf, parsed, doseStatuses);
    var startPeriod := WindowStart(visibleMonth);
    var endPeriod := WindowEnd(visibleMonth);
    ghost var total := MonthLength(visibleMonth) + 30;
    WindowReach(visibleMonth);
    reminders := GroupDays(parsed, doseStatuses, dayOf, startPeriod, endPeriod, total);
    GroupDone(reminders, dayOf, visibleMonth);
  }

  /**
   * The while loop of groupRemindersByVisibleMonth: from startPeriod up to
   * endPeriod a day at a time, recording each date that has instances.
   * dayOf stands for the day's expansion; total is the number of days walked.
   */
  method GroupDays(parsed: seq<ParsedMedicine>, doseStatuses: map<string, DoseStatus>,
    ghost dayOf: LocalDate -> seq<ReminderInstance>, startPeriod: LocalDate, endPeriod: LocalDate, ghost total: nat)
    returns (reminders: seq<DayEntry>)
    requires Expands(dayOf, parsed, doseStatuses)
    requires PlusDays(startPeriod, total) == NextDay(endPeriod)
    ensures reminders == WalkDays(dayOf, NextDay, startPeriod, total)
  {
    reminders := [];
    var currentDate := startPeriod;
    ghost var n: nat := total;
    ghost var walk := WalkDays(dayOf, NextDay, startPeriod, total);
    while !IsAfter(currentDate, endPeriod)
      invariant PlusDays(currentDate, n) == NextDay(endPeriod)
      invariant reminders + WalkDays(dayOf, NextDay, currentDate, n) == walk
      decreases n
    {
      ReachStep(currentDate, endPeriod, n);
      WalkAdvance(dayOf, reminders, currentDate, n, walk);
      var remindersForDate := InstancesOn(parsed, doseStatuses, currentDate);
      ExpandsAt(dayOf, parsed, doseStatuses, currentDate);
      if remindersForDate != [] {
        reminders := reminders + [DayEntry(currentDate, remindersForDate)];
      }
      currentDate := NextDay(currentDate);
      n := n - 1;
    }
    ReachEnd(currentDate, endPeriod, n);
    WalkEnd(dayOf, reminders, currentDate);
  }

  // ---------------------------------------------------------------------
  // Soft deletion and totals

  /** `filterNot { it.instanceId in deletedIds }`. */
  function WithoutDeleted(xs: seq<ReminderInstance>, deletedIds: set<string>): (r: seq<ReminderInstance>)
    ensures |r| <= |xs|
    ensures forall x :: x in r <==> x in xs && x.instanceId !in deletedIds
  {
    if xs == [] then []
    else
      (if xs[0].instanceId in deletedIds then [] else [xs[0]]) + WithoutDeleted(xs[1..], deletedIds)
  }

  /** filterNot keeps order: filtering a concatenation concatenates the filtered parts. */
  lemma {:induction false} WithoutDeletedAppend(a: seq<ReminderInstance>, b: seq<ReminderInstance>, deletedIds: set<string>)
    ensures WithoutDeleted(a + b, deletedIds) == WithoutDeleted(a, deletedIds) + WithoutDeleted(b, deletedIds)
  {
    if a == [] {
      assert a + b == b;
    } else {
      assert (a + b)[0] == a[0] && (a + b)[1..] == a[1..] + b;
      WithoutDeletedAppend(a[1..], b, deletedIds);
    }
  }

  /** filterNot keeps every copy of a kept instance and no copy of a deleted one. */
  lemma {:induction false} WithoutDeletedCount(xs: seq<ReminderInstance>, deletedIds: set<string>, x: ReminderInstance)
    ensures multiset(WithoutDeleted(xs, deletedIds))[x] == if x.instanceId in deletedIds then 0 else multiset(xs)[x]
  {
    if xs != [] {
      WithoutDeletedCount(xs[1..], deletedIds, x);
      assert xs == [xs[0]] + xs[1..];
    }
  }

  /** A list none of whose ids is deleted is left as it is. */
  lemma {:induction false} WithoutDeletedKeepsAll(xs: seq<ReminderInstance>, deletedIds: set<string>)
    requires forall j :: 0 <= j < |xs| ==> xs[j].instanceId !in deletedIds
    ensures WithoutDeleted(xs, deletedIds) == xs
  {
    if xs != [] {
      WithoutDeletedKeepsAll(xs[1..], deletedIds);
      assert xs == [xs[0]] + xs[1..];
    }
  }

  /** No two instances of the list share an id. */
  predicate DistinctIds(xs: seq<ReminderInstance>) {
    forall i, j :: 0 <= i < j < |xs| ==> xs[i].instanceId != xs[j].instanceId
  }

  /** Filtering the list is filtering its first i instances, then the others. */
  lemma WithoutDeletedSplit(xs: seq<ReminderInstance>, i: nat, deletedIds: set<string>)
    requires i <= |xs|
    ensures WithoutDeleted(xs, deletedIds) == WithoutDeleted(xs[..i], deletedIds) + WithoutDeleted(xs[i..], deletedIds)
  {
    assert xs == xs[..i] + xs[i..];
    WithoutDeletedAppend(xs[..i], xs[i..], deletedIds);
  }

  /** No instance before i has a deleted id: the first i instances are kept as they are. */
  lemma WithoutDeletedKeepsPrefix(xs: seq<ReminderInstance>, i: nat, deletedIds: set<string>)
    requires i <= |xs|
    requires forall j :: 0 <= j < i ==> xs[j].instanceId !in deletedIds
    ensures WithoutDeleted(xs[..i], deletedIds) == xs[..i]
  {
    var before := xs[..i];
    assert forall j :: 0 <= j < |before| ==> before[j] == xs[j];
    WithoutDeletedKeepsAll(before, deletedIds);
  }

  /** Instance i has a deleted id and none after it has: from i on, only instance i goes. */
  lemma WithoutDeletedDropsAt(xs: seq<ReminderInstance>, i: nat, deletedIds: set<string>)
    requires i < |xs| && xs[i].instanceId in deletedIds
    requires forall j :: i < j < |xs| ==> xs[j].instanceId !in deletedIds
    ensures WithoutDeleted(xs[i..], deletedIds) == xs[i + 1..]
  {
    var from, after := xs[i..], xs[i + 1..];
    assert from[0] == xs[i] && from[1..] == after;
    assert forall j :: 0 <= j < |after| ==> after[j] == xs[i + 1 + j];
    WithoutDeletedKeepsAll(after, deletedIds);
  }

  /** When only instance i has a deleted id, filtering cuts out instance i and keeps the rest in order. */
  lemma WithoutDeletedAt(xs: seq<ReminderInstance>, i: nat, deletedIds: set<string>)
    requires i < |xs| && xs[i].instanceId in deletedIds
    requires forall j :: 0 <= j < |xs| && j != i ==> xs[j].instanceId !in deletedIds
    ensures WithoutDeleted(xs, deletedIds) == xs[..i] + xs[i + 1..]
  {
    WithoutDeletedSplit(xs, i, deletedIds);
    WithoutDeletedKeepsPrefix(xs, i, deletedIds);
    WithoutDeletedDropsAt(xs, i, deletedIds);
  }

  /**
   * With distinct ids, dropping the id of instance i cuts exactly that
   * instance out, the others keeping their order.
   */
  lemma WithoutDeletedDistinct(xs: seq<ReminderInstance>, i: nat)
    requires i < |xs| && DistinctIds(xs)
    ensures WithoutDeleted(xs, {xs[i].instanceId}) == xs[..i] + xs[i + 1..]
  {
    WithoutDeletedAt(xs, i, {xs[i].instanceId});
  }

  /** mapValues(filterNot deleted) then filterValues(isNotEmpty). */
  function FilterDeleted(s: seq<DayEntry>, deletedIds: set<string>): seq<DayEntry> {
    if s == [] then []
    else
      var kept := WithoutDeleted(s[0].instances, deletedIds);
      (if kept != [] then [DayEntry(s[0].date, kept)] else []) + FilterDeleted(s[1..], deletedIds)
  }

  predicate AllAfter(s: seq<DayEntry>, d: LocalDate) {
    forall i :: 0 <= i < |s| ==> IsBefore(d, s[i].date)
  }

  lemma {:induction false} FilterDeletedAfter(s: seq<DayEntry>, deletedIds: set<string>, d: LocalDate)
    requires AllAfter(s, d)
    ensures AllAfter(FilterDeleted(s, deletedIds), d)
  {
    if s != [] {
      FilterDeletedAfter(s[1..], deletedIds, d);
    }
  }

  /**
   * The deletion filter keeps the map sorted, drops every deleted instance
   * and every date left empty, and per date removes exactly the deleted ids.
   */
  lemma {:induction false} FilterDeletedCorrect(s: seq<DayEntry>, deletedIds: set<string>)
    requires StrictlyAscending(s)
    ensures var r := FilterDeleted(s, deletedIds);
      StrictlyAscending(r) && NoEmptyDays(r)
      && (forall i, x :: 0 <= i < |r| && x in r[i].instances ==> x.instanceId !in deletedIds)
      && forall d: LocalDate :: Lookup(r, d) == WithoutDeleted(Lookup(s, d), deletedIds)
  {
    if s != [] {
      var rest := FilterDeleted(s[1..], deletedIds);
      FilterDeletedCorrect(s[1..], deletedIds);
      var kept := WithoutDeleted(s[0].instances, deletedIds);
      assert AllAfter(s[1..], s[0].date) by {
        forall i | 0 <= i < |s[1..]| ensures IsBefore(s[0].date, s[1..][i].date) {
          assert s[1..][i] == s[i + 1];
        }
      }
      FilterDeletedAfter(s[1..], deletedIds, s[0].date);
      var r := FilterDeleted(s, deletedIds);
      var head := DayEntry(s[0].date, kept);
      assert r == (if kept != [] then [head] else []) + rest;
      if kept != [] {
        assert r[1..] == rest;
        forall i, j | 0 <= i < j < |r| ensures IsBefore(r[i].date, r[j].date) {
          if i > 0 {
            assert r[i] == rest[i - 1] && r[j] == rest[j - 1];
          } else {
            assert r[j] == rest[j - 1];
          }
        }
        forall i | 0 <= i < |r| ensures r[i].instances != [] {
          if i > 0 { assert r[i] == rest[i - 1]; }
        }
      }
      forall d: LocalDate ensures Lookup(r, d) == WithoutDeleted(Lookup(s, d), deletedIds) {
        FilterDeletedLookup(s, deletedIds, d);
      }
    }
  }

  lemma {:induction false} FilterDeletedLookup(s: seq<DayEntry>, deletedIds: set<string>, d: LocalDate)
    requires StrictlyAscending(s)
    ensures Lookup(FilterDeleted(s, deletedIds), d) == WithoutDeleted(Lookup(s, d), deletedIds)
  {
    if s != [] {
      var rest := FilterDeleted(s[1..], deletedIds);
      var kept := WithoutDeleted(s[0].instances, deletedIds);
      var r := FilterDeleted(s, deletedIds);
      var head := DayEntry(s[0].date, kept);
      assert r == (if kept != [] then [head] else []) + rest;
      if d == s[0].date {
        if kept == [] {
          assert AllAfter(s[1..], s[0].date) by {
            forall i | 0 <= i < |s[1..]| ensures IsBefore(s[0].date, s[1..][i].date) {
              assert s[1..][i] == s[i + 1];
            }
          }
          FilterDeletedAfter(s[1..], deletedIds, s[0].date);
          assert forall i :: 0 <= i < |rest| ==> rest[i].date != d;
          LookupAbsent(rest, d);
          assert Lookup(s, d) == s[0].instances;
          assert r == rest;
        }
      } else {
        FilterDeletedLookup(s[1..], deletedIds, d);
        assert Lookup(s, d) == Lookup(s[1..], d);
        if kept != [] {
          assert r[0] == head && r[1..] == rest;
          assert Lookup(r, d) == Lookup(rest, d);
        }
      }
    }
  }

  /** sumOf { it.medicine.doses.size }. */
  function TotalDoseCount(xs: seq<ReminderInstance>): nat {
    if xs == [] then 0 else |xs[0].medicine.doses| + TotalDoseCount(xs[1..])
  }

  /** sumOf { it.takenDoseCount }. */
  function TakenDoseSum(xs: seq<ReminderInstance>): nat {
    if xs == [] then 0 else xs[0].TakenDoseCount() + TakenDoseSum(xs[1..])
  }

  /** The status map speaks only of the medicine's own doses. */
  predicate StatusesCoverDoses(x: ReminderInstance) {
    x.doseStatuses.Keys <= DoseIdSet(x.medicine.doses)
  }

  lemma {:induction false} TakenAtMostTotal(xs: seq<ReminderInstance>)
    requires forall x :: x in xs ==> StatusesCoverDoses(x)
    ensures TakenDoseSum(xs) <= TotalDoseCount(xs)
  {
    if xs != [] {
      var x := xs[0];
      assert x in xs;
      assert forall y :: y in xs[1..] ==> y in xs;
      SubsetSize(x.TakenKeys(), x.doseStatuses.Keys);
      SubsetSize(x.doseStatuses.Keys, DoseIdSet(x.medicine.doses));
      DoseIdSetSize(x.medicine.doses);
      TakenAtMostTotal(xs[1..]);
    }
  }

  /** Every instance of a date is the instance of a rule that occurs on it. */
  lemma {:induction false} InstancesOnMembers(parsed: seq<ParsedMedicine>, statuses: map<string, DoseStatus>, d: LocalDate)
    ensures forall x :: x in InstancesOn(parsed, statuses, d) ==>
      exists p :: p in parsed && OccursOn(p, d) && x == MakeInstance(p.medicine, statuses, d)
  {
    if parsed != [] {
      InstancesOnMembers(parsed[1..], statuses, d);
      assert forall p :: p in parsed[1..] ==> p in parsed;
    }
  }

  lemma InstancesCoverDoses(parsed: seq<ParsedMedicine>, statuses: map<string, DoseStatus>, d: LocalDate)
    ensures forall x :: x in InstancesOn(parsed, statuses, d) ==> StatusesCoverDoses(x)
  {
    InstancesOnMembers(parsed, statuses, d);
    forall x | x in InstancesOn(parsed, statuses, d) ensures StatusesCoverDoses(x) {
      var p :| p in parsed && OccursOn(p, d) && x == MakeInstance(p.medicine, statuses, d);
      assert x.doseStatuses.Keys == DoseIdSet(x.medicine.doses);
    }
  }

  // ---------------------------------------------------------------------
  // State

  /** HomeUiState without the clock-read default of selectedDate. */
  datatype HomeUiState = HomeUiState(
    selectedDate: LocalDate,
    takenDoseCountToday: nat,
    todaysDoseCount: nat,
    remindersByDate: seq<DayEntry>,
    isLoading: bool)

  /** The view model's own state: the selected date and the viewed month. */
  class MedicineViewModel {
    var selectedDate: LocalDate
    var viewedMonth: YearMonth

    /** The viewed month is the month of the selected date. */
    predicate Valid()
      reads this
    {
      viewedMonth == YearMonthFrom(selectedDate)
    }

    /** Both start from the clock: `today` is LocalDate.now(). */
    constructor(today: LocalDate)
      ensures selectedDate == today && viewedMonth == YearMonthFrom(today)
      ensures Valid()
    {
      selectedDate := today;
      viewedMonth := YearMonthFrom(today);
    }

    method OnDateSelected(date: LocalDate)
      modifies this
      ensures selectedDate == date && viewedMonth == YearMonthFrom(date)
      ensures Valid()
    {
      selectedDate := date;
      viewedMonth := YearMonthFrom(date);
    }

    method OnMonthChanged(newMonth: YearMonth)
      modifies this
      ensures viewedMonth == newMonth && selectedDate == AtDay(newMonth, 1)
      ensures Valid()
    {
      viewedMonth := newMonth;
      selectedDate := AtDay(newMonth, 1);
    }

    /**
     * The body of the `combine` block: expand the viewed month, drop deleted
     * instances and empty dates, and total the selected date's doses.
     */
    method CombineHomeUiState(
      medicines: seq<Medicine>, deletedIds: set<string>, doseStatuses: map<string, DoseStatus>)
      returns (state: HomeUiState)
      ensures state.selectedDate == selectedDate && !state.isLoading
      ensures StrictlyAscending(state.remindersByDate) && NoEmptyDays(state.remindersByDate)
      ensures forall i, x :: 0 <= i < |state.remindersByDate| && x in state.remindersByDate[i].instances ==>
                x.instanceId !in deletedIds
      ensures forall d: LocalDate :: Lookup(state.remindersByDate, d) ==
                if InWindow(viewedMonth, d)
                then WithoutDeleted(InstancesOn(ParseMedicines(medicines), doseStatuses, d), deletedIds)
                else []
      ensures state.todaysDoseCount == TotalDoseCount(Lookup(state.remindersByDate, selectedDate))
      ensures state.takenDoseCountToday == TakenDoseSum(Lookup(state.remindersByDate, selectedDate))
      ensures state.takenDoseCountToday <= state.todaysDoseCount
      ensures Valid() ==>
                Lookup(state.remindersByDate, selectedDate)
                == WithoutDeleted(InstancesOn(ParseMedicines(medicines), doseStatuses, selectedDate), deletedIds)
    {
      var remindersByDate := GroupRemindersByVisibleMonth(medicines, doseStatuses, viewedMonth);
      var filtered := FilterDeleted(remindersByDate, deletedIds);
      FilterDeletedCorrect(remindersByDate, deletedIds);
      var forSelectedDate := Lookup(filtered, selectedDate);
      InstancesCoverDoses(ParseMedicines(medicines), doseStatuses, selectedDate);
      TakenAtMostTotal(forSelectedDate);
      if Valid() {
        MonthInWindow(viewedMonth, selectedDate);
      }
      state := HomeUiState(selectedDate, TakenDoseSum(forSelectedDate), TotalDoseCount(forSelectedDate), filtered, false);
    }
  }
}
