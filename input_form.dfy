/**
 * The add-reminder form: its editable state (name, quantity, dose type,
 * dose times, weekdays, one-time switch), the handlers that change it, the
 * completeness tests that unlock its sections and its submit button, and
 * the Medicine it builds on submit. The clock (LocalDate.now) and the
 * random UUIDs are parameters of the submit.
 */
module InputForm {
  import opened Wrappers
  import opened Text
  import opened Dates
  import opened Times
  import opened Data
  import opened Sorting
  import opened ViewModel
  import opened ListItem

  // ---------------------------------------------------------------------
  // List edits

  /** Kotlin's `list - x` and MutableList.remove(x): drop the first occurrence, if any. */
  function RemoveFirst<T(==)>(s: seq<T>, x: T): (r: seq<T>)
    ensures x !in s ==> r == s
    ensures |r| == if x in s then |s| - 1 else |s|
    ensures multiset(r) == multiset(s) - multiset{x}
  {
    if s == [] then []
    else if s[0] == x then
      assert s == [s[0]] + s[1..];
      s[1..]
    else
      assert s == [s[0]] + s[1..];
      [s[0]] + RemoveFirst(s[1..], x)
  }

  /**
   * What is left is the list with its first occurrence of x cut out: the
   * elements before and after it keep their order.
   */
  lemma {:induction false} RemoveFirstAt<T>(s: seq<T>, x: T, i: nat)
    requires i < |s| && s[i] == x && x !in s[..i]
    ensures RemoveFirst(s, x) == s[..i] + s[i + 1..]
  {
    if i == 0 {
      assert s[..i] + s[i + 1..] == s[1..];
    } else {
      var t := s[1..];
      var before, after := t[..i - 1], t[i..];
      assert s[..i] == [s[0]] + before && s[i + 1..] == after;
      assert s[0] != x;
      assert RemoveFirst(t, x) == before + after by {
        RemoveFirstAt(t, x, i - 1);
      }
      assert [s[0]] + (before + after) == s[..i] + s[i + 1..] by {
        assert [s[0]] + (before + after) == ([s[0]] + before) + after;
      }
    }
  }

  /** A list starting with d has no repeats iff d is not in the rest and the rest has none. */
  lemma NoRepeatsCons(d: DayOfWeek, s: seq<DayOfWeek>)
    ensures NoRepeats([d] + s) <==> d !in s && NoRepeats(s)
  {
    var t := [d] + s;
    if NoRepeats(t) {
      forall i, j | 0 <= i < j < |s| ensures s[i] != s[j] {
        assert s[i] == t[i + 1] && s[j] == t[j + 1];
      }
      forall k | 0 <= k < |s| ensures s[k] != d {
        assert s[k] == t[k + 1] && t[0] == d;
      }
    }
    if d !in s && NoRepeats(s) {
      forall i, j | 0 <= i < j < |t| ensures t[i] != t[j] {
        assert t[j] == s[j - 1];
        if i > 0 {
          assert t[i] == s[i - 1];
        }
      }
    }
  }

  /** Removing a day from a list without repeats leaves the other days, still without repeats. */
  lemma {:induction false} RemoveFirstDays(days: seq<DayOfWeek>, day: DayOfWeek)
    requires NoRepeats(days)
    ensures NoRepeats(RemoveFirst(days, day))
    ensures forall x :: x in RemoveFirst(days, day) <==> x in days && x != day
  {
    if days != [] {
      assert days == [days[0]] + days[1..];
      NoRepeatsCons(days[0], days[1..]);
      if days[0] != day {
        var rest := RemoveFirst(days[1..], day);
        RemoveFirstDays(days[1..], day);
        NoRepeatsCons(days[0], rest);
      }
    }
  }

  /** onDaySelected: a selected day is removed, any other is appended. */
  function ToggledDays(days: seq<DayOfWeek>, day: DayOfWeek): (r: seq<DayOfWeek>)
    ensures NoRepeats(days) ==> NoRepeats(r)
    ensures NoRepeats(days) ==> forall x :: x in r <==> (x in days <==> x != day)
  {
    if day in days then
      if NoRepeats(days) then
        RemoveFirstDays(days, day);
        RemoveFirst(days, day)
      else RemoveFirst(days, day)
    else
      assert NoRepeats(days) ==> NoRepeats(days + [day]) by {
        if NoRepeats(days) {
          var s := days + [day];
          forall i, j | 0 <= i < j < |s| ensures s[i] != s[j] {
            if j == |days| {
              assert s[i] == days[i];
            }
          }
        }
      }
      days + [day]
  }

  /**
   * Toggling a day twice leaves the same set of days; the list itself comes
   * back when the day was not selected, while a selected day moves to the end.
   */
  lemma ToggleTwice(days: seq<DayOfWeek>, day: DayOfWeek)
    requires NoRepeats(days)
    ensures DaySet(ToggledDays(ToggledDays(days, day), day)) == DaySet(days)
    ensures day !in days ==> ToggledDays(ToggledDays(days, day), day) == days
  {
    var once := ToggledDays(days, day);
    var twice := ToggledDays(once, day);
    assert DaySet(twice) == DaySet(days) by {
      forall x ensures x in DaySet(twice) <==> x in DaySet(days) {
        assert x in twice <==> x in days;
      }
    }
    if day !in days {
      RemoveFirstAppended(days, day);
    }
  }

  /** Removing a value just appended to a list without it gives the list back. */
  lemma {:induction false} RemoveFirstAppended<T>(s: seq<T>, x: T)
    requires x !in s
    ensures RemoveFirst(s + [x], x) == s
  {
    if s == [] {
      assert [] + [x] == [x];
    } else {
      assert (s + [x])[0] == s[0] && (s + [x])[1..] == s[1..] + [x];
      RemoveFirstAppended(s[1..], x);
      assert s == [s[0]] + s[1..];
    }
  }

  /** The chips of the dose times, `selectedTimes.sorted()`. */
  function TimeOrderKey(t: LocalTime): seq<int> {
    [t as int]
  }

  function ShownTimes(times: seq<LocalTime>): seq<LocalTime> {
    SortBy(times, TimeOrderKey)
  }

  /** The chips show every selected time as often as it was added, earliest first. */
  lemma ShownTimesSorted(times: seq<LocalTime>)
    ensures multiset(ShownTimes(times)) == multiset(times)
    ensures forall i, j :: 0 <= i < j < |ShownTimes(times)| ==> ShownTimes(times)[i] <= ShownTimes(times)[j]
  {
    var s := ShownTimes(times);
    SortByCorrect(times, TimeOrderKey);
    forall i, j | 0 <= i < j < |s| ensures s[i] <= s[j] {
      assert LexLeq(TimeOrderKey(s[i]), TimeOrderKey(s[j]));
      LexLeqSingleton(s[i], s[j]);
    }
  }

  // ---------------------------------------------------------------------
  // Completeness

  /** isDetailsComplete: a non-blank name, a positive quantity and a non-blank dose type. */
  predicate DetailsComplete(name: string, quantity: int, doseType: string) {
    !IsBlank(name) && quantity > 0 && !IsBlank(doseType)
  }

  /** isScheduleComplete: a one-time reminder, or at least one weekday. */
  predicate ScheduleComplete(oneTime: bool, days: seq<DayOfWeek>) {
    oneTime || |days| > 0
  }

  /** isFormComplete: both sections complete and at least one dose time. */
  predicate FormComplete(name: string, quantity: int, doseType: string, times: seq<LocalTime>,
                         days: seq<DayOfWeek>, oneTime: bool) {
    DetailsComplete(name, quantity, doseType) && ScheduleComplete(oneTime, days) && |times| > 0
  }

  // ---------------------------------------------------------------------
  // The medicine a submit builds

  /**
   * The Medicine of the submit handler: a one-time reminder runs on today's
   * weekday and ends today; a repeating one runs on the selected days with
   * no end. Dose k gets the k-th fresh id and the k-th time's text.
   */
  function BuildMedicine(name: string, quantity: int, doseType: string, times: seq<LocalTime>,
                         days: seq<DayOfWeek>, oneTime: bool,
                         today: LocalDate, id: string, doseIds: seq<string>): (m: Medicine)
    requires |doseIds| == |times|
    ensures m.id == id && m.name == name
    ensures m.dosage == IntToString(quantity) + " " + doseType
    ensures |m.doses| == |times|
    ensures forall k :: 0 <= k < |times| ==> m.doses[k].id == doseIds[k] && ParseTime(m.doses[k].time) == Some(times[k])
    ensures InRange(today) ==> ParseDate(m.startDate) == Some(today)
    ensures oneTime ==> m.daysOfWeek == [DayOfWeekOf(today)] && m.endDate.Some?
    ensures oneTime && InRange(today) ==> ParseDate(m.endDate.value) == Some(today)
    ensures !oneTime ==> m.daysOfWeek == days && m.endDate.None?
  {
    TodayText(today);
    TimeTexts(times);
    Medicine(
      id,
      name,
      IntToString(quantity) + " " + doseType,
      seq(|times|, k requires 0 <= k < |times| => Dose(doseIds[k], TimeToString(times[k]))),
      if oneTime then [DayOfWeekOf(today)] else days,
      IsoDate(today),
      if oneTime then Some(IsoDate(today)) else None)
  }

  lemma TodayText(today: LocalDate)
    ensures InRange(today) ==> ParseDate(IsoDate(today)) == Some(today)
  {
    if InRange(today) {
      ParseIsoDate(today);
    }
  }

  lemma TimeTexts(times: seq<LocalTime>)
    ensures forall k :: 0 <= k < |times| ==> ParseTime(TimeToString(times[k])) == Some(times[k])
  {
    forall k | 0 <= k < |times| ensures ParseTime(TimeToString(times[k])) == Some(times[k]) {
      ParseTimeText(times[k]);
    }
  }

  /** A one-time reminder's medicine parses and falls on today and on no other day. */
  lemma OneTimeOnlyToday(name: string, quantity: int, doseType: string, times: seq<LocalTime>,
                         days: seq<DayOfWeek>, today: LocalDate, id: string, doseIds: seq<string>, d: LocalDate)
    requires |doseIds| == |times| && InRange(today)
    ensures var p := ParseMedicine(BuildMedicine(name, quantity, doseType, times, days, true, today, id, doseIds));
            p.Some? && (OccursOn(p.value, d) <==> d == today)
  {
    EpochDayOrder(d, today);
    EpochDayOrder(today, d);
  }

  /**
   * A repeating reminder's medicine parses and falls on every day from
   * today on whose weekday was selected, and on no other day.
   */
  lemma RepeatingFromToday(name: string, quantity: int, doseType: string, times: seq<LocalTime>,
                           days: seq<DayOfWeek>, today: LocalDate, id: string, doseIds: seq<string>, d: LocalDate)
    requires |doseIds| == |times| && InRange(today)
    ensures var p := ParseMedicine(BuildMedicine(name, quantity, doseType, times, days, false, today, id, doseIds));
            p.Some? && (OccursOn(p.value, d) <==> !IsBefore(d, today) && DayOfWeekOf(d) in days)
  {
  }

  /**
   * A complete form builds a medicine with a non-blank name, at least one
   * dose and at least one weekday, and weekdays without repeats when the
   * form's days have none.
   */
  lemma CompleteFormMedicine(name: string, quantity: int, doseType: string, times: seq<LocalTime>,
                             days: seq<DayOfWeek>, oneTime: bool,
                             today: LocalDate, id: string, doseIds: seq<string>)
    requires |doseIds| == |times|
    requires FormComplete(name, quantity, doseType, times, days, oneTime)
    ensures var m := BuildMedicine(name, quantity, doseType, times, days, oneTime, today, id, doseIds);
            && !IsBlank(m.name) && |m.doses| > 0 && |m.daysOfWeek| > 0
            && (NoRepeats(days) ==> NoRepeats(m.daysOfWeek))
  {
  }

  // ---------------------------------------------------------------------
  // The form

  class MedicineForm {
    var medicineName: string
    var doseQuantity: int
    var doseType: string
    var selectedTimes: seq<LocalTime>
    var selectedDays: seq<DayOfWeek>
    var isOneTimeReminder: bool

    /** What every handler keeps: a quantity of at least one, and no weekday twice. */
    predicate Valid()
      reads this
    {
      doseQuantity >= 1 && NoRepeats(selectedDays)
    }

    /** The `remember` initial values. */
    constructor()
      ensures Valid()
      ensures medicineName == "" && doseQuantity == 1 && doseType == "Tablet"
      ensures selectedTimes == [] && selectedDays == [] && !isOneTimeReminder
    {
      medicineName := "";
      doseQuantity := 1;
      doseType := "Tablet";
      selectedTimes := [];
      selectedDays := [];
      isOneTimeReminder := false;
    }

    predicate IsDetailsComplete()
      reads this
    {
      DetailsComplete(medicineName, doseQuantity, doseType)
    }

    predicate IsScheduleComplete()
      reads this
    {
      ScheduleComplete(isOneTimeReminder, selectedDays)
    }

    predicate IsFormComplete()
      reads this
    {
      FormComplete(medicineName, doseQuantity, doseType, selectedTimes, selectedDays, isOneTimeReminder)
    }

    /** The name field's onValueChange. */
    method SetName(name: string)
      requires Valid()
      modifies this
      ensures Valid()
      ensures medicineName == name
      ensures doseQuantity == old(doseQuantity) && doseType == old(doseType)
      ensures selectedTimes == old(selectedTimes) && selectedDays == old(selectedDays)
      ensures isOneTimeReminder == old(isOneTimeReminder)
    {
      medicineName := name;
    }

    /** The dose type dropdown's onTypeSelected. */
    method SelectDoseType(t: string)
      requires Valid()
      modifies this
      ensures Valid()
      ensures doseType == t
      ensures medicineName == old(medicineName) && doseQuantity == old(doseQuantity)
      ensures selectedTimes == old(selectedTimes) && selectedDays == old(selectedDays)
      ensures isOneTimeReminder == old(isOneTimeReminder)
    {
      doseType := t;
    }

    /** The minus button: one less, but never below one. */
    method Decrement()
      requires Valid()
      modifies this
      ensures Valid()
      ensures doseQuantity == if old(doseQuantity) > 1 then old(doseQuantity) - 1 else old(doseQuantity)
      ensures medicineName == old(medicineName) && doseType == old(doseType)
      ensures selectedTimes == old(selectedTimes) && selectedDays == old(selectedDays)
      ensures isOneTimeReminder == old(isOneTimeReminder)
    {
      if doseQuantity > 1 {
        doseQuantity := doseQuantity - 1;
      }
    }

    /** The plus button: one more. */
    method Increment()
      requires Valid()
      modifies this
      ensures Valid()
      ensures doseQuantity == old(doseQuantity) + 1
      ensures medicineName == old(medicineName) && doseType == old(doseType)
      ensures selectedTimes == old(selectedTimes) && selectedDays == old(selectedDays)
      ensures isOneTimeReminder == old(isOneTimeReminder)
    {
      doseQuantity := doseQuantity + 1;
    }

    /** A click on the one-time row flips the switch. */
    method ToggleOneTime()
      requires Valid()
      modifies this
      ensures Valid()
      ensures isOneTimeReminder == !old(isOneTimeReminder)
      ensures medicineName == old(medicineName) && doseQuantity == old(doseQuantity) && doseType == old(doseType)
      ensures selectedTimes == old(selectedTimes) && selectedDays == old(selectedDays)
    {
      isOneTimeReminder := !isOneTimeReminder;
    }

    /** The switch's onCheckedChange. */
    method SetOneTime(checked: bool)
      requires Valid()
      modifies this
      ensures Valid()
      ensures isOneTimeReminder == checked
      ensures medicineName == old(medicineName) && doseQuantity == old(doseQuantity) && doseType == old(doseType)
      ensures selectedTimes == old(selectedTimes) && selectedDays == old(selectedDays)
    {
      isOneTimeReminder := checked;
    }

    /** A tap on a weekday chip. */
    method ToggleDay(day: DayOfWeek)
      requires Valid()
      modifies this
      ensures Valid()
      ensures selectedDays == ToggledDays(old(selectedDays), day)
      ensures forall x :: x in selectedDays <==> (x in old(selectedDays) <==> x != day)
      ensures medicineName == old(medicineName) && doseQuantity == old(doseQuantity) && doseType == old(doseType)
      ensures selectedTimes == old(selectedTimes) && isOneTimeReminder == old(isOneTimeReminder)
    {
      selectedDays := ToggledDays(selectedDays, day);
    }

    /** The time picker's callback: LocalTime.of(hour, minute) is appended. */
    method AddTime(hour: nat, minute: nat)
      requires Valid()
      requires hour < 24 && minute < 60
      modifies this
      ensures Valid()
      ensures selectedTimes == old(selectedTimes) + [OfParts(hour, minute, 0, 0)]
      ensures medicineName == old(medicineName) && doseQuantity == old(doseQuantity) && doseType == old(doseType)
      ensures selectedDays == old(selectedDays) && isOneTimeReminder == old(isOneTimeReminder)
    {
      selectedTimes := selectedTimes + [OfParts(hour, minute, 0, 0)];
    }

    /** A chip's close icon: the first occurrence of that time is removed. */
    method RemoveTime(t: LocalTime)
      requires Valid()
      modifies this
      ensures Valid()
      ensures selectedTimes == RemoveFirst(old(selectedTimes), t)
      ensures multiset(selectedTimes) == multiset(old(selectedTimes)) - multiset{t}
      ensures medicineName == old(medicineName) && doseQuantity == old(doseQuantity) && doseType == old(doseType)
      ensures selectedDays == old(selectedDays) && isOneTimeReminder == old(isOneTimeReminder)
    {
      selectedTimes := RemoveFirst(selectedTimes, t);
    }

    /**
     * The submit button: nothing unless the form is complete, otherwise the
     * medicine built from the form's state, today's date and fresh ids.
     */
    method Submit(today: LocalDate, id: string, doseIds: seq<string>) returns (m: Option<Medicine>)
      requires |doseIds| == |selectedTimes|
      ensures m.Some? <==> IsFormComplete()
      ensures m.Some? ==> m.value == BuildMedicine(medicineName, doseQuantity, doseType, selectedTimes,
                                                   selectedDays, isOneTimeReminder, today, id, doseIds)
    {
      if IsFormComplete() {
        m := Some(BuildMedicine(medicineName, doseQuantity, doseType, selectedTimes,
                                selectedDays, isOneTimeReminder, today, id, doseIds));
      } else {
        m := None;
      }
    }
  }
}
