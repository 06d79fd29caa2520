/**
 * The two pieces of logic in the dashboard screen: the reminders of the
 * selected day, read off the grouped map, and the "up next" partition of a
 * day's instances by their next upcoming dose time.
 */
module Dashboard {
  import opened Wrappers
  import opened Dates
  import opened Times
  import opened ViewModel

  /**
   * `remindersByDate[selectedDate] ?: emptyList()`: in a map that is sorted
   * and holds no empty list, the result is empty exactly when the date has
   * no entry, and is that entry's list when it has one.
   */
  function SelectedDayReminders(uiState: HomeUiState): (r: seq<ReminderInstance>)
    ensures StrictlyAscending(uiState.remindersByDate) && NoEmptyDays(uiState.remindersByDate) ==>
              (r == [] <==> forall i :: 0 <= i < |uiState.remindersByDate| ==>
                                uiState.remindersByDate[i].date != uiState.selectedDate)
    ensures StrictlyAscending(uiState.remindersByDate) ==>
              forall i :: 0 <= i < |uiState.remindersByDate| && uiState.remindersByDate[i].date == uiState.selectedDate
                ==> r == uiState.remindersByDate[i].instances
  {
    LookupInSortedMap(uiState.remindersByDate, uiState.selectedDate);
    Lookup(uiState.remindersByDate, uiState.selectedDate)
  }

  /**
   * In a sorted map every entry is what its date looks up to, and with no
   * empty entry a lookup is empty exactly when the date has no entry.
   */
  lemma LookupInSortedMap(s: seq<DayEntry>, d: LocalDate)
    ensures StrictlyAscending(s) ==> forall i :: 0 <= i < |s| && s[i].date == d ==> Lookup(s, d) == s[i].instances
    ensures StrictlyAscending(s) && NoEmptyDays(s) ==>
              (Lookup(s, d) == [] <==> forall i :: 0 <= i < |s| ==> s[i].date != d)
  {
    if StrictlyAscending(s) {
      forall i | 0 <= i < |s| && s[i].date == d ensures Lookup(s, d) == s[i].instances {
        LookupFound(s, i);
      }
      if NoEmptyDays(s) {
        LookupEmptyIffAbsent(s, d);
      }
    }
  }

  /** Every instance's pending dose times are LocalTime text. */
  predicate AllTimesParse(instances: seq<ReminderInstance>) {
    forall i :: 0 <= i < |instances| ==> instances[i].PendingTimesParse()
  }

  /** The selector of `minByOrNull`: the next upcoming dose time, none counted as LocalTime.MAX. */
  function UpNextKey(x: ReminderInstance, currentTime: LocalTime): (k: LocalTime)
    requires x.PendingTimesParse()
    ensures x.PendingTimes() == [] ==> k == MAX_TIME
    ensures x.PendingTimes() != [] ==> k in x.PendingTimes()
    ensures (exists t :: t in x.PendingTimes() && TimeIsAfter(t, currentTime)) ==>
              TimeIsAfter(k, currentTime)
              && forall t :: t in x.PendingTimes() && TimeIsAfter(t, currentTime) ==> k <= t
    ensures (forall t :: t in x.PendingTimes() ==> !TimeIsAfter(t, currentTime)) ==>
              forall t :: t in x.PendingTimes() ==> k <= t
  {
    x.NextUpcomingDoseTime(currentTime).GetOr(MAX_TIME)
  }

  /** The selector applied to each instance once, in list order. */
  function UpNextKeys(instances: seq<ReminderInstance>, currentTime: LocalTime): (keys: seq<int>)
    requires AllTimesParse(instances)
    ensures |keys| == |instances|
    ensures forall j :: 0 <= j < |instances| ==> keys[j] == UpNextKey(instances[j], currentTime) as int
  {
    seq(|instances|, j requires 0 <= j < |instances| => UpNextKey(instances[j], currentTime) as int)
  }

  /** What minByOrNull picks: a least key, and no earlier element with that key. */
  predicate IsFirstMinimum(keys: seq<int>, i: int) {
    && 0 <= i < |keys|
    && (forall j :: 0 <= j < |keys| ==> keys[i] <= keys[j])
    && (forall j :: 0 <= j < i ==> keys[i] < keys[j])
  }

  /**
   * `minByOrNull`'s scan from index i with the best index so far: an
   * element replaces the best only when its key is strictly smaller.
   */
  function MinByFrom(keys: seq<int>, i: nat, best: nat): (r: nat)
    requires best < i <= |keys|
    requires forall j :: 0 <= j < i ==> keys[best] <= keys[j]
    requires forall j :: 0 <= j < best ==> keys[best] < keys[j]
    ensures IsFirstMinimum(keys, r)
    decreases |keys| - i
  {
    if i == |keys| then best
    else if keys[i] < keys[best] then MinByFrom(keys, i + 1, i)
    else MinByFrom(keys, i + 1, best)
  }

  /** `minByOrNull` on a non-empty list. */
  function MinBy(keys: seq<int>): (r: nat)
    requires |keys| > 0
    ensures IsFirstMinimum(keys, r)
  {
    MinByFrom(keys, 1, 0)
  }

  /** At most one index is a first minimum. */
  lemma FirstMinimumUnique(keys: seq<int>, i: int, j: int)
    requires IsFirstMinimum(keys, i)
    ensures IsFirstMinimum(keys, j) ==> i == j
  {
    assert 0 <= j < |keys| ==> keys[i] <= keys[j];
    assert 0 <= j < i ==> keys[i] < keys[j];
  }

  /**
   * sortInstancesByNextDose: on another day, or when the list is empty or
   * the instance minByOrNull picks has every dose taken, nothing is up next
   * and the list is unchanged; otherwise the picked instance is up next and
   * the rest are the other instances, those sharing its id removed.
   * minByOrNull returns the only element of a one-element list without
   * calling its selector, so only longer lists need their times to parse.
   */
  function SortInstancesByNextDose(instances: seq<ReminderInstance>, isToday: bool, currentTime: LocalTime)
    : (r: (Option<ReminderInstance>, seq<ReminderInstance>))
    requires isToday && |instances| > 1 ==> AllTimesParse(instances)
    ensures !isToday ==> r == (None, instances)
    ensures r.0.None? ==> r.1 == instances
    ensures isToday && |instances| == 1 ==>
              r.0 == (if instances[0].AllDosesTaken() then None else Some(instances[0]))
    ensures r.0.None? && isToday && |instances| > 1 ==>
              forall i :: IsFirstMinimum(UpNextKeys(instances, currentTime), i) ==> instances[i].AllDosesTaken()
    ensures r.0.Some? ==>
              && isToday
              && r.0.value in instances
              && (|instances| > 1 ==>
                    exists i :: IsFirstMinimum(UpNextKeys(instances, currentTime), i) && instances[i] == r.0.value)
              && !r.0.value.AllDosesTaken()
              && r.1 == WithoutDeleted(instances, {r.0.value.instanceId})
  {
    if !isToday || instances == [] then (None, instances)
    else if |instances| == 1 then
      if !instances[0].AllDosesTaken() then
        (Some(instances[0]), WithoutDeleted(instances, {instances[0].instanceId}))
      else (None, instances)
    else
      var keys := UpNextKeys(instances, currentTime);
      var i := MinBy(keys);
      var nextInstance := instances[i];
      if !nextInstance.AllDosesTaken() then
        (Some(nextInstance), WithoutDeleted(instances, {nextInstance.instanceId}))
      else
        assert forall j :: IsFirstMinimum(keys, j) ==> j == i by {
          forall j | IsFirstMinimum(keys, j) ensures j == i {
            FirstMinimumUnique(keys, i, j);
          }
        }
        (None, instances)
  }

  /**
   * The partition loses nothing: every instance is the one up next, shares
   * its id, or is among the rest, and the rest never hold the id up next.
   * When the ids are distinct, as the expander makes them for one day's
   * rules of distinct medicines, the rest are the list with exactly the
   * instance up next cut out, the others in their order.
   */
  lemma PartitionCovers(instances: seq<ReminderInstance>, isToday: bool, currentTime: LocalTime, x: ReminderInstance)
    requires isToday && |instances| > 1 ==> AllTimesParse(instances)
    ensures var r := SortInstancesByNextDose(instances, isToday, currentTime);
      && (x in instances <==>
            x in r.1 || (r.0.Some? && x.instanceId == r.0.value.instanceId && x in instances))
      && (r.0.Some? ==> forall y :: y in r.1 ==> y.instanceId != r.0.value.instanceId)
      && (r.0.Some? && DistinctIds(instances) ==>
            exists i :: 0 <= i < |instances| && instances[i] == r.0.value && r.1 == instances[..i] + instances[i + 1..])
  {
    var r := SortInstancesByNextDose(instances, isToday, currentTime);
    if r.0.Some? {
      var deleted := {r.0.value.instanceId};
      assert r.1 == WithoutDeleted(instances, deleted);
      assert x in r.1 <==> x in instances && x.instanceId !in deleted;
      if DistinctIds(instances) {
        var i :| 0 <= i < |instances| && instances[i] == r.0.value;
        WithoutDeletedDistinct(instances, i);
      }
    } else {
      assert r.1 == instances;
    }
  }
}
