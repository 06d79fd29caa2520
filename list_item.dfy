/**
 * The logic of a reminder's card in the list: the tone of the card, the
 * row shown for each dose (its status, its strike-through, its label or
 * its two buttons) and the summary of the medicine's weekdays.
 */
module ListItem {
  import opened Wrappers
  import opened Text
  import opened Dates
  import opened Data
  import opened ViewModel

  // ---------------------------------------------------------------------
  // Card tone

  /** The three card backgrounds: tertiary container, primary container, surface. */
  datatype CardTone = AllTakenTone | SomeTakenTone | PlainTone

  /** The card's background, chosen in `when` order, and whether its content is dimmed. */
  datatype CardLook = CardLook(tone: CardTone, dimmed: bool)

  function CardLookOf(x: ReminderInstance): (c: CardLook)
    ensures c.tone == AllTakenTone <==> 0 < x.TakenDoseCount() == |x.doseStatuses|
    ensures c.tone == SomeTakenTone <==> 0 < x.TakenDoseCount() < |x.doseStatuses|
    ensures c.tone == PlainTone <==> x.TakenDoseCount() == 0
    ensures c.dimmed <==> c.tone == AllTakenTone
  {
    TakenPredicates(x);
    TakenCountBound(x);
    var tone := if x.AllDosesTaken() then AllTakenTone
                else if x.SomeDosesTaken() then SomeTakenTone
                else PlainTone;
    CardLook(tone, x.AllDosesTaken())
  }

  /** No more statuses are TAKEN than there are statuses. */
  lemma TakenCountBound(x: ReminderInstance)
    ensures x.TakenDoseCount() <= |x.doseStatuses|
  {
    SubsetSize(x.TakenKeys(), x.doseStatuses.Keys);
  }

  // ---------------------------------------------------------------------
  // Dose rows

  /** A button of a pending dose's row: its text and the status it asks for. */
  datatype RowButton = RowButton(text: string, request: DoseStatus)

  /** What DoseActionRow shows: strike-through, a status label, or buttons. */
  datatype DoseRowView = DoseRowView(struckThrough: bool, statusText: Option<string>, buttons: seq<RowButton>)

  /**
   * The row of a dose with the given status: a pending dose offers Skip and
   * Take and is not struck through; any other is struck through and labelled
   * with its status in place of the buttons.
   */
  function DoseRowOf(status: DoseStatus): (v: DoseRowView)
    ensures v.struckThrough <==> status != PENDING
    ensures v.buttons != [] <==> status == PENDING
    ensures v.statusText.None? <==> status == PENDING
    ensures v.statusText == Some("Taken") <==> status == TAKEN
    ensures v.statusText == Some("Skipped") <==> status == SKIPPED
    ensures forall b :: b in v.buttons ==> b.request != PENDING
    ensures status == PENDING ==> exists b, c :: b in v.buttons && c in v.buttons && b.request == SKIPPED && c.request == TAKEN
  {
    if status != PENDING then
      DoseRowView(true, Some(if status == TAKEN then "Taken" else "Skipped"), [])
    else
      var skip := RowButton("Skip", SKIPPED);
      var take := RowButton("Take", TAKEN);
      assert skip in [skip, take] && take in [skip, take];
      DoseRowView(false, None, [skip, take])
  }

  /** `medicine.doses.forEach`: one row per dose, a missing status shown as PENDING. */
  function DoseRows(x: ReminderInstance, doses: seq<Dose>): (r: seq<DoseRowView>)
    ensures |r| == |doses|
    ensures forall j :: 0 <= j < |doses| ==> r[j] == DoseRowOf(StatusOrPending(x.doseStatuses, doses[j].id))
  {
    if doses == [] then [] else [DoseRowOf(StatusOrPending(x.doseStatuses, doses[0].id))] + DoseRows(x, doses[1..])
  }

  /**
   * A dose's row offers its buttons exactly when the instance has no status
   * for it or records it as PENDING, and it is labelled "Taken" exactly when
   * the instance records it as TAKEN.
   */
  lemma DoseRowsFollowStatuses(x: ReminderInstance, j: int)
    requires 0 <= j < |x.medicine.doses|
    ensures var row := DoseRows(x, x.medicine.doses)[j];
            var id := x.medicine.doses[j].id;
            && (row.buttons != [] <==> id !in x.doseStatuses || x.doseStatuses[id] == PENDING)
            && (row.statusText == Some("Taken") <==> id in x.doseStatuses && x.doseStatuses[id] == TAKEN)
  {
  }

  // ---------------------------------------------------------------------
  // Weekday summary

  /** The set of the weekdays a list holds. */
  function DaySet(days: seq<DayOfWeek>): set<DayOfWeek> {
    set w | w in days
  }

  /** No weekday is listed twice. */
  predicate NoRepeats(days: seq<DayOfWeek>) {
    forall i, j :: 0 <= i < j < |days| ==> days[i] != days[j]
  }

  /** The weekdays in DayOfWeek order, Monday first. */
  const Week: seq<DayOfWeek> := [MONDAY, TUESDAY, WEDNESDAY, THURSDAY, FRIDAY, SATURDAY, SUNDAY]
  const AllWeek: set<DayOfWeek> := DaySet(Week)
  const WorkWeek: set<DayOfWeek> := DaySet(Week[..5])
  const Weekend: set<DayOfWeek> := DaySet(Week[5..])

  /**
   * The weekdays of the list from ordinal n on, in DayOfWeek order, each
   * once: the tail of `toSortedSet`.
   */
  function DaysFrom(days: seq<DayOfWeek>, n: nat): (r: seq<DayOfWeek>)
    ensures forall w :: w in r <==> w in days && n <= w.Ordinal()
    ensures forall i, j :: 0 <= i < j < |r| ==> r[i].Ordinal() < r[j].Ordinal()
    decreases 7 - n
  {
    if n >= 7 then []
    else
      var w := DayOfWeekFromOrdinal(n);
      var rest := DaysFrom(days, n + 1);
      if w in days then
        PrependAscending(w, rest);
        [w] + rest
      else rest
  }

  lemma PrependAscending(w: DayOfWeek, rest: seq<DayOfWeek>)
    requires forall v :: v in rest ==> w.Ordinal() < v.Ordinal()
    requires forall i, j :: 0 <= i < j < |rest| ==> rest[i].Ordinal() < rest[j].Ordinal()
    ensures forall i, j :: 0 <= i < j < |[w] + rest| ==> ([w] + rest)[i].Ordinal() < ([w] + rest)[j].Ordinal()
  {
    var s := [w] + rest;
    forall i, j | 0 <= i < j < |s| ensures s[i].Ordinal() < s[j].Ordinal() {
      assert s[j] == rest[j - 1] && s[j] in rest;
      if i > 0 {
        assert s[i] == rest[i - 1];
      }
    }
  }

  /** `days.toSortedSet()`: each listed weekday once, Monday first. */
  function SortedDays(days: seq<DayOfWeek>): (r: seq<DayOfWeek>)
    ensures DaySet(r) == DaySet(days)
    ensures NoRepeats(r)
    ensures forall i, j :: 0 <= i < j < |r| ==> r[i].Ordinal() < r[j].Ordinal()
  {
    DaysFrom(days, 0)
  }

  /** Which text formatDaysOfWeek writes; the cases are tested in that function's order. */
  datatype DaysLabel = EveryDay | Weekdays | Weekends | Listed(sorted: seq<DayOfWeek>)

  function DaysLabelOf(days: seq<DayOfWeek>): DaysLabel {
    if |days| == 7 then EveryDay
    else if |days| == 5 && SATURDAY !in days && SUNDAY !in days then Weekdays
    else if |days| == 2 && SATURDAY in days && SUNDAY in days then Weekends
    else Listed(SortedDays(days))
  }

  /** The display names of the weekdays, in order. */
  function DayNames(days: seq<DayOfWeek>, shortName: DayOfWeek -> string): (r: seq<string>)
    ensures |r| == |days|
    ensures forall i :: 0 <= i < |days| ==> r[i] == shortName(days[i])
  {
    if days == [] then [] else [shortName(days[0])] + DayNames(days[1..], shortName)
  }

  /** formatDaysOfWeek; the locale's short weekday name is a parameter. */
  function FormatDaysOfWeek(days: seq<DayOfWeek>, shortName: DayOfWeek -> string): string {
    match DaysLabelOf(days)
    case EveryDay => "Every day"
    case Weekdays => "Weekdays"
    case Weekends => "Weekends"
    case Listed(sorted) => Join(DayNames(sorted, shortName), ", ")
  }

  /** A list without repeats is as long as its set of weekdays. */
  lemma {:induction false} NoRepeatsSize(days: seq<DayOfWeek>)
    requires NoRepeats(days)
    ensures |DaySet(days)| == |days|
  {
    if days != [] {
      var tail := days[1..];
      assert NoRepeats(tail) by {
        forall i, j | 0 <= i < j < |tail| ensures tail[i] != tail[j] {
          assert tail[i] == days[i + 1] && tail[j] == days[j + 1];
        }
      }
      NoRepeatsSize(tail);
      assert DaySet(days) == {days[0]} + DaySet(tail) by {
        assert days == [days[0]] + tail;
      }
      assert days[0] !in DaySet(tail) by {
        forall k | 0 <= k < |tail| ensures tail[k] != days[0] {
          assert tail[k] == days[k + 1];
        }
      }
    }
  }

  lemma SameSizeSubset(a: set<DayOfWeek>, b: set<DayOfWeek>)
    requires a <= b && |a| == |b|
    ensures a == b
  {
    SubsetSize(a, b);
  }

  /** Week lists each weekday at its ordinal. */
  lemma WeekOrder()
    ensures |Week| == 7
    ensures forall i :: 0 <= i < 7 ==> Week[i].Ordinal() == i
    ensures forall w: DayOfWeek :: Week[w.Ordinal()] == w
  {
  }

  lemma WeekSizes()
    ensures |AllWeek| == 7 && |WorkWeek| == 5 && |Weekend| == 2
    ensures forall w :: w in AllWeek
    ensures forall w :: w in WorkWeek <==> w.Ordinal() < 5
    ensures forall w :: w in Weekend <==> 5 <= w.Ordinal()
  {
    WeekOrder();
    forall s | s == Week || s == Week[..5] || s == Week[5..] ensures NoRepeats(s) {
      forall i, j | 0 <= i < j < |s| ensures s[i] != s[j] {
        var k := if s == Week[5..] then 5 else 0;
        assert s[i] == Week[i + k] && s[j] == Week[j + k];
      }
    }
    NoRepeatsSize(Week);
    NoRepeatsSize(Week[..5]);
    NoRepeatsSize(Week[5..]);
    forall w ensures w in AllWeek && (w in WorkWeek <==> w.Ordinal() < 5) && (w in Weekend <==> 5 <= w.Ordinal()) {
      var o := w.Ordinal();
      assert Week[o] == w;
      if o < 5 {
        assert Week[..5][o] == w;
      } else {
        assert Week[5..][o - 5] == w;
      }
      forall v | v in Week[..5] ensures v.Ordinal() < 5 {
        var i :| 0 <= i < 5 && Week[..5][i] == v;
      }
      forall v | v in Week[5..] ensures 5 <= v.Ordinal() {
        var i :| 0 <= i < 2 && Week[5..][i] == v;
      }
    }
  }

  /** Without repeats, "Every day" is written exactly when all seven weekdays are listed. */
  lemma EveryDayMeansAll(days: seq<DayOfWeek>)
    requires NoRepeats(days)
    ensures DaysLabelOf(days) == EveryDay <==> DaySet(days) == AllWeek
  {
    NoRepeatsSize(days);
    WeekSizes();
    if |days| == 7 {
      SameSizeSubset(DaySet(days), AllWeek);
    }
  }

  /** Without repeats, "Weekdays" is written exactly when Monday to Friday are listed. */
  lemma WeekdaysMeansWorkWeek(days: seq<DayOfWeek>)
    requires NoRepeats(days)
    ensures DaysLabelOf(days) == Weekdays <==> DaySet(days) == WorkWeek
  {
    NoRepeatsSize(days);
    WeekSizes();
    if |days| == 5 && SATURDAY !in days && SUNDAY !in days {
      assert DaySet(days) <= WorkWeek by {
        forall w | w in DaySet(days) ensures w in WorkWeek {
          assert w != SATURDAY && w != SUNDAY;
        }
      }
      SameSizeSubset(DaySet(days), WorkWeek);
    }
    if DaySet(days) == WorkWeek {
      assert SATURDAY !in DaySet(days) && SUNDAY !in DaySet(days);
    }
  }

  /** "Weekends" is written exactly when Saturday and Sunday are listed and nothing else. */
  lemma WeekendsMeansWeekend(days: seq<DayOfWeek>)
    requires NoRepeats(days)
    ensures DaysLabelOf(days) == Weekends <==> DaySet(days) == Weekend
  {
    NoRepeatsSize(days);
    WeekSizes();
    if |days| == 2 && SATURDAY in days && SUNDAY in days {
      assert Weekend <= DaySet(days);
      SameSizeSubset(Weekend, DaySet(days));
    }
    if DaySet(days) == Weekend {
      assert SATURDAY in DaySet(days) && SUNDAY in DaySet(days);
    }
  }

  /**
   * Any other list is written as its weekdays' short names, each once and
   * Monday first, separated by ", ".
   */
  lemma ListedDays(days: seq<DayOfWeek>, shortName: DayOfWeek -> string)
    requires NoRepeats(days)
    requires DaySet(days) != AllWeek && DaySet(days) != WorkWeek && DaySet(days) != Weekend
    ensures DaysLabelOf(days).Listed?
    ensures var sorted := DaysLabelOf(days).sorted;
            && DaySet(sorted) == DaySet(days)
            && |sorted| == |days|
            && (forall i, j :: 0 <= i < j < |sorted| ==> sorted[i].Ordinal() < sorted[j].Ordinal())
            && FormatDaysOfWeek(days, shortName) == Join(DayNames(sorted, shortName), ", ")
  {
    EveryDayMeansAll(days);
    WeekdaysMeansWorkWeek(days);
    WeekendsMeansWeekend(days);
    var sorted := SortedDays(days);
    NoRepeatsSize(days);
    NoRepeatsSize(sorted);
  }
}
