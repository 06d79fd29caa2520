/**
 * The dose list of today's schedule: every dose of every instance of the
 * day, with its status, sorted by the dose's time text; and the status a
 * tap on a dose's chip asks for.
 */
module TodaysSchedule {
  import opened Text
  import opened Data
  import opened Sorting
  import opened ViewModel

  /** One chip of the schedule: which instance, which medicine, which dose, its status. */
  datatype DisplayDose = DisplayDose(instanceId: string, medicineName: string, dose: Dose, status: DoseStatus)

  /** The chip of one dose of an instance; a dose without a status shows as PENDING. */
  function DisplayOf(x: ReminderInstance, dose: Dose): DisplayDose {
    DisplayDose(x.instanceId, x.medicine.name, dose, StatusOrPending(x.doseStatuses, dose.id))
  }

  /** `instance.medicine.doses.map { ... }`. */
  function DisplayDoses(x: ReminderInstance, doses: seq<Dose>): (r: seq<DisplayDose>)
    ensures |r| == |doses|
    ensures forall j :: 0 <= j < |doses| ==> r[j] == DisplayOf(x, doses[j])
  {
    if doses == [] then [] else [DisplayOf(x, doses[0])] + DisplayDoses(x, doses[1..])
  }

  /** `todaysSchedule.flatMap { ... }`. */
  function FlattenDoses(xs: seq<ReminderInstance>): seq<DisplayDose> {
    if xs == [] then [] else DisplayDoses(xs[0], xs[0].medicine.doses) + FlattenDoses(xs[1..])
  }

  /** The selector of `sortedBy { it.dose.time }`: String order is char-code order. */
  function TimeKey(e: DisplayDose): seq<int> {
    CharCodes(e.dose.time)
  }

  /** The list the schedule shows. */
  function AllDosesForToday(xs: seq<ReminderInstance>): seq<DisplayDose> {
    SortBy(FlattenDoses(xs), TimeKey)
  }

  /** One chip per (instance, dose) pair: as many chips as the day's doses. */
  lemma {:induction false} FlattenLength(xs: seq<ReminderInstance>)
    ensures |FlattenDoses(xs)| == TotalDoseCount(xs)
  {
    if xs != [] {
      FlattenLength(xs[1..]);
    }
  }

  /** A chip is listed exactly when it is the chip of a dose of one of the instances. */
  lemma {:induction false} FlattenMembers(xs: seq<ReminderInstance>, e: DisplayDose)
    ensures e in FlattenDoses(xs) <==>
      exists i, dose :: 0 <= i < |xs| && dose in xs[i].medicine.doses && e == DisplayOf(xs[i], dose)
  {
    if xs != [] {
      FlattenMembers(xs[1..], e);
      var head := DisplayDoses(xs[0], xs[0].medicine.doses);
      if e in head {
        var j :| 0 <= j < |head| && head[j] == e;
        assert xs[0].medicine.doses[j] in xs[0].medicine.doses;
      }
      if exists i, dose :: 0 <= i < |xs| && dose in xs[i].medicine.doses && e == DisplayOf(xs[i], dose) {
        var i, dose :| 0 <= i < |xs| && dose in xs[i].medicine.doses && e == DisplayOf(xs[i], dose);
        if i == 0 {
          var j :| 0 <= j < |xs[0].medicine.doses| && xs[0].medicine.doses[j] == dose;
          assert head[j] == e;
        } else {
          assert xs[1..][i - 1] == xs[i];
        }
      }
    }
  }

  /**
   * The shown list is sorted by the time text, holds the flattened chips
   * each exactly as often, and keeps chips of equal time in flattening order.
   */
  lemma ScheduleSorted(xs: seq<ReminderInstance>)
    ensures SortedBy(AllDosesForToday(xs), TimeKey)
    ensures multiset(AllDosesForToday(xs)) == multiset(FlattenDoses(xs))
    ensures |AllDosesForToday(xs)| == TotalDoseCount(xs)
    ensures forall k :: FilterKey(AllDosesForToday(xs), TimeKey, k) == FilterKey(FlattenDoses(xs), TimeKey, k)
  {
    SortByCorrect(FlattenDoses(xs), TimeKey);
    FlattenLength(xs);
    assert |AllDosesForToday(xs)| == |multiset(AllDosesForToday(xs))|;
  }

  /** The status a tap asks for: a TAKEN dose goes back to PENDING, any other becomes TAKEN. */
  function ToggledStatus(status: DoseStatus): DoseStatus {
    if status == TAKEN then PENDING else TAKEN
  }

  /**
   * The chip is selected when TAKEN; a tap flips the selection, never asks
   * for SKIPPED, and two taps bring a PENDING or TAKEN dose back.
   */
  lemma ToggleProperties(status: DoseStatus)
    ensures (ToggledStatus(status) == TAKEN) <==> status != TAKEN
    ensures ToggledStatus(status) != SKIPPED
    ensures status != SKIPPED ==> ToggledStatus(ToggledStatus(status)) == status
    ensures status == SKIPPED ==> ToggledStatus(ToggledStatus(status)) == PENDING
  {
  }

  /** The list key of a chip: the same "instanceId-doseId" the status store uses. */
  function DoseKey(e: DisplayDose): string {
    e.instanceId + "-" + e.dose.id
  }

  /** Within one instance, chips of different dose ids have different keys. */
  lemma DoseKeyInjective(a: DisplayDose, b: DisplayDose)
    requires a.instanceId == b.instanceId
    ensures DoseKey(a) == DoseKey(b) ==> a.dose.id == b.dose.id
    ensures DoseKey(a) == StatusKey(a.instanceId, a.dose.id)
  {
    var p := a.instanceId + "-";
    assert DoseKey(a) == p + a.dose.id && DoseKey(b) == p + b.dose.id;
    assert (p + a.dose.id)[|p|..] == a.dose.id;
    assert (p + b.dose.id)[|p|..] == b.dose.id;
  }
}
