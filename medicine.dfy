/**
 * The app's stored records: a dose status, a dose (an id and a time of day
 * kept as text) and a medicine rule (weekdays, start and optional end date,
 * kept as ISO text), with the defaults their constructors fill in. Random
 * UUIDs become an `id` argument.
 */
module Data {
  import opened Wrappers
  import opened Text
  import opened Dates
  import opened Times

  /** The three statuses a dose can have, and no other. */
  datatype DoseStatus = PENDING | TAKEN | SKIPPED

  /** A dose: its id and its time of day as LocalTime.toString text. */
  datatype Dose = Dose(id: string, time: string := TimeToString(NOON))

  /** A medicine rule; dates are LocalDate.toString text, endDate is nullable. */
  datatype Medicine = Medicine(
    id: string,
    name: string := "",
    dosage: string := "",
    doses: seq<Dose> := [],
    daysOfWeek: seq<DayOfWeek> := [],
    startDate: string := IsoDate(MIN),
    endDate: Option<string> := None)

  /** Dose's secondary (no-argument) constructor, given the fresh UUID. */
  function NoArgDose(id: string): (d: Dose)
    ensures d.id == id && ParseTime(d.time) == Some(NOON)
  {
    ParseTimeText(NOON);
    Dose(id, TimeToString(NOON))
  }

  /** Medicine's secondary (no-argument) constructor, given the fresh UUID. */
  function NoArgMedicine(id: string): (m: Medicine)
    ensures m.id == id && m.doses == [] && m.daysOfWeek == [] && m.endDate == None
    ensures ParseDate(m.startDate) == Some(MIN)
  {
    ParseIsoDate(MIN);
    Medicine(id, "", "", [], [], IsoDate(MIN), None)
  }

  /** A default dose is at noon, written "12:00", whichever constructor made it. */
  lemma DoseDefaults(id: string)
    ensures Dose(id).time == "12:00"
    ensures NoArgDose(id) == Dose(id)
  {
    NoonText();
  }

  /** LocalDate.MIN.toString() is "-999999999-01-01". */
  lemma MinDateText()
    ensures IsoDate(MIN) == "-999999999-01-01"
  {
    assert NatToString(9) == "9";
    assert NatToString(99) == "99";
    assert NatToString(999) == "999";
    assert NatToString(9999) == "9999";
    assert NatToString(99999) == "99999";
    assert NatToString(999999) == "999999";
    assert NatToString(9999999) == "9999999";
    assert NatToString(99999999) == "99999999";
    assert NatToString(999999999) == "999999999";
    assert YearDigits(MIN_YEAR) == "999999999";
    assert YearText(MIN_YEAR) == "-999999999";
    assert PadDigits(1, 2) == "01";
  }

  /**
   * The primary constructor's defaults and the no-argument constructor agree,
   * and the default start date is LocalDate.MIN's text.
   */
  lemma MedicineDefaults(id: string)
    ensures NoArgMedicine(id) == Medicine(id)
    ensures Medicine(id).startDate == "-999999999-01-01"
    ensures ParseDate(Medicine(id).startDate) == Some(MIN)
  {
    ParseIsoDate(MIN);
    MinDateText();
  }
}
