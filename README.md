# Dozo reminder core in Dafny

Dozo is an Android medicine-reminder app. A medicine rule has:

- a name and a dosage text;
- a list of doses, each with an id and a time written as `LocalTime` text;
- the weekdays it is taken on;
- an ISO start date and an optional ISO end date.

This project models the app's reminder logic and proves what it computes:

- **Expanding rules into reminder instances.** The app expands the rules into one instance per medicine and per day. It covers the viewed month plus 15 days on either side, and groups the instances into a date-sorted map. It then drops instances the user deleted and totals the selected day's doses (`ViewModel`).
- **The view model's state.** This is the selected date and the viewed month (class `ViewModel.MedicineViewModel`).
- **The next alarm of a rule.** This is today's first dose after now, otherwise the first dose of the first scheduled day in the next seven (`Scheduler`). The scheduler has its own rules for dates that do not parse:
  - a start date that does not parse counts as the far future;
  - an end date that does not parse counts as no end.

  The expander instead drops such a rule. `Scheduler.ExpanderSchedulerDiverge` proves that the two disagree on a rule whose end date does not parse: the scheduler still rings for it on days the expander never lists.
- **The dashboard's selections.** These are the selected day's reminders and the instance that is "up next" (`Dashboard`).
- **The day's dose list.** This is the schedule sorted by time text, and the status a tap asks for (`TodaysSchedule`).
- **A medicine card.** The model covers its tone, the status text and buttons of each dose row, and the weekday summary "Every day" / "Weekdays" / "Weekends" / "Mon, Wed" (`ListItem`).
- **The add-medicine form** (class `InputForm.MedicineForm`). It covers the state, the day toggle, the times, the completeness test, and the medicine that submitting builds.
- **The 45-day date strip** at the top of the dashboard, and the cell it first scrolls to (`CalendarStrip`).

The java.time types the app relies on are modelled as values:

- `LocalDate`, with proleptic Gregorian arithmetic, epoch days and weekdays, in `Dates`;
- `LocalTime`, as nano-of-day, in `Times`;
- `YearMonth`;
- the ISO text forms those types print and parse.

`Text` holds digit strings and `joinToString`, and `Sorting` holds a stable insertion sort standing for Kotlin's `sortedBy`.

Where a Kotlin function reads the clock or draws a UUID, the model takes the value as a parameter:

- `today` and `now` (`LocalDate.now()`, `LocalDateTime.now()`);
- the medicine id and the dose ids (`UUID.randomUUID()`);
- the locale's short weekday names, passed as a function.

## Model

All paths are under `app/src/main/java/com/example/dozo/`.

| member | source | states |
|---|---|---|
| Data.NoArgDose | app/src/main/java/com/example/dozo/data/Medecine.kt:16 | the no-argument Dose keeps the given id and its time text parses back to noon |
| Data.NoArgMedicine | app/src/main/java/com/example/dozo/data/Medecine.kt:35 | the no-argument Medicine keeps the given id, has no doses, no days and no end, and its start date parses back to LocalDate.MIN |
| Data.DoseDefaults | app/src/main/java/com/example/dozo/data/Medecine.kt:10-16 | a defaulted dose time is "12:00" and the no-argument constructor agrees with the defaulted one |
| Data.MinDateText | app/src/main/java/com/example/dozo/data/Medecine.kt:31 | LocalDate.MIN prints as "-999999999-01-01" |
| Data.MedicineDefaults | app/src/main/java/com/example/dozo/data/Medecine.kt:19-35 | the defaulted Medicine and the no-argument one agree field by field |
| Text.NatToString | app/src/main/java/com/example/dozo/ui/components/MedecineInputForm.kt:254 | the decimal text of a number is all digits, DigitCount long, and reads back as the number |
| Text.DigitRunLength | app/src/main/java/com/example/dozo/viewmodel/MedecineViewModel.kt:167 | the leading run of digits of a text: all digits, ending at the text's end or at a non-digit |
| Text.CharCodesInjective | app/src/main/java/com/example/dozo/ui/components/TodaysSchedule.kt:41 | two strings with the same sort key are the same string |
| Times.Hour | app/src/main/java/com/example/dozo/viewmodel/MedecineViewModel.kt:40 | the hour of a time is 0..23 |
| Times.FieldsOfTime | app/src/main/java/com/example/dozo/ui/components/MedecineInputForm.kt:73 | every time is LocalTime.of of its own fields |
| Times.TimeOfFields | app/src/main/java/com/example/dozo/ui/components/MedecineInputForm.kt:73 | LocalTime.of(h, m, s, n) has exactly the fields it was given |
| Times.ParseTime | app/src/main/java/com/example/dozo/viewmodel/MedecineViewModel.kt:40 | LocalTime.parse: a parsed time takes its hour and minute from the first two digit pairs of the text |
| Times.NoonText | app/src/main/java/com/example/dozo/data/Medecine.kt:14 | LocalTime.NOON.toString() is "12:00" |
| Times.ParseTimeText | app/src/main/java/com/example/dozo/ui/components/MedecineInputForm.kt:256 | parsing a time's text gives the time back, for every time |
| Times.TimeToString | app/src/main/java/com/example/dozo/ui/components/MedecineInputForm.kt:256 | LocalTime.toString; stated by ParseTimeText and NoonText |
| Dates.LengthOfMonth | app/src/main/java/com/example/dozo/viewmodel/MedecineViewModel.kt:176 | a month has 28 to 31 days |
| Dates.NextPrevInverse | app/src/main/java/com/example/dozo/viewmodel/MedecineViewModel.kt:175 | stepping a day forward and back (or back and forward) returns the same date |
| Dates.EpochDayNext | app/src/main/java/com/example/dozo/viewmodel/MedecineViewModel.kt:201 | plusDays(1) adds one to the epoch day |
| Dates.EpochDayPrev | app/src/main/java/com/example/dozo/viewmodel/MedecineViewModel.kt:175 | minusDays(1) subtracts one from the epoch day |
| Dates.EpochDayPlus | app/src/main/java/com/example/dozo/data/ReminderScheduler.kt:113 | plusDays(n) adds n to the epoch day |
| Dates.EpochDayMinus | app/src/main/java/com/example/dozo/viewmodel/MedecineViewModel.kt:175 | minusDays(n) subtracts n from the epoch day |
| Dates.EpochDayAdd | app/src/main/java/com/example/dozo/ui/components/HorizontalCalendar.kt:42 | plusDays with a signed offset adds the offset to the epoch day |
| Dates.EpochDayOrder | app/src/main/java/com/example/dozo/data/ReminderScheduler.kt:136-137 | isBefore, isAfter and equality of dates are exactly the order of their epoch days |
| Dates.EpochDayInjective | app/src/main/java/com/example/dozo/ui/components/HorizontalCalendar.kt:46 | two dates with the same epoch day are equal |
| Dates.EpochOrigin | app/src/main/java/com/example/dozo/data/ReminderScheduler.kt:138 | 1970-01-01 has epoch day 0 |
| Dates.DayOfWeekFromOrdinal | app/src/main/java/com/example/dozo/data/ReminderScheduler.kt:138 | the weekday of an ordinal 0..6 has that ordinal |
| Dates.ThursdayOrigin | app/src/main/java/com/example/dozo/data/ReminderScheduler.kt:138 | 1970-01-01 is a Thursday |
| Dates.DayOfWeekNext | app/src/main/java/com/example/dozo/viewmodel/MedecineViewModel.kt:181 | the next date falls on the next weekday |
| Dates.DayOfWeekPlus | app/src/main/java/com/example/dozo/data/ReminderScheduler.kt:113-114 | n days later the weekday ordinal has advanced by n modulo 7 |
| Dates.AtDayEpoch | app/src/main/java/com/example/dozo/viewmodel/MedecineViewModel.kt:154 | day k of a month lies k - 1 epoch days after its first day, and YearMonth.from of it is the month |
| Dates.AtEndOfMonth | app/src/main/java/com/example/dozo/viewmodel/MedecineViewModel.kt:176 | atEndOfMonth is the month's last day |
| Dates.YearMonthFrom | app/src/main/java/com/example/dozo/viewmodel/MedecineViewModel.kt:149 | YearMonth.from keeps the date's year and month |
| Dates.MonthSpan | app/src/main/java/com/example/dozo/viewmodel/MedecineViewModel.kt:175-176 | a month's last day lies length-1 epoch days after its first |
| Dates.ParseDate | app/src/main/java/com/example/dozo/viewmodel/MedecineViewModel.kt:167-168 | LocalDate.parse: a parsed date lies within LocalDate's range |
| Dates.ParseIsoDate | app/src/main/java/com/example/dozo/ui/components/MedecineInputForm.kt:260 | parsing a date's ISO text gives the date back, for every date in range, negative and five-digit years included |
| Dates.IsoDate | app/src/main/java/com/example/dozo/ui/components/MedecineInputForm.kt:260 | LocalDate.toString; stated by ParseIsoDate and MinDateText |
| Dates.EpochDay | app/src/main/java/com/example/dozo/data/ReminderScheduler.kt:136-137 | the day count the date order follows; stated by EpochDayOrder, EpochDayInjective and EpochOrigin |
| Dates.DayOfWeekOf | app/src/main/java/com/example/dozo/data/ReminderScheduler.kt:138 | LocalDate.dayOfWeek; stated by ThursdayOrigin, DayOfWeekNext and DayOfWeekPlus |
| Dates.PlusDays | app/src/main/java/com/example/dozo/data/ReminderScheduler.kt:113 | LocalDate.plusDays; stated by EpochDayPlus |
| Sorting.LexLeqTotal | app/src/main/java/com/example/dozo/ui/components/TodaysSchedule.kt:41 | the order of sort keys is total |
| Sorting.LexLeqTransitive | app/src/main/java/com/example/dozo/ui/components/TodaysSchedule.kt:41 | the order of sort keys is transitive |
| Sorting.LexLeqAntisymmetric | app/src/main/java/com/example/dozo/ui/components/TodaysSchedule.kt:41 | keys ordered both ways are equal |
| Sorting.LexLeqSingleton | app/src/main/java/com/example/dozo/data/ReminderScheduler.kt:99 | one-element keys are ordered as their elements |
| Sorting.SortByCorrect | app/src/main/java/com/example/dozo/ui/components/TodaysSchedule.kt:41 | sortedBy returns a list sorted by the key, a permutation of the input, with every class of equal keys in input order |
| Sorting.StableSortUnique | app/src/main/java/com/example/dozo/data/ReminderScheduler.kt:99 | any two stable sorts of a list by a key are the same list |
| Scheduler.SchedulerAgreesWithExpander | app/src/main/java/com/example/dozo/data/ReminderScheduler.kt:132-141 | when both dates parse, the scheduler's day test is the expander's |
| Scheduler.BadStartOnlyMax | app/src/main/java/com/example/dozo/data/ReminderScheduler.kt:133 | with an unparsable start date only LocalDate.MAX can be scheduled |
| Scheduler.BadEndIsNoEnd | app/src/main/java/com/example/dozo/data/ReminderScheduler.kt:134 | an unparsable end date schedules exactly the days no end date would |
| Scheduler.ExpanderSchedulerDiverge | app/src/main/java/com/example/dozo/data/ReminderScheduler.kt:134 | with an unparsable end date the scheduler schedules a day the expander never lists |
| Scheduler.IsScheduledForDay | app/src/main/java/com/example/dozo/data/ReminderScheduler.kt:132-141 | isScheduledForDay; its meaning is stated by SchedulerAgreesWithExpander, BadStartOnlyMax and BadEndIsNoEnd |
| Scheduler.ParsedDoseTimes | app/src/main/java/com/example/dozo/data/ReminderScheduler.kt:97-98 | mapNotNull keeps exactly the doses whose time parses, each with its parsed time, never more than the doses (order: ParsedDoseTimesAppend) |
| Scheduler.ParsedDoseTimesAppend | app/src/main/java/com/example/dozo/data/ReminderScheduler.kt:97-98 | parsing a concatenation of dose lists concatenates the results, so parsed doses keep the dose order |
| Scheduler.FirstDoseAtIndex | app/src/main/java/com/example/dozo/data/ReminderScheduler.kt:97-99 | the first parsed dose at a time is the first dose, in the medicine's order, whose time text parses to that time |
| Scheduler.DoseTimesSorted | app/src/main/java/com/example/dozo/data/ReminderScheduler.kt:97-99 | the dose times are sorted by time, a permutation of the parsed doses, equal times in dose order |
| Scheduler.IndexOfFirstAfter | app/src/main/java/com/example/dozo/data/ReminderScheduler.kt:103 | firstOrNull { isAfter(now) }: the first index whose time is after now, or the length when none is |
| Scheduler.FindNextAlarm | app/src/main/java/com/example/dozo/data/ReminderScheduler.kt:92-126 | a returned alarm is a candidate no other candidate precedes, for the first parsed dose at its time; null means no candidate exists |
| Scheduler.AlarmMonotone | app/src/main/java/com/example/dozo/data/ReminderScheduler.kt:92-126 | the alarm found at one moment is still the earliest later the same day, until it rings |
| Scheduler.TodayAlarmEarliest | app/src/main/java/com/example/dozo/data/ReminderScheduler.kt:102-109 | today's first dose after now is the earliest candidate |
| Scheduler.LaterAlarmEarliest | app/src/main/java/com/example/dozo/data/ReminderScheduler.kt:112-122 | with nothing left today, the first dose of the first scheduled later day is the earliest candidate |
| Scheduler.NoAlarm | app/src/main/java/com/example/dozo/data/ReminderScheduler.kt:125 | when neither the today branch nor the loop finds a dose, no candidate exists |
| Scheduler.HeadIsFirstAtTime | app/src/main/java/com/example/dozo/data/ReminderScheduler.kt:99 | the chosen entry is the first parsed dose with its time |
| Scheduler.CandidateHorizon | app/src/main/java/com/example/dozo/data/ReminderScheduler.kt:112-113 | a candidate rings after now and no later than seven days from today |
| Scheduler.TodayWins | app/src/main/java/com/example/dozo/data/ReminderScheduler.kt:102-109 | if today has a dose after now, the earliest alarm is today and not later than it |
| Scheduler.EarliestUnique | app/src/main/java/com/example/dozo/data/ReminderScheduler.kt:92-126 | all earliest candidates ring at the same date and time |
| Scheduler.CandidateNeedsTimes | app/src/main/java/com/example/dozo/data/ReminderScheduler.kt:116 | no parsable dose time means no alarm |
| ViewModel.PendingDoses | app/src/main/java/com/example/dozo/viewmodel/MedecineViewModel.kt:36-38 | a dose is pending exactly when its status is PENDING or absent |
| ViewModel.ParsedTimes | app/src/main/java/com/example/dozo/viewmodel/MedecineViewModel.kt:40 | one parsed time per dose, in order |
| ViewModel.TimesAfter | app/src/main/java/com/example/dozo/viewmodel/MedecineViewModel.kt:41 | exactly the times after now are kept |
| ViewModel.MinTime | app/src/main/java/com/example/dozo/viewmodel/MedecineViewModel.kt:42-43 | minOrNull: none exactly for an empty list, else a member no greater than any other |
| ViewModel.ReminderInstance.NextUpcomingDoseTime | app/src/main/java/com/example/dozo/viewmodel/MedecineViewModel.kt:35-44 | the earliest pending time after now if one exists, else the earliest pending time, else none exactly when nothing is pending |
| ViewModel.PendingTimeOfDose | app/src/main/java/com/example/dozo/viewmodel/MedecineViewModel.kt:36-40 | the parsed time of a pending dose is among the pending times |
| ViewModel.PendingTimesMembers | app/src/main/java/com/example/dozo/viewmodel/MedecineViewModel.kt:36-40 | a time is pending exactly when some pending dose parses to it |
| ViewModel.TakenPredicates | app/src/main/java/com/example/dozo/viewmodel/MedecineViewModel.kt:25-32 | allDosesTaken iff 0 < taken count = number of statuses; someDosesTaken iff 0 < taken count < that; never both |
| ViewModel.ReminderInstance.TakenDoseCount | app/src/main/java/com/example/dozo/viewmodel/MedecineViewModel.kt:25-26 | takenDoseCount; stated against the predicates by TakenPredicates |
| ViewModel.ReminderInstance.AllDosesTaken | app/src/main/java/com/example/dozo/viewmodel/MedecineViewModel.kt:28-29 | allDosesTaken; stated by TakenPredicates |
| ViewModel.ReminderInstance.SomeDosesTaken | app/src/main/java/com/example/dozo/viewmodel/MedecineViewModel.kt:31-32 | someDosesTaken; stated by TakenPredicates |
| ViewModel.ParseMedicine | app/src/main/java/com/example/dozo/viewmodel/MedecineViewModel.kt:165-173 | a rule parses exactly when its start date parses and its end date, if any, parses; the result is the rule with those parsed dates |
| ViewModel.ParsedOccursIffAppears | app/src/main/java/com/example/dozo/viewmodel/MedecineViewModel.kt:180-183 | a parsed rule occurs on a date exactly when the rule appears on it |
| ViewModel.OccursOn | app/src/main/java/com/example/dozo/viewmodel/MedecineViewModel.kt:181-183 | the three filters of the loop; tied to AppearsOn by ParsedOccursIffAppears |
| ViewModel.InstanceId | app/src/main/java/com/example/dozo/viewmodel/MedecineViewModel.kt:185 | the stable instance id; stated by InstanceShape and InstanceIdsDistinct |
| ViewModel.InstanceStatuses | app/src/main/java/com/example/dozo/viewmodel/MedecineViewModel.kt:186-190 | the per-dose status map; stated by InstanceShape |
| ViewModel.MakeInstance | app/src/main/java/com/example/dozo/viewmodel/MedecineViewModel.kt:184-196 | one ReminderInstance; stated by InstanceShape |
| ViewModel.InstancesOn | app/src/main/java/com/example/dozo/viewmodel/MedecineViewModel.kt:180-197 | the instances of one date; stated by ExpansionByMedicine and InstancesOnMembers |
| ViewModel.ExpansionByMedicine | app/src/main/java/com/example/dozo/viewmodel/MedecineViewModel.kt:165-197 | expanding the parsed rules on a date gives the same list as expanding rule by rule |
| ViewModel.InstancesOfMedicinesMembers | app/src/main/java/com/example/dozo/viewmodel/MedecineViewModel.kt:180-197 | an instance is listed on a date exactly when it is the instance of a rule that appears on it |
| ViewModel.MalformedNeverAppears | app/src/main/java/com/example/dozo/viewmodel/MedecineViewModel.kt:170-172 | a rule whose start or end date does not parse is dropped and never appears |
| ViewModel.InstanceShape | app/src/main/java/com/example/dozo/viewmodel/MedecineViewModel.kt:185-196 | instance id is "medicineId-ISO date"; the status map has the dose ids as keys, each the stored "instanceId-doseId" status or PENDING |
| ViewModel.InstanceIdsDistinct | app/src/main/java/com/example/dozo/viewmodel/MedecineViewModel.kt:185 | one rule on two different dates gives two different instance ids |
| ViewModel.LookupAbsent | app/src/main/java/com/example/dozo/viewmodel/MedecineViewModel.kt:92 | a date with no entry looks up to the empty list |
| ViewModel.LookupFound | app/src/main/java/com/example/dozo/viewmodel/MedecineViewModel.kt:92 | in a sorted map a date's entry is what it looks up to |
| ViewModel.LookupEmptyIffAbsent | app/src/main/java/com/example/dozo/viewmodel/MedecineViewModel.kt:92 | with no empty entries, a lookup is empty exactly when the date has no entry |
| ViewModel.WindowSpan | app/src/main/java/com/example/dozo/viewmodel/MedecineViewModel.kt:175-176 | the window runs from 15 days before the month's first day to 15 after its last, length + 30 days |
| ViewModel.InWindowByEpoch | app/src/main/java/com/example/dozo/viewmodel/MedecineViewModel.kt:179 | a date is in the window exactly when its epoch day lies between the window's ends |
| ViewModel.MonthInWindow | app/src/main/java/com/example/dozo/viewmodel/MedecineViewModel.kt:175-176 | every day of the viewed month is in the window |
| ViewModel.CalendarNumbering | app/src/main/java/com/example/dozo/viewmodel/MedecineViewModel.kt:201 | plusDays(1) numbers dates consecutively and injectively by epoch day |
| ViewModel.WalkBounds | app/src/main/java/com/example/dozo/viewmodel/MedecineViewModel.kt:178-202 | every date the walk records lies in the walked range |
| ViewModel.WalkAscending | app/src/main/java/com/example/dozo/viewmodel/MedecineViewModel.kt:178-202 | the walk records dates in strictly ascending order |
| ViewModel.WalkLookup | app/src/main/java/com/example/dozo/viewmodel/MedecineViewModel.kt:178-202 | a date looks up to its day's instances inside the walked range and to nothing outside |
| ViewModel.CalendarWalkEntries | app/src/main/java/com/example/dozo/viewmodel/MedecineViewModel.kt:178-202 | a walk by plusDays(1) is sorted, holds no empty day, and records only dates in range |
| ViewModel.CalendarWalkLookup | app/src/main/java/com/example/dozo/viewmodel/MedecineViewModel.kt:178-202 | a walk by plusDays(1) looks up each date in range to its instances |
| ViewModel.ReachStep | app/src/main/java/com/example/dozo/viewmodel/MedecineViewModel.kt:179 | while the current date is not after the end, days remain to walk |
| ViewModel.ReachEnd | app/src/main/java/com/example/dozo/viewmodel/MedecineViewModel.kt:179 | once the current date is after the end, no day remains |
| ViewModel.WindowReach | app/src/main/java/com/example/dozo/viewmodel/MedecineViewModel.kt:175-179 | the loop leaves the window after exactly length + 30 steps |
| ViewModel.WalkAdvance | app/src/main/java/com/example/dozo/viewmodel/MedecineViewModel.kt:198-201 | one loop step records the day when it has instances and moves to the next day |
| ViewModel.WalkEnd | app/src/main/java/com/example/dozo/viewmodel/MedecineViewModel.kt:202 | a finished walk adds nothing |
| ViewModel.WindowEntries | app/src/main/java/com/example/dozo/viewmodel/MedecineViewModel.kt:175-203 | the window's walk is sorted, has no empty day and records only window dates |
| ViewModel.WindowLookup | app/src/main/java/com/example/dozo/viewmodel/MedecineViewModel.kt:175-203 | the window's walk looks each window date up to its instances and other dates to nothing |
| ViewModel.GroupDone | app/src/main/java/com/example/dozo/viewmodel/MedecineViewModel.kt:203 | the grouped result is a sorted map of window dates, lookups as the expansion |
| ViewModel.GroupRemindersByVisibleMonth | app/src/main/java/com/example/dozo/viewmodel/MedecineViewModel.kt:158-204 | the result is sorted by date with no empty date; every date is in the window; each date looks up to that day's expansion in the window and to nothing outside |
| ViewModel.GroupDays | app/src/main/java/com/example/dozo/viewmodel/MedecineViewModel.kt:178-202 | the while loop records exactly the walk of the days from start to end |
| ViewModel.WithoutDeleted | app/src/main/java/com/example/dozo/viewmodel/MedecineViewModel.kt:89 | an instance is kept exactly when its id is not deleted, never more than the input (order: WithoutDeletedAppend) |
| ViewModel.WithoutDeletedAppend | app/src/main/java/com/example/dozo/viewmodel/MedecineViewModel.kt:89 | filterNot keeps order: filtering a concatenation concatenates the filtered parts |
| ViewModel.WithoutDeletedCount | app/src/main/java/com/example/dozo/viewmodel/MedecineViewModel.kt:89 | every copy of a kept instance stays, no copy of a deleted one |
| ViewModel.WithoutDeletedAt | app/src/main/java/com/example/dozo/ui/screens/DashboardScreen.kt:257 | when only instance i has a deleted id, the result is the list with instance i cut out, the others in their order |
| ViewModel.WithoutDeletedDistinct | app/src/main/java/com/example/dozo/ui/screens/DashboardScreen.kt:257 | with distinct ids, filtering out the id of instance i cuts out exactly that instance |
| ViewModel.FilterDeletedAfter | app/src/main/java/com/example/dozo/viewmodel/MedecineViewModel.kt:88-90 | filtering keeps every date after a bound after it |
| ViewModel.FilterDeletedCorrect | app/src/main/java/com/example/dozo/viewmodel/MedecineViewModel.kt:88-90 | after filtering the map is sorted, has no emptied date, holds no deleted id, and each date looks up to its old list without deleted instances |
| ViewModel.FilterDeletedLookup | app/src/main/java/com/example/dozo/viewmodel/MedecineViewModel.kt:88-92 | looking up after filtering is filtering the lookup |
| ViewModel.FilterDeleted | app/src/main/java/com/example/dozo/viewmodel/MedecineViewModel.kt:88-90 | mapValues/filterNot/filterValues; stated by FilterDeletedCorrect and FilterDeletedLookup |
| ViewModel.TotalDoseCount | app/src/main/java/com/example/dozo/viewmodel/MedecineViewModel.kt:93 | sum of the doses of the instances; tied to the schedule by FlattenLength |
| ViewModel.TakenDoseSum | app/src/main/java/com/example/dozo/viewmodel/MedecineViewModel.kt:94 | sum of takenDoseCount; bounded by TakenAtMostTotal |
| ViewModel.TakenAtMostTotal | app/src/main/java/com/example/dozo/viewmodel/MedecineViewModel.kt:93-94 | the taken-dose total never exceeds the dose total |
| ViewModel.InstancesOnMembers | app/src/main/java/com/example/dozo/viewmodel/MedecineViewModel.kt:182-196 | every listed instance is the instance of a parsed rule occurring that day |
| ViewModel.InstancesCoverDoses | app/src/main/java/com/example/dozo/viewmodel/MedecineViewModel.kt:186-190 | every instance's status map covers only its own dose ids |
| ViewModel.MedicineViewModel.constructor | app/src/main/java/com/example/dozo/viewmodel/MedecineViewModel.kt:77-78 | the selected date starts as today and the viewed month as today's month |
| ViewModel.MedicineViewModel.OnDateSelected | app/src/main/java/com/example/dozo/viewmodel/MedecineViewModel.kt:147-150 | selecting a date also moves the viewed month to that date's month |
| ViewModel.MedicineViewModel.OnMonthChanged | app/src/main/java/com/example/dozo/viewmodel/MedecineViewModel.kt:152-155 | changing the month selects its first day |
| ViewModel.MedicineViewModel.CombineHomeUiState | app/src/main/java/com/example/dozo/viewmodel/MedecineViewModel.kt:81-107 | the state's map is sorted, without empty dates or deleted ids, each window date holding its expansion less deleted instances; the counts total the selected date's doses, taken ≤ total |
| Dashboard.SelectedDayReminders | app/src/main/java/com/example/dozo/ui/screens/DashboardScreen.kt:45-47 | the selected day's reminders are its entry, and empty exactly when it has none |
| Dashboard.UpNextKey | app/src/main/java/com/example/dozo/ui/screens/DashboardScreen.kt:253-255 | LocalTime.MAX when nothing is pending, else a pending time: the least one after now when there is one, otherwise the least pending time (app/src/main/java/com/example/dozo/viewmodel/MedecineViewModel.kt:35-44) |
| Dashboard.LookupInSortedMap | app/src/main/java/com/example/dozo/ui/screens/DashboardScreen.kt:46 | in a sorted map a date present looks up to its entry; with no empty entry a lookup is empty exactly when the date is absent |
| Dashboard.MinByFrom | app/src/main/java/com/example/dozo/ui/screens/DashboardScreen.kt:253-255 | minByOrNull's scan returns the first index of a least key |
| Dashboard.MinBy | app/src/main/java/com/example/dozo/ui/screens/DashboardScreen.kt:253-255 | minByOrNull returns the first index of a least key |
| Dashboard.FirstMinimumUnique | app/src/main/java/com/example/dozo/ui/screens/DashboardScreen.kt:253-255 | there is only one first index of a least key |
| Dashboard.SortInstancesByNextDose | app/src/main/java/com/example/dozo/ui/screens/DashboardScreen.kt:247-261 | not today: nothing up next, list unchanged; a one-element list: its element is up next unless all its doses are taken, with no time parsed; longer lists: the first minimum is up next unless all its doses are taken; the rest drop its id |
| Dashboard.PartitionCovers | app/src/main/java/com/example/dozo/ui/screens/DashboardScreen.kt:256-258 | no instance is lost, the rest never hold the id up next, and with distinct ids the rest are the list with exactly the instance up next cut out, in order |
| TodaysSchedule.DisplayDoses | app/src/main/java/com/example/dozo/ui/components/TodaysSchedule.kt:33-40 | one chip per dose, in dose order, each with the dose's status or PENDING |
| TodaysSchedule.DisplayOf | app/src/main/java/com/example/dozo/ui/components/TodaysSchedule.kt:34-39 | one DisplayDose; its fields are stated by DisplayDoses and FlattenMembers |
| TodaysSchedule.FlattenDoses | app/src/main/java/com/example/dozo/ui/components/TodaysSchedule.kt:32-40 | flatMap; stated by FlattenLength and FlattenMembers |
| TodaysSchedule.AllDosesForToday | app/src/main/java/com/example/dozo/ui/components/TodaysSchedule.kt:31-42 | flatMap then sortedBy; stated by ScheduleSorted |
| TodaysSchedule.FlattenLength | app/src/main/java/com/example/dozo/ui/components/TodaysSchedule.kt:32-40 | the schedule has as many chips as the instances have doses |
| TodaysSchedule.FlattenMembers | app/src/main/java/com/example/dozo/ui/components/TodaysSchedule.kt:32-40 | a chip is listed exactly when it is the chip of a dose of one of the instances |
| TodaysSchedule.ScheduleSorted | app/src/main/java/com/example/dozo/ui/components/TodaysSchedule.kt:31-42 | the shown list is sorted by time text, a permutation of the chips, equal times in flattened order |
| TodaysSchedule.ToggleProperties | app/src/main/java/com/example/dozo/ui/components/TodaysSchedule.kt:59-62 | a tap asks TAKEN exactly when the dose is not TAKEN, never asks SKIPPED, and two taps restore PENDING or TAKEN |
| TodaysSchedule.ToggledStatus | app/src/main/java/com/example/dozo/ui/components/TodaysSchedule.kt:59 | the status a tap asks for; stated by ToggleProperties |
| TodaysSchedule.DoseKeyInjective | app/src/main/java/com/example/dozo/ui/components/TodaysSchedule.kt:56 | within an instance, equal list keys mean equal dose ids; the key is the status-store key |
| TodaysSchedule.DoseKey | app/src/main/java/com/example/dozo/ui/components/TodaysSchedule.kt:56 | the list key; stated by DoseKeyInjective |
| ListItem.CardLookOf | app/src/main/java/com/example/dozo/ui/components/MedecineListItem.kt:51-58 | the all-taken tone iff every status is taken, the some-taken tone iff some but not all are, plain iff none; dimmed iff all taken |
| ListItem.TakenCountBound | app/src/main/java/com/example/dozo/ui/components/MedecineListItem.kt:51-55 | the taken count never exceeds the number of statuses |
| ListItem.DoseRowOf | app/src/main/java/com/example/dozo/ui/components/MedecineListItem.kt:195-231 | a row is struck through, labelled and without buttons iff not PENDING; "Taken" iff TAKEN, "Skipped" iff SKIPPED; a pending row offers Skip and Take |
| ListItem.DoseRows | app/src/main/java/com/example/dozo/ui/components/MedecineListItem.kt:168-172 | one row per dose, in order, for the dose's status or PENDING |
| ListItem.DoseRowsFollowStatuses | app/src/main/java/com/example/dozo/ui/components/MedecineListItem.kt:170 | a row has buttons iff its dose has no status or PENDING, and reads "Taken" iff its status is TAKEN |
| ListItem.DaysFrom | app/src/main/java/com/example/dozo/ui/components/MedecineListItem.kt:241 | the days from an ordinal up are exactly the given days there, ascending |
| ListItem.SortedDays | app/src/main/java/com/example/dozo/ui/components/MedecineListItem.kt:241 | toSortedSet has the same days, no repeats, ascending by ordinal |
| ListItem.DayNames | app/src/main/java/com/example/dozo/ui/components/MedecineListItem.kt:243-245 | one short name per day, in order |
| ListItem.EveryDayMeansAll | app/src/main/java/com/example/dozo/ui/components/MedecineListItem.kt:236 | without repeats, "Every day" iff the days are the whole week |
| ListItem.WeekdaysMeansWorkWeek | app/src/main/java/com/example/dozo/ui/components/MedecineListItem.kt:237 | without repeats, "Weekdays" iff the days are Monday to Friday |
| ListItem.WeekendsMeansWeekend | app/src/main/java/com/example/dozo/ui/components/MedecineListItem.kt:238 | without repeats, "Weekends" iff the days are Saturday and Sunday |
| ListItem.ListedDays | app/src/main/java/com/example/dozo/ui/components/MedecineListItem.kt:235-246 | otherwise the text is the short names of the sorted distinct days joined by ", " |
| ListItem.DaysLabelOf | app/src/main/java/com/example/dozo/ui/components/MedecineListItem.kt:236-241 | which case of formatDaysOfWeek applies; stated by EveryDayMeansAll, WeekdaysMeansWorkWeek, WeekendsMeansWeekend and ListedDays |
| ListItem.FormatDaysOfWeek | app/src/main/java/com/example/dozo/ui/components/MedecineListItem.kt:235-246 | formatDaysOfWeek; stated by the same four lemmas |
| InputForm.RemoveFirst | app/src/main/java/com/example/dozo/ui/components/MedecineInputForm.kt:178 | removing drops one occurrence when present and changes nothing when absent |
| InputForm.RemoveFirstAt | app/src/main/java/com/example/dozo/ui/components/MedecineInputForm.kt:178 | the result is the list with its first occurrence cut out, the elements before and after it in their order |
| InputForm.RemoveFirstDays | app/src/main/java/com/example/dozo/ui/components/MedecineInputForm.kt:178 | on a list without repeats, removing a day keeps no repeats and leaves exactly the other days |
| InputForm.ToggledDays | app/src/main/java/com/example/dozo/ui/components/MedecineInputForm.kt:177-181 | a toggle keeps the list free of repeats and flips the day's membership only |
| InputForm.ToggleTwice | app/src/main/java/com/example/dozo/ui/components/MedecineInputForm.kt:177-181 | toggling twice restores the set of days, and the list itself when the day was absent |
| InputForm.ShownTimesSorted | app/src/main/java/com/example/dozo/ui/components/MedecineInputForm.kt:206 | the shown times are the chosen times, sorted ascending |
| InputForm.ShownTimes | app/src/main/java/com/example/dozo/ui/components/MedecineInputForm.kt:206 | selectedTimes.sorted(); stated by ShownTimesSorted |
| InputForm.DetailsComplete | app/src/main/java/com/example/dozo/ui/components/MedecineInputForm.kt:55 | isDetailsComplete; used by CompleteFormMedicine and Submit |
| InputForm.ScheduleComplete | app/src/main/java/com/example/dozo/ui/components/MedecineInputForm.kt:56 | isScheduleComplete; used by CompleteFormMedicine and Submit |
| InputForm.FormComplete | app/src/main/java/com/example/dozo/ui/components/MedecineInputForm.kt:57 | isFormComplete; Submit returns a medicine exactly when it holds |
| InputForm.BuildMedicine | app/src/main/java/com/example/dozo/ui/components/MedecineInputForm.kt:245-262 | id and name as given, dosage "quantity type", one dose per time parsing back to it, start date today; one-time: today's weekday and end today; else the days and no end |
| InputForm.OneTimeOnlyToday | app/src/main/java/com/example/dozo/ui/components/MedecineInputForm.kt:247-249 | a one-time medicine parses and occurs on exactly today |
| InputForm.RepeatingFromToday | app/src/main/java/com/example/dozo/ui/components/MedecineInputForm.kt:247-249 | a repeating medicine occurs exactly on the chosen weekdays from today on |
| InputForm.CompleteFormMedicine | app/src/main/java/com/example/dozo/ui/components/MedecineInputForm.kt:55-57 | a complete form builds a medicine with a non-blank name, a dose and a day, its days without repeats |
| InputForm.MedicineForm.constructor | app/src/main/java/com/example/dozo/ui/components/MedecineInputForm.kt:43-52 | the form starts with an empty name, quantity 1, "Tablet", no times, no days, repeating |
| InputForm.MedicineForm.SetName | app/src/main/java/com/example/dozo/ui/components/MedecineInputForm.kt:102 | sets the name and nothing else |
| InputForm.MedicineForm.SelectDoseType | app/src/main/java/com/example/dozo/ui/components/MedecineInputForm.kt:107 | sets the dose type and nothing else |
| InputForm.MedicineForm.Decrement | app/src/main/java/com/example/dozo/ui/components/MedecineInputForm.kt:115 | lowers the quantity by one unless it is 1 |
| InputForm.MedicineForm.Increment | app/src/main/java/com/example/dozo/ui/components/MedecineInputForm.kt:129 | raises the quantity by one |
| InputForm.MedicineForm.ToggleOneTime | app/src/main/java/com/example/dozo/ui/components/MedecineInputForm.kt:160 | flips the one-time switch |
| InputForm.MedicineForm.SetOneTime | app/src/main/java/com/example/dozo/ui/components/MedecineInputForm.kt:167 | sets the one-time switch |
| InputForm.MedicineForm.ToggleDay | app/src/main/java/com/example/dozo/ui/components/MedecineInputForm.kt:177-181 | removes the day when chosen, appends it otherwise; the days keep no repeats |
| InputForm.MedicineForm.AddTime | app/src/main/java/com/example/dozo/ui/components/MedecineInputForm.kt:73 | appends LocalTime.of(hour, minute) |
| InputForm.MedicineForm.RemoveTime | app/src/main/java/com/example/dozo/ui/components/MedecineInputForm.kt:213 | removes the first occurrence of the time |
| InputForm.MedicineForm.Submit | app/src/main/java/com/example/dozo/ui/components/MedecineInputForm.kt:245-265 | a medicine exactly when the form is complete, and then the one the form builds |
| CalendarStrip.DateStrip | app/src/main/java/com/example/dozo/ui/components/HorizontalCalendar.kt:40-43 | 45 dates from 14 days before today to 30 after, one day apart, with today in cell 14 |
| CalendarStrip.StripDate | app/src/main/java/com/example/dozo/ui/components/HorizontalCalendar.kt:42 | the date of one cell; stated by StripDateFacts |
| CalendarStrip.StripDateFacts | app/src/main/java/com/example/dozo/ui/components/HorizontalCalendar.kt:42 | cell i is i - 14 epoch days from today, cell 14 is today, and each cell is the day after the one before |
| CalendarStrip.IndexOfFirst | app/src/main/java/com/example/dozo/ui/components/HorizontalCalendar.kt:46 | indexOfFirst: -1 exactly when absent, else the first index holding the date |
| CalendarStrip.OnStrip | app/src/main/java/com/example/dozo/ui/components/HorizontalCalendar.kt:42 | a date is on the strip exactly when it is 14 days before to 30 after today |
| CalendarStrip.StartIndexOnStrip | app/src/main/java/com/example/dozo/ui/components/HorizontalCalendar.kt:46 | the strip starts at the selected date's cell when it is on the strip, at today's cell 14 otherwise |
| CalendarStrip.StartIndex | app/src/main/java/com/example/dozo/ui/components/HorizontalCalendar.kt:46 | the start cell; stated by StartIndexOnStrip |
| CalendarStrip.OneSelectedCell | app/src/main/java/com/example/dozo/ui/components/HorizontalCalendar.kt:116 | at most one cell is selected, and it is the start cell |
| CalendarStrip.IsSelected | app/src/main/java/com/example/dozo/ui/components/HorizontalCalendar.kt:116 | isSelected; stated by OneSelectedCell |

## Left out

- Firestore, `MedicineRepository` and every Kotlin `Flow`/`StateFlow` are left out. `combine` is modelled as one call on the current values, with the deleted ids as a set.
- The operations that only forward to the repository or the alarm manager are left out: `addMedicine`, `deleteMedicineRule`, `onDoseStatusChanged`, `deleteReminderInstance` and `undoDeleteInstance`. Of `scheduleNextAlarm`, only `findNextAlarm` and `isScheduledForDay` are modelled.
- Alarm times stay local dates and times. Conversion to epoch milliseconds through the device time zone, `AlarmManager`, `PendingIntent` and the notification receiver are I/O.
- The clock (`LocalDate.now()`, `LocalDateTime.now()`, `LocalTime.now()`) and `UUID.randomUUID()` are parameters. The view model reads the clock twice at start (`LocalDate.now()` and `YearMonth.now()`, `viewmodel/MedecineViewModel.kt:77-78`); the model takes one `today` for both, so `MedicineViewModel`'s `Valid()` at start assumes the two reads fall in the same month.
- `HomeUiState`'s `isLoading = true` initial value and `LocalDate.now()` default are not modelled. `CombineHomeUiState` is only ever in the loaded state.
- ViewModel.ReminderInstance.NextUpcomingDoseTime requires every pending dose time to parse. `LocalTime.parse` would throw otherwise, and the exception is not modelled. The same applies to Dashboard.UpNextKeys, and to Dashboard.SortInstancesByNextDose on lists of two or more instances; on a one-element list `minByOrNull` returns the element without calling its selector, and the model does the same.
- Locale-dependent text is out of scope:
  - the short weekday names are a function parameter of `ListItem.FormatDaysOfWeek`;
  - the "hh:mm a" time display is not modelled;
  - the chip label at `ui/components/TodaysSchedule.kt:67` is not modelled.
- InputForm.MedicineForm.Increment does not model Kotlin `Int` overflow of `doseQuantity++`. The quantity is an unbounded integer.
- Strings are sequences of Dafny `char`, which are Unicode scalar values, whereas Kotlin strings are sequences of UTF-16 code units. Lengths and indices differ for characters outside the Basic Multilingual Plane.
- TodaysSchedule.AllDosesForToday orders time texts by Unicode code point (Text.CharCodes), while Kotlin's `String.compareTo` compares UTF-16 code units. The two orders differ only for text mixing supplementary characters (encoded as surrogates, below U+E000) with characters U+E000 to U+FFFF; a dose time written by the app is ASCII.
- The ListItem lemmas about the weekday summary assume a day list without repeats. The form only builds such lists (InputForm.ToggledDays). A stored list with repeats is still formatted by `ListItem.FormatDaysOfWeek`, but it is not described by those lemmas.
- The UI layout, animations, colours as floats, gradients, dialogs and the screens with no logic are left out:
  - `MainActivity.kt`;
  - `MainScreen.kt`;
  - `SettingsScreen.kt`;
  - the theme;
  - the selectors;
  - the stepper;
  - the dropdown;
  - the empty-state and stats cards.
- `ListItem.CardLookOf` states which of the three tones a card takes and whether it is dimmed. The actual colour values and alpha floats are not modelled.
- ViewModel.GroupDays is the `while` loop of `groupRemindersByVisibleMonth`, split out into its own method. The day's expansion is a ghost function that is fixed once for the call.
- Dates.PlusDays, Dates.MinusDays and Dates.AddDays do not throw beyond LocalDate.MIN and LocalDate.MAX, as `plusDays`/`minusDays` do with a DateTimeException; years are unbounded there. Stepping (the alarm search, the month window, the date strip) is therefore not checked against that range.
