/** The records the timetable generator in backend/scheduler.py reads and
    writes, reduced to the fields the generator uses. */
module Catalog {

  /** A class (a section of one year of a branch); `Class` in the ORM. */
  datatype ClassGroup = ClassGroup(classId: int, year: int)

  /** A subject with the ids of the faculties able to teach it (the
      `Subject.faculties` back-reference of the faculty/subject association). */
  datatype Subject = Subject(subjectId: int, isLab: bool, faculties: seq<int>)

  /** A room; `Location` in the ORM. */
  datatype Location = Location(locationId: int, isLab: bool)

  /** A period of the week.  `day` and `yearGroup` are the free strings of the
      `TimeSlot` table (`day_of_week`, `applicable_year_group`). */
  datatype TimeSlot = TimeSlot(slotId: int, day: string, period: int, yearGroup: string)

  /** One `ClassSubject` row: a class needs `hours` periods of a subject a
      week; `isLab` is read through the row's subject. */
  datatype RequirementRow = RequirementRow(classId: int, subjectId: int, hours: int, isLab: bool)

  /** The `(subject_id, hours, is_lab)` triple stored per class. */
  datatype Requirement = Requirement(subjectId: int, hours: int, isLab: bool)

  /** One period to place: a dict of `assignments_needed`. */
  datatype Task = Task(classId: int, subjectId: int, isLab: bool, year: int)

  /** One placed period: a dict of `results`, later a `TimetableEntry`. */
  datatype Entry = Entry(classId: int, slotId: int, subjectId: int, facultyId: int, locationId: int)

  /** Whether a slot whose `applicable_year_group` is `group` may hold a
      period of a class of year `year`: `'1'` is for the first year only,
      `'2-3+'` for the second year and above, every other value (`'ALL'`
      among them) for everyone. */
  predicate YearApplies(group: string, year: int) {
    group == "ALL" || ((group == "1" ==> year == 1) && (group == "2-3+" ==> year >= 2))
  }

  lemma YearAppliesCases(group: string, year: int)
    ensures group == "1" ==> (YearApplies(group, year) <==> year == 1)
    ensures group == "2-3+" ==> (YearApplies(group, year) <==> year >= 2)
    ensures group != "1" && group != "2-3+" ==> YearApplies(group, year)
  {
  }

  const Days: seq<string> := ["Monday", "Tuesday", "Wednesday", "Thursday", "Friday", "Saturday"]

  /** `days.index(day) if day in days else 99`. */
  function DayIndex(day: string): (k: int)
    ensures day in Days ==> 0 <= k < |Days| && Days[k] == day
    ensures day !in Days ==> k == 99
  {
    if day == Days[0] then 0
    else if day == Days[1] then 1
    else if day == Days[2] then 2
    else if day == Days[3] then 3
    else if day == Days[4] then 4
    else if day == Days[5] then 5
    else 99
  }

  /** Weekday order: every listed day sorts before every unlisted one, and
      the listed days sort Monday first. */
  lemma DayIndexOrder(a: string, b: string)
    ensures a in Days && b !in Days ==> DayIndex(a) < DayIndex(b)
    ensures a in Days && b in Days ==> (DayIndex(a) < DayIndex(b) <==> exists i, j :: 0 <= i < j < |Days| && Days[i] == a && Days[j] == b)
  {
    if a in Days && b in Days {
      var i, j := DayIndex(a), DayIndex(b);
      if i < j {
        assert Days[i] == a && Days[j] == b;
      }
    }
  }
}
