/**
 * The records of the application (src/data/types.ts).
 *
 * A calendar date is a day number (days since 1970-01-01), so numeric order is
 * chronological order, as the source relies on for its `YYYY-MM-DD` strings.
 * Times of day that the source keeps as text stay text where the source parses them.
 */
module Model {
  import opened Wrappers

  /** A calendar day as a day number; day 0 (1970-01-01) was a Thursday. */
  type Date = int

  /**
   * The attendance status. The declared type lists the first four; the home screen
   * and the attendance recorder also record `late` and `excused`.
   */
  datatype Status = Present | Absent | Canceled | Holiday | Late | Excused

  /** The four statuses the declared type admits. */
  predicate IsDeclaredStatus(s: Status) {
    s == Present || s == Absent || s == Canceled || s == Holiday
  }

  /** The status as stored and exported ('present', 'absent', ...). */
  function StatusName(s: Status): string {
    match s
    case Present => "present"
    case Absent => "absent"
    case Canceled => "canceled"
    case Holiday => "holiday"
    case Late => "late"
    case Excused => "excused"
  }

  /** The lower-case weekday names, indexed by `Date.getDay()` (0 = Sunday). */
  function DayNames(): (r: seq<string>)
    ensures |r| == 7 && r[0] == "sunday" && r[6] == "saturday"
  {
    ["sunday", "monday", "tuesday", "wednesday", "thursday", "friday", "saturday"]
  }

  /** The weekday of a day number: 0 = Sunday; day 0 was a Thursday. */
  function Weekday(d: Date): (w: nat)
    ensures w < 7
  {
    (d + 4) % 7
  }

  /** One recorded class meeting of a course; at most one per date is intended. */
  datatype Session = Session(date: Date, status: Status, notes: Option<string>, assignments: Option<seq<string>>)

  /** A weekly slot: `day` is a weekday name, the times are text such as "10:00" or "09:00 AM". */
  datatype TimetableEntry = TimetableEntry(
    id: string, day: string, startTime: string, endTime: string, location: string, courseId: string)

  /** A course; `totalClassesDone`/`totalClassesAttended` are the mid-semester baseline. */
  datatype Course = Course(
    id: string, name: string, color: string,
    professor: Option<string>, attendanceThreshold: Option<int>,
    totalClassesDone: Option<int>, totalClassesAttended: Option<int>,
    sessions: seq<Session>)

  datatype Theme = Light | Dark

  /** `reminderTime` is the number of minutes before class a reminder fires. */
  datatype AppSettings = AppSettings(theme: Theme, accentColor: string, reminderTime: int, notificationsEnabled: bool)

  datatype CompletionType = Success | Failed

  /** A task tied to a course; `dueDate` is a day number. */
  datatype Assignment = Assignment(
    id: string, title: string, courseId: string, dayOfWeek: string,
    dueDate: Option<Date>, completed: bool, completedType: Option<CompletionType>)

  /** The unit of persistence and backup; the state store builds it without `assignments`. */
  datatype AppData = AppData(
    courses: seq<Course>, settings: AppSettings, timetable: seq<TimetableEntry>,
    assignments: Option<seq<Assignment>>)

  /** The declared statuses are exactly four; `late` and `excused` are outside them. */
  function DeclaredStatuses(): (r: set<Status>)
    ensures forall s :: s in r <==> IsDeclaredStatus(s)
    ensures |r| == 4 && Late !in r && Excused !in r
  {
    var r := {Present, Absent, Canceled, Holiday};
    assert |{Present, Absent, Canceled}| == 3;
    r
  }

  /** The number of sessions of every course, whatever their status. */
  function AllSessions(courses: seq<Course>): nat {
    if courses == [] then 0
    else AllSessions(courses[..|courses| - 1]) + |courses[|courses| - 1].sessions|
  }

  /** The first course with the given id (`courses.find(c => c.id === id)`). */
  function FindCourse(courses: seq<Course>, id: string): (r: Option<Course>)
    ensures r.None? <==> forall k :: 0 <= k < |courses| ==> courses[k].id != id
    ensures r.Some? ==> r.value in courses && r.value.id == id
    ensures r.Some? ==> exists k :: 0 <= k < |courses| && courses[k] == r.value
                                  && forall j :: 0 <= j < k ==> courses[j].id != id
  {
    if courses == [] then None
    else if courses[0].id == id then
      assert courses[0] == courses[0];
      Some(courses[0])
    else
      var r := FindCourse(courses[1..], id);
      assert r.Some? ==> exists k :: 0 <= k < |courses[1..]| && courses[1..][k] == r.value
                                  && forall j :: 0 <= j < k ==> courses[1..][j].id != id;
      assert r.Some? ==> exists k :: 0 <= k < |courses| && courses[k] == r.value
                                  && forall j :: 0 <= j < k ==> courses[j].id != id by {
        if r.Some? {
          var k :| 0 <= k < |courses[1..]| && courses[1..][k] == r.value
                 && forall j :: 0 <= j < k ==> courses[1..][j].id != id;
          assert courses[k + 1] == r.value;
          assert forall j :: 0 <= j < k + 1 ==> courses[j].id != id by {
            forall j | 0 <= j < k + 1 ensures courses[j].id != id {
              if j > 0 { assert courses[j] == courses[1..][j - 1]; }
            }
          }
        }
      }
      r
  }

  /** The first session with the given date (`sessions.find(s => s.date === date)`). */
  function FindSession(sessions: seq<Session>, date: Date): (r: Option<Session>)
    ensures r.None? <==> forall k :: 0 <= k < |sessions| ==> sessions[k].date != date
    ensures r.Some? ==> r.value == sessions[FindSessionIndex(sessions, date)]
  {
    if FindSessionIndex(sessions, date) < |sessions| then Some(sessions[FindSessionIndex(sessions, date)]) else None
  }

  /** `findIndex` of the first session with the date; `|sessions|` stands for -1. */
  function FindSessionIndex(sessions: seq<Session>, date: Date): (i: nat)
    ensures i <= |sessions|
    ensures i < |sessions| ==> sessions[i].date == date
    ensures forall k :: 0 <= k < i ==> sessions[k].date != date
  {
    if sessions == [] then 0
    else if sessions[0].date == date then 0
    else 1 + FindSessionIndex(sessions[1..], date)
  }
}
