/**
 * The home screen (app/index.tsx): today's date text, today's timetable entries
 * and schedule, the statuses already recorded today, recording a status, and the
 * home screen's own attendance rate.
 */
module Home {
  import opened Wrappers
  import opened Strings
  import opened Sorting
  import opened Filtering
  import opened Model
  import opened DateText
  import opened Statistics
  import opened DataStore

  // ---------------------------------------------------------------- today

  /** `getTodayDateString` for the local year, 0-based month index and day of month. */
  function TodayDateString(year: nat, monthIndex: nat, day: nat): string {
    DateString(year, monthIndex + 1, day)
  }

  /** The month field carries the 1-based month, both fields padded to two digits. */
  lemma TodayDateStringFields(year: nat, monthIndex: nat, day: nat)
    requires 1000 <= year <= 9999 && monthIndex <= 11 && 1 <= day <= 31
    ensures var r := TodayDateString(year, monthIndex, day);
      && |r| == 10 && r[4] == '-' && r[7] == '-'
      && ParseInt(r[..4]) == Some(year)
      && ParseInt(r[5..7]) == Some(monthIndex + 1)
      && ParseInt(r[8..]) == Some(day)
  {
    DateStringFields(year, monthIndex + 1, day);
  }

  // ---------------------------------------------------------------- today's entries

  /** `a.startTime.localeCompare(b.startTime) <= 0`, taken as code-unit order. */
  predicate StartsNoLater(a: TimetableEntry, b: TimetableEntry) {
    StrLe(a.startTime, b.startTime)
  }

  lemma StartsNoLaterIsTotalPreorder()
    ensures TotalPreorder(StartsNoLater)
  {
    forall a: TimetableEntry, b: TimetableEntry ensures StartsNoLater(a, b) || StartsNoLater(b, a) {
      StrLeTotal(a.startTime, b.startTime);
    }
    forall a: TimetableEntry, b: TimetableEntry, c: TimetableEntry | StartsNoLater(a, b) && StartsNoLater(b, c)
      ensures StartsNoLater(a, c)
    {
      StrLeTransitive(a.startTime, b.startTime, c.startTime);
    }
  }

  /** `entry => entry.day.toLowerCase() === todayName`. */
  function DayIsLower(name: string): TimetableEntry -> bool {
    (e: TimetableEntry) => Lower(e.day) == name
  }

  /** `todayTimetableEntries`: the entries for the weekday, by start time. */
  function TodayTimetableEntries(timetable: seq<TimetableEntry>, weekday: nat): seq<TimetableEntry>
    requires weekday < 7
  {
    SortBy(Filter(timetable, DayIsLower(DayNames()[weekday])), StartsNoLater)
  }

  /** Exactly the entries whose lower-cased day is today's name, sorted by start time. */
  lemma TodayEntriesSpec(timetable: seq<TimetableEntry>, weekday: nat)
    requires weekday < 7
    ensures var r := TodayTimetableEntries(timetable, weekday);
      && (forall e :: e in r <==> e in timetable && Lower(e.day) == DayNames()[weekday])
      && SortedBy(r, StartsNoLater)
  {
    var f := Filter(timetable, DayIsLower(DayNames()[weekday]));
    forall e ensures e in SortBy(f, StartsNoLater) <==> e in f {
      SortByMembers(f, StartsNoLater, e);
    }
    StartsNoLaterIsTotalPreorder();
    SortBySorted(f, StartsNoLater);
  }

  // ---------------------------------------------------------------- today's schedule

  /** An entry of `todaySchedule`: the timetable entry with its course's name, colour and professor. */
  datatype ScheduleItem = ScheduleItem(entry: TimetableEntry, courseName: string, courseColor: string, professor: Option<string>)

  /** `course?.name || 'Unknown Course'`, `course?.color || colors.border`, `course?.professor`. */
  function ScheduleItemFor(e: TimetableEntry, courses: seq<Course>, border: string): (item: ScheduleItem)
    ensures item.entry == e
    ensures FindCourse(courses, e.courseId).None? ==>
      item.courseName == "Unknown Course" && item.courseColor == border && item.professor == None
    ensures FindCourse(courses, e.courseId).Some? ==>
      var c := FindCourse(courses, e.courseId).value;
      && c.id == e.courseId
      && item.courseName == (if c.name == "" then "Unknown Course" else c.name)
      && item.courseColor == (if c.color == "" then border else c.color)
      && item.professor == c.professor
  {
    match FindCourse(courses, e.courseId)
    case None => ScheduleItem(e, "Unknown Course", border, None)
    case Some(c) =>
      ScheduleItem(e, if c.name == "" then "Unknown Course" else c.name,
                   if c.color == "" then border else c.color, c.professor)
  }

  /** `todaySchedule`: one item per entry of today, in the same order. */
  function TodaySchedule(entries: seq<TimetableEntry>, courses: seq<Course>, border: string): (r: seq<ScheduleItem>)
    ensures |r| == |entries|
    ensures forall k :: 0 <= k < |entries| ==> r[k] == ScheduleItemFor(entries[k], courses, border)
  {
    seq(|entries|, k requires 0 <= k < |entries| => ScheduleItemFor(entries[k], courses, border))
  }

  // ---------------------------------------------------------------- statuses recorded today

  /** The status of the course's first session dated today, if the course and such a session exist. */
  function TodayStatus(courses: seq<Course>, courseId: string, today: Date): Option<Status> {
    match FindCourse(courses, courseId)
    case None => None
    case Some(c) =>
      match FindSession(c.sessions, today)
      case None => None
      case Some(s) => Some(s.status)
  }

  /** The record `initialStatuses` builds from the schedule items, later items last. */
  function StatusesOf(items: seq<ScheduleItem>, courses: seq<Course>, today: Date): map<string, Status> {
    if items == [] then map[]
    else
      var m := StatusesOf(items[..|items| - 1], courses, today);
      var id := items[|items| - 1].entry.courseId;
      match TodayStatus(courses, id, today)
      case None => m
      case Some(st) => m[id := st]
  }

  /** Some item of the schedule is a class of the course. */
  predicate Scheduled(items: seq<ScheduleItem>, id: string) {
    exists k :: 0 <= k < |items| && items[k].entry.courseId == id
  }

  /** An item more: the course is scheduled if it was before or the new item is one of its classes. */
  lemma ScheduledSnoc(items: seq<ScheduleItem>, id: string)
    requires items != []
    ensures Scheduled(items, id) <==>
      Scheduled(items[..|items| - 1], id) || items[|items| - 1].entry.courseId == id
  {
    var init := items[..|items| - 1];
    if Scheduled(init, id) {
      var k :| 0 <= k < |init| && init[k].entry.courseId == id;
      assert items[k].entry.courseId == id;
    }
    if Scheduled(items, id) {
      var k :| 0 <= k < |items| && items[k].entry.courseId == id;
      if k < |init| {
        assert init[k].entry.courseId == id;
      }
    }
  }

  /** A course has an initial status exactly when it is scheduled today and has a session dated today. */
  lemma {:induction false} StatusesOfSpec(items: seq<ScheduleItem>, courses: seq<Course>, today: Date, id: string)
    ensures id in StatusesOf(items, courses, today) <==>
      Scheduled(items, id) && TodayStatus(courses, id, today).Some?
    ensures id in StatusesOf(items, courses, today) ==>
      StatusesOf(items, courses, today)[id] == TodayStatus(courses, id, today).value
  {
    if items != [] {
      StatusesOfSpec(items[..|items| - 1], courses, today, id);
      ScheduledSnoc(items, id);
    }
  }

  /** The `useState` initializer: walk today's schedule and record the statuses found. */
  method InitialStatuses(items: seq<ScheduleItem>, courses: seq<Course>, today: Date) returns (m: map<string, Status>)
    ensures m == StatusesOf(items, courses, today)
  {
    m := map[];
    var k := 0;
    while k < |items|
      invariant 0 <= k <= |items|
      invariant m == StatusesOf(items[..k], courses, today)
    {
      assert items[..k + 1][..k] == items[..k];
      var id := items[k].entry.courseId;
      var course := FindCourse(courses, id);
      if course.Some? {
        var todaySession := FindSession(course.value.sessions, today);
        if todaySession.Some? {
          m := m[id := todaySession.value.status];
        }
      }
      k := k + 1;
    }
    assert items[..k] == items;
  }

  // ---------------------------------------------------------------- the home rate

  /** The number of `present` sessions of every course. */
  function AllPresent(courses: seq<Course>): (n: nat)
    ensures n <= AllSessions(courses)
  {
    if courses == [] then 0
    else AllPresent(courses[..|courses| - 1]) + CountStatus(courses[|courses| - 1].sessions, Present)
  }

  /** `attendanceRate`: present over all sessions, as a rounded percentage, or 0 with no sessions. */
  function HomeAttendanceRate(courses: seq<Course>): (rate: int)
    ensures 0 <= rate <= 100
    ensures AllSessions(courses) == 0 ==> rate == 0
    ensures AllSessions(courses) > 0 ==> rate == RoundPercent(AllPresent(courses), AllSessions(courses))
  {
    var total := AllSessions(courses);
    if total > 0 then RoundPercent(AllPresent(courses), total) else 0
  }

  /**
   * The two rates disagree: one `present` and one `holiday` session give 50 on the home
   * screen, whose denominator counts every session, and 100 on the statistics screen.
   */
  lemma HomeRateCountsEverySession(c: Course)
    requires |c.sessions| == 2 && c.sessions[0].status == Present && c.sessions[1].status == Holiday
    requires c.totalClassesDone == None
    ensures HomeAttendanceRate([c]) == 50
    ensures OverallAttendance([c]) == Some(100)
  {
    assert c.sessions[..1][..0] == [];
    assert CountStatus(c.sessions, Present) == 1;
    assert CountStatus(c.sessions, Absent) == 0;
    assert [c][..0] == [];
    assert AllSessions([c]) == 2 && AllPresent([c]) == 1;
    assert TotalPresent([c]) == 1 && TotalRelevant([c]) == 1;
  }

  // ---------------------------------------------------------------- the screen

  /**
   * The screen's state over the shared store: today's schedule, built once from
   * the timetable and the courses, and the statuses shown for today.
   */
  class HomeScreen {
    const store: Store
    const today: Date
    const schedule: seq<ScheduleItem>
    var todayStatuses: map<string, Status>

    /**
     * The first render: today's entries become the schedule (an unknown course
     * shown in the `border` colour), then the statuses start as the initial map.
     */
    constructor(store: Store, today: Date, border: string)
      ensures this.store == store && this.today == today
      ensures schedule == TodaySchedule(TodayTimetableEntries(store.timetable, Weekday(today)), store.courses, border)
      ensures todayStatuses == StatusesOf(schedule, store.courses, today)
    {
      this.store := store;
      this.today := today;
      var entries := TodayTimetableEntries(store.timetable, Weekday(today));
      schedule := TodaySchedule(entries, store.courses, border);
      todayStatuses := map[];
      new;
      todayStatuses := InitialStatuses(schedule, store.courses, today);
    }

    /** `handleRecord`: upsert today's session in the store and show the new status for that course only. */
    method HandleRecord(courseId: string, status: Status)
      modifies this, store
      ensures store.courses == WithSession(old(store.courses), courseId, today, status)
      ensures store.settings == old(store.settings) && store.timetable == old(store.timetable)
      ensures store.isLoading == old(store.isLoading)
      ensures todayStatuses == old(todayStatuses)[courseId := status]
    {
      store.AddAttendanceSession(courseId, today, status);
      todayStatuses := todayStatuses[courseId := status];
    }
  }
}
