/**
 * Week and day helpers for the calendar views (src/utils/calendarUtils.ts):
 * the seven dates of the current week from Monday, the classes of each day of a
 * week, and a course's attendance as a list of dated records.
 */
module CalendarUtils {
  import opened Wrappers
  import opened Strings
  import opened Sorting
  import opened Model
  import opened Filtering

  /** `toLocaleDateString('en-US', { weekday: 'long' })`, indexed like `getDay()`. */
  function LongDayNames(): (r: seq<string>)
    ensures |r| == 7
  {
    ["Sunday", "Monday", "Tuesday", "Wednesday", "Thursday", "Friday", "Saturday"]
  }

  /** The long name of a date's weekday; lower-cased, it is the name the timetable stores for that weekday. */
  function DayName(d: Date): (name: string)
    ensures Lower(name) == DayNames()[Weekday(d)]
  {
    LowerLongDayName(Weekday(d));
    LongDayNames()[Weekday(d)]
  }

  /** Lower-casing a long day name gives the stored lower-case name. */
  lemma LowerLongDayName(w: nat)
    requires w < 7
    ensures Lower(LongDayNames()[w]) == DayNames()[w]
  {
    var names := LongDayNames();
    var lowers := DayNames();
    assert Lower(names[w]) == [LowerChar(names[w][0])] + names[w][1..];
    if w == 0 { assert names[w][1..] == "unday"; }
    else if w == 1 { assert names[w][1..] == "onday"; }
    else if w == 2 { assert names[w][1..] == "uesday"; }
    else if w == 3 { assert names[w][1..] == "ednesday"; }
    else if w == 4 { assert names[w][1..] == "hursday"; }
    else if w == 5 { assert names[w][1..] == "riday"; }
    else { assert names[w][1..] == "aturday"; }
  }

  // ---------------------------------------------------------------- the week

  /** `diff`: how many days back Monday is; Sunday belongs to the week that began six days earlier. */
  function MondayOffset(currentDay: nat): (diff: int)
    requires currentDay < 7
    ensures 0 <= diff < 7
  {
    if currentDay == 0 then 6 else currentDay - 1
  }

  /** The Monday the offset leads to is a Monday, and it is at most six days back. */
  lemma MondayOffsetIsMonday(today: Date)
    ensures Weekday(today - MondayOffset(Weekday(today))) == 1
  {
  }

  /** A local `Date` object: the day number and the milliseconds since local midnight. */
  datatype Instant = Instant(day: Date, msOfDay: int)

  /**
   * `getCurrentWeekDates`: the loop from Monday over seven days. Each date is a copy of
   * "now" moved by `setDate`, so it keeps the current time of day.
   */
  method GetCurrentWeekDates(now: Instant) returns (weekDates: seq<Instant>)
    ensures |weekDates| == 7
    ensures Weekday(weekDates[0].day) == 1
    ensures forall i :: 0 <= i < 7 ==> weekDates[i] == Instant(weekDates[0].day + i, now.msOfDay)
    ensures now in weekDates
  {
    var diff := MondayOffset(Weekday(now.day));
    var monday := Instant(now.day - diff, now.msOfDay);
    MondayOffsetIsMonday(now.day);
    weekDates := [];
    var i := 0;
    while i < 7
      invariant 0 <= i <= 7 && |weekDates| == i
      invariant forall k :: 0 <= k < i ==> weekDates[k] == Instant(monday.day + k, now.msOfDay)
    {
      weekDates := weekDates + [Instant(monday.day + i, now.msOfDay)];
      i := i + 1;
    }
    assert weekDates[diff] == now;
  }

  // ---------------------------------------------------------------- a week's classes

  /** A timetable entry together with its course. */
  datatype ClassSlot = ClassSlot(entry: TimetableEntry, course: Course)

  /** One day of the week view; the date text and day of month are not modelled. */
  datatype DailyCalendarData = DailyCalendarData(date: Instant, dayName: string, isToday: bool, classes: seq<ClassSlot>)

  /** A timetable entry on `dayName` (ignoring case) whose course exists. */
  predicate OnDayWithCourse(courses: seq<Course>, dayName: string, e: TimetableEntry) {
    Lower(e.day) == Lower(dayName) && FindCourse(courses, e.courseId).Some?
  }

  /** The entries of a list of class slots, in order. */
  function SlotEntries(r: seq<ClassSlot>): (es: seq<TimetableEntry>)
    ensures |es| == |r| && forall j :: 0 <= j < |r| ==> es[j] == r[j].entry
  {
    if r == [] then [] else [r[0].entry] + SlotEntries(r[1..])
  }

  /**
   * The day's entries joined with their course; entries whose course is missing are
   * dropped. The entries kept are the timetable filtered in its own order, duplicates
   * included, each paired with the course `find` returns.
   */
  function DayClassesUnsorted(courses: seq<Course>, timetable: seq<TimetableEntry>, dayName: string): (r: seq<ClassSlot>)
    ensures forall cs :: cs in r <==>
      cs.entry in timetable && Lower(cs.entry.day) == Lower(dayName) && FindCourse(courses, cs.entry.courseId) == Some(cs.course)
    ensures SlotEntries(r) == Filter(timetable, e => OnDayWithCourse(courses, dayName, e))
    ensures forall j :: 0 <= j < |r| ==> FindCourse(courses, r[j].entry.courseId) == Some(r[j].course)
  {
    if timetable == [] then []
    else
      var e := timetable[0];
      var rest := DayClassesUnsorted(courses, timetable[1..], dayName);
      if Lower(e.day) == Lower(dayName) && FindCourse(courses, e.courseId).Some? then
        [ClassSlot(e, FindCourse(courses, e.courseId).value)] + rest
      else rest
  }

  /** `a.startTime.localeCompare(b.startTime)`, taken as code-unit order. */
  predicate SlotStartsNoLater(a: ClassSlot, b: ClassSlot) {
    StrLe(a.entry.startTime, b.entry.startTime)
  }

  lemma SlotStartsNoLaterIsTotalPreorder()
    ensures TotalPreorder(SlotStartsNoLater)
  {
    forall a: ClassSlot, b: ClassSlot ensures SlotStartsNoLater(a, b) || SlotStartsNoLater(b, a) {
      StrLeTotal(a.entry.startTime, b.entry.startTime);
    }
    forall a: ClassSlot, b: ClassSlot, c: ClassSlot | SlotStartsNoLater(a, b) && SlotStartsNoLater(b, c)
      ensures SlotStartsNoLater(a, c)
    {
      StrLeTransitive(a.entry.startTime, b.entry.startTime, c.entry.startTime);
    }
  }

  /**
   * The record for one date of the week. `isToday` compares the whole instant with the
   * start of today (`today.setHours(0, 0, 0, 0)`).
   */
  function DayData(courses: seq<Course>, timetable: seq<TimetableEntry>, date: Instant, now: Instant): DailyCalendarData {
    var today := Instant(now.day, 0);
    var dayName := DayName(date.day);
    DailyCalendarData(date, dayName, date == today,
                      SortBy(DayClassesUnsorted(courses, timetable, dayName), SlotStartsNoLater))
  }

  /** `prepareCalendarData`: one record per date of the week, in order. */
  function PrepareCalendarData(courses: seq<Course>, timetable: seq<TimetableEntry>, week: seq<Instant>, now: Instant)
    : (r: seq<DailyCalendarData>)
    ensures |r| == |week|
    ensures forall i :: 0 <= i < |week| ==> r[i] == DayData(courses, timetable, week[i], now)
  {
    seq(|week|, i requires 0 <= i < |week| => DayData(courses, timetable, week[i], now))
  }

  /**
   * A day's record names the date's weekday, is marked today exactly when the date is
   * today's midnight, and lists exactly the entries for that weekday whose course exists,
   * paired with that course, by start time.
   */
  lemma DayDataSpec(courses: seq<Course>, timetable: seq<TimetableEntry>, date: Instant, now: Instant)
    ensures var d := DayData(courses, timetable, date, now);
      && d.date == date && (d.isToday <==> date.day == now.day && date.msOfDay == 0)
      && Lower(d.dayName) == DayNames()[Weekday(date.day)]
      && (forall cs :: cs in d.classes <==>
            cs.entry in timetable && Lower(cs.entry.day) == DayNames()[Weekday(date.day)]
            && FindCourse(courses, cs.entry.courseId) == Some(cs.course))
      && SortedBy(d.classes, SlotStartsNoLater)
  {
    var u := DayClassesUnsorted(courses, timetable, DayName(date.day));
    forall cs ensures cs in SortBy(u, SlotStartsNoLater) <==> cs in u {
      SortByMembers(u, SlotStartsNoLater, cs);
    }
    SlotStartsNoLaterIsTotalPreorder();
    SortBySorted(u, SlotStartsNoLater);
  }

  /**
   * With the default week, whose dates all carry the current time of day, a record is
   * marked today only when "now" is exactly midnight; at any other time no day is.
   */
  lemma DefaultWeekTodayOnlyAtMidnight(courses: seq<Course>, timetable: seq<TimetableEntry>, week: seq<Instant>, now: Instant)
    requires |week| == 7 && forall i :: 0 <= i < 7 ==> week[i] == Instant(week[0].day + i, now.msOfDay)
    requires now in week
    ensures now.msOfDay != 0 ==>
      forall i :: 0 <= i < 7 ==> !PrepareCalendarData(courses, timetable, week, now)[i].isToday
    ensures now.msOfDay == 0 ==>
      forall i :: 0 <= i < 7 ==> (PrepareCalendarData(courses, timetable, week, now)[i].isToday <==> week[i] == now)
  {
  }

  // ---------------------------------------------------------------- a course's attendance

  /** A dated attendance record with its long day name. */
  datatype DailyAttendance = DailyAttendance(date: Date, dayName: string, status: Status)

  /** `getAttendanceForCourse`: one record per session, in session order. */
  function GetAttendanceForCourse(c: Course): (r: seq<DailyAttendance>)
    ensures |r| == |c.sessions|
    ensures forall k :: 0 <= k < |r| ==>
      r[k].date == c.sessions[k].date && r[k].status == c.sessions[k].status
      && Lower(r[k].dayName) == DayNames()[Weekday(c.sessions[k].date)]
  {
    forall k | 0 <= k < |c.sessions| ensures Lower(DayName(c.sessions[k].date)) == DayNames()[Weekday(c.sessions[k].date)] {
      LowerLongDayName(Weekday(c.sessions[k].date));
    }
    seq(|c.sessions|, k requires 0 <= k < |c.sessions| =>
      DailyAttendance(c.sessions[k].date, DayName(c.sessions[k].date), c.sessions[k].status))
  }
}
