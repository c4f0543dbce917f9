/**
 * The application state store (src/context/DataContext.tsx): the only place where
 * courses, settings and the timetable change. Each operation replaces the state the
 * way the provider's `setState` updaters do; the pure functions below say what the
 * new values are, and the lemmas what they guarantee.
 */
module DataStore {
  import opened Wrappers
  import opened Model
  import opened Sorting
  import opened Filtering
  import opened Defaults

  // ---------------------------------------------------------------- sessions

  /** Newest first: the comparator `b.date - a.date`. */
  predicate NewerFirst(a: Session, b: Session) {
    a.date >= b.date
  }

  lemma NewerFirstIsTotalPreorder()
    ensures TotalPreorder(NewerFirst)
  {
  }

  /** The session list with `date` set to `status` before sorting: updated in place, or appended. */
  function Upserted(ss: seq<Session>, date: Date, status: Status): (u: seq<Session>)
    ensures var i := FindSessionIndex(ss, date);
      if i < |ss| then multiset(u) == multiset(ss) - multiset{ss[i]} + multiset{ss[i].(status := status)}
      else multiset(u) == multiset(ss) + multiset{Session(date, status, None, None)}
  {
    var i := FindSessionIndex(ss, date);
    if i < |ss| then
      assert ss == ss[..i] + [ss[i]] + ss[i + 1..];
      assert ss[i := ss[i].(status := status)] == ss[..i] + [ss[i].(status := status)] + ss[i + 1..];
      ss[i := ss[i].(status := status)]
    else ss + [Session(date, status, None, None)]
  }

  /** What `addAttendanceSession` makes of one course's sessions. */
  function UpsertSession(ss: seq<Session>, date: Date, status: Status): seq<Session> {
    SortBy(Upserted(ss, date, status), NewerFirst)
  }

  /** No two sessions share a date. */
  ghost predicate UniqueDates(ss: seq<Session>) {
    forall i, j :: 0 <= i < j < |ss| ==> ss[i].date != ss[j].date
  }

  /**
   * After the upsert the course has a session on `date` with the new status. An existing
   * session keeps its notes and assignments and the count is unchanged; otherwise one
   * session without notes is added. Every other session is still there.
   */
  lemma UpsertRecords(ss: seq<Session>, date: Date, status: Status)
    ensures var i := FindSessionIndex(ss, date); var r := UpsertSession(ss, date, status);
      && (i < |ss| ==> |r| == |ss| && Session(date, status, ss[i].notes, ss[i].assignments) in r)
      && (i == |ss| ==> |r| == |ss| + 1 && Session(date, status, None, None) in r)
      && (forall x :: x in ss && x.date != date ==> x in r)
  {
    var i := FindSessionIndex(ss, date);
    var u := Upserted(ss, date, status);
    var r := UpsertSession(ss, date, status);
    var x := if i < |ss| then ss[i].(status := status) else Session(date, status, None, None);
    assert x in multiset(u);
    SortByMembers(u, NewerFirst, x);
    forall y | y in ss && y.date != date ensures y in r {
      assert y in multiset(ss);
      if i < |ss| {
        assert y != ss[i];
      }
      assert y in multiset(u);
      SortByMembers(u, NewerFirst, y);
    }
  }

  /** The upserted sessions are sorted newest first. */
  lemma UpsertSorted(ss: seq<Session>, date: Date, status: Status)
    ensures SortedBy(UpsertSession(ss, date, status), NewerFirst)
  {
    NewerFirstIsTotalPreorder();
    SortBySorted(Upserted(ss, date, status), NewerFirst);
  }

  /** Unique dates stay unique: the upsert never adds a second session for a date. */
  lemma UpsertKeepsDatesUnique(ss: seq<Session>, date: Date, status: Status)
    requires UniqueDates(ss)
    ensures UniqueDates(UpsertSession(ss, date, status))
  {
    var i := FindSessionIndex(ss, date);
    var u := Upserted(ss, date, status);
    if i < |ss| {
      assert forall k :: 0 <= k < |u| ==> u[k].date == ss[k].date;
    } else {
      assert forall k :: 0 <= k < |ss| ==> u[k] == ss[k];
    }
    SortByKeepsDatesUnique(u, NewerFirst);
  }

  lemma {:induction false} SortByKeepsDatesUnique(s: seq<Session>, le: (Session, Session) -> bool)
    requires UniqueDates(s)
    ensures UniqueDates(SortBy(s, le))
  {
    if s != [] {
      SortByKeepsDatesUnique(s[1..], le);
      var t := SortBy(s[1..], le);
      forall y | y in t ensures y.date != s[0].date {
        SortByMembers(s[1..], le, y);
        var k :| 0 <= k < |s[1..]| && s[1..][k] == y;
        assert s[k + 1] == y;
      }
      InsertKeepsDatesUnique(s[0], t, le);
    }
  }

  lemma {:induction false} InsertKeepsDatesUnique(x: Session, t: seq<Session>, le: (Session, Session) -> bool)
    requires UniqueDates(t)
    requires forall y :: y in t ==> y.date != x.date
    ensures UniqueDates(Insert(x, t, le))
  {
    if t != [] && !le(x, t[0]) {
      InsertKeepsDatesUnique(x, t[1..], le);
      var tail := Insert(x, t[1..], le);
      forall y | y in tail ensures y.date != t[0].date {
        assert y in multiset(tail);
        if y != x {
          assert y in multiset(t[1..]);
          var k :| 0 <= k < |t[1..]| && t[1..][k] == y;
          assert t[k + 1] == y;
        }
      }
      assert Insert(x, t, le) == [t[0]] + tail;
    }
  }

  /** The course list after `addAttendanceSession(courseId, {date, status})`. */
  function WithSession(courses: seq<Course>, courseId: string, date: Date, status: Status): (r: seq<Course>)
    ensures |r| == |courses|
    ensures forall k :: 0 <= k < |courses| && courses[k].id != courseId ==> r[k] == courses[k]
    ensures forall k :: 0 <= k < |courses| && courses[k].id == courseId ==>
      r[k] == courses[k].(sessions := UpsertSession(courses[k].sessions, date, status))
  {
    seq(|courses|, k requires 0 <= k < |courses| =>
      if courses[k].id == courseId
      then courses[k].(sessions := UpsertSession(courses[k].sessions, date, status))
      else courses[k])
  }

  /** Only the sessions of the courses with that id change; every other course is unchanged. */
  lemma WithSessionChangesOnlyTarget(courses: seq<Course>, courseId: string, date: Date, status: Status, k: nat)
    requires k < |courses|
    ensures var r := WithSession(courses, courseId, date, status);
      && r[k].(sessions := courses[k].sessions) == courses[k]
      && (courses[k].id != courseId ==> r[k] == courses[k])
      && (courses[k].id == courseId ==>
            && r[k].sessions == UpsertSession(courses[k].sessions, date, status)
            && SortedBy(r[k].sessions, NewerFirst)
            && (exists x :: x in r[k].sessions && x.date == date && x.status == status)
            && (forall x :: x in courses[k].sessions && x.date != date ==> x in r[k].sessions))
  {
    UpsertSorted(courses[k].sessions, date, status);
    UpsertRecords(courses[k].sessions, date, status);
  }

  // ---------------------------------------------------------------- session details

  /** `updateSessionDetails`: the provided fields of the first session on `date`; no change without one. */
  function WithDetails(ss: seq<Session>, date: Date, notes: Option<string>, assignments: Option<seq<string>>): (r: seq<Session>)
    ensures |r| == |ss|
    ensures forall k :: 0 <= k < |ss| && k != FindSessionIndex(ss, date) ==> r[k] == ss[k]
  {
    var i := FindSessionIndex(ss, date);
    if i < |ss| then
      var s := ss[i];
      ss[i := s.(notes := if notes.Some? then notes else s.notes,
                  assignments := if assignments.Some? then assignments else s.assignments)]
    else ss
  }

  /** With no session on `date` nothing changes; otherwise the date and status stay and each provided field is set. */
  lemma WithDetailsEffect(ss: seq<Session>, date: Date, notes: Option<string>, assignments: Option<seq<string>>)
    ensures (forall k :: 0 <= k < |ss| ==> ss[k].date != date) ==> WithDetails(ss, date, notes, assignments) == ss
    ensures var i := FindSessionIndex(ss, date); var r := WithDetails(ss, date, notes, assignments);
      i < |ss| ==>
        && r[i].date == date && r[i].status == ss[i].status
        && r[i].notes == (if notes.Some? then notes else ss[i].notes)
        && r[i].assignments == (if assignments.Some? then assignments else ss[i].assignments)
  {
  }

  /** The course list after `updateSessionDetails(courseId, date, details)`. */
  function WithSessionDetails(courses: seq<Course>, courseId: string, date: Date,
                              notes: Option<string>, assignments: Option<seq<string>>): (r: seq<Course>)
    ensures |r| == |courses|
    ensures forall k :: 0 <= k < |courses| && courses[k].id != courseId ==> r[k] == courses[k]
    ensures forall k :: 0 <= k < |courses| && courses[k].id == courseId ==>
      r[k] == courses[k].(sessions := WithDetails(courses[k].sessions, date, notes, assignments))
  {
    seq(|courses|, k requires 0 <= k < |courses| =>
      if courses[k].id == courseId
      then courses[k].(sessions := WithDetails(courses[k].sessions, date, notes, assignments))
      else courses[k])
  }

  /**
   * In a course with that id, the first session on `date` keeps its date and status and
   * takes each provided field; every other session and every other field of the course
   * stay as they were, and nothing changes when the course has no session that day.
   */
  lemma WithSessionDetailsTarget(courses: seq<Course>, courseId: string, date: Date,
                                 notes: Option<string>, assignments: Option<seq<string>>, k: nat)
    requires k < |courses| && courses[k].id == courseId
    ensures var r := WithSessionDetails(courses, courseId, date, notes, assignments);
      var ss := courses[k].sessions; var i := FindSessionIndex(ss, date);
      && r[k].(sessions := ss) == courses[k]
      && |r[k].sessions| == |ss|
      && (forall j :: 0 <= j < |ss| && j != i ==> r[k].sessions[j] == ss[j])
      && (i == |ss| ==> r[k] == courses[k])
      && (i < |ss| ==>
            && r[k].sessions[i].date == date && r[k].sessions[i].status == ss[i].status
            && r[k].sessions[i].notes == (if notes.Some? then notes else ss[i].notes)
            && r[k].sessions[i].assignments == (if assignments.Some? then assignments else ss[i].assignments))
  {
    WithDetailsEffect(courses[k].sessions, date, notes, assignments);
  }

  // ---------------------------------------------------------------- courses

  /** The form data `addCourse` receives. */
  datatype NewCourseData = NewCourseData(name: string, color: string, professor: Option<string>, attendanceThreshold: Option<int>)

  /** The record `addCourse` builds: professor and threshold only when truthy, so a threshold of 0 is dropped. */
  function NewCourse(id: string, data: NewCourseData): (c: Course)
    ensures c.id == id && c.name == data.name && c.color == data.color && c.sessions == []
    ensures c.professor.Some? <==> data.professor.Some? && data.professor.value != ""
    ensures c.attendanceThreshold.Some? <==> data.attendanceThreshold.Some? && data.attendanceThreshold.value != 0
    ensures c.professor.Some? ==> c.professor == data.professor
    ensures c.attendanceThreshold.Some? ==> c.attendanceThreshold == data.attendanceThreshold
    ensures c.totalClassesDone == None && c.totalClassesAttended == None
  {
    Course(id, data.name, data.color,
           if data.professor.Some? && data.professor.value != "" then data.professor else None,
           if data.attendanceThreshold.Some? && data.attendanceThreshold.value != 0 then data.attendanceThreshold else None,
           None, None, [])
  }

  /**
   * The fields `updateCourse` may overlay. For an optional field, `Some(None)` is a key
   * present with value `undefined`, which the spread copies and so clears the field.
   */
  datatype CoursePatch = CoursePatch(
    name: Option<string>, color: Option<string>,
    professor: Option<Option<string>>, attendanceThreshold: Option<Option<int>>,
    totalClassesDone: Option<Option<int>>, totalClassesAttended: Option<Option<int>>)

  function Overlay<T>(old_: T, patch: Option<T>): T {
    if patch.Some? then patch.value else old_
  }

  /** `{ ...course, ...restData }`. */
  function PatchCourse(c: Course, p: CoursePatch): (r: Course)
    ensures r.id == c.id && r.sessions == c.sessions
  {
    Course(c.id, Overlay(c.name, p.name), Overlay(c.color, p.color),
           Overlay(c.professor, p.professor), Overlay(c.attendanceThreshold, p.attendanceThreshold),
           Overlay(c.totalClassesDone, p.totalClassesDone), Overlay(c.totalClassesAttended, p.totalClassesAttended),
           c.sessions)
  }

  /** The empty patch changes nothing; applying a patch twice is applying it once. */
  lemma PatchCourseLaws(c: Course, p: CoursePatch)
    ensures PatchCourse(c, CoursePatch(None, None, None, None, None, None)) == c
    ensures PatchCourse(PatchCourse(c, p), p) == PatchCourse(c, p)
    ensures p.name.Some? ==> PatchCourse(c, p).name == p.name.value
    ensures p.professor == Some(None) ==> PatchCourse(c, p).professor == None
  {
  }

  /** The course list after `updateCourse(courseId, patch)`. */
  function WithCoursePatch(courses: seq<Course>, courseId: string, p: CoursePatch): (r: seq<Course>)
    ensures |r| == |courses|
    ensures forall k :: 0 <= k < |courses| ==> r[k].id == courses[k].id && r[k].sessions == courses[k].sessions
    ensures forall k :: 0 <= k < |courses| && courses[k].id != courseId ==> r[k] == courses[k]
  {
    seq(|courses|, k requires 0 <= k < |courses| =>
      if courses[k].id == courseId then PatchCourse(courses[k], p) else courses[k])
  }

  /** `course => course.id !== courseId`. */
  function CourseNot(courseId: string): Course -> bool {
    (c: Course) => c.id != courseId
  }

  /** `entry => entry.courseId !== courseId`. */
  function EntryNotOfCourse(courseId: string): TimetableEntry -> bool {
    (e: TimetableEntry) => e.courseId != courseId
  }

  /** `entry => entry.id !== entryId`. */
  function EntryNot(entryId: string): TimetableEntry -> bool {
    (e: TimetableEntry) => e.id != entryId
  }

  /**
   * Deleting a course leaves no course with that id and no timetable entry pointing at it,
   * and keeps everything else.
   */
  lemma DeleteCourseCascade(courses: seq<Course>, timetable: seq<TimetableEntry>, courseId: string)
    ensures forall c :: c in Filter(courses, CourseNot(courseId)) <==> c in courses && c.id != courseId
    ensures forall e :: e in Filter(timetable, EntryNotOfCourse(courseId)) <==> e in timetable && e.courseId != courseId
    ensures (forall c :: c in courses ==> c.id != courseId) ==> Filter(courses, CourseNot(courseId)) == courses
  {
    if forall c :: c in courses ==> c.id != courseId {
      FilterAllKept(courses, CourseNot(courseId));
    }
  }

  // ---------------------------------------------------------------- settings

  /** A `Partial<AppSettings>`: the keys present in the update. */
  datatype SettingsPatch = SettingsPatch(
    theme: Option<Theme>, accentColor: Option<string>, reminderTime: Option<int>, notificationsEnabled: Option<bool>)

  /** `{ ...(prev || defaultSettings), ...patch }`. */
  function ApplySettings(prev: Option<AppSettings>, p: SettingsPatch): (r: AppSettings)
    ensures var base := prev.GetOr(StoreDefaultSettings());
      && r.theme == Overlay(base.theme, p.theme)
      && r.accentColor == Overlay(base.accentColor, p.accentColor)
      && r.reminderTime == Overlay(base.reminderTime, p.reminderTime)
      && r.notificationsEnabled == Overlay(base.notificationsEnabled, p.notificationsEnabled)
  {
    var base := if prev.Some? then prev.value else StoreDefaultSettings();
    AppSettings(Overlay(base.theme, p.theme), Overlay(base.accentColor, p.accentColor),
                Overlay(base.reminderTime, p.reminderTime), Overlay(base.notificationsEnabled, p.notificationsEnabled))
  }

  /**
   * An empty update keeps the settings (or produces the defaults when there are none),
   * and repeating an update changes nothing more.
   */
  lemma ApplySettingsLaws(prev: Option<AppSettings>, p: SettingsPatch)
    ensures ApplySettings(prev, SettingsPatch(None, None, None, None)) == prev.GetOr(DefaultSettings())
    ensures ApplySettings(Some(ApplySettings(prev, p)), p) == ApplySettings(prev, p)
  {
  }

  // ---------------------------------------------------------------- the store

  /** Stored application data as read back: any part may be missing. */
  datatype StoredData = StoredData(
    courses: Option<seq<Course>>, settings: Option<AppSettings>, timetable: Option<seq<TimetableEntry>>)

  /** The provider's state: `useState` hooks become fields. */
  class Store {
    var courses: seq<Course>
    var settings: Option<AppSettings>
    var timetable: seq<TimetableEntry>
    var isLoading: bool

    /** The initial hook values, before the stored data is loaded. */
    constructor()
      ensures courses == [] && settings == None && timetable == [] && isLoading
    {
      courses := [];
      settings := None;
      timetable := [];
      isLoading := true;
    }

    /** What the save and notification effects hand on: no assignments; only once loaded with settings. */
    function Snapshot(): (d: AppData)
      reads this
      requires !isLoading && settings.Some?
      ensures d.courses == courses && d.settings == settings.value && d.timetable == timetable
      ensures d.assignments == None
    {
      AppData(courses, settings.value, timetable, None)
    }

    /** The load effect: stored parts, each defaulting when missing; defaults when nothing is stored. */
    method LoadData(data: Option<StoredData>)
      modifies this
      ensures !isLoading && settings.Some?
      ensures data.None? ==> courses == [] && settings == Some(StoreDefaultSettings()) && timetable == []
      ensures data.Some? ==>
        && courses == data.value.courses.GetOr([])
        && settings == Some(data.value.settings.GetOr(StoreDefaultSettings()))
        && timetable == data.value.timetable.GetOr([])
    {
      isLoading := true;
      if data.Some? {
        courses := data.value.courses.GetOr([]);
        settings := Some(data.value.settings.GetOr(StoreDefaultSettings()));
        timetable := data.value.timetable.GetOr([]);
      } else {
        courses := [];
        settings := Some(StoreDefaultSettings());
        timetable := [];
      }
      isLoading := false;
    }

    /** `addCourse`, with the generated id passed in. */
    method AddCourse(newId: string, data: NewCourseData)
      modifies this
      ensures courses == old(courses) + [NewCourse(newId, data)]
      ensures settings == old(settings) && timetable == old(timetable) && isLoading == old(isLoading)
    {
      courses := courses + [NewCourse(newId, data)];
    }

    /** `addAttendanceSession`: upsert by date in the course with that id, then sort newest first. */
    method AddAttendanceSession(courseId: string, date: Date, status: Status)
      modifies this
      ensures courses == WithSession(old(courses), courseId, date, status)
      ensures settings == old(settings) && timetable == old(timetable) && isLoading == old(isLoading)
    {
      courses := WithSession(courses, courseId, date, status);
    }

    /** `updateSettings`: overlay the update on the previous settings or on the defaults. */
    method UpdateSettings(p: SettingsPatch)
      modifies this
      ensures settings == Some(ApplySettings(old(settings), p))
      ensures courses == old(courses) && timetable == old(timetable) && isLoading == old(isLoading)
    {
      settings := Some(ApplySettings(settings, p));
    }

    /** `updateSessionDetails`: set the provided notes/assignments of the session on `date`. */
    method UpdateSessionDetails(courseId: string, date: Date, notes: Option<string>, assignments: Option<seq<string>>)
      modifies this
      ensures courses == WithSessionDetails(old(courses), courseId, date, notes, assignments)
      ensures settings == old(settings) && timetable == old(timetable) && isLoading == old(isLoading)
    {
      courses := WithSessionDetails(courses, courseId, date, notes, assignments);
    }

    /** `updateCourse`: overlay the patch on the course with that id. */
    method UpdateCourse(courseId: string, p: CoursePatch)
      modifies this
      ensures courses == WithCoursePatch(old(courses), courseId, p)
      ensures settings == old(settings) && timetable == old(timetable) && isLoading == old(isLoading)
    {
      courses := WithCoursePatch(courses, courseId, p);
    }

    /** `deleteCourse`: drop the course and, in cascade, its timetable entries. */
    method DeleteCourse(courseId: string)
      modifies this
      ensures courses == Filter(old(courses), CourseNot(courseId))
      ensures timetable == Filter(old(timetable), EntryNotOfCourse(courseId))
      ensures settings == old(settings) && isLoading == old(isLoading)
    {
      courses := Filter(courses, CourseNot(courseId));
      timetable := Filter(timetable, EntryNotOfCourse(courseId));
    }

    /**
     * `restoreAllData`: replace the state when courses and settings are present, the
     * timetable defaulting to empty; otherwise fail and change nothing.
     */
    method RestoreAllData(data: Option<StoredData>) returns (r: Result<bool, string>)
      modifies this
      ensures r.Err? <==> data.None? || data.value.courses.None? || data.value.settings.None?
      ensures r.Err? ==> courses == old(courses) && settings == old(settings) && timetable == old(timetable)
      ensures r.Ok? ==>
        && courses == data.value.courses.value
        && settings == data.value.settings
        && timetable == data.value.timetable.GetOr([])
      ensures isLoading == old(isLoading)
    {
      if data.Some? && data.value.courses.Some? && data.value.settings.Some? {
        courses := data.value.courses.value;
        settings := data.value.settings;
        timetable := data.value.timetable.GetOr([]);
        r := Ok(true);
      } else {
        r := Err("Invalid data format provided for restoration.");
      }
    }

    /** `addTimetableEntry`, with the generated id passed in. */
    method AddTimetableEntry(newId: string, day: string, startTime: string, endTime: string, location: string, courseId: string)
      modifies this
      ensures timetable == old(timetable) + [TimetableEntry(newId, day, startTime, endTime, location, courseId)]
      ensures courses == old(courses) && settings == old(settings) && isLoading == old(isLoading)
    {
      timetable := timetable + [TimetableEntry(newId, day, startTime, endTime, location, courseId)];
    }

    /** `deleteTimetableEntry`: drop every entry with that id. */
    method DeleteTimetableEntry(entryId: string)
      modifies this
      ensures timetable == Filter(old(timetable), EntryNot(entryId))
      ensures courses == old(courses) && settings == old(settings) && isLoading == old(isLoading)
    {
      timetable := Filter(timetable, EntryNot(entryId));
    }
  }
}
