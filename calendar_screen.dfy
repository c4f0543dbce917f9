/**
 * The calendar screen (app/calendar.tsx): the sessions recorded on a pressed day,
 * and the dot marks shown under each date, with today and the selected date
 * highlighted.
 */
module CalendarScreen {
  import opened Wrappers
  import opened Model
  import opened Defaults

  // ---------------------------------------------------------------- the pressed day

  /** A session found on the pressed day, with its course's id and name. */
  datatype DaySessionDetail = DaySessionDetail(courseId: string, courseName: string, session: Session)

  /** The positions of the courses that have a session on `date`, increasing. */
  function CoursesWithSessionOn(courses: seq<Course>, date: Date): (ix: seq<nat>)
    ensures forall j :: 0 <= j < |ix| ==> ix[j] < |courses| && FindSession(courses[ix[j]].sessions, date).Some?
    ensures forall i, j :: 0 <= i < j < |ix| ==> ix[i] < ix[j]
    ensures forall k :: 0 <= k < |courses| && FindSession(courses[k].sessions, date).Some? ==> k in ix
  {
    if courses == [] then []
    else
      var n := |courses| - 1;
      var init := CoursesWithSessionOn(courses[..n], date);
      assert forall k :: 0 <= k < n ==> courses[..n][k] == courses[k];
      init + (if FindSession(courses[n].sessions, date).Some? then [n] else [])
  }

  /**
   * The sessions on `date`: the first one of each course that has one, in course order.
   * The j-th detail belongs to the j-th course with a session that day, so no course
   * appears twice and none is skipped.
   */
  function SessionsOn(courses: seq<Course>, date: Date): (r: seq<DaySessionDetail>)
    ensures |r| <= |courses|
    ensures var ix := CoursesWithSessionOn(courses, date);
      && |r| == |ix|
      && forall j :: 0 <= j < |r| ==>
           r[j] == DaySessionDetail(courses[ix[j]].id, courses[ix[j]].name, FindSession(courses[ix[j]].sessions, date).value)
  {
    if courses == [] then []
    else
      var c := courses[|courses| - 1];
      SessionsOn(courses[..|courses| - 1], date)
        + (match FindSession(c.sessions, date) case None => [] case Some(s) => [DaySessionDetail(c.id, c.name, s)])
  }

  /** Every detail is the first session on that date of some course. */
  lemma {:induction false} SessionsOnSound(courses: seq<Course>, date: Date)
    ensures forall d :: d in SessionsOn(courses, date) ==>
      d.session.date == date &&
      exists k :: 0 <= k < |courses| && d.courseId == courses[k].id && d.courseName == courses[k].name
                  && FindSession(courses[k].sessions, date) == Some(d.session)
  {
    if courses != [] {
      var n := |courses| - 1;
      var init := courses[..n];
      SessionsOnSound(init, date);
      forall d | d in SessionsOn(courses, date)
        ensures d.session.date == date &&
          exists k :: 0 <= k < |courses| && d.courseId == courses[k].id && d.courseName == courses[k].name
                      && FindSession(courses[k].sessions, date) == Some(d.session)
      {
        if d in SessionsOn(init, date) {
          var k :| 0 <= k < |init| && d.courseId == init[k].id && d.courseName == init[k].name
                   && FindSession(init[k].sessions, date) == Some(d.session);
          assert courses[k] == init[k];
        } else {
          assert d.courseId == courses[n].id;
        }
      }
    }
  }

  /** Every course with a session on that date contributes its first such session. */
  lemma {:induction false} SessionsOnComplete(courses: seq<Course>, date: Date, k: nat)
    requires k < |courses| && FindSession(courses[k].sessions, date).Some?
    ensures DaySessionDetail(courses[k].id, courses[k].name, FindSession(courses[k].sessions, date).value)
            in SessionsOn(courses, date)
  {
    var n := |courses| - 1;
    if k < n {
      assert courses[..n][k] == courses[k];
      SessionsOnComplete(courses[..n], date, k);
    }
  }

  // ---------------------------------------------------------------- dot marks

  /** A coloured dot under a date. */
  datatype Dot = Dot(key: string, color: string)

  /** A date's marking; a mark without dots has the empty list. */
  datatype Mark = Mark(dots: seq<Dot>, marked: bool, selected: bool, selectedColor: Option<string>)

  /** The dot colour of a status; canceled and holiday sessions get "gray". */
  function DotColor(s: Status): (color: string)
    ensures color in Palette()
  {
    match s
    case Present => "#10B981"
    case Absent => "#EF4444"
    case Late => "#F59E0B"
    case Excused => "#6B7280"
    case _ => "gray"
  }

  /** The five dot colours. */
  function Palette(): set<string> {
    {"#10B981", "#EF4444", "#F59E0B", "#6B7280", "gray"}
  }

  /** The colours of a list of dots are pairwise distinct. */
  ghost predicate DistinctColors(dots: seq<Dot>) {
    forall i, j :: 0 <= i < j < |dots| ==> dots[i].color != dots[j].color
  }

  /** Whether some dot already has the colour (`dots.some(dot => dot.color === dotColor)`). */
  predicate HasColor(dots: seq<Dot>, color: string) {
    exists i :: 0 <= i < |dots| && dots[i].color == color
  }

  /** One pass of the inner `forEach`: mark the session's date and add its colour once. */
  function AddDot(marks: map<Date, Mark>, courseId: string, s: Session): (r: map<Date, Mark>)
    ensures r.Keys == marks.Keys + {s.date}
    ensures r[s.date].marked && HasColor(r[s.date].dots, DotColor(s.status))
    ensures forall d :: d in marks && d != s.date ==> r[d] == marks[d]
  {
    var base := if s.date in marks then marks[s.date] else Mark([], false, false, None);
    var color := DotColor(s.status);
    var dots := if HasColor(base.dots, color) then base.dots
                else base.dots + [Dot(courseId + "-" + StatusName(s.status), color)];
    assert !HasColor(base.dots, color) ==> dots[|base.dots|].color == color;
    marks[s.date := base.(dots := dots, marked := true)]
  }

  /** The (course id, session) pairs the nested loops visit, course by course. */
  function Visits(courses: seq<Course>): seq<(string, Session)> {
    if courses == [] then []
    else Visits(courses[..|courses| - 1]) + CourseVisits(courses[|courses| - 1])
  }

  function CourseVisits(c: Course): (r: seq<(string, Session)>)
    ensures |r| == |c.sessions| && forall k :: 0 <= k < |r| ==> r[k] == (c.id, c.sessions[k])
  {
    seq(|c.sessions|, k requires 0 <= k < |c.sessions| => (c.id, c.sessions[k]))
  }

  /** The marks after visiting the pairs in order. */
  function MarksOf(visits: seq<(string, Session)>): map<Date, Mark> {
    if visits == [] then map[]
    else
      var v := visits[|visits| - 1];
      AddDot(MarksOf(visits[..|visits| - 1]), v.0, v.1)
  }

  /** A mark built from sessions alone: marked, not selected, with distinct colours from the palette. */
  ghost predicate SessionMark(mk: Mark) {
    && mk.marked && !mk.selected && DistinctColors(mk.dots)
    && forall i :: 0 <= i < |mk.dots| ==> mk.dots[i].color in Palette()
  }

  lemma MarksOfStep(vs: seq<(string, Session)>, v: (string, Session))
    ensures MarksOf(vs + [v]) == AddDot(MarksOf(vs), v.0, v.1)
  {
    assert (vs + [v])[..|vs|] == vs;
  }

  /** Adding a dot keeps every mark a session mark. */
  lemma AddDotKeepsSessionMarks(marks: map<Date, Mark>, courseId: string, s: Session)
    requires forall d :: d in marks ==> SessionMark(marks[d])
    ensures forall d :: d in AddDot(marks, courseId, s) ==> SessionMark(AddDot(marks, courseId, s)[d])
  {
    var base := if s.date in marks then marks[s.date] else Mark([], false, false, None);
    var color := DotColor(s.status);
    if !HasColor(base.dots, color) {
      var dots := base.dots + [Dot(courseId + "-" + StatusName(s.status), color)];
      assert DistinctColors(dots) by {
        forall i, j | 0 <= i < j < |dots| ensures dots[i].color != dots[j].color {
          if j == |base.dots| {
            assert dots[i] == base.dots[i];
          }
        }
      }
    }
  }

  /** Only visited dates are marked (the other direction is `MarksOfHaveColors`). */
  lemma {:induction false} MarksOfDomain(visits: seq<(string, Session)>)
    ensures forall d :: d in MarksOf(visits) ==> exists k :: 0 <= k < |visits| && visits[k].1.date == d
  {
    if visits != [] {
      var n := |visits| - 1;
      var init := visits[..n];
      MarksOfDomain(init);
      assert MarksOf(visits).Keys == MarksOf(init).Keys + {visits[n].1.date};
      forall d | d in MarksOf(visits) ensures exists k :: 0 <= k < |visits| && visits[k].1.date == d {
        if d != visits[n].1.date {
          var k :| 0 <= k < |init| && init[k].1.date == d;
          assert visits[k] == init[k];
        }
      }
    }
  }

  /** Every mark is marked, unselected, and has distinct colours from the palette. */
  lemma {:induction false} MarksOfAreSessionMarks(visits: seq<(string, Session)>)
    ensures forall d :: d in MarksOf(visits) ==> SessionMark(MarksOf(visits)[d])
  {
    if visits != [] {
      var n := |visits| - 1;
      MarksOfAreSessionMarks(visits[..n]);
      AddDotKeepsSessionMarks(MarksOf(visits[..n]), visits[n].0, visits[n].1);
    }
  }

  /** Every visited session's colour is among its date's dots. */
  lemma {:induction false} MarksOfHaveColors(visits: seq<(string, Session)>)
    ensures forall k :: 0 <= k < |visits| ==>
      visits[k].1.date in MarksOf(visits) && HasColor(MarksOf(visits)[visits[k].1.date].dots, DotColor(visits[k].1.status))
  {
    if visits != [] {
      var n := |visits| - 1;
      var init := visits[..n];
      MarksOfHaveColors(init);
      var m := MarksOf(init);
      var v := visits[n];
      forall k | 0 <= k < |visits|
        ensures visits[k].1.date in MarksOf(visits) && HasColor(MarksOf(visits)[visits[k].1.date].dots, DotColor(visits[k].1.status))
      {
        if k < n {
          assert init[k] == visits[k];
          var d := visits[k].1.date;
          if d == v.1.date {
            var base := m[d];
            var i :| 0 <= i < |base.dots| && base.dots[i].color == DotColor(visits[k].1.status);
            assert MarksOf(visits)[d].dots[i] == base.dots[i];
          }
        }
      }
    }
  }

  /** A dot after `AddDot` was there before at the same place, or has the new session's colour on its date. */
  lemma AddDotOrigin(marks: map<Date, Mark>, courseId: string, s: Session, d: Date, i: nat)
    requires d in AddDot(marks, courseId, s) && i < |AddDot(marks, courseId, s)[d].dots|
    ensures || (d in marks && i < |marks[d].dots| && AddDot(marks, courseId, s)[d].dots[i] == marks[d].dots[i])
            || (d == s.date && AddDot(marks, courseId, s)[d].dots[i].color == DotColor(s.status))
  {
  }

  /** Some visited session on day `d` has a status drawn in `color`. */
  ghost predicate ColorSeenOn(visits: seq<(string, Session)>, d: Date, color: string) {
    exists k :: 0 <= k < |visits| && visits[k].1.date == d && color == DotColor(visits[k].1.status)
  }

  /** A colour seen in a prefix of the visits is seen in the whole. */
  lemma ColorSeenInLonger(visits: seq<(string, Session)>, n: nat, d: Date, color: string)
    requires n <= |visits| && ColorSeenOn(visits[..n], d, color)
    ensures ColorSeenOn(visits, d, color)
  {
    var k :| 0 <= k < n && visits[..n][k].1.date == d && color == DotColor(visits[..n][k].1.status);
    assert visits[k] == visits[..n][k];
  }

  /** Every dot of a date has the colour of some visited session on that date (the converse of `MarksOfHaveColors`). */
  lemma {:induction false} MarksOfDotsFromSessions(visits: seq<(string, Session)>)
    ensures forall d, i :: d in MarksOf(visits) && 0 <= i < |MarksOf(visits)[d].dots| ==>
      ColorSeenOn(visits, d, MarksOf(visits)[d].dots[i].color)
  {
    var r := MarksOf(visits);
    if visits == [] {
      assert r == map[];
    } else {
      var n := |visits| - 1;
      var init := visits[..n];
      MarksOfDotsFromSessions(init);
      var m := MarksOf(init);
      var v := visits[n];
      assert r == AddDot(m, v.0, v.1);
      forall d, i | d in r && 0 <= i < |r[d].dots|
        ensures ColorSeenOn(visits, d, r[d].dots[i].color)
      {
        AddDotOrigin(m, v.0, v.1, d, i);
        if d in m && i < |m[d].dots| && r[d].dots[i] == m[d].dots[i] {
          ColorSeenInLonger(visits, n, d, m[d].dots[i].color);
        } else {
          assert visits[n].1.date == d && r[d].dots[i].color == DotColor(visits[n].1.status);
        }
      }
    }
  }

  /** Distinct colours drawn from a set number at most the set's size. */
  lemma {:induction false} DistinctColorsBound(dots: seq<Dot>, colors: set<string>)
    requires DistinctColors(dots)
    requires forall i :: 0 <= i < |dots| ==> dots[i].color in colors
    ensures |dots| <= |colors|
  {
    if dots != [] {
      var n := |dots| - 1;
      var c := dots[n].color;
      forall i | 0 <= i < n ensures dots[..n][i].color in colors - {c} {
        assert dots[i].color != c;
      }
      DistinctColorsBound(dots[..n], colors - {c});
    }
  }

  /** No date shows more than five dots. */
  lemma AtMostFiveDots(courses: seq<Course>, d: Date)
    requires d in MarksOf(Visits(courses))
    ensures |MarksOf(Visits(courses))[d].dots| <= 5
  {
    MarksOfAreSessionMarks(Visits(courses));
    DistinctColorsBound(MarksOf(Visits(courses))[d].dots, Palette());
  }

  /** Every session of every course is visited. */
  lemma {:induction false} VisitsCoverSessions(courses: seq<Course>, i: nat, k: nat)
    requires i < |courses| && k < |courses[i].sessions|
    ensures (courses[i].id, courses[i].sessions[k]) in Visits(courses)
  {
    var n := |courses| - 1;
    if i < n {
      assert courses[..n][i] == courses[i];
      VisitsCoverSessions(courses[..n], i, k);
    } else {
      assert CourseVisits(courses[n])[k] == (courses[i].id, courses[i].sessions[k]);
    }
  }

  /** Every date carrying a session is marked and shows that session's colour. */
  lemma EverySessionDateMarked(courses: seq<Course>, i: nat, k: nat)
    requires i < |courses| && k < |courses[i].sessions|
    ensures var s := courses[i].sessions[k];
      s.date in MarksOf(Visits(courses)) && MarksOf(Visits(courses))[s.date].marked
      && HasColor(MarksOf(Visits(courses))[s.date].dots, DotColor(s.status))
  {
    VisitsCoverSessions(courses, i, k);
    var vs := Visits(courses);
    var j :| 0 <= j < |vs| && vs[j] == (courses[i].id, courses[i].sessions[k]);
    MarksOfHaveColors(vs);
    MarksOfAreSessionMarks(vs);
  }

  // ---------------------------------------------------------------- highlighting

  /** `settings?.accentColor || '#4F46E5'`: never empty, the stored accent whenever there is one. */
  function Accent(settings: Option<AppSettings>): (accent: string)
    ensures accent != ""
    ensures settings.Some? && settings.value.accentColor != "" ==> accent == settings.value.accentColor
    ensures settings.None? ==> accent == DefaultSettings().accentColor
  {
    if settings.Some? && settings.value.accentColor != "" then settings.value.accentColor else "#4F46E5"
  }

  /** `highlightDate`: select the date, keeping its dots and marked flag, with the accent or a dim grey. */
  function Highlight(marks: map<Date, Mark>, date: Date, isSelected: bool, accent: string): (r: map<Date, Mark>)
    ensures r.Keys == marks.Keys + {date}
    ensures r[date].selected && r[date].selectedColor == Some(if isSelected then accent else "#a0a0a0")
    ensures date in marks ==> r[date].dots == marks[date].dots && r[date].marked == marks[date].marked
    ensures date !in marks ==> r[date].dots == [] && !r[date].marked
    ensures forall d :: d in marks && d != date ==> r[d] == marks[d]
  {
    var base := if date in marks then marks[date] else Mark([], false, false, None);
    marks[date := base.(selected := true, selectedColor := Some(if isSelected then accent else "#a0a0a0"))]
  }

  /** `markedDates` from the session marks: today, then a distinct selected date. */
  function Highlighted(marks: map<Date, Mark>, today: Date, selected: Option<Date>, accent: string): map<Date, Mark> {
    var m := Highlight(marks, today, selected.None? || selected.value == today, accent);
    if selected.Some? && selected.value != today then Highlight(m, selected.value, true, accent) else m
  }

  /**
   * Today is always selected, in the accent when nothing or today is selected and dim grey
   * otherwise; a different selected date is selected in the accent; dots, marked flags and
   * every other date are kept.
   */
  lemma HighlightedSpec(marks: map<Date, Mark>, today: Date, selected: Option<Date>, accent: string)
    ensures var r := Highlighted(marks, today, selected, accent);
      && r.Keys == marks.Keys + {today} + (if selected.Some? then {selected.value} else {})
      && r[today].selected
      && r[today].selectedColor == Some(if selected.None? || selected.value == today then accent else "#a0a0a0")
      && (selected.Some? && selected.value != today ==>
            r[selected.value].selected && r[selected.value].selectedColor == Some(accent))
      && (forall d :: d in marks ==> r[d].dots == marks[d].dots && r[d].marked == marks[d].marked)
      && (forall d :: d in marks && d != today && (selected.None? || d != selected.value) ==> r[d] == marks[d])
  {
  }

  // ---------------------------------------------------------------- the screen

  /** The screen's state: the pressed day and the sessions found on it. */
  class CalendarView {
    var selectedDate: Option<Date>
    var sessionsForSelectedDate: seq<DaySessionDetail>

    constructor()
      ensures selectedDate == None && sessionsForSelectedDate == []
    {
      selectedDate := None;
      sessionsForSelectedDate := [];
    }

    /** `handleDayPress`: remember the day and collect the first session of each course on it. */
    method HandleDayPress(courses: seq<Course>, day: Date)
      modifies this
      ensures selectedDate == Some(day)
      ensures sessionsForSelectedDate == SessionsOn(courses, day)
    {
      selectedDate := Some(day);
      var sessionsFound: seq<DaySessionDetail> := [];
      var i := 0;
      while i < |courses|
        invariant 0 <= i <= |courses|
        invariant sessionsFound == SessionsOn(courses[..i], day)
      {
        var course := courses[i];
        assert courses[..i + 1][..i] == courses[..i];
        var session := FindSession(course.sessions, day);
        if session.Some? {
          sessionsFound := sessionsFound + [DaySessionDetail(course.id, course.name, session.value)];
        }
        i := i + 1;
      }
      assert courses[..i] == courses;
      sessionsForSelectedDate := sessionsFound;
    }

    /** `markedDates`: the nested loops over courses and sessions, then the highlighting. */
    method MarkedDates(courses: seq<Course>, today: Date, settings: Option<AppSettings>) returns (marks: map<Date, Mark>)
      ensures marks == Highlighted(MarksOf(Visits(courses)), today, selectedDate, Accent(settings))
    {
      marks := map[];
      var i := 0;
      while i < |courses|
        invariant 0 <= i <= |courses|
        invariant marks == MarksOf(Visits(courses[..i]))
      {
        var course := courses[i];
        assert courses[..i + 1][..i] == courses[..i];
        marks := AddCourseDots(marks, course, Visits(courses[..i]));
        i := i + 1;
      }
      assert courses[..i] == courses;
      var accent := Accent(settings);
      marks := Highlight(marks, today, selectedDate.None? || selectedDate.value == today, accent);
      if selectedDate.Some? && selectedDate.value != today {
        marks := Highlight(marks, selectedDate.value, true, accent);
      }
    }
  }

  /** The inner loop: visit the course's sessions in order. */
  method AddCourseDots(marks: map<Date, Mark>, course: Course, ghost before: seq<(string, Session)>) returns (r: map<Date, Mark>)
    requires marks == MarksOf(before)
    ensures r == MarksOf(before + CourseVisits(course))
  {
    r := marks;
    var j := 0;
    assert before + CourseVisits(course)[..0] == before;
    while j < |course.sessions|
      invariant 0 <= j <= |course.sessions|
      invariant r == MarksOf(before + CourseVisits(course)[..j])
    {
      var session := course.sessions[j];
      ghost var done := before + CourseVisits(course)[..j];
      SnocSlice(before, CourseVisits(course), j);
      MarksOfStep(done, (course.id, session));
      r := AddDotStep(r, course.id, session);
      j := j + 1;
    }
    assert CourseVisits(course)[..j] == CourseVisits(course);
  }

  lemma SnocSlice<T>(a: seq<T>, b: seq<T>, j: nat)
    requires j < |b|
    ensures a + b[..j + 1] == (a + b[..j]) + [b[j]]
  {
    assert b[..j + 1] == b[..j] + [b[j]];
  }

  /** The body of the inner loop: create the date's entry if needed, add a dot of a new colour, mark it. */
  method AddDotStep(marks: map<Date, Mark>, courseId: string, session: Session) returns (r: map<Date, Mark>)
    ensures r == AddDot(marks, courseId, session)
  {
    var dateStr := session.date;
    r := marks;
    if dateStr !in r {
      r := r[dateStr := Mark([], false, false, None)];
    }
    var dotColor := DotColor(session.status);
    var dots := r[dateStr].dots;
    if !HasColor(dots, dotColor) {
      dots := dots + [Dot(courseId + "-" + StatusName(session.status), dotColor)];
    }
    r := r[dateStr := r[dateStr].(dots := dots, marked := true)];
  }
}
