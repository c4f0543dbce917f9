/**
 * The attendance export (src/utils/export.ts): one row per recorded session,
 * course by course and session by session, and no output at all when there is
 * no session. The CSV text itself (quoting, header, line breaks) is produced by
 * a library and is not part of this model; the output is the list of rows.
 */
module Export {
  import opened Wrappers
  import opened Strings
  import opened Model

  /** A CSV row. `location` is read from a field the course record does not have, so it is always absent. */
  datatype CsvRow = CsvRow(
    courseId: string, courseName: string, sessionDate: Date, status: string,
    notes: Option<string>, assignments: Option<string>,
    professor: Option<string>, location: Option<string>)

  /** The export's result: `''` when there is nothing to export, otherwise the rows to print. */
  datatype CsvOutput = Empty | Table(rows: seq<CsvRow>)

  /** The row for one session of a course; assignments are joined with `"; "`. */
  function RowOf(c: Course, s: Session): CsvRow {
    CsvRow(c.id, c.name, s.date, StatusName(s.status), s.notes,
           match s.assignments case None => None case Some(a) => Some(Join(a, "; ")),
           c.professor, None)
  }

  /** The rows of one course, in session order. */
  function CourseRows(c: Course): (r: seq<CsvRow>)
    ensures |r| == |c.sessions|
    ensures forall k :: 0 <= k < |r| ==> r[k] == RowOf(c, c.sessions[k])
  {
    seq(|c.sessions|, k requires 0 <= k < |c.sessions| => RowOf(c, c.sessions[k]))
  }

  /** The rows of every course, course by course. */
  function Rows(courses: seq<Course>): seq<CsvRow> {
    if courses == [] then []
    else Rows(courses[..|courses| - 1]) + CourseRows(courses[|courses| - 1])
  }

  /** There is exactly one row per recorded session. */
  lemma {:induction false} RowsCount(courses: seq<Course>)
    ensures |Rows(courses)| == AllSessions(courses)
  {
    if courses != [] {
      RowsCount(courses[..|courses| - 1]);
    }
  }

  /** Every session of every course has its row, and every row is the row of some session. */
  lemma {:induction false} RowsAreSessions(courses: seq<Course>)
    ensures forall i, k :: 0 <= i < |courses| && 0 <= k < |courses[i].sessions| ==>
      RowOf(courses[i], courses[i].sessions[k]) in Rows(courses)
    ensures forall row :: row in Rows(courses) ==>
      exists i, k :: 0 <= i < |courses| && 0 <= k < |courses[i].sessions| && row == RowOf(courses[i], courses[i].sessions[k])
  {
    if courses != [] {
      var n := |courses| - 1;
      var init := courses[..n];
      RowsAreSessions(init);
      forall i, k | 0 <= i < |courses| && 0 <= k < |courses[i].sessions|
        ensures RowOf(courses[i], courses[i].sessions[k]) in Rows(courses)
      {
        if i < n {
          assert courses[i] == init[i];
        } else {
          assert CourseRows(courses[n])[k] == RowOf(courses[i], courses[i].sessions[k]);
        }
      }
      forall row | row in Rows(courses)
        ensures exists i, k :: 0 <= i < |courses| && 0 <= k < |courses[i].sessions| && row == RowOf(courses[i], courses[i].sessions[k])
      {
        if row in Rows(init) {
          var i, k :| 0 <= i < |init| && 0 <= k < |init[i].sessions| && row == RowOf(init[i], init[i].sessions[k]);
          assert courses[i] == init[i];
        } else {
          var k :| 0 <= k < |CourseRows(courses[n])| && CourseRows(courses[n])[k] == row;
          assert row == RowOf(courses[n], courses[n].sessions[k]);
        }
      }
    }
  }

  /** A row copies its course's id, name and professor and its session's date, status and notes. */
  lemma RowFields(c: Course, s: Session)
    ensures var row := RowOf(c, s);
      && row.courseId == c.id && row.courseName == c.name && row.professor == c.professor
      && row.sessionDate == s.date && row.status == StatusName(s.status) && row.notes == s.notes
      && (row.assignments.None? <==> s.assignments.None?)
      && row.location == None
  {
  }

  /** `generateAttendanceCsv`: the nested `forEach` loops, then the empty check. */
  method GenerateAttendanceCsv(data: AppData) returns (out: CsvOutput)
    ensures out.Empty? <==> AllSessions(data.courses) == 0
    ensures out.Table? ==> out.rows == Rows(data.courses)
  {
    var courses := data.courses;
    var rows: seq<CsvRow> := [];
    var i := 0;
    while i < |courses|
      invariant 0 <= i <= |courses|
      invariant rows == Rows(courses[..i])
    {
      var course := courses[i];
      assert courses[..i + 1][..i] == courses[..i];
      if |course.sessions| == 0 {
        assert CourseRows(course) == [];
      } else {
        var j := 0;
        while j < |course.sessions|
          invariant 0 <= j <= |course.sessions|
          invariant rows == Rows(courses[..i]) + CourseRows(course)[..j]
        {
          assert CourseRows(course)[..j + 1] == CourseRows(course)[..j] + [RowOf(course, course.sessions[j])];
          rows := rows + [RowOf(course, course.sessions[j])];
          j := j + 1;
        }
        assert CourseRows(course)[..j] == CourseRows(course);
      }
      i := i + 1;
    }
    assert courses[..i] == courses;
    RowsCount(courses);
    if |rows| == 0 {
      return Empty;
    }
    out := Table(rows);
  }
}
