/**
 * The second session editor (app/components/EditSessionModal.tsx): assignments are edited
 * as one text with a line per assignment, and empty notes or an empty list are saved as absent.
 */
module SessionNotes {
  import opened Wrappers
  import opened Strings
  import opened Filtering
  import opened Model

  /** The two text fields of the editor. */
  datatype Fields = Fields(notes: string, assignmentsText: string)

  /** What `onSave` receives; `None` is an absent field. */
  datatype Details = Details(notes: Option<string>, assignments: Option<seq<string>>)

  /** The fields shown for a session, both empty when there is none. */
  function Load(session: Option<Session>): (r: Fields)
    ensures session.None? ==> r == Fields("", "")
    ensures session.Some? ==> r.notes == session.value.notes.GetOr("")
    ensures session.Some? && session.value.assignments.Some? ==> r.assignmentsText == Join(session.value.assignments.value, "\n")
    ensures session.Some? && session.value.assignments.None? ==> r.assignmentsText == ""
  {
    match session
    case None => Fields("", "")
    case Some(s) => Fields(s.notes.GetOr(""), if s.assignments.Some? then Join(s.assignments.value, "\n") else "")
  }

  /** Each line of the text, trimmed. */
  function TrimmedLines(text: string): (r: seq<string>)
    ensures |r| == |Split(text, '\n')|
    ensures forall k :: 0 <= k < |r| ==> r[k] == Trim(Split(text, '\n')[k])
  {
    var lines := Split(text, '\n');
    seq(|lines|, k requires 0 <= k < |lines| => Trim(lines[k]))
  }

  /** A line survives when it is not empty after trimming. */
  predicate NonEmpty(line: string) {
    |line| > 0
  }

  /** The assignments the text holds: its lines trimmed, empty ones dropped. */
  function AssignmentLines(text: string): (r: seq<string>)
    ensures |r| <= |Split(text, '\n')|
    ensures forall a :: a in r <==> a in TrimmedLines(text) && a != []
  {
    Filter(TrimmedLines(text), NonEmpty)
  }

  /** Every saved assignment is non-empty and already trimmed. */
  lemma AssignmentLinesTrimmed(text: string)
    ensures forall a :: a in AssignmentLines(text) ==> a != [] && Trim(a) == a
  {
    var lines := TrimmedLines(text);
    forall a | a in AssignmentLines(text) ensures a != [] && Trim(a) == a {
      var k :| 0 <= k < |lines| && lines[k] == a;
      TrimIdempotent(Split(text, '\n')[k]);
    }
  }

  /** Lines that are already trimmed are kept as they are. */
  lemma TrimmedLinesOfTrimmed(text: string, parts: seq<string>)
    requires Split(text, '\n') == parts
    requires forall k :: 0 <= k < |parts| ==> Trim(parts[k]) == parts[k]
    ensures TrimmedLines(text) == parts
  {
  }

  /** `handleSave`: nothing without a session; otherwise empty notes and an empty list are saved as absent. */
  function Save(session: Option<Session>, fields: Fields): (r: Option<Details>)
    ensures r.None? <==> session.None?
    ensures r.Some? ==> (r.value.notes.None? <==> IsBlank(fields.notes))
    ensures r.Some? && r.value.notes.Some? ==> r.value.notes.value == Trim(fields.notes)
    ensures r.Some? ==> (r.value.assignments.None? <==> AssignmentLines(fields.assignmentsText) == [])
    ensures r.Some? && r.value.assignments.Some? ==> r.value.assignments.value == AssignmentLines(fields.assignmentsText)
  {
    if session.None? then None
    else
      var notes := Trim(fields.notes);
      var lines := AssignmentLines(fields.assignmentsText);
      Some(Details(if notes != [] then Some(notes) else None, if |lines| > 0 then Some(lines) else None))
  }

  /** An assignment that reads back unchanged: non-empty, already trimmed and on one line. */
  predicate Clean(a: string) {
    a != [] && Trim(a) == a && '\n' !in a
  }

  /** Joining clean assignments with newlines and reading them back gives the same list. */
  lemma AssignmentsRoundTrip(assignments: seq<string>)
    requires forall k :: 0 <= k < |assignments| ==> Clean(assignments[k])
    ensures AssignmentLines(Join(assignments, "\n")) == assignments
  {
    var text := Join(assignments, "\n");
    if assignments == [] {
      EmptyTextHasNoLines();
    } else {
      SplitJoin(assignments, '\n');
      TrimmedLinesOfTrimmed(text, assignments);
      FilterAllKept(assignments, NonEmpty);
    }
  }

  /** An empty text holds no assignments. */
  lemma EmptyTextHasNoLines()
    ensures AssignmentLines("") == []
  {
    SplitNoSeparator("", '\n');
    assert TrimmedLines("") == [""];
    assert Filter([""], NonEmpty) == [] by { assert [""][1..] == []; }
  }

  /**
   * Loading a session and saving it untouched gives back its assignments when they are
   * clean; an empty or missing list comes back absent.
   */
  lemma LoadThenSaveAssignments(session: Session)
    requires session.assignments.Some? ==> forall k :: 0 <= k < |session.assignments.value| ==> Clean(session.assignments.value[k])
    ensures var r := Save(Some(session), Load(Some(session)));
      r.Some? && r.value.assignments == (if session.assignments.None? || session.assignments.value == [] then None else session.assignments)
  {
    var fields := Load(Some(session));
    var r := Save(Some(session), fields);
    if session.assignments.Some? {
      assert fields.assignmentsText == Join(session.assignments.value, "\n");
      AssignmentsRoundTrip(session.assignments.value);
    } else {
      assert fields.assignmentsText == "";
      EmptyTextHasNoLines();
    }
  }

  /** Loading a session and saving it untouched gives back clean notes; missing or blank notes come back absent. */
  lemma LoadThenSaveNotes(session: Session)
    ensures var r := Save(Some(session), Load(Some(session)));
      && r.Some?
      && (session.notes.Some? && Clean(session.notes.value) ==> r.value.notes == session.notes)
      && (session.notes.None? || IsBlank(session.notes.value) ==> r.value.notes == None)
  {
    var fields := Load(Some(session));
    if session.notes.None? {
      assert fields.notes == "";
    }
  }
}
