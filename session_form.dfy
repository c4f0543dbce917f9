/**
 * The session editing form of src/components/EditSessionModal.tsx: the notes, the
 * assignment list and the text of the assignment being typed, with the operations the
 * form's buttons run.
 */
module SessionForm {
  import opened Wrappers
  import opened Strings
  import opened Filtering
  import opened Model

  /** An assignment is kept on save when it is not blank. */
  predicate Worded(a: string) {
    !IsBlank(a)
  }

  /** What the form hands to `onSave`: the trimmed notes and the non-blank assignments. */
  datatype SavedDetails = SavedDetails(notes: string, assignments: seq<string>)

  /** `splice(index, 1)` on an array: a negative index counts from the end; an index past the end removes nothing. */
  function SpliceOne(s: seq<string>, index: int): (r: seq<string>)
    ensures 0 <= index < |s| ==> r == s[..index] + s[index + 1..]
    ensures -|s| <= index < 0 ==> r == s[..|s| + index] + s[|s| + index + 1..]
    ensures index >= |s| ==> r == s
    ensures index < -|s| && s != [] ==> r == s[1..]
  {
    var start := if index < 0 then (if |s| + index < 0 then 0 else |s| + index) else index;
    if start < |s| then s[..start] + s[start + 1..] else s
  }

  /** The form state. */
  class SessionEditor {
    var notes: string
    var assignments: seq<string>
    var newAssignment: string

    constructor()
      ensures notes == "" && assignments == [] && newAssignment == ""
    {
      notes := "";
      assignments := [];
      newAssignment := "";
    }

    /** The reset run when the edited session changes: load it when there is one, otherwise keep the form. */
    method Reset(session: Option<Session>)
      modifies this
      ensures session.Some? ==>
        notes == session.value.notes.GetOr("") && assignments == session.value.assignments.GetOr([]) && newAssignment == ""
      ensures session.None? ==>
        notes == old(notes) && assignments == old(assignments) && newAssignment == old(newAssignment)
    {
      if session.Some? {
        notes := session.value.notes.GetOr("");
        assignments := session.value.assignments.GetOr([]);
        newAssignment := "";
      }
    }

    /**
     * `handleSave`: the trimmed notes, and the assignments that are not blank, untrimmed
     * and in their order; the form itself is left as it is.
     */
    method HandleSave() returns (details: SavedDetails)
      ensures details.notes == Trim(notes)
      ensures details.assignments == Filter(assignments, Worded)
      ensures forall a :: a in details.assignments <==> a in assignments && Trim(a) != []
    {
      details := SavedDetails(Trim(notes), Filter(assignments, Worded));
    }

    /** `addAssignment`: a non-blank input is appended trimmed and cleared; a blank one changes nothing. */
    method AddAssignment()
      modifies this
      ensures Trim(old(newAssignment)) != [] ==>
        assignments == old(assignments) + [Trim(old(newAssignment))] && newAssignment == ""
      ensures Trim(old(newAssignment)) == [] ==>
        assignments == old(assignments) && newAssignment == old(newAssignment)
      ensures notes == old(notes)
    {
      var trimmed := Trim(newAssignment);
      if trimmed != [] {
        assignments := assignments + [trimmed];
        newAssignment := "";
      }
    }

    /** `removeAssignment`: the assignment at `index` goes, the others keep their order. */
    method RemoveAssignment(index: int)
      modifies this
      ensures assignments == SpliceOne(old(assignments), index)
      ensures notes == old(notes) && newAssignment == old(newAssignment)
    {
      assignments := SpliceOne(assignments, index);
    }
  }

  /** Adding then saving: a non-blank input is saved, trimmed, after the assignments kept before it. */
  lemma AddThenSave(assignments: seq<string>, input: string)
    requires Trim(input) != []
    ensures Filter(assignments + [Trim(input)], Worded) == Filter(assignments, Worded) + [Trim(input)]
  {
    FilterConcat(assignments, [Trim(input)], Worded);
    assert Filter([Trim(input)], Worded) == [Trim(input)] by {
      assert Worded(Trim(input));
      assert [Trim(input)][1..] == [];
    }
  }

  /** Saving what was saved gives it back: the saved details are a fixed point of save. */
  lemma SaveIdempotent(notes: string, assignments: seq<string>)
    ensures Trim(Trim(notes)) == Trim(notes)
    ensures Filter(Filter(assignments, Worded), Worded) == Filter(assignments, Worded)
  {
    TrimIdempotent(notes);
    FilterIdempotent(assignments, Worded);
  }
}
