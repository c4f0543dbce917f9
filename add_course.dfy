/**
 * The add-course form (app/add-course.tsx): the guards `handleAddCourse` runs over the
 * typed text before it hands a new course to the store, and the colour preview check.
 */
module AddCourse {
  import opened Wrappers
  import opened Strings
  import opened Model
  import opened DataStore

  /** Why the form refuses to add a course. */
  datatype FormError = BlankName | BadThreshold

  /** The threshold field: blank means none; otherwise `parseInt` of the trimmed text, which must be in 0..100. */
  function ReadThreshold(threshold: string): (r: Result<Option<int>, FormError>)
    ensures IsBlank(threshold) ==> r == Ok(None)
    ensures !IsBlank(threshold) ==>
      (r.Ok? <==> ParseInt(Trim(threshold)).Some? && 0 <= ParseInt(Trim(threshold)).value <= 100)
    ensures r.Ok? && !IsBlank(threshold) ==> r.value == ParseInt(Trim(threshold))
    ensures r.Err? ==> r.error == BadThreshold
  {
    var t := Trim(threshold);
    if t == [] then Ok(None)
    else
      var parsed := ParseInt(t);
      if parsed.None? || parsed.value < 0 || parsed.value > 100 then Err(BadThreshold)
      else Ok(parsed)
  }

  /**
   * `handleAddCourse`: a blank name is refused first, then a bad threshold; otherwise the
   * course data carries the trimmed name, the colour as typed, the trimmed professor
   * (absent when blank) and the threshold.
   */
  function HandleAddCourse(name: string, professor: string, color: string, threshold: string): (r: Result<NewCourseData, FormError>)
    ensures IsBlank(name) ==> r == Err(BlankName)
    ensures !IsBlank(name) ==> (r.Err? <==> ReadThreshold(threshold).Err?)
    ensures r.Err? ==> r.error == (if IsBlank(name) then BlankName else BadThreshold)
    ensures r.Ok? ==>
      && r.value.name == Trim(name) && r.value.name != []
      && r.value.color == color
      && r.value.professor == (if IsBlank(professor) then None else Some(Trim(professor)))
      && r.value.attendanceThreshold == ReadThreshold(threshold).value
  {
    var trimmedName := Trim(name);
    if trimmedName == [] then Err(BlankName)
    else
      match ReadThreshold(threshold)
      case Err(e) => Err(e)
      case Ok(attendanceThreshold) =>
        var trimmedProfessor := Trim(professor);
        Ok(NewCourseData(trimmedName, color, if trimmedProfessor != [] then Some(trimmedProfessor) else None, attendanceThreshold))
  }

  /** The decimal text of a number is accepted exactly when the number is at most 100. */
  lemma ThresholdOfNumber(n: nat)
    ensures ReadThreshold(NatToString(n)) == if n <= 100 then Ok(Some(n)) else Err(BadThreshold)
  {
    var s := NatToString(n);
    TrimOfUnpadded(s);
    ParseIntOfNatString(n, []);
    assert s + [] == s;
  }

  /** `parseInt` stops at the first non-digit, so text after an accepted number is ignored. */
  lemma TrailingTextIgnored(n: nat, rest: string)
    requires n <= 100
    requires rest != [] && !IsDigit(rest[0]) && !IsWhitespace(rest[|rest| - 1])
    ensures ReadThreshold(NatToString(n) + rest) == Ok(Some(n))
  {
    var s := NatToString(n) + rest;
    assert s[0] == NatToString(n)[0] && s[|s| - 1] == rest[|rest| - 1];
    TrimOfUnpadded(s);
    ParseIntOfNatString(n, rest);
  }

  /** Text that does not start with a digit or a sign has no number, and is refused. */
  lemma NonNumericRefused(threshold: string)
    requires Trim(threshold) != []
    requires var c := Trim(threshold)[0]; !IsDigit(c) && c != '-' && c != '+'
    ensures ReadThreshold(threshold) == Err(BadThreshold)
  {
    var t := Trim(threshold);
    assert TrimStart(t) == t;
    assert SignlessBody(t) == t;
  }

  /**
   * A threshold of 0 passes the form, but the store keeps the threshold only when it is
   * truthy, so the added course has none.
   */
  lemma ZeroThresholdDropped(id: string, name: string, professor: string, color: string)
    requires !IsBlank(name)
    ensures var r := HandleAddCourse(name, professor, color, "0");
      r.Ok? && r.value.attendanceThreshold == Some(0) && NewCourse(id, r.value).attendanceThreshold == None
  {
    ThresholdOfNumber(0);
    assert NatToString(0) == "0";
  }

  /** A hexadecimal digit of either case. */
  predicate IsHexDigit(c: char) {
    '0' <= c <= '9' || 'a' <= c <= 'f' || 'A' <= c <= 'F'
  }

  /** `/^#[0-9A-F]{6}$/i`: a hash followed by exactly six hexadecimal digits. */
  predicate IsHexColor(color: string) {
    |color| == 7 && color[0] == '#' && forall i :: 1 <= i < 7 ==> IsHexDigit(color[i])
  }

  /** The preview swatch: the typed colour when it is a valid hex colour, else the border colour. */
  function PreviewColor(color: string, border: string): (r: string)
    ensures IsHexColor(color) ==> r == color
    ensures !IsHexColor(color) ==> r == border
  {
    if IsHexColor(color) then color else border
  }

  /** The colour check ignores case: upper- or lower-casing a colour does not change whether it is valid. */
  lemma HexColorIgnoresCase(color: string)
    ensures IsHexColor(Upper(color)) <==> IsHexColor(color)
    ensures IsHexColor(Lower(color)) <==> IsHexColor(color)
  {
    forall i | 0 <= i < |color| ensures IsHexDigit(UpperChar(color[i])) <==> IsHexDigit(color[i]) {
    }
    forall i | 0 <= i < |color| ensures IsHexDigit(LowerChar(color[i])) <==> IsHexDigit(color[i]) {
    }
  }

  /** The form's initial colour is a valid hex colour. */
  lemma InitialColorValid()
    ensures IsHexColor("#4F46E5")
  {
  }
}
