/**
 * What the statistics screen (app/statistics.tsx) derives from the statistics:
 * the colour band of a percentage and the texts shown for the overall figure,
 * the best and worst course, and each course row.
 */
module StatisticsScreen {
  import opened Wrappers
  import opened Strings
  import opened Statistics

  /** The theme colours a percentage can be drawn in. */
  datatype ColorRole = SecondaryText | Success | Warning | Danger

  /** `getAttendanceColor`: no percentage, at least 90, at least 75, below 75. */
  function AttendanceColor(percentage: Option<int>): (r: ColorRole)
    ensures r == SecondaryText <==> percentage.None?
    ensures r == Success <==> percentage.Some? && percentage.value >= 90
    ensures r == Warning <==> percentage.Some? && 75 <= percentage.value < 90
    ensures r == Danger <==> percentage.Some? && percentage.value < 75
  {
    match percentage
    case None => SecondaryText
    case Some(p) => if p >= 90 then Success else if p >= 75 then Warning else Danger
  }

  /** A higher percentage never gets a worse band. */
  lemma ColorMonotone(p: int, q: int)
    requires p <= q
    ensures AttendanceColor(Some(p)) == Success ==> AttendanceColor(Some(q)) == Success
    ensures AttendanceColor(Some(q)) == Danger ==> AttendanceColor(Some(p)) == Danger
  {
  }

  /** A template literal `${x}` of an optional number: the digits, or "null". */
  function NumberText(x: Option<int>): string {
    match x
    case None => "null"
    case Some(n) => IntToString(n)
  }

  /** The overall text and each course row: "N/A" without a percentage, else "<n>%". */
  function PercentText(percentage: Option<int>): (r: string)
    ensures r == "N/A" <==> percentage.None?
    ensures percentage.Some? ==> |r| >= 2 && r[|r| - 1] == '%'
    ensures percentage.Some? && percentage.value >= 0 ==> ParseInt(r) == Some(percentage.value)
  {
    match percentage
    case None => "N/A"
    case Some(p) =>
      PercentReadsBack(p);
      var r := IntToString(p) + "%";
      assert r[|r| - 1] != "N/A"[2];
      r
  }

  lemma PercentReadsBack(p: int)
    ensures p >= 0 ==> ParseInt(IntToString(p) + "%") == Some(p)
  {
    if p >= 0 {
      ParseIntOfNatString(p, "%");
    }
  }

  /** The best and the worst course text: "N/A" without a course, else "<name> (<n>%)". */
  function CourseText(stat: Option<CourseStat>): (r: string)
    ensures r == "N/A" <==> stat.None?
    ensures stat.Some? ==> |r| > |stat.value.name| + 2
    ensures stat.Some? ==> r[..|stat.value.name|] == stat.value.name && r[|r| - 1] == ')'
  {
    match stat
    case None => "N/A"
    case Some(s) =>
      var r := s.name + " (" + NumberText(s.attendancePercentage) + "%)";
      assert r[|r| - 1] != "N/A"[2];
      r
  }

  /** The number in a course text reads back as the course's percentage. */
  lemma CourseTextNumber(s: CourseStat)
    requires s.attendancePercentage.Some? && s.attendancePercentage.value >= 0
    ensures var p := s.attendancePercentage.value;
      CourseText(Some(s)) == s.name + " (" + NatToString(p) + "%)"
      && ParseInt(CourseText(Some(s))[|s.name| + 2..]) == Some(p)
  {
    var p := s.attendancePercentage.value;
    var r := CourseText(Some(s));
    assert r == s.name + " (" + (NatToString(p) + "%)");
    assert r[|s.name| + 2..] == NatToString(p) + "%)";
    ParseIntOfNatString(p, "%)");
  }
}
