/**
 * Attendance statistics (src/utils/statistics.ts): per-course tallies with the
 * mid-semester baseline, the pooled overall percentage, the best and worst
 * course, and present-streaks. Each operation is a method with a loop, proved
 * against a specification function; the lemmas state what those functions promise.
 */
module Statistics {
  import opened Wrappers
  import opened Model
  import opened Sorting
  import opened Filtering

  datatype CourseStat = CourseStat(
    id: string, name: string, attendancePercentage: Option<int>,
    totalSessions: int, present: int, absent: int, canceled: int, holiday: int)

  /** `x || 0` for an optional count. */
  function OrZero(x: Option<int>): int {
    if x.Some? then x.value else 0
  }

  /** `Math.round(p / r * 100)` for `r > 0`, rounding halves up. */
  function RoundPercent(p: int, r: int): (pct: int)
    requires r > 0
    ensures 2 * r * pct <= 200 * p + r < 2 * r * pct + 2 * r
    ensures 0 <= p <= r ==> 0 <= pct <= 100
  {
    var q := (200 * p + r) / (2 * r);
    assert 0 <= p <= r ==> 0 <= q <= 100 by {
      if 0 <= p <= r {
        assert 200 * p + r < 2 * r * 101;
        DivBounds(200 * p + r, 2 * r, 101);
      }
    }
    q
  }

  lemma DivBounds(a: int, b: int, m: int)
    requires b > 0 && 0 <= a < b * m
    ensures 0 <= a / b < m
  {
  }

  /** The number of sessions with status `st`. */
  function CountStatus(ss: seq<Session>, st: Status): (n: nat)
    ensures n <= |ss|
  {
    if ss == [] then 0
    else CountStatus(ss[..|ss| - 1], st) + (if ss[|ss| - 1].status == st then 1 else 0)
  }

  lemma {:induction false} CountStatusConcat(a: seq<Session>, b: seq<Session>, st: Status)
    ensures CountStatus(a + b, st) == CountStatus(a, st) + CountStatus(b, st)
  {
    if b == [] {
      assert a + b == a;
    } else {
      assert (a + b)[..|a + b| - 1] == a + b[..|b| - 1];
      CountStatusConcat(a, b[..|b| - 1], st);
    }
  }

  /**
   * Every session has exactly one of the six statuses, so the four tallied
   * counts miss exactly the `late` and `excused` sessions.
   */
  lemma {:induction false} StatusCountsPartition(ss: seq<Session>)
    ensures CountStatus(ss, Present) + CountStatus(ss, Absent) + CountStatus(ss, Canceled)
            + CountStatus(ss, Holiday) + CountStatus(ss, Late) + CountStatus(ss, Excused) == |ss|
  {
    if ss != [] {
      StatusCountsPartition(ss[..|ss| - 1]);
    }
  }

  /** The attended classes the baseline adds to `present`: all of them, once any class is done. */
  function BaselinePresent(c: Course): (n: int)
    ensures n >= 0
    ensures n > 0 <==> OrZero(c.totalClassesDone) > 0 && OrZero(c.totalClassesAttended) > 0
    ensures n > 0 ==> n == OrZero(c.totalClassesAttended)
  {
    var done := OrZero(c.totalClassesDone);
    var attended := OrZero(c.totalClassesAttended);
    if done > 0 && attended > 0 then attended else 0
  }

  /** The missed classes the baseline adds to `absent`: done minus attended, never negative. */
  function BaselineAbsent(c: Course): (n: int)
    ensures n >= 0
    ensures n > 0 <==> OrZero(c.totalClassesDone) > 0 && OrZero(c.totalClassesDone) > OrZero(c.totalClassesAttended)
    ensures n > 0 ==> n + OrZero(c.totalClassesAttended) == OrZero(c.totalClassesDone)
  {
    var done := OrZero(c.totalClassesDone);
    var attended := OrZero(c.totalClassesAttended);
    if done > 0 && done > attended then done - attended else 0
  }

  /**
   * What the baseline adds in each case: with `0 < attended <= done` it adds
   * exactly `done` classes; with `attended > done` it adds the attended classes
   * and no absences; with nothing done it adds nothing.
   */
  lemma BaselineContribution(c: Course)
    ensures var done, attended := OrZero(c.totalClassesDone), OrZero(c.totalClassesAttended);
      && (0 < attended <= done ==> BaselinePresent(c) + BaselineAbsent(c) == done)
      && (0 < done < attended ==> BaselinePresent(c) == attended && BaselineAbsent(c) == 0)
      && (attended <= 0 < done ==> BaselinePresent(c) == 0 && BaselineAbsent(c) == done - attended)
      && (done <= 0 ==> BaselinePresent(c) == 0 && BaselineAbsent(c) == 0)
    ensures var done := OrZero(c.totalClassesDone);
      0 < OrZero(c.totalClassesAttended) <= done ==>
        CourseAttendance(c).present + CourseAttendance(c).absent
        == CountStatus(c.sessions, Present) + CountStatus(c.sessions, Absent) + done
  {
  }

  /**
   * What `calculateCourseAttendance` returns: the status tallies, the baseline
   * folded into present/absent, and the percentage of present among present+absent.
   */
  function CourseAttendance(c: Course): (stat: CourseStat)
    ensures stat.id == c.id && stat.name == c.name
    ensures stat.present >= 0 && stat.absent >= 0
    ensures stat.attendancePercentage.None? <==> stat.present + stat.absent == 0
    ensures stat.attendancePercentage.Some? ==> 0 <= stat.attendancePercentage.value <= 100
    ensures stat.totalSessions == |c.sessions| + OrZero(c.totalClassesDone)
    ensures stat.present == CountStatus(c.sessions, Present) + BaselinePresent(c)
    ensures stat.absent == CountStatus(c.sessions, Absent) + BaselineAbsent(c)
    ensures stat.canceled == CountStatus(c.sessions, Canceled) && stat.holiday == CountStatus(c.sessions, Holiday)
    ensures stat.attendancePercentage.Some? ==>
              stat.attendancePercentage.value == RoundPercent(stat.present, stat.present + stat.absent)
  {
    var present := CountStatus(c.sessions, Present) + BaselinePresent(c);
    var absent := CountStatus(c.sessions, Absent) + BaselineAbsent(c);
    var relevant := present + absent;
    CourseStat(c.id, c.name,
               if relevant > 0 then Some(RoundPercent(present, relevant)) else None,
               |c.sessions| + OrZero(c.totalClassesDone),
               present, absent, CountStatus(c.sessions, Canceled), CountStatus(c.sessions, Holiday))
  }

  /** Without a baseline, the tallies are the session counts per status. */
  lemma NoBaselineTallies(c: Course)
    requires OrZero(c.totalClassesDone) <= 0
    ensures CourseAttendance(c).present == CountStatus(c.sessions, Present)
    ensures CourseAttendance(c).absent == CountStatus(c.sessions, Absent)
    ensures CourseAttendance(c).present + CourseAttendance(c).absent + CourseAttendance(c).canceled
            + CourseAttendance(c).holiday
            == |c.sessions| - CountStatus(c.sessions, Late) - CountStatus(c.sessions, Excused)
  {
    StatusCountsPartition(c.sessions);
  }

  /** A course with no sessions and a 10-done/8-attended baseline stands at 80%. */
  lemma BaselineOnlyExample(c: Course)
    requires c.sessions == [] && c.totalClassesDone == Some(10) && c.totalClassesAttended == Some(8)
    ensures CourseAttendance(c).attendancePercentage == Some(80)
  {
  }

  /** `calculateCourseAttendance`: one pass over the sessions, then the baseline. */
  method CalculateCourseAttendance(c: Course) returns (stat: CourseStat)
    ensures stat == CourseAttendance(c)
  {
    var present, absent, canceled, holiday := 0, 0, 0, 0;
    var done := OrZero(c.totalClassesDone);
    var attended := OrZero(c.totalClassesAttended);
    var i := 0;
    while i < |c.sessions|
      invariant 0 <= i <= |c.sessions|
      invariant present == CountStatus(c.sessions[..i], Present)
      invariant absent == CountStatus(c.sessions[..i], Absent)
      invariant canceled == CountStatus(c.sessions[..i], Canceled)
      invariant holiday == CountStatus(c.sessions[..i], Holiday)
    {
      assert c.sessions[..i + 1][..i] == c.sessions[..i];
      match c.sessions[i].status {
        case Present => present := present + 1;
        case Absent => absent := absent + 1;
        case Canceled => canceled := canceled + 1;
        case Holiday => holiday := holiday + 1;
        case _ =>
      }
      i := i + 1;
    }
    assert c.sessions[..i] == c.sessions;
    if done > 0 {
      if attended > 0 {
        present := present + attended;
      }
      if done > attended {
        absent := absent + (done - attended);
      }
    }
    var relevant := present + absent;
    var percentage := if relevant > 0 then Some(RoundPercent(present, relevant)) else None;
    stat := CourseStat(c.id, c.name, percentage, |c.sessions| + done, present, absent, canceled, holiday);
  }

  /** Sum of `present` over the courses whose percentage is not null. */
  function PooledPresent(courses: seq<Course>): int {
    if courses == [] then 0
    else
      var s := CourseAttendance(courses[|courses| - 1]);
      PooledPresent(courses[..|courses| - 1]) + (if s.attendancePercentage.Some? then s.present else 0)
  }

  /** Sum of `present + absent` over the courses whose percentage is not null. */
  function PooledRelevant(courses: seq<Course>): int {
    if courses == [] then 0
    else
      var s := CourseAttendance(courses[|courses| - 1]);
      PooledRelevant(courses[..|courses| - 1]) + (if s.attendancePercentage.Some? then s.present + s.absent else 0)
  }

  /** Sum of `present` over all courses. */
  function TotalPresent(courses: seq<Course>): int {
    if courses == [] then 0
    else TotalPresent(courses[..|courses| - 1]) + CourseAttendance(courses[|courses| - 1]).present
  }

  /** Sum of `present + absent` over all courses. */
  function TotalRelevant(courses: seq<Course>): int {
    if courses == [] then 0
    else
      var s := CourseAttendance(courses[|courses| - 1]);
      TotalRelevant(courses[..|courses| - 1]) + s.present + s.absent
  }

  /**
   * Skipping the courses with a null percentage changes neither pooled sum:
   * those courses have present = absent = 0. The pooled present never exceeds
   * the pooled denominator.
   */
  lemma {:induction false} PooledEqualsTotal(courses: seq<Course>)
    ensures PooledPresent(courses) == TotalPresent(courses)
    ensures PooledRelevant(courses) == TotalRelevant(courses)
    ensures 0 <= TotalPresent(courses) <= TotalRelevant(courses)
  {
    if courses != [] {
      PooledEqualsTotal(courses[..|courses| - 1]);
    }
  }

  /** What `calculateOverallAttendance` returns: one percentage over the pooled counts. */
  function OverallAttendance(courses: seq<Course>): (r: Option<int>)
    ensures 0 <= TotalPresent(courses) <= TotalRelevant(courses)
    ensures r.None? <==> TotalRelevant(courses) == 0
    ensures r.Some? ==> 0 <= r.value <= 100
    ensures r.Some? ==> r.value == RoundPercent(TotalPresent(courses), TotalRelevant(courses))
  {
    PooledEqualsTotal(courses);
    var relevant := PooledRelevant(courses);
    if relevant > 0 then Some(RoundPercent(PooledPresent(courses), relevant)) else None
  }

  /** `calculateOverallAttendance`: accumulate the raw counts course by course. */
  method CalculateOverallAttendance(courses: seq<Course>) returns (r: Option<int>)
    ensures r == OverallAttendance(courses)
  {
    var totalPresent, totalRelevant := 0, 0;
    var i := 0;
    while i < |courses|
      invariant 0 <= i <= |courses|
      invariant totalPresent == PooledPresent(courses[..i])
      invariant totalRelevant == PooledRelevant(courses[..i])
    {
      assert courses[..i + 1][..i] == courses[..i];
      var stats := CalculateCourseAttendance(courses[i]);
      if stats.attendancePercentage.Some? {
        totalPresent := totalPresent + stats.present;
        totalRelevant := totalRelevant + (stats.present + stats.absent);
      }
      i := i + 1;
    }
    assert courses[..i] == courses;
    PooledEqualsTotal(courses);
    r := if totalRelevant > 0 then Some(RoundPercent(totalPresent, totalRelevant)) else None;
  }

  /** A session on day `d` with status `st` and no notes. */
  function Day(d: Date, st: Status): Session {
    Session(d, st, None, None)
  }

  /** When every session has status `st`, `st` is counted |ss| times and every other status never. */
  lemma {:induction false} CountUniform(ss: seq<Session>, st: Status, other: Status)
    requires forall k :: 0 <= k < |ss| ==> ss[k].status == st
    requires other != st
    ensures CountStatus(ss, st) == |ss| && CountStatus(ss, other) == 0
  {
    if ss != [] {
      CountUniform(ss[..|ss| - 1], st, other);
    }
  }

  /**
   * Pooling is not averaging: 2 present / 2 absent and 8 present / 0 absent give
   * 83%, while the mean of the two course percentages (50% and 100%) is 75%.
   */
  lemma PooledNotAveraged(a: Course, b: Course)
    requires |a.sessions| == 4 && a.sessions[0].status == Present && a.sessions[1].status == Present
    requires a.sessions[2].status == Absent && a.sessions[3].status == Absent
    requires |b.sessions| == 8 && forall k :: 0 <= k < 8 ==> b.sessions[k].status == Present
    requires a.totalClassesDone == None && b.totalClassesDone == None
    ensures CourseAttendance(a).attendancePercentage == Some(50)
    ensures CourseAttendance(b).attendancePercentage == Some(100)
    ensures OverallAttendance([a, b]) == Some(83)
  {
    var p, q := a.sessions[..2], a.sessions[2..];
    assert a.sessions == p + q;
    CountUniform(p, Present, Absent);
    CountUniform(q, Absent, Present);
    CountStatusConcat(p, q, Present);
    CountStatusConcat(p, q, Absent);
    CountUniform(b.sessions, Present, Absent);
    var sa, sb := CourseAttendance(a), CourseAttendance(b);
    assert sa.present == 2 && sa.absent == 2;
    assert sb.present == 8 && sb.absent == 0;
    assert [a, b][..1] == [a] && [a][..0] == [];
    assert TotalPresent([a]) == 2 && TotalRelevant([a]) == 4;
    assert TotalPresent([a, b]) == 10 && TotalRelevant([a, b]) == 12;
    assert RoundPercent(10, 12) == 83;
  }

  // ---------------------------------------------------------------- best and worst

  predicate HasPercentage(s: CourseStat) {
    s.attendancePercentage.Some?
  }

  /** The percentage of a stat that has one (0 for a stat without, which is never compared). */
  function Pct(s: CourseStat): (p: int)
    ensures HasPercentage(s) ==> s.attendancePercentage == Some(p)
  {
    s.attendancePercentage.GetOr(0)
  }

  /** `courseStats.filter(stat => stat.attendancePercentage !== null)`. */
  function ValidStats(stats: seq<CourseStat>): (v: seq<CourseStat>)
    ensures forall x :: x in v <==> x in stats && HasPercentage(x)
    ensures v == [] <==> forall k :: 0 <= k < |stats| ==> !HasPercentage(stats[k])
  {
    var v := Filter(stats, HasPercentage);
    assert v != [] ==> v[0] in stats;
    v
  }

  /**
   * `stats[i]` has a percentage, no stat has a higher one, and no stat before
   * it has as high a one.
   */
  predicate IsFirstMax(stats: seq<CourseStat>, i: int) {
    && 0 <= i < |stats| && HasPercentage(stats[i])
    && (forall j :: 0 <= j < |stats| && HasPercentage(stats[j]) ==> Pct(stats[j]) <= Pct(stats[i]))
    && (forall j :: 0 <= j < i && HasPercentage(stats[j]) ==> Pct(stats[j]) < Pct(stats[i]))
  }

  /**
   * `stats[i]` has a percentage, no stat has a lower one, and no stat before
   * it has as low a one.
   */
  predicate IsFirstMin(stats: seq<CourseStat>, i: int) {
    && 0 <= i < |stats| && HasPercentage(stats[i])
    && (forall j :: 0 <= j < |stats| && HasPercentage(stats[j]) ==> Pct(stats[j]) >= Pct(stats[i]))
    && (forall j :: 0 <= j < i && HasPercentage(stats[j]) ==> Pct(stats[j]) > Pct(stats[i]))
  }

  /**
   * A first maximum of the filtered stats is a first maximum of all stats: every
   * stat with a percentage survives the filter, and the survivors keep their order.
   */
  lemma FirstMaxOfValid(stats: seq<CourseStat>, b: int)
    requires 0 <= b < |ValidStats(stats)|
    requires forall j :: 0 <= j < |ValidStats(stats)| ==> Pct(ValidStats(stats)[j]) <= Pct(ValidStats(stats)[b])
    requires forall j :: 0 <= j < b ==> Pct(ValidStats(stats)[j]) < Pct(ValidStats(stats)[b])
    ensures exists i :: IsFirstMax(stats, i) && stats[i] == ValidStats(stats)[b]
  {
    var v := ValidStats(stats);
    var i := FilterIndex(stats, HasPercentage, b);
    forall j | 0 <= j < |stats| && HasPercentage(stats[j])
      ensures Pct(stats[j]) <= Pct(stats[i])
    {
      assert stats[j] in v;
    }
    forall j | 0 <= j < i && HasPercentage(stats[j])
      ensures Pct(stats[j]) < Pct(stats[i])
    {
      assert stats[j] in stats[..i];
      assert stats[j] in v[..b];
    }
    assert IsFirstMax(stats, i);
  }

  /** The mirror image of `FirstMaxOfValid` for the lowest percentage. */
  lemma FirstMinOfValid(stats: seq<CourseStat>, w: int)
    requires 0 <= w < |ValidStats(stats)|
    requires forall j :: 0 <= j < |ValidStats(stats)| ==> Pct(ValidStats(stats)[j]) >= Pct(ValidStats(stats)[w])
    requires forall j :: 0 <= j < w ==> Pct(ValidStats(stats)[j]) > Pct(ValidStats(stats)[w])
    ensures exists i :: IsFirstMin(stats, i) && stats[i] == ValidStats(stats)[w]
  {
    var v := ValidStats(stats);
    var i := FilterIndex(stats, HasPercentage, w);
    forall j | 0 <= j < |stats| && HasPercentage(stats[j])
      ensures Pct(stats[j]) >= Pct(stats[i])
    {
      assert stats[j] in v;
    }
    forall j | 0 <= j < i && HasPercentage(stats[j])
      ensures Pct(stats[j]) > Pct(stats[i])
    {
      assert stats[j] in stats[..i];
      assert stats[j] in v[..w];
    }
    assert IsFirstMin(stats, i);
  }

  /**
   * `findBestAndWorstCourses`: both results are null exactly when no course has a
   * percentage; otherwise `best` is the first stat with the highest percentage
   * and `worst` the first with the lowest, among all the stats given.
   */
  method FindBestAndWorstCourses(stats: seq<CourseStat>) returns (best: Option<CourseStat>, worst: Option<CourseStat>)
    ensures best.None? <==> forall k :: 0 <= k < |stats| ==> !HasPercentage(stats[k])
    ensures worst.None? <==> best.None?
    ensures best.Some? ==> exists i :: IsFirstMax(stats, i) && best.value == stats[i]
    ensures worst.Some? ==> exists i :: IsFirstMin(stats, i) && worst.value == stats[i]
  {
    var v := ValidStats(stats);
    if |v| == 0 {
      return None, None;
    }
    var bi, wi := 0, 0;
    var k := 0;
    best, worst := None, None;
    while k < |v|
      invariant 0 <= k <= |v|
      invariant k == 0 ==> best.None? && worst.None?
      invariant k > 0 ==> 0 <= bi < k && best == Some(v[bi]) && 0 <= wi < k && worst == Some(v[wi])
      invariant k > 0 ==> forall j :: 0 <= j < k ==> Pct(v[j]) <= Pct(v[bi])
      invariant k > 0 ==> forall j :: 0 <= j < bi ==> Pct(v[j]) < Pct(v[bi])
      invariant k > 0 ==> forall j :: 0 <= j < k ==> Pct(v[j]) >= Pct(v[wi])
      invariant k > 0 ==> forall j :: 0 <= j < wi ==> Pct(v[j]) > Pct(v[wi])
    {
      var stat := v[k];
      if best.None? || Pct(stat) > Pct(best.value) {
        best, bi := Some(stat), k;
      }
      if worst.None? || Pct(stat) < Pct(worst.value) {
        worst, wi := Some(stat), k;
      }
      k := k + 1;
    }
    FirstMaxOfValid(stats, bi);
    FirstMinOfValid(stats, wi);
  }

  // ---------------------------------------------------------------- streaks

  /** Holiday and canceled sessions neither extend nor break a streak. */
  predicate Skipped(st: Status) {
    st == Holiday || st == Canceled
  }

  /** The statuses that take part in streaks, in order. */
  function Counted(ss: seq<Status>): (rs: seq<Status>)
    ensures |rs| <= |ss|
    ensures forall k :: 0 <= k < |rs| ==> !Skipped(rs[k])
  {
    if ss == [] then []
    else if Skipped(ss[|ss| - 1]) then Counted(ss[..|ss| - 1])
    else Counted(ss[..|ss| - 1]) + [ss[|ss| - 1]]
  }

  lemma {:induction false} CountedConcat(a: seq<Status>, b: seq<Status>)
    ensures Counted(a + b) == Counted(a) + Counted(b)
  {
    if b == [] {
      assert a + b == a;
    } else {
      assert (a + b)[..|a + b| - 1] == a + b[..|b| - 1];
      CountedConcat(a, b[..|b| - 1]);
    }
  }

  /** A suffix of skipped statuses does not change what counts. */
  lemma {:induction false} CountedIgnoresSkippedSuffix(ss: seq<Status>, k: nat)
    requires k <= |ss|
    requires forall j :: k <= j < |ss| ==> Skipped(ss[j])
    ensures Counted(ss) == Counted(ss[..k])
    decreases |ss| - k
  {
    if k < |ss| {
      CountedIgnoresSkippedSuffix(ss, k + 1);
      assert ss[..k + 1][..k] == ss[..k];
    } else {
      assert ss[..k] == ss;
    }
  }

  /** The length of the run of `present` that ends the sequence. */
  function TrailingPresent(rs: seq<Status>): (n: nat)
    ensures n <= |rs|
  {
    if rs == [] || rs[|rs| - 1] != Present then 0 else TrailingPresent(rs[..|rs| - 1]) + 1
  }

  function Max(a: int, b: int): int {
    if a >= b then a else b
  }

  /** The length of the longest run of `present`. */
  function LongestRun(rs: seq<Status>): nat {
    if rs == [] then 0 else Max(LongestRun(rs[..|rs| - 1]), TrailingPresent(rs))
  }

  function Statuses(ss: seq<Session>): (st: seq<Status>)
    ensures |st| == |ss| && forall k :: 0 <= k < |ss| ==> st[k] == ss[k].status
  {
    seq(|ss|, k requires 0 <= k < |ss| => ss[k].status)
  }

  /** Chronological order: the comparator `a.date - b.date`. */
  predicate OlderFirst(a: Session, b: Session) {
    a.date <= b.date
  }

  /** The sessions sorted oldest first, keeping the order of sessions with the same date. */
  function Chronological(ss: seq<Session>): seq<Session> {
    SortBy(ss, OlderFirst)
  }

  /** The current and the longest streak of a course. */
  datatype Streaks = Streaks(current: int, longest: int)

  /** What `calculateAttendanceStreaks` returns, defined on the counted statuses in date order. */
  function AttendanceStreaks(c: Course): (r: Streaks)
    ensures c.sessions == [] ==> r == Streaks(0, 0)
  {
    var rs := Counted(Statuses(Chronological(c.sessions)));
    Streaks(TrailingPresent(rs), LongestRun(rs))
  }

  /** Appending one status to the counted prefix. */
  lemma CountedSnoc(ss: seq<Status>, x: Status)
    ensures Counted(ss + [x]) == if Skipped(x) then Counted(ss) else Counted(ss) + [x]
  {
    assert (ss + [x])[..|ss|] == ss;
  }

  /** A `present` extends the trailing run; anything else counted ends it. */
  lemma RunsSnoc(rs: seq<Status>, x: Status)
    ensures TrailingPresent(rs + [x]) == if x == Present then TrailingPresent(rs) + 1 else 0
    ensures LongestRun(rs + [x]) == Max(LongestRun(rs), TrailingPresent(rs + [x]))
  {
    assert (rs + [x])[..|rs|] == rs;
  }

  /** `calculateAttendanceStreaks`: sort, one forward pass, then a backward search for the latest counted session. */
  method CalculateAttendanceStreaks(c: Course) returns (r: Streaks)
    ensures r == AttendanceStreaks(c)
  {
    if c.sessions == [] {
      return Streaks(0, 0);
    }
    var sorted := Chronological(c.sessions);
    ghost var st := Statuses(sorted);
    var longestStreak, currentPotentialStreak := ForwardPass(sorted);
    var currentStreak := 0;
    var j := LatestCountedIndex(sorted);
    LatestCountedEndsRun(st, j);
    if j > 0 && sorted[j - 1].status == Present {
      currentStreak := currentPotentialStreak;
    }
    r := Streaks(currentStreak, longestStreak);
  }

  /** The backward search for the latest session that is neither a holiday nor cancelled: its index plus one, or 0. */
  method LatestCountedIndex(sorted: seq<Session>) returns (j: nat)
    ensures j <= |sorted|
    ensures j > 0 ==> !Skipped(sorted[j - 1].status)
    ensures forall k :: j <= k < |sorted| ==> Skipped(sorted[k].status)
  {
    j := |sorted|;
    while j > 0 && (sorted[j - 1].status == Holiday || sorted[j - 1].status == Canceled)
      invariant 0 <= j <= |sorted|
      invariant forall k :: j <= k < |sorted| ==> Skipped(sorted[k].status)
    {
      j := j - 1;
    }
  }

  /**
   * The forward loop of `calculateAttendanceStreaks` over sessions already in date order:
   * the run of `present` still open at the end and the longest run, holidays and
   * cancelled sessions passed over.
   */
  method ForwardPass(sorted: seq<Session>) returns (longestStreak: int, currentPotentialStreak: int)
    ensures currentPotentialStreak == TrailingPresent(Counted(Statuses(sorted)))
    ensures longestStreak == LongestRun(Counted(Statuses(sorted)))
  {
    ghost var st := Statuses(sorted);
    longestStreak, currentPotentialStreak := 0, 0;
    assert st[..0] == [];
    var i := 0;
    while i < |sorted|
      invariant i <= |sorted| && PassAt(st, i, longestStreak, currentPotentialStreak)
    {
      PassStep(st, i, longestStreak, currentPotentialStreak);
      var session := sorted[i];
      if session.status == Present {
        currentPotentialStreak := currentPotentialStreak + 1;
      } else if session.status == Holiday || session.status == Canceled {
        i := i + 1;
        continue;
      } else {
        if currentPotentialStreak > longestStreak {
          longestStreak := currentPotentialStreak;
        }
        currentPotentialStreak := 0;
      }
      i := i + 1;
    }
    assert st[..i] == st;
    if currentPotentialStreak > longestStreak {
      longestStreak := currentPotentialStreak;
    }
  }

  /** The state of the forward pass after the first `i` statuses. */
  ghost predicate PassAt(ss: seq<Status>, i: nat, longest: int, potential: int) {
    && i <= |ss|
    && potential == TrailingPresent(Counted(ss[..i]))
    && 0 <= longest <= LongestRun(Counted(ss[..i]))
    && Max(longest, potential) == LongestRun(Counted(ss[..i]))
  }

  /** One step of the forward pass keeps `PassAt`. */
  lemma PassStep(ss: seq<Status>, i: nat, longest: int, potential: int)
    requires i < |ss| && PassAt(ss, i, longest, potential)
    ensures Skipped(ss[i]) ==> PassAt(ss, i + 1, longest, potential)
    ensures ss[i] == Present ==> PassAt(ss, i + 1, longest, potential + 1)
    ensures !Skipped(ss[i]) && ss[i] != Present ==> PassAt(ss, i + 1, Max(longest, potential), 0)
  {
    CountedPrefixStep(ss, i);
    RunsSnoc(Counted(ss[..i]), ss[i]);
  }

  /**
   * What the backward search finds: with only skipped statuses from `j` on, the open run
   * is empty unless the status just before `j` is `present`.
   */
  lemma LatestCountedEndsRun(ss: seq<Status>, j: nat)
    requires j <= |ss|
    requires j > 0 ==> !Skipped(ss[j - 1])
    requires forall k :: j <= k < |ss| ==> Skipped(ss[k])
    ensures !(j > 0 && ss[j - 1] == Present) ==> TrailingPresent(Counted(ss)) == 0
  {
    if j > 0 {
      LatestCounted(ss, j - 1);
      RunsSnoc(Counted(ss[..j - 1]), ss[j - 1]);
    } else {
      CountedIgnoresSkippedSuffix(ss, 0);
    }
  }

  /** When `ss[k]` is the latest counted status, it ends the counted sequence. */
  lemma LatestCounted(ss: seq<Status>, k: nat)
    requires k < |ss| && !Skipped(ss[k])
    requires forall j :: k < j < |ss| ==> Skipped(ss[j])
    ensures Counted(ss) == Counted(ss[..k]) + [ss[k]]
  {
    CountedIgnoresSkippedSuffix(ss, k + 1);
    CountedPrefixStep(ss, k);
  }

  lemma CountedPrefixStep(ss: seq<Status>, k: nat)
    requires k < |ss|
    ensures Counted(ss[..k + 1]) == if Skipped(ss[k]) then Counted(ss[..k]) else Counted(ss[..k]) + [ss[k]]
  {
    assert ss[..k + 1] == ss[..k] + [ss[k]];
    CountedSnoc(ss[..k], ss[k]);
  }

  lemma {:induction false} TrailingAtMostLongest(rs: seq<Status>)
    ensures TrailingPresent(rs) <= LongestRun(rs)
  {
  }

  /** `rs[i..j]` is all `present`. */
  predicate PresentRun(rs: seq<Status>, i: int, j: int) {
    0 <= i <= j <= |rs| && forall k :: i <= k < j ==> rs[k] == Present
  }

  /** A run of `present` reaching the end is no longer than the trailing run. */
  lemma {:induction false} TrailingRunBound(rs: seq<Status>, i: int)
    requires PresentRun(rs, i, |rs|)
    ensures |rs| - i <= TrailingPresent(rs)
    decreases |rs|
  {
    if i < |rs| {
      var init := rs[..|rs| - 1];
      assert PresentRun(init, i, |init|) by {
        forall k | i <= k < |init| ensures init[k] == Present { assert init[k] == rs[k]; }
      }
      TrailingRunBound(init, i);
    }
  }

  /** The trailing run is a run of `present`. */
  lemma {:induction false} TrailingRunIsRun(rs: seq<Status>)
    ensures PresentRun(rs, |rs| - TrailingPresent(rs), |rs|)
  {
    if rs != [] && rs[|rs| - 1] == Present {
      var init := rs[..|rs| - 1];
      TrailingRunIsRun(init);
      forall k | |rs| - TrailingPresent(rs) <= k < |rs| ensures rs[k] == Present {
        if k < |rs| - 1 { assert rs[k] == init[k]; }
      }
    }
  }

  /**
   * `longestStreak` is the longest run of `present`: no run is longer, and one run
   * has exactly that length.
   */
  lemma {:induction false} LongestRunIsLongest(rs: seq<Status>)
    ensures forall i, j :: PresentRun(rs, i, j) ==> j - i <= LongestRun(rs)
    ensures exists i, j :: PresentRun(rs, i, j) && j - i == LongestRun(rs)
  {
    if rs == [] {
      assert PresentRun(rs, 0, 0);
    } else {
      var init := rs[..|rs| - 1];
      LongestRunIsLongest(init);
      forall i, j | PresentRun(rs, i, j) ensures j - i <= LongestRun(rs) {
        if j == |rs| {
          TrailingRunBound(rs, i);
        } else {
          assert PresentRun(init, i, j) by {
            forall k | i <= k < j ensures init[k] == Present { assert init[k] == rs[k]; }
          }
        }
      }
      if LongestRun(init) >= TrailingPresent(rs) {
        var i, j :| PresentRun(init, i, j) && j - i == LongestRun(init);
        assert PresentRun(rs, i, j) by {
          forall k | i <= k < j ensures rs[k] == Present { assert rs[k] == init[k]; }
        }
      } else {
        TrailingRunIsRun(rs);
        assert LongestRun(rs) == TrailingPresent(rs);
      }
    }
  }

  /** The number of `present` statuses. */
  function PresentCount(rs: seq<Status>): nat {
    if rs == [] then 0 else PresentCount(rs[..|rs| - 1]) + (if rs[|rs| - 1] == Present then 1 else 0)
  }

  lemma {:induction false} RunsAtMostPresentCount(rs: seq<Status>)
    ensures TrailingPresent(rs) <= PresentCount(rs)
    ensures LongestRun(rs) <= PresentCount(rs)
  {
    if rs != [] {
      RunsAtMostPresentCount(rs[..|rs| - 1]);
    }
  }

  lemma {:induction false} PresentCountCounted(ss: seq<Status>)
    ensures PresentCount(Counted(ss)) == PresentCount(ss)
  {
    if ss != [] {
      PresentCountCounted(ss[..|ss| - 1]);
      var rest := Counted(ss[..|ss| - 1]);
      if !Skipped(ss[|ss| - 1]) {
        assert (rest + [ss[|ss| - 1]])[..|rest|] == rest;
      }
    }
  }

  lemma {:induction false} PresentCountMatches(ss: seq<Session>)
    ensures PresentCount(Statuses(ss)) == CountStatus(ss, Present)
  {
    if ss != [] {
      PresentCountMatches(ss[..|ss| - 1]);
      assert Statuses(ss)[..|ss| - 1] == Statuses(ss[..|ss| - 1]);
    }
  }

  lemma {:induction false} CountStatusInsert(x: Session, t: seq<Session>, st: Status)
    ensures CountStatus(Insert(x, t, OlderFirst), st) == CountStatus(t, st) + (if x.status == st then 1 else 0)
  {
    if t == [] {
      assert [x][..0] == [];
    } else if OlderFirst(x, t[0]) {
      CountStatusConcat([x], t, st);
      assert [x][..0] == [];
    } else {
      CountStatusInsert(x, t[1..], st);
      CountStatusConcat([t[0]], Insert(x, t[1..], OlderFirst), st);
      CountStatusConcat([t[0]], t[1..], st);
      assert [t[0]] + t[1..] == t;
      assert [t[0]][..0] == [];
    }
  }

  lemma {:induction false} CountStatusChronological(ss: seq<Session>, st: Status)
    ensures CountStatus(Chronological(ss), st) == CountStatus(ss, st)
  {
    if ss != [] {
      CountStatusChronological(ss[1..], st);
      CountStatusInsert(ss[0], Chronological(ss[1..]), st);
      CountStatusConcat([ss[0]], ss[1..], st);
      assert [ss[0]] + ss[1..] == ss;
      assert [ss[0]][..0] == [];
    }
  }

  /** Always current <= longest <= the number of present sessions. */
  lemma StreakBounds(c: Course)
    ensures 0 <= AttendanceStreaks(c).current <= AttendanceStreaks(c).longest <= CountStatus(c.sessions, Present)
  {
    var sorted := Chronological(c.sessions);
    var rs := Counted(Statuses(sorted));
    TrailingAtMostLongest(rs);
    RunsAtMostPresentCount(rs);
    PresentCountCounted(Statuses(sorted));
    PresentCountMatches(sorted);
    CountStatusChronological(c.sessions, Present);
  }

  /** A holiday or canceled session anywhere changes neither streak. */
  lemma SkippedIsTransparent(a: seq<Status>, s: Status, b: seq<Status>)
    requires Skipped(s)
    ensures Counted(a + [s] + b) == Counted(a + b)
  {
    CountedConcat(a + [s], b);
    CountedConcat(a, [s]);
    CountedConcat(a, b);
    assert [s][..0] == [];
  }

  /** present, present, absent, present on consecutive days: longest 2, current 1. */
  lemma StreakExample(c: Course)
    requires |c.sessions| == 4 && forall k :: 0 <= k < 4 ==> c.sessions[k].date == k + 1
    requires c.sessions[0].status == Present && c.sessions[1].status == Present
    requires c.sessions[2].status == Absent && c.sessions[3].status == Present
    ensures AttendanceStreaks(c) == Streaks(1, 2)
  {
    var ss := c.sessions;
    SortByOfSorted(ss, OlderFirst);
    var st := Statuses(ss);
    assert st == [Present, Present, Absent, Present];
    RunsOfExample();
  }

  /** The runs of present, present, absent, present. */
  lemma RunsOfExample()
    ensures var rs := Counted([Present, Present, Absent, Present]);
      TrailingPresent(rs) == 1 && LongestRun(rs) == 2
  {
    CountedExample();
    var s1, s2, s3, s4 := [Present], [Present, Present], [Present, Present, Absent], [Present, Present, Absent, Present];
    assert s1[..0] == [] && s2[..1] == s1 && s3[..2] == s2 && s4[..3] == s3;
    assert TrailingPresent(s1) == 1 && TrailingPresent(s2) == 2;
    assert TrailingPresent(s3) == 0 && TrailingPresent(s4) == 1;
    assert LongestRun(s1) == 1 && LongestRun(s2) == 2;
    assert LongestRun(s3) == 2 && LongestRun(s4) == 2;
  }

  /** None of present, present, absent, present is skipped. */
  lemma CountedExample()
    ensures Counted([Present, Present, Absent, Present]) == [Present, Present, Absent, Present]
  {
    var s1, s2, s3, s4 := [Present], [Present, Present], [Present, Present, Absent], [Present, Present, Absent, Present];
    assert s1[..0] == [] && s2[..1] == s1 && s3[..2] == s2 && s4[..3] == s3;
    assert Counted(s1) == s1;
    assert Counted(s2) == s2;
    assert Counted(s3) == s3;
  }
}
