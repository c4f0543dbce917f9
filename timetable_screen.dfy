/**
 * The timetable screen (app/timetable.tsx): reading a 12-hour time text back into
 * hours and minutes, the entries of the selected day, course names, and the guard
 * in front of adding an entry.
 */
module TimetableScreen {
  import opened Wrappers
  import opened Strings
  import opened Sorting
  import opened Filtering
  import opened Model
  import opened DateText
  import opened DataStore
  import opened Home

  /** The day tabs, Monday first. */
  function DaysOfWeek(): (r: seq<string>)
    ensures |r| == 7 && r[0] == "monday"
  {
    ["monday", "tuesday", "wednesday", "thursday", "friday", "saturday", "sunday"]
  }

  // ---------------------------------------------------------------- times

  /** Hours and minutes as `setHours` receives them; `None` is NaN. */
  datatype ClockTime = ClockTime(hours: Option<int>, minutes: Option<int>)

  /** `timeString.split(' ')`: the time part and the modifier, `""` when there is none. */
  function TimeAndModifier(timeString: string): (string, string) {
    var parts := Split(timeString, ' ');
    (parts[0], if |parts| > 1 then parts[1] else "")
  }

  /** `time.split(':').map(Number)`: the hours and the minutes, `None` for NaN or a missing part. */
  function ReadHM(time: string): (Option<int>, Option<int>) {
    var numbers := Split(time, ':');
    (ToNumber(numbers[0]), if |numbers| > 1 then ToNumber(numbers[1]) else None)
  }

  /** The AM/PM adjustment of an upper-cased modifier: afternoon hours gain 12, 12 AM is 0. */
  function AdjustHour(hours: Option<int>, modifier: string): Option<int> {
    var h1 := if modifier == "PM" && hours.Some? && hours.value < 12 then Some(hours.value + 12) else hours;
    if modifier == "AM" && h1 == Some(12) then Some(0) else h1
  }

  /** What `parseTime` computes. */
  function ClockOf(timeString: string): ClockTime {
    var parts := TimeAndModifier(timeString);
    var hm := ReadHM(parts.0);
    ClockTime(AdjustHour(hm.0, Upper(parts.1)), hm.1)
  }

  /** `parseTime`: the hour is adjusted in place, first for PM, then for midnight. */
  method ParseTime(timeString: string) returns (t: ClockTime)
    ensures t == ClockOf(timeString)
  {
    var parts := TimeAndModifier(timeString);
    var time, modifier := parts.0, parts.1;
    var hm := ReadHM(time);
    var hours, minutes := hm.0, hm.1;
    var upper := Upper(modifier);
    ghost var h0 := hours;
    if upper == "PM" && hours.Some? && hours.value < 12 {
      hours := Some(hours.value + 12);
    }
    if upper == "AM" && hours == Some(12) {
      hours := Some(0);
    }
    assert hours == AdjustHour(h0, upper);
    t := ClockTime(hours, minutes);
  }

  /**
   * For an hour of 1 to 12 and an AM/PM modifier, the adjusted hour is a 24-hour hour:
   * afternoon hours gain 12, "12 AM" is midnight and "12 PM" stays noon; with any other
   * modifier the hour is kept.
   */
  lemma AdjustHourSpec(h: int, modifier: string)
    ensures 1 <= h <= 12 && (modifier == "AM" || modifier == "PM") ==>
      AdjustHour(Some(h), modifier).Some? && 0 <= AdjustHour(Some(h), modifier).value < 24
    ensures modifier == "PM" ==> AdjustHour(Some(h), modifier) == Some(if h < 12 then h + 12 else h)
    ensures modifier == "AM" ==> AdjustHour(Some(h), modifier) == Some(if h == 12 then 0 else h)
    ensures modifier != "AM" && modifier != "PM" ==> AdjustHour(Some(h), modifier) == Some(h)
    ensures AdjustHour(None, modifier) == None
  {
  }

  /** `formatTime` in the en-US 12-hour style: `h:MM AM`, with 12 for noon and midnight. */
  function FormatTime(hours: nat, minutes: nat): string
    requires hours < 24 && minutes < 60
  {
    var h12 := if hours % 12 == 0 then 12 else hours % 12;
    NatToString(h12) + ":" + Pad2(minutes) + " " + (if hours < 12 then "AM" else "PM")
  }

  /** `hh:mm` reads as the two numbers. */
  lemma ReadHMOfDigits(hh: string, mm: string)
    requires hh != [] && forall i :: 0 <= i < |hh| ==> IsDigit(hh[i])
    requires mm != [] && forall i :: 0 <= i < |mm| ==> IsDigit(mm[i])
    ensures ReadHM(hh + ":" + mm) == (Some(DigitsValue(hh)), Some(DigitsValue(mm)))
  {
    SplitHM(hh, mm);
    DigitsAgree(hh);
    DigitsAgree(mm);
  }

  /** `hh:mm` splits at the colon into its two digit runs. */
  lemma SplitHM(hh: string, mm: string)
    requires forall i :: 0 <= i < |hh| ==> IsDigit(hh[i])
    requires forall i :: 0 <= i < |mm| ==> IsDigit(mm[i])
    ensures Split(hh + ":" + mm, ':') == [hh, mm]
  {
    AllDigitsNoSeparator(hh, ':');
    AllDigitsNoSeparator(mm, ':');
    assert hh + ":" + mm == hh + [':'] + mm;
    SplitAtFirst(hh, ':', mm);
    SplitNoSeparator(mm, ':');
  }

  /** A time part without spaces followed by a space and a modifier without spaces splits into the two. */
  lemma TimeAndModifierOf(time: string, modifier: string)
    requires ' ' !in time && ' ' !in modifier
    ensures TimeAndModifier(time + " " + modifier) == (time, modifier)
    ensures TimeAndModifier(time) == (time, "")
  {
    assert time + " " + modifier == time + [' '] + modifier;
    SplitAtFirst(time, ' ', modifier);
    SplitNoSeparator(modifier, ' ');
    SplitNoSeparator(time, ' ');
  }

  /** Digits, a colon and digits contain no space. */
  lemma NoSpaceInHM(hh: string, mm: string)
    requires forall i :: 0 <= i < |hh| ==> IsDigit(hh[i])
    requires forall i :: 0 <= i < |mm| ==> IsDigit(mm[i])
    ensures ' ' !in hh + ":" + mm
  {
    AllDigitsNoSeparator(hh, ' ');
    AllDigitsNoSeparator(mm, ' ');
  }

  /** `hh:mm modifier` reads as the two numbers with the hour adjusted for the modifier. */
  lemma ClockOfHM(hh: string, mm: string, modifier: string)
    requires hh != [] && forall i :: 0 <= i < |hh| ==> IsDigit(hh[i])
    requires mm != [] && forall i :: 0 <= i < |mm| ==> IsDigit(mm[i])
    requires ' ' !in modifier
    ensures ClockOf(hh + ":" + mm + " " + modifier)
            == ClockTime(AdjustHour(Some(DigitsValue(hh)), Upper(modifier)), Some(DigitsValue(mm)))
  {
    var ts := hh + ":" + mm + " " + modifier;
    NoSpaceInHM(hh, mm);
    TimeAndModifierOf(hh + ":" + mm, modifier);
    ReadHMOfDigits(hh, mm);
    ClockOfSplit(ts, hh + ":" + mm, modifier, DigitsValue(hh), DigitsValue(mm));
  }

  /**
   * An hour of 1 to 12 with an AM/PM modifier in any letter case reads as a 24-hour hour:
   * afternoon hours gain 12, "12 AM" is midnight and "12 PM" stays noon.
   */
  lemma TwelveHourClock(h: nat, mm: string, modifier: string)
    requires 1 <= h <= 12
    requires mm != [] && forall i :: 0 <= i < |mm| ==> IsDigit(mm[i])
    requires Upper(modifier) == "AM" || Upper(modifier) == "PM"
    ensures var t := ClockOf(NatToString(h) + ":" + mm + " " + modifier);
      && t.hours.Some? && 0 <= t.hours.value < 24
      && (Upper(modifier) == "PM" ==> t.hours.value == (if h == 12 then 12 else h + 12))
      && (Upper(modifier) == "AM" ==> t.hours.value == (if h == 12 then 0 else h))
      && t.minutes == Some(DigitsValue(mm))
  {
    assert ' ' !in modifier by {
      assert |Upper(modifier)| == 2;
      forall i | 0 <= i < |modifier| ensures modifier[i] != ' ' {
        assert Upper(modifier)[i] == UpperChar(modifier[i]);
      }
    }
    DigitsValueOfNatToString(h);
    ClockOfHM(NatToString(h), mm, modifier);
    AdjustHourSpec(h, Upper(modifier));
  }

  /** `ClockOf` in terms of the split parts. */
  lemma ClockOfSplit(ts: string, time: string, modifier: string, h: int, m: int)
    requires TimeAndModifier(ts) == (time, modifier)
    requires ReadHM(time) == (Some(h), Some(m))
    ensures ClockOf(ts) == ClockTime(AdjustHour(Some(h), Upper(modifier)), Some(m))
  {
  }

  /** Without a modifier the hour is read as written. */
  lemma NoModifierKeepsHour(hh: string, mm: string)
    requires hh != [] && forall i :: 0 <= i < |hh| ==> IsDigit(hh[i])
    requires mm != [] && forall i :: 0 <= i < |mm| ==> IsDigit(mm[i])
    ensures ClockOf(hh + ":" + mm) == ClockTime(Some(DigitsValue(hh)), Some(DigitsValue(mm)))
  {
    var ts := hh + ":" + mm;
    NoSpaceInHM(hh, mm);
    TimeAndModifierOf(ts, "");
    ReadHMOfDigits(hh, mm);
    assert Upper("") == "";
    AdjustHourSpec(DigitsValue(hh), "");
    ClockOfSplit(ts, ts, "", DigitsValue(hh), DigitsValue(mm));
  }

  /** Reading a formatted time gives back the hours and minutes it was made from. */
  lemma FormatThenParse(hours: nat, minutes: nat)
    requires hours < 24 && minutes < 60
    ensures ClockOf(FormatTime(hours, minutes)) == ClockTime(Some(hours), Some(minutes))
  {
    var h12 := if hours % 12 == 0 then 12 else hours % 12;
    assert h12 == (if hours == 0 || hours == 12 then 12 else if hours < 12 then hours else hours - 12);
    var mm := Pad2(minutes);
    if hours < 12 {
      AmReadsBack(hours, h12, mm);
      assert FormatTime(hours, minutes) == NatToString(h12) + ":" + mm + " " + "AM";
    } else {
      PmReadsBack(hours, h12, mm);
      assert FormatTime(hours, minutes) == NatToString(h12) + ":" + mm + " " + "PM";
    }
  }

  /** A morning hour, written on the 12-hour clock with "AM", reads back as itself. */
  lemma AmReadsBack(hours: nat, h12: nat, mm: string)
    requires hours < 12 && h12 == (if hours == 0 then 12 else hours)
    requires mm != [] && forall i :: 0 <= i < |mm| ==> IsDigit(mm[i])
    ensures ClockOf(NatToString(h12) + ":" + mm + " " + "AM") == ClockTime(Some(hours), Some(DigitsValue(mm)))
  {
    assert Upper("AM") == "AM";
    assert hours == (if h12 == 12 then 0 else h12);
    TwelveHourClock(h12, mm, "AM");
  }

  /** An afternoon hour, written on the 12-hour clock with "PM", reads back as itself. */
  lemma PmReadsBack(hours: nat, h12: nat, mm: string)
    requires 12 <= hours < 24 && h12 == (if hours == 12 then 12 else hours - 12)
    requires mm != [] && forall i :: 0 <= i < |mm| ==> IsDigit(mm[i])
    ensures ClockOf(NatToString(h12) + ":" + mm + " " + "PM") == ClockTime(Some(hours), Some(DigitsValue(mm)))
  {
    assert Upper("PM") == "PM";
    assert hours == (if h12 == 12 then 12 else h12 + 12);
    TwelveHourClock(h12, mm, "PM");
  }

  // ---------------------------------------------------------------- the day list

  /** `entry => entry.day === selectedDay`: exact comparison, unlike the home screen's. */
  function DayIs(day: string): TimetableEntry -> bool {
    (e: TimetableEntry) => e.day == day
  }

  /** `entriesForSelectedDay`. */
  function EntriesForSelectedDay(timetable: seq<TimetableEntry>, selectedDay: string): seq<TimetableEntry> {
    SortBy(Filter(timetable, DayIs(selectedDay)), StartsNoLater)
  }

  /** Exactly the entries whose day is the selected day, ordered by start time. */
  lemma EntriesForSelectedDaySpec(timetable: seq<TimetableEntry>, selectedDay: string)
    ensures var r := EntriesForSelectedDay(timetable, selectedDay);
      && (forall e :: e in r <==> e in timetable && e.day == selectedDay)
      && SortedBy(r, StartsNoLater)
      && |r| <= |timetable|
  {
    var f := Filter(timetable, DayIs(selectedDay));
    forall e ensures e in SortBy(f, StartsNoLater) <==> e in f {
      SortByMembers(f, StartsNoLater, e);
    }
    StartsNoLaterIsTotalPreorder();
    SortBySorted(f, StartsNoLater);
  }

  /** `getCourseName`: the course's name, or "Unknown Course" for a missing course or an empty name. */
  function GetCourseName(courses: seq<Course>, courseId: string): (name: string)
    ensures name != ""
    ensures (forall k :: 0 <= k < |courses| ==> courses[k].id != courseId) ==> name == "Unknown Course"
    ensures FindCourse(courses, courseId).Some? && FindCourse(courses, courseId).value.name != "" ==>
      name == FindCourse(courses, courseId).value.name
    ensures FindCourse(courses, courseId).Some? && FindCourse(courses, courseId).value.name == "" ==>
      name == "Unknown Course"
  {
    match FindCourse(courses, courseId)
    case Some(c) => if c.name != "" then c.name else "Unknown Course"
    case None => "Unknown Course"
  }

  // ---------------------------------------------------------------- adding an entry

  /** The form is complete: a course is chosen and no text field is empty. */
  predicate FormComplete(selectedCourseId: Option<string>, startTime: string, endTime: string, location: string) {
    selectedCourseId.Some? && selectedCourseId.value != "" && startTime != "" && endTime != "" && location != ""
  }

  /** `handleAddEntry`: an incomplete form adds nothing; a complete one adds one entry for the selected day. */
  method HandleAddEntry(store: Store, newId: string, selectedDay: string, selectedCourseId: Option<string>,
                        startTime: string, endTime: string, location: string) returns (added: bool)
    modifies store
    ensures added <==> FormComplete(selectedCourseId, startTime, endTime, location)
    ensures added ==>
      store.timetable == old(store.timetable) + [TimetableEntry(newId, selectedDay, startTime, endTime, location, selectedCourseId.value)]
    ensures !added ==> store.timetable == old(store.timetable)
    ensures store.courses == old(store.courses) && store.settings == old(store.settings)
    ensures store.isLoading == old(store.isLoading)
  {
    if selectedCourseId.None? || selectedCourseId.value == "" || startTime == "" || endTime == "" || location == "" {
      return false;
    }
    store.AddTimetableEntry(newId, selectedDay, startTime, endTime, location, selectedCourseId.value);
    return true;
  }
}
