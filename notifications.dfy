/**
 * Weekly class reminders (src/utils/notifications.ts). Scheduling is modelled as
 * a list of effects: first the cancellation of every pending reminder, then one
 * scheduled reminder per usable timetable entry. The platform is a boolean, and
 * the clock is passed in as today's weekday and the milliseconds since midnight.
 */
module Notifications {
  import opened Wrappers
  import opened Strings
  import opened Model

  // ---------------------------------------------------------------- lookups

  /** `dayOfWeekToIndex[name]`: the weekday number of a lower-case day name, `undefined` otherwise. */
  function DayOfWeekToIndex(name: string): (r: Option<int>)
    ensures r.Some? ==> 0 <= r.value < 7 && DayNames()[r.value] == name
    ensures r.None? <==> name !in DayNames()
  {
    if name == "sunday" then Some(0)
    else if name == "monday" then Some(1)
    else if name == "tuesday" then Some(2)
    else if name == "wednesday" then Some(3)
    else if name == "thursday" then Some(4)
    else if name == "friday" then Some(5)
    else if name == "saturday" then Some(6)
    else None
  }

  /** Every weekday name maps back to its own index. */
  lemma DayOfWeekToIndexInverse(i: nat)
    requires i < 7
    ensures DayOfWeekToIndex(DayNames()[i]) == Some(i)
  {
  }

  /** `settings.reminderTime || 15`: a reminder time of 0 falls back to 15 minutes. */
  function LeadMinutes(reminderTime: int): (lead: int)
    ensures reminderTime != 0 ==> lead == reminderTime
    ensures reminderTime == 0 ==> lead == 15
  {
    if reminderTime != 0 then reminderTime else 15
  }

  /**
   * `startTime.split(':')` then `parseInt` of the first two parts; `None` when either is NaN
   * (no digits, or no second part). An AM/PM suffix after the minutes is ignored.
   */
  function ParseStart(startTime: string): Option<(int, int)> {
    var parts := Split(startTime, ':');
    var hour := ParseInt(parts[0]);
    var minute := if |parts| > 1 then ParseInt(parts[1]) else None;
    if hour.Some? && minute.Some? then Some((hour.value, minute.value)) else None
  }

  /** `HH:MM` followed by any text without a colon that does not start with a digit reads as the two numbers. */
  lemma ParseStartOfDigits(hh: string, mm: string, rest: string)
    requires hh != [] && forall i :: 0 <= i < |hh| ==> IsDigit(hh[i])
    requires mm != [] && forall i :: 0 <= i < |mm| ==> IsDigit(mm[i])
    requires ':' !in rest && (rest == [] || !IsDigit(rest[0]))
    ensures ParseStart(hh + [':'] + mm + rest) == Some((DigitsValue(hh), DigitsValue(mm)))
  {
    StartParts(hh, mm, rest);
    ParseIntOfDigits(hh, []);
    assert hh + [] == hh;
    ParseIntOfDigits(mm, rest);
  }

  /** Digits, a colon, digits and a colon-free rest split into the hours and the rest. */
  lemma StartParts(hh: string, mm: string, rest: string)
    requires forall i :: 0 <= i < |hh| ==> IsDigit(hh[i])
    requires forall i :: 0 <= i < |mm| ==> IsDigit(mm[i])
    requires ':' !in rest
    ensures Split(hh + [':'] + mm + rest, ':') == [hh, mm + rest]
  {
    AllDigitsNoSeparator(hh, ':');
    AllDigitsNoSeparator(mm, ':');
    assert ':' !in mm + rest;
    assert hh + [':'] + mm + rest == hh + [':'] + (mm + rest);
    SplitAtFirst(hh, ':', mm + rest);
    SplitNoSeparator(mm + rest, ':');
  }

  /** A 12-hour text as the timetable screen stores it loses its afternoon: "01:30 PM" reads as 01:30. */
  lemma TwelveHourTextDrift()
    ensures ParseStart("01:30 PM") == Some((1, 30))
  {
    assert "01:30 PM" == "01" + [':'] + "30" + " PM";
    ParseStartOfDigits("01", "30", " PM");
    assert DigitsValue("01") == 1 by {
      assert "01"[..1] == "0";
      assert "0"[..0] == [];
    }
    assert DigitsValue("30") == 30 by {
      assert "30"[..1] == "3";
      assert "3"[..0] == [];
    }
  }

  // ---------------------------------------------------------------- rollover

  /** The `while (triggerMinute < 0)` loop as a recursion: borrow an hour for every 60 minutes missing. */
  function MinuteRollback(minute: int, hour: int): (r: (int, int))
    ensures 0 <= r.0 < 60 || (minute >= 60 && r == (minute, hour))
    ensures r.0 + 60 * r.1 == minute + 60 * hour
    decreases if minute < 0 then -minute else 0
  {
    if minute >= 0 then (minute, hour) else MinuteRollback(minute + 60, hour - 1)
  }

  /** The trigger's weekday, hour and minute. */
  datatype Clock = Clock(weekday: int, hour: int, minute: int)

  /** The trigger time `lead` minutes before `hour:minute` on `weekday`: minute loop, then one hour/day step. */
  function TriggerClock(weekday: int, hour: int, minute: int, lead: int): Clock {
    var (m, h) := MinuteRollback(minute - lead, hour);
    if h < 0 then Clock(if weekday - 1 < 0 then 6 else weekday - 1, h + 24, m)
    else Clock(weekday, h, m)
  }

  /**
   * For an in-range class time and a lead of at most a day, the trigger is an in-range
   * clock time that lies exactly `lead` minutes earlier in the week.
   */
  lemma TriggerClockInRange(weekday: int, hour: int, minute: int, lead: int)
    requires 0 <= weekday < 7 && 0 <= hour < 24 && 0 <= minute < 60 && 0 <= lead <= 1440
    ensures var c := TriggerClock(weekday, hour, minute, lead);
      && 0 <= c.weekday < 7 && 0 <= c.hour < 24 && 0 <= c.minute < 60
      && (c.weekday * 1440 + c.hour * 60 + c.minute) % 10080 == (weekday * 1440 + hour * 60 + minute - lead) % 10080
  {
    var (m, h) := MinuteRollback(minute - lead, hour);
    assert m + 60 * h == minute - lead + 60 * hour;
    assert h >= -24;
    var c := TriggerClock(weekday, hour, minute, lead);
    if h < 0 && weekday == 0 {
      assert c.weekday * 1440 + c.hour * 60 + c.minute == weekday * 1440 + hour * 60 + minute - lead + 10080;
    }
  }

  /** Five past midnight on Sunday with a 15-minute lead rolls back to 23:50 on Saturday. */
  lemma SundayRollsBackToSaturday()
    ensures TriggerClock(0, 0, 5, 15) == Clock(6, 23, 50)
  {
  }

  /** The rollover as the source writes it: a loop over the minutes, then a single step back over midnight. */
  method Rollover(weekday: int, hour: int, minute: int, lead: int) returns (c: Clock)
    ensures c == TriggerClock(weekday, hour, minute, lead)
  {
    var triggerHour := hour;
    var triggerMinute := minute - lead;
    var triggerWeekday := weekday;
    while triggerMinute < 0
      invariant MinuteRollback(triggerMinute, triggerHour) == MinuteRollback(minute - lead, hour)
      decreases -triggerMinute
    {
      triggerMinute := triggerMinute + 60;
      triggerHour := triggerHour - 1;
    }
    if triggerHour < 0 {
      triggerHour := triggerHour + 24;
      triggerWeekday := triggerWeekday - 1;
      if triggerWeekday < 0 {
        triggerWeekday := 6;
      }
    }
    c := Clock(triggerWeekday, triggerHour, triggerMinute);
  }

  // ---------------------------------------------------------------- next occurrence

  /** Milliseconds in a day. */
  const DayMs: int := 86_400_000

  /**
   * `getNextOccurrence`: days from today until the trigger's weekday, a full week when
   * that is today and the time is not strictly later than now.
   */
  method GetNextOccurrence(weekday: int, hour: int, minute: int, currentDay: int, nowMs: int) returns (daysUntilNext: int)
    requires 0 <= weekday < 7 && 0 <= currentDay < 7
    ensures daysUntilNext == NextOccurrenceDays(weekday, hour, minute, currentDay, nowMs)
    ensures 0 <= daysUntilNext <= 7
    ensures daysUntilNext % 7 == (weekday - currentDay) % 7
    ensures daysUntilNext == 7 <==> weekday == currentDay && (hour * 60 + minute) * 60_000 <= nowMs
    ensures 0 <= nowMs < DayMs && 0 <= hour < 24 && 0 <= minute < 60 ==>
      daysUntilNext * DayMs + (hour * 60 + minute) * 60_000 > nowMs
  {
    var resultMs := (hour * 60 + minute) * 60_000;
    daysUntilNext := weekday - currentDay;
    if daysUntilNext < 0 {
      daysUntilNext := daysUntilNext + 7;
    }
    if daysUntilNext == 0 && resultMs <= nowMs {
      daysUntilNext := daysUntilNext + 7;
    }
  }

  /**
   * The day offset `GetNextOccurrence` computes, as a value: for weekdays in range it
   * lands on the target weekday, within a week, and a week ahead exactly when the
   * target is today and its time is not later than now.
   */
  function NextOccurrenceDays(weekday: int, hour: int, minute: int, currentDay: int, nowMs: int): (d: int)
    ensures 0 <= weekday < 7 && 0 <= currentDay < 7 ==>
      && 0 <= d <= 7
      && (currentDay + d) % 7 == weekday
      && (d == 7 <==> weekday == currentDay && (hour * 60 + minute) * 60_000 <= nowMs)
  {
    var d := if weekday - currentDay < 0 then weekday - currentDay + 7 else weekday - currentDay;
    if d == 0 && (hour * 60 + minute) * 60_000 <= nowMs then d + 7 else d
  }

  // ---------------------------------------------------------------- reminders

  /** A scheduled notification trigger: a repeating calendar trigger (iOS) or a one-off date. */
  datatype Trigger =
    | Calendar(weekday: int, hour: int, minute: int, repeats: bool)
    | AtDate(dayOffset: int, hour: int, minute: int)

  /** A scheduled reminder with its content and data payload. */
  datatype Reminder = Reminder(
    identifier: string, title: string, body: string,
    courseId: string, timetableEntryId: string, time: string,
    trigger: Trigger)

  /** What scheduling does, in order. */
  datatype Effect = CancelAll | Schedule(reminder: Reminder)

  /** The parts of the application data the scheduler reads; any may be missing. */
  datatype ReminderData = ReminderData(
    settings: Option<AppSettings>, courses: Option<seq<Course>>, timetable: Option<seq<TimetableEntry>>)

  /** The clock and the platform. */
  datatype Environment = Environment(isIOS: bool, currentDay: int, nowMs: int)

  /** `${course.name} starts at ${slot.startTime}${locationInfo}.` */
  function ReminderBody(c: Course, e: TimetableEntry): string {
    c.name + " starts at " + e.startTime + (if e.location != "" then " in " + e.location else "") + "."
  }

  /** The trigger for a class at `hour:minute` on `day`, `lead` minutes early. */
  function TriggerFor(day: int, hour: int, minute: int, lead: int, env: Environment): (t: Trigger)
    requires 0 <= day < 7 && 0 <= env.currentDay < 7
    ensures env.isIOS <==> t.Calendar?
    ensures t.Calendar? ==> 1 <= t.weekday <= 7 && t.repeats
    ensures t.AtDate? ==> 0 <= t.dayOffset <= 7
    ensures var c := TriggerClock(day, hour, minute, lead);
      && t.hour == c.hour && t.minute == c.minute
      && (t.Calendar? ==> t.weekday == c.weekday + 1)
      && (t.AtDate? ==> t.dayOffset == NextOccurrenceDays(c.weekday, c.hour, c.minute, env.currentDay, env.nowMs))
  {
    var c := TriggerClock(day, hour, minute, lead);
    TriggerWeekdayInRange(day, hour, minute, lead);
    if env.isIOS then Calendar(c.weekday + 1, c.hour, c.minute, true)
    else AtDate(NextOccurrenceDays(c.weekday, c.hour, c.minute, env.currentDay, env.nowMs), c.hour, c.minute)
  }

  /**
   * For an in-range class time and a lead of at most a day, the trigger fires `lead`
   * minutes before the class: the iOS trigger's weekday (1 = Sunday), hour and minute
   * lie exactly that far back in the week, and the date trigger lands on the weekday
   * of that earlier time.
   */
  lemma TriggerForLeadsClass(day: int, hour: int, minute: int, lead: int, env: Environment)
    requires 0 <= day < 7 && 0 <= env.currentDay < 7
    requires 0 <= hour < 24 && 0 <= minute < 60 && 0 <= lead <= 1440
    ensures var t := TriggerFor(day, hour, minute, lead, env);
      && 0 <= t.hour < 24 && 0 <= t.minute < 60
      && (t.Calendar? ==>
            ((t.weekday - 1) * 1440 + t.hour * 60 + t.minute) % 10080 == (day * 1440 + hour * 60 + minute - lead) % 10080)
      && (t.AtDate? ==> (env.currentDay + t.dayOffset) % 7 == TriggerClock(day, hour, minute, lead).weekday)
  {
    TriggerClockInRange(day, hour, minute, lead);
    TriggerWeekdayInRange(day, hour, minute, lead);
  }

  /** The weekday stays a weekday whatever the time and lead. */
  lemma TriggerWeekdayInRange(day: int, hour: int, minute: int, lead: int)
    requires 0 <= day < 7
    ensures 0 <= TriggerClock(day, hour, minute, lead).weekday < 7
  {
  }

  /** The trigger as the loop computes it: the rollover, then the platform's trigger. */
  method ComputeTrigger(day: int, hour: int, minute: int, lead: int, env: Environment) returns (t: Trigger)
    requires 0 <= day < 7 && 0 <= env.currentDay < 7
    ensures t == TriggerFor(day, hour, minute, lead, env)
  {
    var c := Rollover(day, hour, minute, lead);
    TriggerWeekdayInRange(day, hour, minute, lead);
    if env.isIOS {
      t := Calendar(c.weekday + 1, c.hour, c.minute, true);
    } else {
      var days := GetNextOccurrence(c.weekday, c.hour, c.minute, env.currentDay, env.nowMs);
      assert days == NextOccurrenceDays(c.weekday, c.hour, c.minute, env.currentDay, env.nowMs);
      t := AtDate(days, c.hour, c.minute);
    }
  }

  /** The notification content and data for an entry of a course. */
  function MakeReminder(e: TimetableEntry, course: Course, trigger: Trigger): Reminder {
    Reminder("reminder-" + e.id, "Upcoming Class: " + course.name, ReminderBody(course, e),
             course.id, e.id, e.startTime, trigger)
  }

  /** One pass of the timetable loop: the reminder for the entry, or `None` when it is skipped. */
  function EntryReminder(e: TimetableEntry, courses: seq<Course>, lead: int, env: Environment): (r: Option<Reminder>)
    requires 0 <= env.currentDay < 7
    ensures r.Some? <==>
      FindCourse(courses, e.courseId).Some? && ParseStart(e.startTime).Some? && DayOfWeekToIndex(Lower(e.day)).Some?
    ensures r.Some? ==>
      && r.value.identifier == "reminder-" + e.id
      && r.value.courseId == e.courseId && r.value.timetableEntryId == e.id && r.value.time == e.startTime
      && (env.isIOS <==> r.value.trigger.Calendar?)
      && (r.value.trigger.Calendar? ==> 1 <= r.value.trigger.weekday <= 7 && r.value.trigger.repeats)
      && (r.value.trigger.AtDate? ==> 0 <= r.value.trigger.dayOffset <= 7)
    ensures r.Some? ==>
      var course := FindCourse(courses, e.courseId).value;
      var hm := ParseStart(e.startTime).value;
      var c := TriggerClock(DayOfWeekToIndex(Lower(e.day)).value, hm.0, hm.1, lead);
      && r.value.title == "Upcoming Class: " + course.name
      && r.value.body == ReminderBody(course, e)
      && r.value.trigger.hour == c.hour && r.value.trigger.minute == c.minute
      && (r.value.trigger.Calendar? ==> r.value.trigger.weekday == c.weekday + 1)
      && (r.value.trigger.AtDate? ==>
            r.value.trigger.dayOffset == NextOccurrenceDays(c.weekday, c.hour, c.minute, env.currentDay, env.nowMs))
  {
    match FindCourse(courses, e.courseId)
    case None => None
    case Some(course) =>
      match ParseStart(e.startTime)
      case None => None
      case Some(hm) =>
        match DayOfWeekToIndex(Lower(e.day))
        case None => None
        case Some(day) => Some(MakeReminder(e, course, TriggerFor(day, hm.0, hm.1, lead, env)))
  }

  /** The reminder as a sequence of at most one element. */
  function AsSeq(r: Option<Reminder>): seq<Reminder> {
    match r case None => [] case Some(x) => [x]
  }

  /** The reminder of one entry as a sequence of at most one element. */
  function EntryStep(courses: seq<Course>, lead: int, env: Environment): TimetableEntry -> seq<Reminder>
    requires 0 <= env.currentDay < 7
  {
    e => AsSeq(EntryReminder(e, courses, lead, env))
  }

  /** The results of `step` for each entry, concatenated in order. */
  function Collect(entries: seq<TimetableEntry>, step: TimetableEntry -> seq<Reminder>): seq<Reminder> {
    if entries == [] then []
    else Collect(entries[..|entries| - 1], step) + step(entries[|entries| - 1])
  }

  lemma {:induction false} CollectConcat(a: seq<TimetableEntry>, b: seq<TimetableEntry>, step: TimetableEntry -> seq<Reminder>)
    ensures Collect(a + b, step) == Collect(a, step) + Collect(b, step)
  {
    if b == [] {
      assert a + b == a;
    } else {
      assert (a + b)[..|a + b| - 1] == a + b[..|b| - 1];
      CollectConcat(a, b[..|b| - 1], step);
    }
  }

  /** The reminders for a list of entries, in timetable order, skipped entries leaving no trace. */
  function Reminders(entries: seq<TimetableEntry>, courses: seq<Course>, lead: int, env: Environment): seq<Reminder>
    requires 0 <= env.currentDay < 7
  {
    Collect(entries, EntryStep(courses, lead, env))
  }

  /** Reminders are computed entry by entry, so one skipped entry does not affect the others. */
  lemma RemindersConcat(a: seq<TimetableEntry>, b: seq<TimetableEntry>, courses: seq<Course>, lead: int, env: Environment)
    requires 0 <= env.currentDay < 7
    ensures Reminders(a + b, courses, lead, env) == Reminders(a, courses, lead, env) + Reminders(b, courses, lead, env)
  {
    CollectConcat(a, b, EntryStep(courses, lead, env));
  }

  /** Every reminder comes from a timetable entry with an existing course, and carries its id. */
  lemma {:induction false} RemindersFromEntries(entries: seq<TimetableEntry>, courses: seq<Course>, lead: int, env: Environment)
    requires 0 <= env.currentDay < 7
    ensures forall r :: r in Reminders(entries, courses, lead, env) ==>
      exists e :: e in entries && r.identifier == "reminder-" + e.id && r.timetableEntryId == e.id
                  && FindCourse(courses, e.courseId).Some?
  {
    if entries != [] {
      var init := entries[..|entries| - 1];
      RemindersFromEntries(init, courses, lead, env);
      var last := entries[|entries| - 1];
      forall r | r in Reminders(entries, courses, lead, env)
        ensures exists e :: e in entries && r.identifier == "reminder-" + e.id && r.timetableEntryId == e.id
                            && FindCourse(courses, e.courseId).Some?
      {
        if r in Reminders(init, courses, lead, env) {
          var e :| e in init && r.identifier == "reminder-" + e.id && r.timetableEntryId == e.id
                   && FindCourse(courses, e.courseId).Some?;
          assert e in entries;
        } else {
          assert last in entries;
        }
      }
    }
  }

  /** One `Schedule` effect per reminder, in order. */
  function Schedules(rs: seq<Reminder>): (log: seq<Effect>)
    ensures |log| == |rs| && forall k :: 0 <= k < |rs| ==> log[k] == Schedule(rs[k])
  {
    seq(|rs|, k requires 0 <= k < |rs| => Schedule(rs[k]))
  }

  /** What `scheduleCourseReminders` does: cancel everything, then schedule unless disabled or data is missing. */
  function ScheduleEffects(data: ReminderData, env: Environment): (log: seq<Effect>)
    requires 0 <= env.currentDay < 7
    ensures log != [] && log[0] == CancelAll
    ensures (data.settings.None? || !data.settings.value.notificationsEnabled
             || data.timetable.None? || data.courses.None?) ==> log == [CancelAll]
  {
    if data.settings.None? || !data.settings.value.notificationsEnabled then [CancelAll]
    else if data.timetable.None? || data.courses.None? then [CancelAll]
    else [CancelAll] + Schedules(Reminders(data.timetable.value, data.courses.value,
                                           LeadMinutes(data.settings.value.reminderTime), env))
  }

  /** One more entry of the timetable adds its reminder, if any, at the end. */
  lemma RemindersStep(t: seq<TimetableEntry>, i: nat, courses: seq<Course>, lead: int, env: Environment)
    requires i < |t| && 0 <= env.currentDay < 7
    ensures Reminders(t[..i + 1], courses, lead, env)
            == Reminders(t[..i], courses, lead, env) + AsSeq(EntryReminder(t[i], courses, lead, env))
  {
    assert t[..i + 1][..i] == t[..i];
  }

  /** The effect log after one more entry of the timetable. */
  lemma ScheduledStep(t: seq<TimetableEntry>, i: nat, courses: seq<Course>, lead: int, env: Environment, log: seq<Effect>)
    requires i < |t| && 0 <= env.currentDay < 7
    requires log == [CancelAll] + Schedules(Reminders(t[..i], courses, lead, env))
    ensures log + Schedules(AsSeq(EntryReminder(t[i], courses, lead, env)))
            == [CancelAll] + Schedules(Reminders(t[..i + 1], courses, lead, env))
  {
    var step := AsSeq(EntryReminder(t[i], courses, lead, env));
    RemindersStep(t, i, courses, lead, env);
    SchedulesConcat(Reminders(t[..i], courses, lead, env), step);
  }

  lemma SchedulesConcat(a: seq<Reminder>, b: seq<Reminder>)
    ensures Schedules(a + b) == Schedules(a) + Schedules(b)
  {
  }

  /** One pass of the loop in `scheduleCourseReminders`; each early return is a `continue`. */
  method ScheduleEntry(slot: TimetableEntry, courses: seq<Course>, lead: int, env: Environment) returns (next: seq<Effect>)
    requires 0 <= env.currentDay < 7
    ensures next == Schedules(AsSeq(EntryReminder(slot, courses, lead, env)))
  {
    next := [];
    var course := FindCourse(courses, slot.courseId);
    if course.None? {
      return;
    }
    var hm := ParseStart(slot.startTime);
    var dayIndex := DayOfWeekToIndex(Lower(slot.day));
    if hm.None? || dayIndex.None? {
      return;
    }
    var trigger := ComputeTrigger(dayIndex.value, hm.value.0, hm.value.1, lead, env);
    var r := MakeReminder(slot, course.value, trigger);
    next := [Schedule(r)];
  }

  /** `scheduleCourseReminders`: the loop over the timetable with its `continue`s. */
  method ScheduleCourseReminders(data: ReminderData, env: Environment) returns (log: seq<Effect>)
    requires 0 <= env.currentDay < 7
    ensures log == ScheduleEffects(data, env)
  {
    log := [CancelAll];
    if data.settings.None? || !data.settings.value.notificationsEnabled {
      return;
    }
    if data.timetable.None? || data.courses.None? {
      return;
    }
    var timetable, courses := data.timetable.value, data.courses.value;
    var reminderMinutes := LeadMinutes(data.settings.value.reminderTime);
    var i := 0;
    while i < |timetable|
      invariant 0 <= i <= |timetable|
      invariant log == [CancelAll] + Schedules(Reminders(timetable[..i], courses, reminderMinutes, env))
    {
      var next := ScheduleEntry(timetable[i], courses, reminderMinutes, env);
      ScheduledStep(timetable, i, courses, reminderMinutes, env, log);
      log := log + next;
      i := i + 1;
    }
    assert timetable[..i] == timetable;
  }

  /** `cancelAllCourseReminders`. */
  function CancelAllCourseReminders(): (log: seq<Effect>)
    ensures log == [CancelAll]
  {
    [CancelAll]
  }
}
