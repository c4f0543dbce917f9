/**
 * The schedule editor (app/components/EditSchedule.tsx): a list of weekly slots
 * that can be added, removed, moved to another day, and re-timed with a time
 * picker that pushes an end time at or before the start one hour past the
 * picked time. Times of day are minutes after midnight; the slot texts are
 * `HH:MM` in 24-hour form.
 */
module EditSchedule {
  import opened Wrappers
  import opened Strings
  import opened DateText
  import opened TimetableScreen

  /** A weekly slot as the editor holds it. */
  datatype Slot = Slot(day: string, startTime: string, endTime: string)

  /** The day buttons, Monday first. */
  function WeekDays(): (r: seq<string>)
    ensures |r| == 7 && r[0] == "Monday"
  {
    ["Monday", "Tuesday", "Wednesday", "Thursday", "Friday", "Saturday", "Sunday"]
  }

  // ---------------------------------------------------------------- times

  /** `formatTime` with a 24-hour clock: `HH:MM`. */
  function FormatHM(t: int): string
    requires 0 <= t < 1440
  {
    Pad2(t / 60) + ":" + Pad2(t % 60)
  }

  /** `parseTime` as minutes after midnight: `setHours(hours, minutes)`, `None` when either is NaN. */
  function StartMinutes(time: string): (r: Option<int>)
    ensures r.Some? ==> r.value >= 0
  {
    Minutes(ReadHM(time))
  }

  /** Hours and minutes as minutes after midnight, when both are numbers. */
  function Minutes(hm: (Option<int>, Option<int>)): Option<int> {
    if hm.0.Some? && hm.1.Some? then Some(hm.0.value * 60 + hm.1.value) else None
  }

  /** Parsing a formatted time gives back the time. */
  lemma FormatHMReadsBack(t: int)
    requires 0 <= t < 1440
    ensures StartMinutes(FormatHM(t)) == Some(t)
  {
    var h, m := t / 60, t % 60;
    var hh, mm := Pad2(h), Pad2(m);
    assert DigitsValue(hh) == h && DigitsValue(mm) == m;
    ReadHMOfDigits(hh, mm);
    assert ReadHM(FormatHM(t)) == (Some(h), Some(m));
    StartMinutesOfRead(FormatHM(t), h, m);
    assert h * 60 + m == t;
  }

  /** The minutes of a time whose hour and minute parts read as numbers. */
  lemma StartMinutesOfRead(time: string, h: int, m: int)
    requires ReadHM(time) == (Some(h), Some(m))
    ensures StartMinutes(time) == Some(h * 60 + m)
  {
    MinutesOfNumbers(ReadHM(time), h, m);
  }

  lemma MinutesOfNumbers(hm: (Option<int>, Option<int>), h: int, m: int)
    requires hm == (Some(h), Some(m))
    ensures Minutes(hm) == Some(h * 60 + m)
  {
  }

  /** An empty time has no minutes part, so it reads as no time at all. */
  lemma EmptyTimeUnread()
    ensures StartMinutes("") == None
  {
    SplitNoSeparator("", ':');
  }

  // ---------------------------------------------------------------- slot list edits

  /** The days the slots already use. */
  function UsedDays(schedule: seq<Slot>): set<string> {
    set s | s in schedule :: s.day
  }

  /** `daysOfWeek.find(day => !usedDays.has(day)) || 'Monday'`. */
  function AvailableDay(schedule: seq<Slot>): (day: string)
    ensures day in WeekDays()
  {
    var k := FirstUnusedIndex(WeekDays(), UsedDays(schedule));
    if k < 7 then WeekDays()[k] else "Monday"
  }

  /** The index of the first day not in `used`, `|days|` when there is none. */
  function FirstUnusedIndex(days: seq<string>, used: set<string>): (k: nat)
    ensures k <= |days|
    ensures k < |days| ==> days[k] !in used
    ensures forall j :: 0 <= j < k ==> days[j] in used
  {
    if days == [] then 0
    else if days[0] !in used then 0
    else 1 + FirstUnusedIndex(days[1..], used)
  }

  /** `addSlot`: append one slot, 09:00–10:00, on the first free day. */
  function AddSlot(schedule: seq<Slot>): (r: seq<Slot>)
    ensures |r| == |schedule| + 1 && r[..|schedule|] == schedule
    ensures r[|schedule|] == Slot(AvailableDay(schedule), "09:00", "10:00")
  {
    schedule + [Slot(AvailableDay(schedule), "09:00", "10:00")]
  }

  /**
   * The new slot goes on the first day of the week no slot uses; when every day is
   * taken it goes on Monday.
   */
  lemma AddSlotDay(schedule: seq<Slot>)
    ensures var day := AddSlot(schedule)[|schedule|].day;
      && ((exists k :: 0 <= k < 7 && WeekDays()[k] !in UsedDays(schedule)) ==>
            day !in UsedDays(schedule) &&
            exists k :: 0 <= k < 7 && day == WeekDays()[k] && forall j :: 0 <= j < k ==> WeekDays()[j] in UsedDays(schedule))
      && ((forall k :: 0 <= k < 7 ==> WeekDays()[k] in UsedDays(schedule)) ==> day == "Monday")
  {
    var k := FirstUnusedIndex(WeekDays(), UsedDays(schedule));
    if exists j :: 0 <= j < 7 && WeekDays()[j] !in UsedDays(schedule) {
      var j :| 0 <= j < 7 && WeekDays()[j] !in UsedDays(schedule);
      assert k <= j;
    }
  }

  /** `removeSlot`: keep every slot but the one at `index`, in order. */
  function RemoveSlot(schedule: seq<Slot>, index: int): (r: seq<Slot>)
    ensures 0 <= index < |schedule| ==> r == schedule[..index] + schedule[index + 1..]
    ensures !(0 <= index < |schedule|) ==> r == schedule
  {
    if schedule == [] then []
    else
      var init := RemoveSlot(schedule[..|schedule| - 1], index);
      assert 0 <= index < |schedule| - 1 ==>
        schedule[..index] + schedule[index + 1..] == schedule[..|schedule| - 1][..index] + schedule[..|schedule| - 1][index + 1..] + [schedule[|schedule| - 1]];
      if index == |schedule| - 1 then init else init + [schedule[|schedule| - 1]]
  }

  /** `handleDayChange`: only the day of the slot at `index` changes. */
  function HandleDayChange(schedule: seq<Slot>, index: nat, day: string): (r: seq<Slot>)
    requires index < |schedule|
    ensures |r| == |schedule|
    ensures r[index] == Slot(day, schedule[index].startTime, schedule[index].endTime)
    ensures forall k :: 0 <= k < |schedule| && k != index ==> r[k] == schedule[k]
  {
    schedule[index := schedule[index].(day := day)]
  }

  // ---------------------------------------------------------------- the time picker

  /** Which time the picker edits. */
  datatype TimeField = StartTime | EndTime

  /** How the picker closed. */
  datatype PickerEvent = Set | Dismissed | NeutralButtonPressed

  /** `slot[field]`: the text of the time the field names. */
  function FieldText(slot: Slot, field: TimeField): string {
    if field == StartTime then slot.startTime else slot.endTime
  }

  /** The slot after picking `picked` for `field`, with the end pushed past the pick when it is not after the start. */
  function Retimed(slot: Slot, field: TimeField, picked: int): Slot
    requires 0 <= picked < 1440
  {
    PushedEnd(Assigned(slot, field, picked), field, picked)
  }

  /** The slot with the picked time written into `field`. */
  function Assigned(slot: Slot, field: TimeField, picked: int): Slot
    requires 0 <= picked < 1440
  {
    if field == StartTime then slot.(startTime := FormatHM(picked)) else slot.(endTime := FormatHM(picked))
  }

  /** After an end pick at or before the start, the end becomes the pick plus one hour. */
  function PushedEnd(slot: Slot, field: TimeField, picked: int): Slot
    requires 0 <= picked < 1440
  {
    var start := StartMinutes(slot.startTime);
    if field == EndTime && slot.startTime != "" && start.Some? && picked <= start.value
    then slot.(endTime := FormatHM(HourLater(picked)))
    else slot
  }

  /** The time of day one hour after `t`, wrapping past midnight. */
  function HourLater(t: int): (r: int)
    requires 0 <= t < 1440
    ensures 0 <= r < 1440
    ensures r == t + 60 || r == t + 60 - 1440
  {
    (t + 60) % 1440
  }

  /**
   * A picked start replaces the start; a picked end replaces the end when it is after the
   * start, and is otherwise replaced by the picked time plus one hour; the day never changes.
   */
  lemma RetimedSpec(slot: Slot, field: TimeField, picked: int)
    requires 0 <= picked < 1440
    ensures var r := Retimed(slot, field, picked);
      && r.day == slot.day
      && (field == StartTime ==> r == slot.(startTime := FormatHM(picked)))
      && (field == EndTime ==> r.startTime == slot.startTime)
      && (field == EndTime && StartMinutes(slot.startTime).Some? && picked <= StartMinutes(slot.startTime).value ==>
            r.endTime == FormatHM(HourLater(picked)))
      && (field == EndTime && (StartMinutes(slot.startTime).None? || picked > StartMinutes(slot.startTime).value) ==>
            r.endTime == FormatHM(picked))
  {
    EmptyTimeUnread();
  }

  /**
   * The push is only one hour past the pick, so an end picked more than an hour before
   * the start still leaves the end before the start.
   */
  lemma PushedEndCanPrecedeStart(slot: Slot, start: int, picked: int)
    requires 0 <= picked && picked + 60 < start < 1440
    requires slot.startTime == FormatHM(start)
    ensures var r := Retimed(slot, EndTime, picked);
      && r.endTime == FormatHM(picked + 60)
      && StartMinutes(r.startTime) == Some(start)
      && StartMinutes(r.endTime) == Some(picked + 60)
  {
    assert HourLater(picked) == picked + 60;
    FormatHMReadsBack(start);
    FormatHMReadsBack(picked + 60);
    RetimedSpec(slot, EndTime, picked);
    var r := Retimed(slot, EndTime, picked);
    assert r.startTime == FormatHM(start);
    assert r.endTime == FormatHM(picked + 60);
  }

  /** The editor's picker state. */
  class ScheduleEditor {
    var showPicker: Option<TimeField>
    var editingIndex: Option<nat>
    var timePickerVisible: bool
    var selectedTime: Option<int>

    constructor(now: int)
      requires 0 <= now < 1440
      ensures showPicker == None && editingIndex == None && !timePickerVisible && selectedTime == Some(now)
    {
      showPicker := None;
      editingIndex := None;
      timePickerVisible := false;
      selectedTime := Some(now);
    }

    /** `openTimePicker`: remember the slot and field, and start the picker at the slot's time. */
    method OpenTimePicker(schedule: seq<Slot>, index: nat, field: TimeField)
      requires index < |schedule|
      modifies this
      ensures editingIndex == Some(index) && showPicker == Some(field) && timePickerVisible
      ensures selectedTime == StartMinutes(FieldText(schedule[index], field))
    {
      editingIndex := Some(index);
      showPicker := Some(field);
      selectedTime := StartMinutes(FieldText(schedule[index], field));
      timePickerVisible := true;
    }

    /**
     * `handleTimeChange`: a set event with a picked time while a slot and field are being
     * edited yields the re-timed schedule; every event closes the picker.
     */
    method HandleTimeChange(schedule: seq<Slot>, event: PickerEvent, picked: Option<int>) returns (changed: Option<seq<Slot>>)
      requires picked.Some? ==> 0 <= picked.value < 1440
      requires editingIndex.Some? ==> editingIndex.value < |schedule|
      modifies this
      ensures changed.Some? <==> event == Set && picked.Some? && old(editingIndex).Some? && old(showPicker).Some?
      ensures changed.Some? ==>
        changed.value == schedule[old(editingIndex).value := Retimed(schedule[old(editingIndex).value], old(showPicker).value, picked.value)]
      ensures !timePickerVisible && showPicker == None && editingIndex == None
      ensures selectedTime == old(selectedTime)
    {
      changed := None;
      if event == Set && picked.Some? && editingIndex.Some? && showPicker.Some? {
        var i, field, selectedDate := editingIndex.value, showPicker.value, picked.value;
        var slot := schedule[i];
        if field == StartTime {
          slot := slot.(startTime := FormatHM(selectedDate));
        } else {
          slot := slot.(endTime := FormatHM(selectedDate));
        }
        assert slot == Assigned(schedule[i], field, picked.value);
        ghost var picked1 := slot;
        if field == EndTime && slot.startTime != "" {
          var startTime := StartMinutes(slot.startTime);
          if startTime.Some? && selectedDate <= startTime.value {
            selectedDate := HourLater(selectedDate);
            slot := slot.(endTime := FormatHM(selectedDate));
          }
        }
        assert slot == PushedEnd(picked1, field, picked.value);
        changed := Some(schedule[i := slot]);
      }
      timePickerVisible := false;
      showPicker := None;
      editingIndex := None;
    }
  }
}
