/**
 * The settings screen (app/settings.tsx): the reminder picker, the reminder text, the
 * theme and notification switches, the backup payload, the shape check run on a backup
 * before it is restored, and the empty-export guard.
 */
module SettingsScreen {
  import opened Wrappers
  import opened Strings
  import opened Model
  import opened DataStore
  import opened Export
  import opened Defaults

  // ---------------------------------------------------------------- reminder time

  /** The values behind the six action sheet options; the first is the cancel button. */
  function ReminderValues(): (r: seq<Option<int>>)
    ensures |r| == 6 && r[0] == None
    ensures forall i :: 1 <= i < 6 ==> r[i].Some? && r[i].value > 0
  {
    [None, Some(5), Some(10), Some(15), Some(30), Some(60)]
  }

  /**
   * The settings change a pick asks for: none for a dismissed sheet or the cancel button,
   * otherwise the reminder time behind the picked option.
   */
  function ReminderPatch(selectedIndex: Option<int>): (r: Option<SettingsPatch>)
    ensures r.Some? <==> selectedIndex.Some? && 1 <= selectedIndex.value < 6
    ensures r.Some? ==> r.value == SettingsPatch(None, None, ReminderValues()[selectedIndex.value], None)
  {
    if selectedIndex.Some? && 0 < selectedIndex.value < 6 then
      var selectedValue := ReminderValues()[selectedIndex.value];
      Some(SettingsPatch(None, None, selectedValue, None))
    else None
  }

  /**
   * Picking an option sets the reminder to one of 5, 10, 15, 30 or 60 minutes and keeps
   * every other setting; the text shown afterwards is that number of minutes.
   */
  lemma PickedReminderApplied(prev: Option<AppSettings>, i: int)
    requires 1 <= i < 6
    ensures var s := ApplySettings(prev, ReminderPatch(Some(i)).value);
      var base := prev.GetOr(DefaultSettings());
      && s.reminderTime in {5, 10, 15, 30, 60}
      && s.reminderTime == ReminderValues()[i].value
      && s.theme == base.theme && s.accentColor == base.accentColor && s.notificationsEnabled == base.notificationsEnabled
      && ReminderDisplay(s) == NatToString(s.reminderTime) + " minutes before"
  {
  }

  /** `getReminderTimeDisplay`: "Not set" for a zero reminder time, else the minutes. */
  function ReminderDisplay(settings: AppSettings): (r: string)
    ensures r == "Not set" <==> settings.reminderTime == 0
    ensures settings.reminderTime != 0 ==> r == IntToString(settings.reminderTime) + " minutes before"
  {
    if settings.reminderTime == 0 then "Not set"
    else
      var text := IntToString(settings.reminderTime) + " minutes before";
      assert |text| > |"Not set"|;
      text
  }

  // ---------------------------------------------------------------- switches

  /** `toggleTheme`: the dark switch picks the theme. */
  function ThemePatch(value: bool): SettingsPatch {
    SettingsPatch(Some(if value then Dark else Light), None, None, None)
  }

  /** `toggleNotifications`: the switch sets the flag. */
  function NotificationsPatch(value: bool): SettingsPatch {
    SettingsPatch(None, None, None, Some(value))
  }

  /** Each switch sets its own setting from the switch value and leaves the others as they were. */
  lemma SwitchesSetOneField(prev: Option<AppSettings>, value: bool)
    ensures var base := prev.GetOr(DefaultSettings());
      && ApplySettings(prev, ThemePatch(value)) == base.(theme := if value then Dark else Light)
      && ApplySettings(prev, NotificationsPatch(value)) == base.(notificationsEnabled := value)
  {
  }

  // ---------------------------------------------------------------- backup and restore

  /** The backup payload: the courses and the settings, and nothing else. */
  function BackupPayload(courses: seq<Course>, settings: AppSettings): (r: StoredData)
    ensures r.courses == Some(courses) && r.settings == Some(settings)
    ensures r.timetable == None
  {
    StoredData(Some(courses), Some(settings), None)
  }

  /** What `typeof`/`Array.isArray` can tell about a field of the parsed file. */
  datatype Kind = Undefined | Null | Scalar | ArrayKind | ObjectKind

  /** A parsed backup file: the kind of each top-level field, with its value when it has the expected one. */
  datatype ParsedBackup = ParsedBackup(
    coursesKind: Kind, courses: seq<Course>,
    settingsKind: Kind, settings: AppSettings,
    timetable: Option<seq<TimetableEntry>>)

  /**
   * The shape check: the file parsed to something, courses is an array and settings is
   * of type "object" and not null.
   */
  predicate ValidBackupShape(parsed: Option<ParsedBackup>) {
    parsed.Some? && parsed.value.coursesKind == ArrayKind
    && (parsed.value.settingsKind == ObjectKind || parsed.value.settingsKind == ArrayKind)
  }

  /** `typeof [] === 'object'`, so a settings field holding an array passes the check. */
  lemma ArraySettingsPass(courses: seq<Course>, settings: AppSettings)
    ensures ValidBackupShape(Some(ParsedBackup(ArrayKind, courses, ArrayKind, settings, None)))
    ensures !ValidBackupShape(Some(ParsedBackup(ArrayKind, courses, Null, settings, None)))
    ensures !ValidBackupShape(Some(ParsedBackup(ObjectKind, courses, ObjectKind, settings, None)))
  {
  }

  /**
   * The restore handler after the file is read: a file of the wrong shape is refused and
   * changes nothing; otherwise the store takes its courses, settings and timetable.
   */
  method RestoreFromFile(store: Store, parsed: Option<ParsedBackup>) returns (r: Result<bool, string>)
    modifies store
    ensures r.Err? <==> !ValidBackupShape(parsed)
    ensures r.Err? ==> store.courses == old(store.courses) && store.settings == old(store.settings) && store.timetable == old(store.timetable)
    ensures r.Ok? ==>
      && store.courses == parsed.value.courses
      && store.settings == Some(parsed.value.settings)
      && store.timetable == parsed.value.timetable.GetOr([])
    ensures store.isLoading == old(store.isLoading)
  {
    if !ValidBackupShape(parsed) {
      return Err("Invalid backup file format.");
    }
    var p := parsed.value;
    r := store.RestoreAllData(Some(StoredData(Some(p.courses), Some(p.settings), p.timetable)));
  }

  /** Restoring a backup this screen wrote brings back its courses and settings and empties the timetable. */
  method BackupThenRestore(store: Store, courses: seq<Course>, settings: AppSettings)
    modifies store
    ensures store.courses == courses && store.settings == Some(settings) && store.timetable == []
  {
    var r := store.RestoreAllData(Some(BackupPayload(courses, settings)));
  }

  // ---------------------------------------------------------------- export

  /** What the export handler does with the rows. */
  datatype ExportOutcome = NoData | Written(rows: seq<CsvRow>)

  /** `handleExportData` up to the file write: with no session at all it stops before writing. */
  method HandleExportData(courses: seq<Course>, settings: AppSettings) returns (outcome: ExportOutcome)
    ensures outcome.NoData? <==> AllSessions(courses) == 0
    ensures outcome.Written? ==> outcome.rows == Rows(courses) && |outcome.rows| == AllSessions(courses)
  {
    var csvData := GenerateAttendanceCsv(AppData(courses, settings, [], None));
    if csvData.Empty? {
      return NoData;
    }
    RowsCount(courses);
    outcome := Written(csvData.rows);
  }
}
