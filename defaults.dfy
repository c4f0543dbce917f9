/** The initial settings and data of a first run (src/data/defaultData.ts). */
module Defaults {
  import opened Wrappers
  import opened Model

  /** Light theme, indigo accent, a reminder 15 minutes before class, notifications on. */
  function DefaultSettings(): (s: AppSettings)
    ensures s.theme == Light && s.accentColor == "#4F46E5"
    ensures s.reminderTime == 15 && s.notificationsEnabled
  {
    AppSettings(Light, "#4F46E5", 15, true)
  }

  /** No courses, no timetable, no assignments, default settings. */
  function DefaultAppData(): (d: AppData)
    ensures d.courses == [] && d.timetable == [] && d.assignments == Some([])
    ensures d.settings == DefaultSettings()
  {
    AppData([], DefaultSettings(), [], Some([]))
  }

  /** The "dummy data" generator builds no sample content: it returns the defaults again. */
  function AddDummyData(): (d: AppData)
    ensures d == DefaultAppData()
  {
    AppData([], DefaultSettings(), [], Some([]))
  }

  /** The state store's own copy of the default settings (src/context/DataContext.tsx). */
  function StoreDefaultSettings(): (s: AppSettings)
    ensures s == DefaultSettings()
  {
    AppSettings(Light, "#4F46E5", 15, true)
  }
}
