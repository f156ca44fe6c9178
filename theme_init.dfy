/** docs/js/theme-init.js: the theme chosen before the page renders, from
    the raw `localStorage` entry `theme` or the system preference. */
module ThemeInit {
  import opened Wrappers

  const Dark := "dark"
  const Light := "light"

  /** `getSystemThemePreference`: dark exactly when `matchMedia` exists and
      the dark-scheme query matches. */
  function SystemTheme(hasMatchMedia: bool, prefersDark: bool): (theme: string)
    ensures theme == Dark <==> hasMatchMedia && prefersDark
    ensures theme == Dark || theme == Light
  {
    if hasMatchMedia && prefersDark then Dark else Light
  }

  /** What reading `localStorage` gives: it throws, or it yields the entry or
      `null`. */
  datatype StorageRead = Throws | Read(entry: Option<string>)

  /** `getThemePreference`. */
  function ThemePreference(read: StorageRead, hasMatchMedia: bool, prefersDark: bool): string {
    if read.Read? && read.entry.Some? && (read.entry.value == Dark || read.entry.value == Light) then read.entry.value
    else SystemTheme(hasMatchMedia, prefersDark)
  }

  /** The applied theme is always dark or light; it is the stored one exactly
      when that is one of the two, and otherwise (a missing or foreign entry,
      or storage that throws) the system's. */
  lemma ThemePreferenceCases(read: StorageRead, hasMatchMedia: bool, prefersDark: bool)
    ensures var t := ThemePreference(read, hasMatchMedia, prefersDark);
      (t == Dark || t == Light)
      && (read.Read? && read.entry.Some? && (read.entry.value == Dark || read.entry.value == Light)
          ==> t == read.entry.value)
      && (read.Throws? ==> t == SystemTheme(hasMatchMedia, prefersDark))
      && (read.Read? && (read.entry.None? || (read.entry.value != Dark && read.entry.value != Light))
          ==> t == SystemTheme(hasMatchMedia, prefersDark))
  {
  }
}
