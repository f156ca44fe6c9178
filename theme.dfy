/** docs/js/components/Theme.js: the theme manager behind the toggle
    button. Storage goes through docs/js/utils/storage.js, so the stored
    theme is read back parsed; the system preference follows
    docs/js/theme-init.js. */
module Theme {
  import opened Wrappers
  import opened Json
  import WebStorage
  import ThemeInit

  const ThemeKey := "theme"

  /** `getInitialTheme` on the value storage gave: accepted only when it is
      exactly "light" or "dark". */
  function InitialTheme(stored: Json, hasMatchMedia: bool, prefersDark: bool): (theme: string)
    ensures theme == ThemeInit.Dark || theme == ThemeInit.Light
    ensures stored == JStr(ThemeInit.Light) || stored == JStr(ThemeInit.Dark) ==> JStr(theme) == stored
    ensures stored != JStr(ThemeInit.Light) && stored != JStr(ThemeInit.Dark)
            ==> theme == ThemeInit.SystemTheme(hasMatchMedia, prefersDark)
  {
    if stored == JStr(ThemeInit.Light) || stored == JStr(ThemeInit.Dark) then stored.s
    else ThemeInit.SystemTheme(hasMatchMedia, prefersDark)
  }

  /** The theme `toggleTheme` moves to: dark becomes light, anything else
      dark. */
  function NextTheme(theme: string): (next: string)
    ensures next == ThemeInit.Light <==> theme == ThemeInit.Dark
    ensures next == ThemeInit.Dark || next == ThemeInit.Light
  {
    if theme == ThemeInit.Dark then ThemeInit.Light else ThemeInit.Dark
  }

  /** Toggling twice from light or dark restores it. */
  lemma ToggleTwice(theme: string)
    requires theme == ThemeInit.Dark || theme == ThemeInit.Light
    ensures NextTheme(NextTheme(theme)) == theme
  {
  }

  /** A theme `toggleTheme` stored is the one the next page load starts
      with: it is written raw, and "dark" and "light" are not JSON. */
  lemma StoredThemeIsRestored(items: map<string, string>, theme: string, parse: string -> Option<Json>,
                              stringify: Json -> string, hasMatchMedia: bool, prefersDark: bool)
    requires theme == ThemeInit.Dark || theme == ThemeInit.Light
    requires parse(theme).None?
    ensures var written := WebStorage.Probed(items)[ThemeKey := WebStorage.Serialize(JStr(theme), stringify)];
      InitialTheme(WebStorage.ReadValue(WebStorage.Probed(written), ThemeKey, JNull, parse), hasMatchMedia, prefersDark)
      == theme
  {
    WebStorage.SetThenGetText(items, ThemeKey, theme, JNull, parse, stringify);
  }

  /** The toggle's `aria-label`. */
  function ToggleLabel(theme: string): (ariaLabel: string)
    ensures ariaLabel == "Switch to light mode" <==> theme == ThemeInit.Dark
  {
    if theme == ThemeInit.Dark then "Switch to light mode" else "Switch to dark mode"
  }

  /** `watchSystemPreference`'s guard: the listener is installed when
      `matchMedia` exists and storage holds nothing truthy. */
  predicate WatchesSystem(stored: Json, hasMatchMedia: bool) {
    hasMatchMedia && !Truthy(stored)
  }

  /** A stored value other than "light" and "dark" is ignored when the
      theme is chosen, yet it still stops the page from following the
      system: with "blue" stored the theme is the system's and no listener
      is installed. */
  lemma ForeignValueStopsWatching(hasMatchMedia: bool, prefersDark: bool)
    requires hasMatchMedia
    ensures InitialTheme(JStr("blue"), hasMatchMedia, prefersDark) == ThemeInit.SystemTheme(hasMatchMedia, prefersDark)
    ensures !WatchesSystem(JStr("blue"), hasMatchMedia)
  {
  }

  /** The guard the component evidently means: follow the system exactly
      when the theme came from it. */
  predicate WatchesSystemIntended(stored: Json, hasMatchMedia: bool) {
    hasMatchMedia && stored != JStr(ThemeInit.Light) && stored != JStr(ThemeInit.Dark)
  }

  /** With the intended guard, the page follows the system preference
      exactly when (given `matchMedia`) the initial theme is the system
      one for every system setting. */
  lemma IntendedWatchFollowsChoice(stored: Json, hasMatchMedia: bool)
    requires hasMatchMedia
    ensures WatchesSystemIntended(stored, hasMatchMedia)
            <==> forall d: bool {:trigger ThemeInit.SystemTheme(hasMatchMedia, d)} ::
                   InitialTheme(stored, hasMatchMedia, d) == ThemeInit.SystemTheme(hasMatchMedia, d)
  {
    if !WatchesSystemIntended(stored, hasMatchMedia) {
      var d := stored != JStr(ThemeInit.Dark);
      assert InitialTheme(stored, hasMatchMedia, d) != ThemeInit.SystemTheme(hasMatchMedia, d);
    }
  }

  class ThemeManager {
    /** The toggle button was found; `matchMedia` exists. */
    const hasToggle: bool
    const hasMatchMedia: bool
    var currentTheme: string
    /** The document's `data-theme` and the toggle's `aria-label`, once
        set. */
    var htmlTheme: Option<string>
    var toggleLabel: Option<string>
    /** A system-preference listener is installed. */
    var watching: bool

    ghost predicate Valid()
      reads this
    {
      currentTheme == ThemeInit.Dark || currentTheme == ThemeInit.Light
    }

    /** The manager: the initial theme is chosen from storage; with a toggle
        it is applied and, unless storage holds a preference, the system
        preference is watched. */
    constructor (store: WebStorage.Store, parse: string -> Option<Json>, hasToggle: bool,
                 hasMatchMedia: bool, prefersDark: bool)
      modifies store`items
      ensures Valid() && this.hasToggle == hasToggle && this.hasMatchMedia == hasMatchMedia
      ensures var stored := if store.available then WebStorage.ReadValue(WebStorage.Probed(old(store.items)), ThemeKey, JNull, parse)
                            else JNull;
        currentTheme == InitialTheme(stored, hasMatchMedia, prefersDark)
        && (hasToggle ==> watching == WatchesSystem(stored, hasMatchMedia))
      ensures !hasToggle ==> htmlTheme.None? && toggleLabel.None? && !watching
      ensures hasToggle ==> htmlTheme == Some(currentTheme) && toggleLabel == Some(ToggleLabel(currentTheme))
      ensures store.items == if store.available then WebStorage.Probed(old(store.items)) else old(store.items)
    {
      this.hasToggle := hasToggle;
      this.hasMatchMedia := hasMatchMedia;
      htmlTheme := None;
      toggleLabel := None;
      watching := false;
      var stored := store.GetItem(ThemeKey, JNull, parse);
      currentTheme := InitialTheme(stored, hasMatchMedia, prefersDark);
      new;
      if hasToggle {
        ApplyTheme(currentTheme);
        WatchSystemPreference(store, parse);
      }
    }

    /** `watchSystemPreference`. */
    method WatchSystemPreference(store: WebStorage.Store, parse: string -> Option<Json>)
      modifies this`watching, store`items
      ensures var stored := if store.available then WebStorage.ReadValue(WebStorage.Probed(old(store.items)), ThemeKey, JNull, parse)
                            else JNull;
        hasMatchMedia ==> watching == (old(watching) || WatchesSystem(stored, hasMatchMedia))
      ensures !hasMatchMedia ==> watching == old(watching) && store.items == old(store.items)
      ensures hasMatchMedia ==> store.items == if store.available then WebStorage.Probed(old(store.items)) else old(store.items)
    {
      if !hasMatchMedia {
        return;
      }
      var stored := store.GetItem(ThemeKey, JNull, parse);
      if Truthy(stored) {
        return;
      }
      watching := true;
    }

    /** `applyTheme(theme)`. */
    method ApplyTheme(theme: string)
      modifies this`currentTheme, this`htmlTheme, this`toggleLabel
      ensures currentTheme == theme && htmlTheme == Some(theme) && toggleLabel == Some(ToggleLabel(theme))
    {
      currentTheme := theme;
      htmlTheme := Some(theme);
      toggleLabel := Some(ToggleLabel(theme));
    }

    /** `toggleTheme`: the next theme is applied and stored. */
    method ToggleTheme(store: WebStorage.Store, stringify: Json -> string)
      requires Valid()
      modifies this`currentTheme, this`htmlTheme, this`toggleLabel, store`items
      ensures Valid() && currentTheme == NextTheme(old(currentTheme))
      ensures htmlTheme == Some(currentTheme) && toggleLabel == Some(ToggleLabel(currentTheme))
      ensures store.items == if old(store.Accepts(ThemeKey, NextTheme(currentTheme))) then WebStorage.Probed(old(store.items))[ThemeKey := currentTheme]
                             else if store.available then WebStorage.Probed(old(store.items))
                             else old(store.items)
    {
      var next := NextTheme(currentTheme);
      ApplyTheme(next);
      var _ := store.SetItem(ThemeKey, JStr(next), stringify);
    }

    /** The system preference changing while it is watched: the matching
        theme is applied but not stored. */
    method SystemChanged(prefersDark: bool)
      requires watching
      modifies this`currentTheme, this`htmlTheme, this`toggleLabel
      ensures currentTheme == (if prefersDark then ThemeInit.Dark else ThemeInit.Light) && Valid()
      ensures htmlTheme == Some(currentTheme) && toggleLabel == Some(ToggleLabel(currentTheme))
    {
      ApplyTheme(if prefersDark then ThemeInit.Dark else ThemeInit.Light);
    }
  }
}
