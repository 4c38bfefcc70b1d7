/**
 * The theme service: a mode chosen among light, dark and system, the
 * system's colour-scheme preference, and the light or dark look derived
 * from the two. The browser's storage, media query and document class are
 * fields set by explicit steps; the reactive effect is the step `RunEffect`.
 */
module Theme {
  import opened Wrappers

  datatype ThemeMode = Light | Dark | System

  /** `currentMode`'s two values. */
  datatype Look = LightLook | DarkLook

  /** The modes in the order `cycleTheme` walks them. */
  const Modes: seq<ThemeMode> := [Light, Dark, System]

  /** The name stored under `theme-mode`. */
  function ModeName(mode: ThemeMode): (name: string)
    ensures name in ["light", "dark", "system"]
  {
    match mode
    case Light => "light"
    case Dark => "dark"
    case System => "system"
  }

  /** A saved value is adopted only when it names one of the three modes. */
  function ParseMode(saved: string): (mode: Option<ThemeMode>)
    ensures mode.Some? <==> saved in ["light", "dark", "system"]
    ensures mode.Some? ==> ModeName(mode.value) == saved
  {
    if saved == "light" then Some(Light)
    else if saved == "dark" then Some(Dark)
    else if saved == "system" then Some(System)
    else None
  }

  /** `modes.indexOf(mode)`; every mode is in the list. */
  function IndexOf(mode: ThemeMode): (i: nat)
    ensures i < |Modes| && Modes[i] == mode
  {
    match mode
    case Light => 0
    case Dark => 1
    case System => 2
  }

  /** The mode `cycleTheme` moves to. */
  function Next(mode: ThemeMode): (next: ThemeMode)
    ensures next != mode
  {
    Modes[(IndexOf(mode) + 1) % |Modes|]
  }

  /** Line 41: dark for the dark mode, or for the system mode when the system prefers dark. */
  function ShouldBeDark(mode: ThemeMode, systemDark: bool): (dark: bool)
    ensures mode == Dark ==> dark
    ensures mode == Light ==> !dark
    ensures mode == System ==> dark == systemDark
  {
    mode == Dark || (mode == System && systemDark)
  }

  function LookOf(mode: ThemeMode, systemDark: bool): (look: Look)
    ensures look == DarkLook <==> ShouldBeDark(mode, systemDark)
  {
    if ShouldBeDark(mode, systemDark) then DarkLook else LightLook
  }

  class ThemeService {
    /** Whether the service runs in a browser; outside one nothing is read, listened to or stored. */
    const isBrowser: bool
    var themeMode: ThemeMode
    var systemPrefersDark: bool
    var currentMode: Look
    /** Whether the document element carries the `dark` class. */
    var darkClass: bool
    /** The `theme-mode` entry of local storage. */
    var stored: Option<string>

    /** The effect has run since the last change: the look, the class and the stored mode agree with the state. */
    predicate Synced()
      reads this
    {
      && currentMode == LookOf(themeMode, systemPrefersDark)
      && darkClass == ShouldBeDark(themeMode, systemPrefersDark)
      && stored == Some(ModeName(themeMode))
    }

    /**
     * The constructor, given what the browser holds: the saved entry and
     * whether the dark colour-scheme query matches. The effect runs once.
     */
    constructor(browser: bool, savedTheme: Option<string>, prefersDark: bool)
      ensures isBrowser == browser
      ensures !browser ==> themeMode == System && !systemPrefersDark && currentMode == LightLook && !darkClass && stored == savedTheme
      ensures browser && savedTheme.Some? && ParseMode(savedTheme.value).Some? ==> themeMode == ParseMode(savedTheme.value).value
      ensures browser && (savedTheme.None? || ParseMode(savedTheme.value).None?) ==> themeMode == System
      ensures browser ==> systemPrefersDark == prefersDark && Synced()
    {
      isBrowser := browser;
      themeMode := System;
      systemPrefersDark := false;
      currentMode := LightLook;
      darkClass := false;
      stored := savedTheme;
      new;
      if browser {
        if savedTheme.Some? && savedTheme.value != "" && ParseMode(savedTheme.value).Some? {
          themeMode := ParseMode(savedTheme.value).value;
        }
        systemPrefersDark := prefersDark;
        RunEffect();
      }
    }

    /** The effect: derive the look and the class, and store the mode. */
    method RunEffect()
      requires isBrowser
      modifies this
      ensures Synced()
      ensures themeMode == old(themeMode) && systemPrefersDark == old(systemPrefersDark)
    {
      var mode := themeMode;
      var systemDark := systemPrefersDark;
      var shouldBeDark := mode == Dark || (mode == System && systemDark);
      currentMode := if shouldBeDark then DarkLook else LightLook;
      darkClass := shouldBeDark;
      stored := Some(ModeName(mode));
    }

    /** The media query's `change` listener. */
    method SystemPreferenceChanged(matches: bool)
      modifies this
      ensures systemPrefersDark == matches
      ensures themeMode == old(themeMode) && currentMode == old(currentMode)
      ensures darkClass == old(darkClass) && stored == old(stored)
    {
      systemPrefersDark := matches;
    }

    /** `setThemeMode`: only the mode changes. */
    method SetThemeMode(mode: ThemeMode)
      modifies this
      ensures themeMode == mode
      ensures systemPrefersDark == old(systemPrefersDark) && currentMode == old(currentMode)
      ensures darkClass == old(darkClass) && stored == old(stored)
    {
      themeMode := mode;
    }

    /** `cycleTheme`: light, dark, system, light, and so on. */
    method CycleTheme()
      modifies this
      ensures themeMode == Next(old(themeMode))
      ensures systemPrefersDark == old(systemPrefersDark) && currentMode == old(currentMode)
      ensures darkClass == old(darkClass) && stored == old(stored)
    {
      var nextIndex := (IndexOf(themeMode) + 1) % |Modes|;
      SetThemeMode(Modes[nextIndex]);
    }
  }

  // ---------------------------------------------------------------------------
  // Properties

  /** The cycle is light, dark, system, and back to light. */
  lemma CycleOrder()
    ensures Next(Light) == Dark && Next(Dark) == System && Next(System) == Light
  {
  }

  /** Three cycles bring any mode back. */
  lemma ThreeCycles(mode: ThemeMode)
    ensures Next(Next(Next(mode))) == mode
  {
  }

  /** A stored mode is adopted unchanged on the next start. */
  lemma StoredModeRestored(mode: ThemeMode)
    ensures ParseMode(ModeName(mode)) == Some(mode)
  {
  }

  /** The system's preference decides the look only in the system mode. */
  lemma PreferenceMattersOnlyForSystem(mode: ThemeMode)
    ensures LookOf(mode, true) != LookOf(mode, false) <==> mode == System
  {
  }
}
