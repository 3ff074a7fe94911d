/**
 * `ThemeService`: the dark-mode flag, the change notification its setter raises and
 * the preference file it writes on every change, and the choice of the flag at start
 * from the stored preference or the system theme.
 */
module Theme {
  import opened Wrappers

  /** The name carried by the notification the setter raises. */
  const IsDarkModeProperty := "IsDarkMode"

  /** A registry value as read: an `int`, or a value of some other type. */
  datatype RegistryValue = IntValue(i: int) | OtherValue

  /**
   * `ShouldUseDarkMode`: `value` is what reading `AppsUseLightTheme` gave, `None` when
   * the key or the value is missing or the read threw. Dark exactly when it is the
   * `int` 0.
   */
  function ShouldUseDarkMode(value: Option<RegistryValue>): (dark: bool)
    ensures dark <==> value.Some? && value.value.IntValue? && value.value.i == 0
  {
    match value
    case Some(IntValue(i)) => i == 0
    case _ => false
  }

  /**
   * The settings file as `LoadThemePreference` finds it: absent, present with its
   * deserialised content (`None` when that is null), or unreadable (any exception).
   */
  datatype SettingsFile = Missing | Stored(settings: Option<bool>) | Unreadable

  /** The value `LoadThemePreference` assigns to `IsDarkMode`. */
  function PreferredDarkMode(file: SettingsFile, system: Option<RegistryValue>): (dark: bool)
    ensures file.Stored? ==> dark == file.settings.GetOr(false)
    ensures file.Missing? ==> dark == ShouldUseDarkMode(system)
    ensures file.Unreadable? ==> !dark
  {
    match file
    case Stored(settings) => settings.GetOr(false)
    case Missing => ShouldUseDarkMode(system)
    case Unreadable => false
  }

  /** The service's flag, the notifications raised so far and the values saved so far. */
  datatype ThemeState = ThemeState(isDarkMode: bool, notifications: seq<string>, saved: seq<bool>)

  /** The `IsDarkMode` setter: a different value is stored, announced once and saved once. */
  function Assigned(s: ThemeState, value: bool): (t: ThemeState)
    ensures t.isDarkMode == value
    ensures s.notifications <= t.notifications && s.saved <= t.saved
    ensures |t.notifications| - |s.notifications| == |t.saved| - |s.saved| <= 1
    ensures t.saved == s.saved || t.saved == s.saved + [value]
  {
    if s.isDarkMode == value then s
    else ThemeState(value, s.notifications + [IsDarkModeProperty], s.saved + [value])
  }

  /** `ToggleTheme`. */
  function Toggled(s: ThemeState): (t: ThemeState)
    ensures t.isDarkMode == !s.isDarkMode
    ensures t.notifications == s.notifications + [IsDarkModeProperty]
    ensures t.saved == s.saved + [t.isDarkMode]
  {
    Assigned(s, !s.isDarkMode)
  }

  /** Assigning the current value raises nothing and saves nothing. */
  lemma AssignSameIsSilent(s: ThemeState)
    ensures Assigned(s, s.isDarkMode) == s
  {
  }

  /** Assigning a different value raises exactly one notification and one save, of that value. */
  lemma AssignDifferentNotifiesOnce(s: ThemeState, value: bool)
    requires value != s.isDarkMode
    ensures var t := Assigned(s, value);
      t.isDarkMode == value
      && |t.notifications| == |s.notifications| + 1 && t.notifications[..|s.notifications|] == s.notifications
      && t.notifications[|s.notifications|] == IsDarkModeProperty
      && t.saved == s.saved + [value]
  {
  }

  /** Assigning the same value twice is the same as assigning it once. */
  lemma AssignIdempotent(s: ThemeState, value: bool)
    ensures Assigned(Assigned(s, value), value) == Assigned(s, value)
  {
  }

  /** Toggling negates the flag; toggling twice restores it, after two notifications and two saves. */
  lemma ToggleTwiceRestores(s: ThemeState)
    ensures Toggled(s).isDarkMode == !s.isDarkMode
    ensures Toggled(Toggled(s)).isDarkMode == s.isDarkMode
    ensures |Toggled(Toggled(s)).notifications| == |s.notifications| + 2
    ensures Toggled(Toggled(s)).saved == s.saved + [!s.isDarkMode, s.isDarkMode]
  {
  }

  class ThemeService {
    var isDarkMode: bool
    var notifications: seq<string>
    var saved: seq<bool>

    function State(): ThemeState
      reads this
    {
      ThemeState(isDarkMode, notifications, saved)
    }

    constructor ()
      ensures State() == ThemeState(false, [], [])
    {
      isDarkMode, notifications, saved := false, [], [];
    }

    /** The `IsDarkMode` setter: `OnPropertyChanged` then `SaveThemePreference` when the value changes. */
    method SetIsDarkMode(value: bool)
      modifies this
      ensures State() == Assigned(old(State()), value)
    {
      if isDarkMode != value {
        isDarkMode := value;
        notifications := notifications + [IsDarkModeProperty];
        saved := saved + [isDarkMode];
      }
    }

    method ToggleTheme()
      modifies this
      ensures State() == Toggled(old(State()))
    {
      SetIsDarkMode(!isDarkMode);
    }

    /** `LoadThemePreference`, with the settings file and the registry read given. */
    method LoadThemePreference(file: SettingsFile, system: Option<RegistryValue>)
      modifies this
      ensures State() == Assigned(old(State()), PreferredDarkMode(file, system))
    {
      match file
      case Stored(settings) =>
        SetIsDarkMode(settings.GetOr(false));
      case Missing =>
        SetIsDarkMode(ShouldUseDarkMode(system));
      case Unreadable =>
        SetIsDarkMode(false);
    }
  }
}
