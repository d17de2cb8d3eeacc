/**
  The Android objects the widget talks to, reduced to plain values: the
  extras bundle of an intent and the flat key/value store of shared
  preferences.
 */
module Platform {
  import opened JavaText

  datatype Option<+T> = None | Some(value: T)

  datatype Result<+T, +E> = Success(value: T) | Failure(error: E)

  // ---------------------------------------------------------------------
  // Intents and their extras

  datatype Extra = IntExtra(i: Int32) | BoolExtra(b: bool)

  /** An extras bundle; an intent without extras has none at all (`getExtras()` is null). */
  type Bundle = map<string, Extra>

  datatype Intent = Intent(action: string, extras: Option<Bundle>)

  /** `getIntExtra(key, default)` / `Bundle.getInt(key, default)`: the default when absent or not an int. */
  function GetIntExtra(extras: Option<Bundle>, key: string, default: Int32): Int32
  {
    if extras.Some? && key in extras.value && extras.value[key].IntExtra?
    then extras.value[key].i
    else default
  }

  /** `Bundle.getBoolean(key, default)`. */
  function GetBooleanExtra(extras: Bundle, key: string, default: bool): bool
  {
    if key in extras && extras[key].BoolExtra? then extras[key].b else default
  }

  // ---------------------------------------------------------------------
  // SharedPreferences

  datatype PrefValue = IntPref(i: Int32) | StringPref(s: string)

  type Preferences = map<string, PrefValue>

  /** `getInt(key, default)`. */
  function PrefInt(prefs: Preferences, key: string, default: Int32): Int32
  {
    if key in prefs && prefs[key].IntPref? then prefs[key].i else default
  }

  /** `getString(key, null)`: None stands for null. */
  function PrefString(prefs: Preferences, key: string): Option<string>
  {
    if key in prefs && prefs[key].StringPref? then Some(prefs[key].s) else None
  }
}
