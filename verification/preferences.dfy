/** User preferences: one stored record under a fixed key, read back merged
    over the defaults so that a field the stored record lacks falls back to
    its default. */
module PreferenceStore {
  import opened Types

  /** A partial record: the fields a stored record or a change carries. */
  datatype PrefsPatch = PrefsPatch(
    defaultTargetCount: Option<int>,
    defaultTimeLimitSec: Option<int>,
    soundOption: Option<SoundOption>,
    vibrationEnabled: Option<bool>,
    keepScreenAwake: Option<bool>)

  const NoChange: PrefsPatch := PrefsPatch(None, None, None, None, None)

  /** The preferences table: at most one record, stored under 'user_prefs'. */
  type PrefsTable = Option<PrefsPatch>

  /** Whether `r` is `base` overlaid with `patch`: each field comes from the
      patch when the patch carries it, otherwise from the base. */
  predicate Overlays(r: Preferences, base: Preferences, patch: PrefsPatch) {
    && (patch.defaultTargetCount.Some? ==> r.defaultTargetCount == patch.defaultTargetCount.value)
    && (patch.defaultTargetCount.None? ==> r.defaultTargetCount == base.defaultTargetCount)
    && (patch.defaultTimeLimitSec.Some? ==> r.defaultTimeLimitSec == patch.defaultTimeLimitSec.value)
    && (patch.defaultTimeLimitSec.None? ==> r.defaultTimeLimitSec == base.defaultTimeLimitSec)
    && (patch.soundOption.Some? ==> r.soundOption == patch.soundOption.value)
    && (patch.soundOption.None? ==> r.soundOption == base.soundOption)
    && (patch.vibrationEnabled.Some? ==> r.vibrationEnabled == patch.vibrationEnabled.value)
    && (patch.vibrationEnabled.None? ==> r.vibrationEnabled == base.vibrationEnabled)
    && (patch.keepScreenAwake.Some? ==> r.keepScreenAwake == patch.keepScreenAwake.value)
    && (patch.keepScreenAwake.None? ==> r.keepScreenAwake == base.keepScreenAwake)
  }

  /** Whether a stored record carries every field. */
  predicate Complete(p: PrefsPatch) {
    && p.defaultTargetCount.Some? && p.defaultTimeLimitSec.Some? && p.soundOption.Some?
    && p.vibrationEnabled.Some? && p.keepScreenAwake.Some?
  }

  /** `{ ...base, ...patch }`: the patch's fields win. */
  function Merge(base: Preferences, patch: PrefsPatch): (r: Preferences)
    ensures Overlays(r, base, patch)
  {
    Preferences(
      patch.defaultTargetCount.GetOr(base.defaultTargetCount),
      patch.defaultTimeLimitSec.GetOr(base.defaultTimeLimitSec),
      patch.soundOption.GetOr(base.soundOption),
      patch.vibrationEnabled.GetOr(base.vibrationEnabled),
      patch.keepScreenAwake.GetOr(base.keepScreenAwake))
  }

  /** The full record as a patch that sets every field. */
  function Whole(p: Preferences): (r: PrefsPatch)
    ensures forall base :: Merge(base, r) == p
  {
    PrefsPatch(Some(p.defaultTargetCount), Some(p.defaultTimeLimitSec), Some(p.soundOption),
               Some(p.vibrationEnabled), Some(p.keepScreenAwake))
  }

  /** getPreferences: the defaults when nothing is stored, otherwise the
      stored fields over the defaults. */
  function GetPreferences(table: PrefsTable): (r: Preferences)
    ensures table.None? ==> r == DefaultPreferences
    ensures table.Some? ==>
      var stored := table.value;
      && r.defaultTargetCount == stored.defaultTargetCount.GetOr(DefaultTargetCount)
      && r.defaultTimeLimitSec == stored.defaultTimeLimitSec.GetOr(DefaultTimeLimitSec)
      && r.soundOption == stored.soundOption.GetOr(SoftClick)
      && r.vibrationEnabled == stored.vibrationEnabled.GetOr(true)
      && r.keepScreenAwake == stored.keepScreenAwake.GetOr(true)
  {
    match table
    case None => DefaultPreferences
    case Some(stored) => Merge(DefaultPreferences, stored)
  }

  /** savePreferences: the current preferences with the change applied,
      stored whole and returned; reading back gives what was returned. */
  function SavePreferences(table: PrefsTable, change: PrefsPatch): (r: (PrefsTable, Preferences))
    ensures Overlays(r.1, GetPreferences(table), change)
    ensures r.0.Some? && Complete(r.0.value)
    ensures GetPreferences(r.0) == r.1
  {
    var updated := Merge(GetPreferences(table), change);
    (Some(Whole(updated)), updated)
  }

  /** One preference key with its new value. */
  datatype Setting =
    | TargetCount(count: int)
    | TimeLimitSec(sec: int)
    | Sound(sound: SoundOption)
    | Vibration(on: bool)
    | KeepAwake(on: bool)

  function SettingPatch(s: Setting): PrefsPatch {
    match s
    case TargetCount(n) => NoChange.(defaultTargetCount := Some(n))
    case TimeLimitSec(n) => NoChange.(defaultTimeLimitSec := Some(n))
    case Sound(o) => NoChange.(soundOption := Some(o))
    case Vibration(b) => NoChange.(vibrationEnabled := Some(b))
    case KeepAwake(b) => NoChange.(keepScreenAwake := Some(b))
  }

  /** Whether the preferences hold the setting's value under its key. */
  predicate Carries(p: Preferences, s: Setting) {
    match s
    case TargetCount(n) => p.defaultTargetCount == n
    case TimeLimitSec(n) => p.defaultTimeLimitSec == n
    case Sound(o) => p.soundOption == o
    case Vibration(b) => p.vibrationEnabled == b
    case KeepAwake(b) => p.keepScreenAwake == b
  }

  /** Whether two records agree on every key except the setting's. */
  predicate SameOutside(p: Preferences, q: Preferences, s: Setting) {
    && (s.TargetCount? || p.defaultTargetCount == q.defaultTargetCount)
    && (s.TimeLimitSec? || p.defaultTimeLimitSec == q.defaultTimeLimitSec)
    && (s.Sound? || p.soundOption == q.soundOption)
    && (s.Vibration? || p.vibrationEnabled == q.vibrationEnabled)
    && (s.KeepAwake? || p.keepScreenAwake == q.keepScreenAwake)
  }

  /** updatePreference: save a change of one key. */
  function UpdatePreference(table: PrefsTable, s: Setting): (r: (PrefsTable, Preferences))
    ensures Carries(r.1, s)
    ensures SameOutside(r.1, GetPreferences(table), s)
  {
    SavePreferences(table, SettingPatch(s))
  }

  /** resetPreferences: store the defaults whole and return them. */
  function ResetPreferences(table: PrefsTable): (r: (PrefsTable, Preferences))
    ensures r.1 == DefaultPreferences
    ensures r.0.Some? && Complete(r.0.value)
  {
    (Some(Whole(DefaultPreferences)), DefaultPreferences)
  }

  /** Reading back after a reset gives the defaults, whatever was stored. */
  lemma ResetThenGet(table: PrefsTable)
    ensures GetPreferences(ResetPreferences(table).0) == DefaultPreferences
  {
  }

  /** A save without changes stores what was read and changes nothing a
      reader sees; saving the same change twice is saving it once. */
  lemma SaveIdempotent(table: PrefsTable, change: PrefsPatch)
    ensures SavePreferences(table, NoChange).1 == GetPreferences(table)
    ensures var (t1, p1) := SavePreferences(table, change);
      SavePreferences(t1, change).1 == p1
  {
  }
}
