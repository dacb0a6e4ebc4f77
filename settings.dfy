/** The tutor's generation settings and the single-record file that keeps
    them (settings.py). */
module Settings {
  import opened Wrappers

  /** A settings record as the stored JSON object holds it. Any key may be
      absent from a stored record, and `None` stands for an absent key. The
      temperature is kept as an exact `real`. */
  datatype TutorSettings = TutorSettings(
    language: Option<string>,
    depth: Option<string>,
    model: Option<string>,
    temperature: Option<real>,
    maxTokens: Option<int>)

  /** The record used when no settings file exists yet. */
  const Defaults: TutorSettings :=
    TutorSettings(Some("RO"), Some("medium"), Some("gpt-4o-mini"), Some(0.5), Some(300))

  /** Every key is present. */
  predicate Complete(s: TutorSettings)
  {
    s.language.Some? && s.depth.Some? && s.model.Some? && s.temperature.Some? && s.maxTokens.Some?
  }

  /** The record a load returns for a given file: what is stored, or the
      defaults when there is no file. */
  function Current(file: Option<TutorSettings>): TutorSettings
  {
    file.GetOr(Defaults)
  }

  /** The settings file: `None` while it does not exist. */
  class SettingsStore {
    var file: Option<TutorSettings>

    constructor (initial: Option<TutorSettings>)
      ensures file == initial
    {
      file := initial;
    }

    /** load_settings: with no file, persist the defaults and return them;
        otherwise return the stored record and write nothing. */
    method Load() returns (s: TutorSettings)
      modifies this
      ensures old(file).None? ==> s == Defaults && file == Some(Defaults)
      ensures old(file).Some? ==> s == old(file).value && unchanged(this)
    {
      if file.None? {
        Save(Defaults);
        return Defaults;
      }
      s := file.value;
    }

    /** save_settings: the stored record becomes `s`, wholesale. */
    method Save(s: TutorSettings)
      modifies this
      ensures file == Some(s)
    {
      file := Some(s);
    }
  }

  /** The first load ever returns the default record, and so does the load
      after it, because the first one persisted it. */
  method FirstLoads() returns (first: TutorSettings, second: TutorSettings)
    ensures first == second == Defaults
    ensures first.language == Some("RO") && first.depth == Some("medium")
    ensures first.model == Some("gpt-4o-mini") && first.temperature == Some(0.5)
    ensures first.maxTokens == Some(300)
  {
    var store := new SettingsStore(None);
    first := store.Load();
    second := store.Load();
  }

  /** Two loads with no save between them return the same record, whatever
      the file held at the start. */
  method LoadTwice(initial: Option<TutorSettings>) returns (first: TutorSettings, second: TutorSettings)
    ensures first == second == Current(initial)
  {
    var store := new SettingsStore(initial);
    first := store.Load();
    second := store.Load();
  }

  /** A load after a save returns exactly the saved record: keys the saved
      record lacks stay absent, whatever the file held before. */
  method SaveThenLoad(initial: Option<TutorSettings>, saved: TutorSettings) returns (loaded: TutorSettings)
    ensures loaded == saved
  {
    var store := new SettingsStore(initial);
    store.Save(saved);
    loaded := store.Load();
  }
}
