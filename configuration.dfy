/** `AppSettings` and `ConfigurationService`: the settings object every service reads, its
    defaults, the range clamping applied to loaded values, and loading and saving the settings
    file. The file is modelled by what deserialising it yields; directory creation is implicit. */
module Configuration {
  import opened Wrappers
  import opened Numbers
  import opened Errors
  import Paths
  import Text

  /** Where scheduled rotations take their images from. */
  datatype RotationSource = Api | History

  /** The value of an `AppSettings` object. The last three fields are the scheduler's, which
      the settings class is used with. */
  datatype Settings = Settings(
    cacheDirectory: string,
    maxCacheSizeMb: Int64,
    startWithWindows: bool,
    showNotifications: bool,
    downloadTimeoutSeconds: Int32,
    maxRetries: Int32,
    apiTimeoutSeconds: Int32,
    isSchedulerEnabled: bool,
    schedulerIntervalMinutes: Int32,
    rotationSource: RotationSource)

  /** `GetDefaultSettings().CacheDirectory` under the local application-data folder `appData`. */
  function DefaultCacheDirectory(appData: string): string {
    Paths.Combine(Paths.Combine(appData, "WallpaperChanger"), "Cache")
  }

  /** `GetDefaultSettings`; the scheduler fields keep their field defaults. */
  function Defaults(appData: string): Settings {
    Settings(DefaultCacheDirectory(appData), 500, false, true, 60, 3, 30, false, 0, Api)
  }

  /** The ranges `ValidateSettings` enforces. */
  predicate InRange(s: Settings) {
    s.maxCacheSizeMb >= 10
    && 10 <= s.downloadTimeoutSeconds <= 300
    && 5 <= s.apiTimeoutSeconds <= 120
    && 0 <= s.maxRetries <= 10
    && !Text.IsNullOrWhiteSpace(s.cacheDirectory)
  }

  /** The value `ValidateSettings` leaves: each out-of-range field replaced by its default. */
  function Validated(s: Settings, appData: string): Settings {
    s.(maxCacheSizeMb := if s.maxCacheSizeMb < 10 then 500 else s.maxCacheSizeMb,
       downloadTimeoutSeconds := if s.downloadTimeoutSeconds < 10 || s.downloadTimeoutSeconds > 300 then 60
                                 else s.downloadTimeoutSeconds,
       apiTimeoutSeconds := if s.apiTimeoutSeconds < 5 || s.apiTimeoutSeconds > 120 then 30 else s.apiTimeoutSeconds,
       maxRetries := if s.maxRetries < 0 || s.maxRetries > 10 then 3 else s.maxRetries,
       cacheDirectory := if Text.IsNullOrWhiteSpace(s.cacheDirectory) then DefaultCacheDirectory(appData)
                         else s.cacheDirectory)
  }

  /** The default cache directory is never blank: it ends in `Cache`. */
  lemma DefaultDirectoryNotBlank(appData: string)
    ensures !Text.IsNullOrWhiteSpace(DefaultCacheDirectory(appData))
  {
    var d := DefaultCacheDirectory(appData);
    assert Paths.EndsWithName(d, "Cache");
    assert d[|d| - 5] == "Cache"[0];
  }

  /** After validation every field is in range. */
  lemma ValidatedInRange(s: Settings, appData: string)
    ensures InRange(Validated(s, appData))
  {
    DefaultDirectoryNotBlank(appData);
  }

  /** Validation changes exactly the out-of-range fields, each to its default, and nothing else:
      the flags and the scheduler fields are kept. */
  lemma ValidatedReplacesOnlyOutOfRange(s: Settings, appData: string)
    ensures var v := Validated(s, appData);
      (v.maxCacheSizeMb == s.maxCacheSizeMb || (s.maxCacheSizeMb < 10 && v.maxCacheSizeMb == 500))
      && (v.downloadTimeoutSeconds == s.downloadTimeoutSeconds
          || (!(10 <= s.downloadTimeoutSeconds <= 300) && v.downloadTimeoutSeconds == 60))
      && (v.apiTimeoutSeconds == s.apiTimeoutSeconds || (!(5 <= s.apiTimeoutSeconds <= 120) && v.apiTimeoutSeconds == 30))
      && (v.maxRetries == s.maxRetries || (!(0 <= s.maxRetries <= 10) && v.maxRetries == 3))
      && (v.cacheDirectory == s.cacheDirectory
          || (Text.IsNullOrWhiteSpace(s.cacheDirectory) && v.cacheDirectory == DefaultCacheDirectory(appData)))
      && v.startWithWindows == s.startWithWindows && v.showNotifications == s.showNotifications
      && v.isSchedulerEnabled == s.isSchedulerEnabled && v.schedulerIntervalMinutes == s.schedulerIntervalMinutes
      && v.rotationSource == s.rotationSource
  {
  }

  /** Settings already in range are left as they are. */
  lemma InRangeUnchanged(s: Settings, appData: string)
    requires InRange(s)
    ensures Validated(s, appData) == s
  {
  }

  /** Validating twice is validating once. */
  lemma ValidatedIdempotent(s: Settings, appData: string)
    ensures Validated(Validated(s, appData), appData) == Validated(s, appData)
  {
    ValidatedInRange(s, appData);
    InRangeUnchanged(Validated(s, appData), appData);
  }

  /** The defaults are 500 MB, no autostart, notifications on, 60 s, 3 retries and 30 s, and they
      pass validation unchanged. */
  lemma DefaultsValid(appData: string)
    ensures var d := Defaults(appData);
      d.maxCacheSizeMb == 500 && !d.startWithWindows && d.showNotifications
      && d.downloadTimeoutSeconds == 60 && d.maxRetries == 3 && d.apiTimeoutSeconds == 30
    ensures InRange(Defaults(appData)) && Validated(Defaults(appData), appData) == Defaults(appData)
  {
    DefaultDirectoryNotBlank(appData);
  }

  /** What reading and deserialising the settings file yields. */
  datatype Stored =
    | Missing
      /** Reading fails with an exception other than a `JsonException`. */
    | Unreadable
    | Malformed
      /** The file holds the JSON literal `null`. */
    | NullDocument
    | Document(settings: Settings)

  function LoadFault(): Fault { NewFault(ConfigurationError, "Failed to load application settings") }
  function SaveFault(): Fault { NewFault(ConfigurationError, "Failed to save application settings") }

  /** `LoadSettingsAsync` on a file holding `stored`, where saving succeeds iff `writable`: the
      settings afterwards, what the file then holds, and whether an exception escapes. */
  function Loaded(stored: Stored, writable: bool, current: Settings, appData: string): (Settings, Stored, Option<Fault>) {
    var defaults := Defaults(appData);
    match stored
    case Missing =>
      // the save is inside the `try`: its failure is reported as a load failure
      if writable then (defaults, Document(defaults), None) else (defaults, Missing, Some(LoadFault()))
    case Unreadable => (current, stored, Some(LoadFault()))
    case Malformed =>
      // the save is inside the `catch`: its failure escapes as it is
      if writable then (defaults, Document(defaults), None) else (defaults, Malformed, Some(SaveFault()))
    case NullDocument => (defaults, stored, None)
    case Document(s) => (Validated(s, appData), stored, None)
  }

  /** Whatever the file holds, loading either leaves settings in range or reports a
      configuration error; a missing, malformed or empty file gives the defaults. */
  lemma LoadedInRangeOrFails(stored: Stored, writable: bool, current: Settings, appData: string)
    ensures var (s, _, fault) := Loaded(stored, writable, current, appData);
      (fault.None? ==> InRange(s)) && (fault.Some? ==> fault.value.code == ConfigurationError)
    ensures stored.Missing? || stored.Malformed? || stored.NullDocument? ==>
              Loaded(stored, writable, current, appData).0 == Defaults(appData)
  {
    DefaultsValid(appData);
    if stored.Document? {
      ValidatedInRange(stored.settings, appData);
    }
  }

  /** Negative loaded values are replaced by the positive defaults. */
  lemma NegativeValuesReplaced(s: Settings, writable: bool, current: Settings, appData: string)
    requires s.maxCacheSizeMb < 0 && s.downloadTimeoutSeconds < 0 && s.apiTimeoutSeconds < 0 && s.maxRetries < 0
    ensures var v := Loaded(Document(s), writable, current, appData).0;
      v.maxCacheSizeMb == 500 && v.downloadTimeoutSeconds == 60 && v.apiTimeoutSeconds == 30 && v.maxRetries == 3
  {
  }

  /** Saving and then loading gives back the saved settings once validated, and exactly them
      when they were in range. */
  lemma SaveLoadRoundTrip(s: Settings, current: Settings, appData: string)
    ensures Loaded(Document(s), true, current, appData) == (Validated(s, appData), Document(s), None)
    ensures InRange(s) ==> Loaded(Document(s), true, current, appData).0 == s
  {
  }

  /** The mutable `AppSettings` object. */
  class AppSettings {
    var cacheDirectory: string
    var maxCacheSizeMb: Int64
    var startWithWindows: bool
    var showNotifications: bool
    var downloadTimeoutSeconds: Int32
    var maxRetries: Int32
    var apiTimeoutSeconds: Int32
    var isSchedulerEnabled: bool
    var schedulerIntervalMinutes: Int32
    var rotationSource: RotationSource

    function Value(): Settings
      reads this
    {
      Settings(cacheDirectory, maxCacheSizeMb, startWithWindows, showNotifications, downloadTimeoutSeconds,
               maxRetries, apiTimeoutSeconds, isSchedulerEnabled, schedulerIntervalMinutes, rotationSource)
    }

    constructor(s: Settings)
      ensures Value() == s
    {
      cacheDirectory, maxCacheSizeMb, startWithWindows, showNotifications := s.cacheDirectory, s.maxCacheSizeMb,
        s.startWithWindows, s.showNotifications;
      downloadTimeoutSeconds, maxRetries, apiTimeoutSeconds := s.downloadTimeoutSeconds, s.maxRetries, s.apiTimeoutSeconds;
      isSchedulerEnabled, schedulerIntervalMinutes, rotationSource := s.isSchedulerEnabled, s.schedulerIntervalMinutes,
        s.rotationSource;
    }
  }

  class ConfigurationService {
    /** The local application-data folder. */
    const appData: string
    const configFilePath: string
    /** Whether writing the settings file succeeds. */
    const writable: bool
    var settings: AppSettings
    /** What the settings file holds. */
    var stored: Stored

    /** The public constructor: default settings, the file under the application's folder. */
    constructor(appData: string, writable: bool, stored: Stored)
      ensures this.appData == appData && this.writable == writable && this.stored == stored
      ensures configFilePath == Paths.Combine(Paths.Combine(appData, "WallpaperChanger"), "appsettings.json")
      ensures fresh(settings) && settings.Value() == Defaults(appData)
    {
      this.appData := appData;
      this.writable := writable;
      this.stored := stored;
      configFilePath := Paths.Combine(Paths.Combine(appData, "WallpaperChanger"), "appsettings.json");
      settings := new AppSettings(Defaults(appData));
    }

    /** `ValidateSettings`: fixes the out-of-range fields of `s` in place. */
    method ValidateSettings(s: AppSettings)
      modifies s
      ensures s.Value() == Validated(old(s.Value()), appData)
    {
      ghost var v := Validated(s.Value(), appData);
      if s.maxCacheSizeMb < 10 {
        s.maxCacheSizeMb := 500;
      }
      assert s.maxCacheSizeMb == v.maxCacheSizeMb;
      if s.downloadTimeoutSeconds < 10 || s.downloadTimeoutSeconds > 300 {
        s.downloadTimeoutSeconds := 60;
      }
      assert s.downloadTimeoutSeconds == v.downloadTimeoutSeconds;
      if s.apiTimeoutSeconds < 5 || s.apiTimeoutSeconds > 120 {
        s.apiTimeoutSeconds := 30;
      }
      assert s.apiTimeoutSeconds == v.apiTimeoutSeconds;
      if s.maxRetries < 0 || s.maxRetries > 10 {
        s.maxRetries := 3;
      }
      assert s.maxRetries == v.maxRetries;
      if Text.IsNullOrWhiteSpace(s.cacheDirectory) {
        s.cacheDirectory := Defaults(appData).cacheDirectory;
      }
      assert s.cacheDirectory == v.cacheDirectory;
    }

    /** `SaveSettingsAsync`: serialises the current settings into the file. */
    method SaveSettings() returns (fault: Option<Fault>)
      modifies this
      ensures settings == old(settings)
      ensures if writable then stored == Document(settings.Value()) && fault.None?
              else stored == old(stored) && fault == Some(SaveFault())
    {
      if !writable {
        return Some(SaveFault());
      }
      stored := Document(settings.Value());
      fault := None;
    }

    /** `LoadSettingsAsync`. */
    method LoadSettings() returns (fault: Option<Fault>)
      modifies this
      ensures (settings.Value(), stored, fault) == Loaded(old(stored), writable, old(settings.Value()), appData)
      ensures settings == old(settings) || fresh(settings)
    {
      match stored
      case Missing =>
        settings := new AppSettings(Defaults(appData));
        var saveFault := SaveSettings();
        if saveFault.Some? {
          return Some(LoadFault());
        }
        return None;
      case Unreadable =>
        return Some(LoadFault());
      case Malformed =>
        settings := new AppSettings(Defaults(appData));
        fault := SaveSettings();
      case NullDocument =>
        settings := new AppSettings(Defaults(appData));
        return None;
      case Document(s) =>
        var loadedSettings := new AppSettings(s);
        ValidateSettings(loadedSettings);
        settings := loadedSettings;
        return None;
    }
  }
}
