/** Main: the start-up rules of the application. The resource and data
    folders come from a fallback chain, the settings, plugin and log paths
    are built under the data folder, log paths have '%' doubled for the
    logging FileHandler, loading the plugins folds every failure into one
    "outdated plugins" flag, and the plugin list's listener keeps the
    selected "api.id" setting on an existing plugin. System properties, the
    file separator and the outcome of loading each plugin file are inputs. */
module Startup {
  import opened Common
  import opened Settings

  const ResourceFolderProperty := "com.leclercb.taskunifier.resource_folder"
  const DataFolderProperty := "com.leclercb.taskunifier.data_folder"
  const ApiIdKey := "api.id"
  const ReviewShowedKey := "review.showed"

  /** loadResourceFolder: the system property, or "resources". */
  function ResourcesFolder(systemProperty: Option<string>): (r: string)
    ensures systemProperty.Some? ==> r == systemProperty.value
    ensures systemProperty.None? ==> r == "resources"
  {
    systemProperty.GetOr("resources")
  }

  /** loadDataFolder: the init setting, else the system property, else
      "data". */
  function DataFolder(initSettings: Store, systemProperty: Option<string>): (r: string)
    ensures DataFolderProperty in initSettings ==> r == initSettings[DataFolderProperty]
    ensures DataFolderProperty !in initSettings && systemProperty.Some? ==> r == systemProperty.value
    ensures DataFolderProperty !in initSettings && systemProperty.None? ==> r == "data"
  {
    match GetString(initSettings, DataFolderProperty)
    case Some(folder) => folder
    case None => systemProperty.GetOr("data")
  }

  /** A file or folder named `name` directly inside `folder`. */
  function Child(folder: string, sep: string, name: string): (r: string)
    ensures |r| == |folder| + |sep| + |name|
    ensures r[..|folder|] == folder && r[|folder| + |sep|..] == name
  {
    folder + sep + name
  }

  /** getInitSettingsFile. */
  function InitSettingsFile(resourcesFolder: string, sep: string): string {
    Child(resourcesFolder, sep, "taskunifier.properties")
  }

  /** getSettingsFile. */
  function SettingsFile(dataFolder: string, sep: string): string {
    Child(dataFolder, sep, "settings.properties")
  }

  /** loadPluginsFolder. */
  function PluginsFolder(dataFolder: string, sep: string): string {
    Child(dataFolder, sep, "plugins")
  }

  /** The settings file and the plugins folder sit side by side in the data
      folder: they share the prefix and differ in their last name. */
  lemma DataFolderLayout(dataFolder: string, sep: string)
    ensures SettingsFile(dataFolder, sep)[..|dataFolder| + |sep|] == PluginsFolder(dataFolder, sep)[..|dataFolder| + |sep|]
    ensures SettingsFile(dataFolder, sep) != PluginsFolder(dataFolder, sep)
  {
    assert SettingsFile(dataFolder, sep)[..|dataFolder| + |sep|] == dataFolder + sep;
    assert PluginsFolder(dataFolder, sep)[..|dataFolder| + |sep|] == dataFolder + sep;
    assert |SettingsFile(dataFolder, sep)| != |PluginsFolder(dataFolder, sep)|;
  }

  /** The number of '%' in s. */
  function PercentCount(s: string): nat {
    if s == [] then 0 else (if s[0] == '%' then 1 else 0) + PercentCount(s[1..])
  }

  /** String.replace("%", "%%"): every '%' doubled, so that FileHandler
      does not read it as a pattern. */
  function EscapePercent(s: string): string {
    if s == [] then []
    else (if s[0] == '%' then "%%" else [s[0]]) + EscapePercent(s[1..])
  }

  /** The reading FileHandler gives an escaped pattern: "%%" stands for '%'. */
  function UnescapePercent(s: string): string {
    if s == [] then []
    else if |s| >= 2 && s[0] == '%' && s[1] == '%' then "%" + UnescapePercent(s[2..])
    else [s[0]] + UnescapePercent(s[1..])
  }

  /** Escaping adds one character per '%'. */
  lemma {:induction false} EscapeLength(s: string)
    ensures |EscapePercent(s)| == |s| + PercentCount(s)
  {
    if s != [] {
      EscapeLength(s[1..]);
    }
  }

  /** Un-doubling an escaped path gives back the original. */
  lemma {:induction false} EscapeRoundTrip(s: string)
    ensures UnescapePercent(EscapePercent(s)) == s
  {
    if s != [] {
      EscapeRoundTrip(s[1..]);
      var e := EscapePercent(s);
      if s[0] == '%' {
        assert e == "%%" + EscapePercent(s[1..]);
        assert e[2..] == EscapePercent(s[1..]);
      } else {
        assert e == [s[0]] + EscapePercent(s[1..]);
        assert e[1..] == EscapePercent(s[1..]);
      }
      assert s == [s[0]] + s[1..];
    }
  }

  /** A path without '%' is left as it is. */
  lemma {:induction false} EscapeWithoutPercent(s: string)
    requires PercentCount(s) == 0
    ensures EscapePercent(s) == s
  {
    if s != [] {
      EscapeWithoutPercent(s[1..]);
      assert s == [s[0]] + s[1..];
    }
  }

  /** loadLoggers: the API, GUI and plugin log files, escaped. */
  function LogFiles(dataFolder: string, sep: string): (r: seq<string>)
    ensures |r| == 3
  {
    [EscapePercent(Child(dataFolder, sep, "taskunifier_api.log")),
     EscapePercent(Child(dataFolder, sep, "taskunifier_gui.log")),
     EscapePercent(Child(dataFolder, sep, "taskunifier_plugin.log"))]
  }

  /** Each log file pattern names the intended file once un-escaped. */
  lemma LogFilesNameTheirFiles(dataFolder: string, sep: string)
    ensures UnescapePercent(LogFiles(dataFolder, sep)[0]) == Child(dataFolder, sep, "taskunifier_api.log")
    ensures UnescapePercent(LogFiles(dataFolder, sep)[1]) == Child(dataFolder, sep, "taskunifier_gui.log")
    ensures UnescapePercent(LogFiles(dataFolder, sep)[2]) == Child(dataFolder, sep, "taskunifier_plugin.log")
  {
    EscapeRoundTrip(Child(dataFolder, sep, "taskunifier_api.log"));
    EscapeRoundTrip(Child(dataFolder, sep, "taskunifier_gui.log"));
    EscapeRoundTrip(Child(dataFolder, sep, "taskunifier_plugin.log"));
  }

  /** What PluginsUtils.loadPlugin does with one file. */
  datatype PluginErrorType = OutdatedPlugin | OtherPluginError
  datatype LoadOutcome = Loaded | PluginException(errorType: PluginErrorType) | OtherThrowable

  /** Some outcome is a PluginException of type OUTDATED_PLUGIN. */
  predicate AnyOutdated(outcomes: seq<LoadOutcome>) {
    exists i :: 0 <= i < |outcomes| && outcomes[i] == PluginException(OutdatedPlugin)
  }

  /** The plugin-file loop of loadApiPlugins: every file is tried in order,
      whatever failed before it, and the flag is raised by an outdated plugin
      only. Without a plugins directory nothing is tried. */
  method LoadPluginFiles<F>(folderIsDirectory: bool, files: seq<F>, load: F -> LoadOutcome)
    returns (outdatedPlugins: bool, tried: seq<F>)
    ensures tried == (if folderIsDirectory then files else [])
    ensures outdatedPlugins <==> folderIsDirectory && AnyOutdated(seq(|files|, i requires 0 <= i < |files| => load(files[i])))
  {
    outdatedPlugins, tried := false, [];
    ghost var outcomes := seq(|files|, i requires 0 <= i < |files| => load(files[i]));
    if folderIsDirectory {
      var i := 0;
      while i < |files|
        invariant 0 <= i <= |files|
        invariant tried == files[..i]
        invariant outdatedPlugins <==> AnyOutdated(outcomes[..i])
      {
        var outcome := load(files[i]);
        if outcome.PluginException? && outcome.errorType == OutdatedPlugin {
          outdatedPlugins := true;
        }
        assert outcomes[..i + 1] == outcomes[..i] + [outcome];
        assert outcomes[..i + 1][i] == outcome;
        tried := tried + [files[i]];
        i := i + 1;
      }
      assert outcomes[..i] == outcomes;
    }
  }

  /** The listener loadApiPlugins puts on the plugin list, on the settings:
      an added plugin becomes the selected api.id; removing the selected
      plugin selects the dummy plugin instead. */
  function ApiIdAfterChange(settings: Store, changeType: ChangeType, pluginId: string, dummyId: string): (r: Store)
    ensures forall k :: k != ApiIdKey ==> (k in r <==> k in settings)
    ensures forall k :: k in settings && k != ApiIdKey ==> r[k] == settings[k]
  {
    if changeType == VALUE_ADDED then settings[ApiIdKey := pluginId]
    else if changeType == VALUE_REMOVED && GetString(settings, ApiIdKey) == Some(pluginId) then settings[ApiIdKey := dummyId]
    else settings
  }

  /** Adding a plugin makes its id the selected api.id. */
  lemma AddedPluginSelected(settings: Store, pluginId: string, dummyId: string)
    ensures GetString(ApiIdAfterChange(settings, VALUE_ADDED, pluginId, dummyId), ApiIdKey) == Some(pluginId)
  {
  }

  /** Removing a plugin moves the selection to the dummy plugin exactly when
      that plugin was selected; otherwise the settings are unchanged. */
  lemma RemovedPluginDeselected(settings: Store, pluginId: string, dummyId: string)
    ensures var r := ApiIdAfterChange(settings, VALUE_REMOVED, pluginId, dummyId);
      && (GetString(settings, ApiIdKey) == Some(pluginId) ==> GetString(r, ApiIdKey) == Some(dummyId))
      && (GetString(settings, ApiIdKey) != Some(pluginId) ==> r == settings)
  {
  }

  /** Once a plugin has been added and removed again, the dummy plugin is
      selected. */
  lemma AddThenRemoveSelectsDummy(settings: Store, pluginId: string, dummyId: string)
    ensures var added := ApiIdAfterChange(settings, VALUE_ADDED, pluginId, dummyId);
      GetString(ApiIdAfterChange(added, VALUE_REMOVED, pluginId, dummyId), ApiIdKey) == Some(dummyId)
  {
  }

  /** The listener, on the shared settings object. */
  method ApiPluginsListChange(settings: SettingsStore, changeType: ChangeType, pluginId: string, dummyId: string)
    modifies settings
    ensures settings.props == ApiIdAfterChange(old(settings.props), changeType, pluginId, dummyId)
  {
    if changeType == VALUE_ADDED {
      settings.props := settings.props[ApiIdKey := pluginId];
    }
    if changeType == VALUE_REMOVED {
      if GetString(settings.props, ApiIdKey) == Some(pluginId) {
        settings.props := settings.props[ApiIdKey := dummyId];
      }
    }
  }

  /** The review prompt at start-up: shown unless "review.showed" is true;
      the flag is set afterwards either way. */
  function ReviewAtStartup(settings: Store): (r: (bool, Store))
    ensures r.0 <==> GetBoolOrNull(settings, ReviewShowedKey) != Some(true)
    ensures GetBoolOrNull(r.1, ReviewShowedKey) == Some(true)
  {
    ParseFormatBool(true);
    (GetBoolOrNull(settings, ReviewShowedKey) != Some(true), settings[ReviewShowedKey := FormatBool(true)])
  }

  /** The review prompt is shown at most once: the next start-up skips it. */
  lemma ReviewShownOnce(settings: Store)
    ensures !ReviewAtStartup(ReviewAtStartup(settings).1).0
  {
  }
}
