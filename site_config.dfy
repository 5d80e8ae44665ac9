/** Building a PDF from a site's build output (src/index.ts): `loadConfig`
    picks the docs route base path out of the site configuration, and
    `generatePdfFromBuildSources` composes the URL the crawl starts from.
    Reading `docusaurus.config.js` is abstracted to the configuration record it
    exports; the file system and the web server are parameters. */
module SiteConfig {
  import opened Wrappers
  import opened Strings
  import opened PathSegments

  const ClassicPreset := "@docusaurus/preset-classic"
  const DocsPlugin := "@docusaurus/plugin-content-docs"
  const DefaultRouteBasePath := "docs"

  /** Options of the docs plugin; only `routeBasePath` matters here. */
  datatype DocsOptions = DocsOptions(routeBasePath: Option<string>)

  /** Options of a preset; `docs` holds the docs plugin's options. */
  datatype PresetOptions = PresetOptions(docs: Option<DocsOptions>)

  /** An entry `[name, options]` of `presets`; `options` is `None` when undefined. */
  datatype Preset = Preset(name: string, options: Option<PresetOptions>)

  /** An entry `[name, options]` of `plugins`. */
  datatype Plugin = Plugin(name: string, options: Option<DocsOptions>)

  /** The exported configuration; a missing field is `None`. */
  datatype Config = Config(presets: Option<seq<Preset>>, plugins: Option<seq<Plugin>>, baseUrl: Option<string>)

  /** `options.docs` or `options.routeBasePath` read on undefined options throws a TypeError. */
  datatype ConfigError = OptionsUndefined

  datatype LoadedConfig = LoadedConfig(firstDocPath: string, baseUrl: string)

  /** A JavaScript truthiness test on an optional string. */
  predicate Truthy(value: Option<string>) {
    value.Some? && value.value != ""
  }

  /** What one entry does to the list of route base paths. */
  datatype Contribution = Skipped | Route(path: string) | Throws

  function PresetContribution(p: Preset): Contribution {
    if p.name != ClassicPreset then Skipped
    else if p.options.None? then Throws
    else if p.options.value.docs.Some? && Truthy(p.options.value.docs.value.routeBasePath) then
      Route(p.options.value.docs.value.routeBasePath.value)
    else Skipped
  }

  function PluginContribution(p: Plugin): Contribution {
    if p.name != DocsPlugin then Skipped
    else if p.options.None? then Throws
    else if Truthy(p.options.value.routeBasePath) then Route(p.options.value.routeBasePath.value)
    else Skipped
  }

  /** The entries in the order `loadConfig` visits them: presets, then plugins. */
  function Contributions(config: Config): (r: seq<Contribution>)
    ensures |r| == |config.presets.GetOr([])| + |config.plugins.GetOr([])|
    ensures forall k :: 0 <= k < |r| ==> r[k] == ContributionAt(config, k)
  {
    var presets := config.presets.GetOr([]);
    var plugins := config.plugins.GetOr([]);
    seq(|presets|, i requires 0 <= i < |presets| => PresetContribution(presets[i]))
      + seq(|plugins|, i requires 0 <= i < |plugins| => PluginContribution(plugins[i]))
  }

  /** What visiting one entry does to `routeBasePaths`. */
  function Visit(paths: seq<string>, c: Contribution): Result<seq<string>, ConfigError> {
    match c
    case Skipped => Success(paths)
    case Route(p) => Success(paths + [p])
    case Throws => Failure(OptionsUndefined)
  }

  /** `routeBasePaths` after the entries are visited in order. */
  function Collect(cs: seq<Contribution>): Result<seq<string>, ConfigError> {
    if cs == [] then Success([])
    else
      var init :- Collect(cs[..|cs| - 1]);
      Visit(init, cs[|cs| - 1])
  }

  /** The choice among the collected paths, with the plugin's default. */
  function FirstDocPath(paths: seq<string>): string {
    if |paths| == 1 then paths[0]
    else if |paths| > 1 then paths[|paths| - 1]
    else DefaultRouteBasePath
  }

  /** What `loadConfig` returns for a configuration. */
  function Loaded(config: Config): Result<LoadedConfig, ConfigError> {
    var paths :- Collect(Contributions(config));
    Success(LoadedConfig(FirstDocPath(paths), config.baseUrl.GetOr("/")))
  }

  /** The last entry that names a route base path, found from the end. */
  function LastRoute(cs: seq<Contribution>): Option<string> {
    if cs == [] then None
    else if cs[|cs| - 1].Route? then Some(cs[|cs| - 1].path)
    else LastRoute(cs[..|cs| - 1])
  }

  /** The collection fails exactly when some entry throws. */
  lemma {:induction false} CollectFails(cs: seq<Contribution>)
    ensures Collect(cs).Failure? <==> exists i :: 0 <= i < |cs| && cs[i].Throws?
  {
    if cs != [] {
      var init := cs[..|cs| - 1];
      CollectFails(init);
      if cs[|cs| - 1].Throws? {
        assert cs[|cs| - 1].Throws?;
      } else {
        forall i | 0 <= i < |init| ensures init[i] == cs[i] {
        }
      }
    }
  }

  /** The collected paths end with the last entry's path, and there is none
      exactly when no entry names one. */
  lemma {:induction false} CollectEndsWithLastRoute(cs: seq<Contribution>)
    requires Collect(cs).Success?
    ensures var paths := Collect(cs).value;
      (paths == [] <==> LastRoute(cs).None?) && (paths != [] ==> paths[|paths| - 1] == LastRoute(cs).value)
  {
    if cs != [] {
      CollectEndsWithLastRoute(cs[..|cs| - 1]);
    }
  }

  /** `loadConfig` fails exactly when a preset-classic or docs-plugin entry
      has undefined options. On success, the first doc path is the last truthy
      `routeBasePath`, plugins winning over presets, or `"docs"` when there is
      none; `baseUrl` defaults to `"/"`. */
  lemma LoadedChoosesLastRoute(config: Config)
    ensures var cs := Contributions(config);
      Loaded(config).Failure? <==> exists i :: 0 <= i < |cs| && cs[i].Throws?
    ensures Loaded(config).Success? ==>
      && Loaded(config).value.firstDocPath == LastRoute(Contributions(config)).GetOr(DefaultRouteBasePath)
      && Loaded(config).value.baseUrl == config.baseUrl.GetOr("/")
  {
    var cs := Contributions(config);
    CollectFails(cs);
    if Collect(cs).Success? {
      CollectEndsWithLastRoute(cs);
    }
  }

  /** A single preset entry with a route base path gives that path. */
  lemma SinglePresetRoute(path: string)
    requires path != ""
    ensures var preset := Preset(ClassicPreset, Some(PresetOptions(Some(DocsOptions(Some(path))))));
      Loaded(Config(Some([preset]), None, None)) == Success(LoadedConfig(path, "/"))
  {
    var config := Config(Some([Preset(ClassicPreset, Some(PresetOptions(Some(DocsOptions(Some(path))))))]), None, None);
    var cs := Contributions(config);
    assert cs == [Route(path)];
    assert cs[..|cs| - 1] == [];
    assert Collect(cs[..|cs| - 1]) == Success([]);
    assert cs[|cs| - 1] == Route(path);
    assert Collect(cs).Success?;
    assert Collect(cs).value == [] + [path] == [path];
  }

  /** The number of entries `loadConfig` visits. */
  function EntryCount(config: Config): nat {
    |config.presets.GetOr([])| + |config.plugins.GetOr([])|
  }

  /** The `k`-th entry visited: the presets first, then the plugins. */
  function ContributionAt(config: Config, k: nat): Contribution
    requires k < EntryCount(config)
  {
    var presets := config.presets.GetOr([]);
    if k < |presets| then PresetContribution(presets[k])
    else PluginContribution(config.plugins.GetOr([])[k - |presets|])
  }

  /** `routeBasePaths` after the first `n` entries are visited. */
  function Scanned(config: Config, n: nat): Result<seq<string>, ConfigError>
    requires n <= EntryCount(config)
  {
    if n == 0 then Success([])
    else
      var init :- Scanned(config, n - 1);
      Visit(init, ContributionAt(config, n - 1))
  }

  /** Visiting the first `n` entries one by one is collecting that prefix of
      the contributions. */
  lemma {:induction false} ScannedIsCollect(config: Config, n: nat)
    requires n <= EntryCount(config)
    ensures Scanned(config, n) == Collect(Contributions(config)[..n])
  {
    var cs := Contributions(config);
    if n == 0 {
      assert cs[..0] == [];
    } else {
      ScannedIsCollect(config, n - 1);
      assert cs[..n][..n - 1] == cs[..n - 1];
      assert cs[n - 1] == ContributionAt(config, n - 1);
    }
  }

  /** Once an entry has thrown, the scan stays failed. */
  lemma {:induction false} ScannedStaysFailed(config: Config, n: nat, m: nat)
    requires n <= m <= EntryCount(config) && Scanned(config, n).Failure?
    ensures Scanned(config, m) == Failure(OptionsUndefined)
    decreases m - n
  {
    if n < m {
      ScannedStaysFailed(config, n + 1, m);
    } else {
      assert Scanned(config, m).error.OptionsUndefined?;
    }
  }

  /** `loadConfig`'s first loop: the preset entries, in order. It throws on a
      preset-classic entry with undefined options, and otherwise pushes each
      truthy `options.docs.routeBasePath`. */
  method ScanPresets(config: Config) returns (r: Result<seq<string>, ConfigError>)
    ensures r == Scanned(config, |config.presets.GetOr([])|)
  {
    var presets := config.presets.GetOr([]);
    var routeBasePaths: seq<string> := [];
    for i := 0 to |presets|
      invariant Scanned(config, i) == Success(routeBasePaths)
    {
      var preset := presets[i];
      assert ContributionAt(config, i) == PresetContribution(preset);
      if preset.name == ClassicPreset {
        if preset.options.None? {
          ScannedStaysFailed(config, i + 1, |presets|);
          return Failure(OptionsUndefined);
        }
        var docs := preset.options.value.docs;
        if docs.Some? && Truthy(docs.value.routeBasePath) {
          routeBasePaths := routeBasePaths + [docs.value.routeBasePath.value];
        }
      }
    }
    return Success(routeBasePaths);
  }

  /** `loadConfig`'s second loop: the plugin entries, in order, pushing each
      truthy `options.routeBasePath` of a docs plugin onto the paths the
      presets gave. */
  method ScanPlugins(config: Config, presetPaths: seq<string>) returns (r: Result<seq<string>, ConfigError>)
    requires Scanned(config, |config.presets.GetOr([])|) == Success(presetPaths)
    ensures r == Scanned(config, EntryCount(config))
  {
    var presets := config.presets.GetOr([]);
    var plugins := config.plugins.GetOr([]);
    var routeBasePaths := presetPaths;
    for i := 0 to |plugins|
      invariant Scanned(config, |presets| + i) == Success(routeBasePaths)
    {
      var plugin := plugins[i];
      assert ContributionAt(config, |presets| + i) == PluginContribution(plugin);
      if plugin.name == DocsPlugin {
        if plugin.options.None? {
          ScannedStaysFailed(config, |presets| + i + 1, EntryCount(config));
          return Failure(OptionsUndefined);
        }
        if Truthy(plugin.options.value.routeBasePath) {
          routeBasePaths := routeBasePaths + [plugin.options.value.routeBasePath.value];
        }
      }
    }
    return Success(routeBasePaths);
  }

  /** `loadConfig`'s selection: scan the presets, then the plugins, and pick
      the last route base path collected, `"docs"` when there is none. */
  method LoadConfig(config: Config) returns (r: Result<LoadedConfig, ConfigError>)
    ensures r == Loaded(config)
  {
    ScannedIsCollect(config, EntryCount(config));
    assert Contributions(config)[..EntryCount(config)] == Contributions(config);
    var scanned := ScanPresets(config);
    if scanned.Failure? {
      ScannedStaysFailed(config, |config.presets.GetOr([])|, EntryCount(config));
      return Failure(OptionsUndefined);
    }
    scanned := ScanPlugins(config, scanned.value);
    if scanned.Failure? {
      assert scanned.error.OptionsUndefined?;
      return Failure(OptionsUndefined);
    }
    var routeBasePaths := scanned.value;
    var firstDocPath := DefaultRouteBasePath;
    if |routeBasePaths| == 1 {
      firstDocPath := routeBasePaths[0];
    } else if |routeBasePaths| > 1 {
      firstDocPath := routeBasePaths[|routeBasePaths| - 1];
    }
    return Success(LoadedConfig(firstDocPath, config.baseUrl.GetOr("/")));
  }

  // ---------------------------------------------------------------------------
  // The start URL

  /** What `fs.promises.stat(buildDirPath)` finds. */
  datatype BuildDir = Missing | NotDirectory | Directory

  /** The exceptions thrown before the crawl starts. */
  datatype StartError = BuildDirMissing | NotBuildDir | ServerFailed

  const Host := "http://127.0.0.1:"

  /** The URL the crawl starts from, given the build directory, the configured
      paths (`baseUrl` is `None` when the `from-build` command is given none)
      and the port the server listens on (`None` when no address comes back). */
  function StartUrl(dir: BuildDir, firstDocPath: string, baseUrl: Option<string>, port: Option<nat>): (r: Result<string, StartError>)
    ensures dir == Missing <==> r == Failure(BuildDirMissing)
    ensures dir == NotDirectory <==> r == Failure(NotBuildDir)
    ensures r.Success? <==> dir == Directory && port.Some?
  {
    match dir
    case Missing => Failure(BuildDirMissing)
    case NotDirectory => Failure(NotBuildDir)
    case Directory =>
      if port.None? then Failure(ServerFailed)
      else Success(Host + NatToString(port.value) + PathSegment(baseUrl, false) + PathSegment(Some(firstDocPath), true))
  }

  /** A started crawl begins at the host and port, then the base URL as
      `getPathSegment(baseUrl, false)` makes it (empty, or starting with `/`),
      then the first doc path as `getPathSegment(firstDocPath)` makes it
      (starting and ending with `/`). */
  lemma StartUrlShape(firstDocPath: string, baseUrl: Option<string>, port: nat)
    ensures StartUrl(Directory, firstDocPath, baseUrl, Some(port))
      == Success(Host + NatToString(port) + PathSegment(baseUrl, false) + PathSegment(Some(firstDocPath), true))
    ensures PathSegment(baseUrl, false) == [] || StartsWithSlash(PathSegment(baseUrl, false))
    ensures StartsWithSlash(PathSegment(Some(firstDocPath), true)) && EndsWithSlash(PathSegment(Some(firstDocPath), true))
  {
    SegmentWithoutSlash(baseUrl);
    SegmentWithSlash(Some(firstDocPath));
  }

  /** With the defaults, a site at the root starts at `/docs/`. */
  lemma StartUrlDefaults(port: nat)
    ensures StartUrl(Directory, DefaultRouteBasePath, Some("/"), Some(port)) == Success(Host + NatToString(port) + "/docs/")
  {
    EmptyCases();
    TrimOfTrimmed("docs");
    assert PathSegment(Some("docs"), true) == "/docs/";
    var prefix := Host + NatToString(port);
    assert prefix + "" == prefix;
  }

  /** A base URL left out on the command line serves the site at the root, as
      `"/"` does. */
  lemma MissingBaseUrlIsRoot(firstDocPath: string, port: nat)
    ensures StartUrl(Directory, firstDocPath, None, Some(port)) == StartUrl(Directory, firstDocPath, Some("/"), Some(port))
  {
    EmptyCases();
  }
}
