/**
 * The client's settings: built-in defaults, then the `.gemnasium.yml`
 * file of the working directory, then the environment, each later source
 * overriding the earlier ones.
 *
 * Reading and YAML-decoding the file are not modelled: the decoded
 * document (or the failure) is the input.
 */
module Config {
  import opened Text
  import opened Host

  const Version := "1.0.3"
  const ConfigFilePath := ".gemnasium.yml"
  const DefaultApiEndpoint := "https://api.gemnasium.com/v1"

  const EnvApiEndpoint := "GEMNASIUM_API_ENDPOINT"
  const EnvToken := "GEMNASIUM_TOKEN"
  const EnvProjectSlug := "GEMNASIUM_PROJECT_SLUG"
  const EnvBranch := "BRANCH"
  const EnvRevision := "REVISION"
  const EnvIgnoredPaths := "GEMNASIUM_IGNORED_PATHS"
  const EnvRawFormat := "GEMNASIUM_RAW_FORMAT"

  /** `getEnvOrElse`: the variable's value unless it is unset or empty. */
  function GetEnvOrElse(env: map<string, string>, name: string, defaultValue: string): (v: string)
    ensures Getenv(env, name) != "" ==> v == env[name]
    ensures Getenv(env, name) == "" ==> v == defaultValue
    ensures v == "" ==> defaultValue == ""
  {
    var value := Getenv(env, name);
    if value == "" then defaultValue else value
  }

  /** The package-level settings as one value. */
  datatype Values = Values(
    apiEndpoint: string,
    apiKey: string,
    apiVersion: int,
    projectSlug: string,
    ignoredPaths: seq<string>,
    rawFormat: bool)

  /** The values the variables are declared with. */
  const Initial := Values(DefaultApiEndpoint, "", 1, "", [], false)

  /** A decoded YAML value, as far as the settings care. */
  datatype Yaml = YStr(s: string) | YList(items: seq<Yaml>) | YOther

  /** The config file: unreadable (missing), not valid YAML, or its decoded top-level mapping. */
  datatype ConfigFile = Unreadable | Undecodable | Decoded(doc: map<string, Yaml>)

  /** How `loadConfig` ends: with new values, by exiting the process, or by a failed type assertion. */
  datatype LoadOutcome = Loaded(values: Values) | Exited(code: int) | Panicked

  predicate StringOrAbsent(doc: map<string, Yaml>, key: string) {
    key !in doc || doc[key].YStr?
  }

  predicate AllStrings(items: seq<Yaml>) {
    forall i :: 0 <= i < |items| ==> items[i].YStr?
  }

  /** The document has the types the code asserts: strings, and a list of strings. */
  predicate WellTyped(doc: map<string, Yaml>) {
    StringOrAbsent(doc, "api_endpoint") && StringOrAbsent(doc, "api_key") && StringOrAbsent(doc, "project_slug")
    && ("ignored_paths" in doc ==> doc["ignored_paths"].YList? && AllStrings(doc["ignored_paths"].items))
  }

  function Strings(items: seq<Yaml>): (r: seq<string>)
    requires AllStrings(items)
    ensures |r| == |items| && forall i :: 0 <= i < |items| ==> r[i] == items[i].s
  {
    seq(|items|, i requires 0 <= i < |items| => items[i].s)
  }

  /** A string entry of the document replaces `current` when present. */
  function StringEntry(doc: map<string, Yaml>, key: string, current: string): string
    requires StringOrAbsent(doc, key)
  {
    if key in doc then doc[key].s else current
  }

  /** The file's contribution: string keys override, `ignored_paths` is appended. */
  function ConfigApplied(v: Values, file: ConfigFile): LoadOutcome {
    match file
    case Unreadable => Loaded(v)
    case Undecodable => LoadOutcome.Exited(1)
    case Decoded(doc) =>
      if !WellTyped(doc) then Panicked
      else
        var extra := if "ignored_paths" in doc then Strings(doc["ignored_paths"].items) else [];
        Loaded(v.(apiEndpoint := StringEntry(doc, "api_endpoint", v.apiEndpoint),
                  apiKey := StringEntry(doc, "api_key", v.apiKey),
                  projectSlug := StringEntry(doc, "project_slug", v.projectSlug),
                  ignoredPaths := v.ignoredPaths + extra))
  }

  /** The environment's contribution. */
  function EnvApplied(v: Values, env: map<string, string>): Values {
    var ip := Getenv(env, EnvIgnoredPaths);
    v.(apiEndpoint := GetEnvOrElse(env, EnvApiEndpoint, v.apiEndpoint),
       apiKey := GetEnvOrElse(env, EnvToken, v.apiKey),
       projectSlug := GetEnvOrElse(env, EnvProjectSlug, v.projectSlug),
       ignoredPaths := if ip != "" then Split(ip, ',') else v.ignoredPaths,
       rawFormat := if Getenv(env, EnvRawFormat) != "" then true else v.rawFormat)
  }

  /** `init`: the file, then the environment, starting from the declared values. */
  function Startup(file: ConfigFile, env: map<string, string>): LoadOutcome {
    match ConfigApplied(Initial, file)
    case Loaded(v) => Loaded(EnvApplied(v, env))
    case Exited(c) => LoadOutcome.Exited(c)
    case Panicked => Panicked
  }

  /** Without a config file, the file step changes nothing. */
  lemma MissingConfigFileChangesNothing(v: Values)
    ensures ConfigApplied(v, Unreadable) == Loaded(v)
  {
  }

  /**
   * The file's `ignored_paths` come after the paths already there, in the
   * file's order, and the file never touches the raw-format switch.
   */
  lemma ConfigAppendsIgnoredPaths(v: Values, doc: map<string, Yaml>)
    requires WellTyped(doc) && "ignored_paths" in doc
    ensures var r := ConfigApplied(v, Decoded(doc));
      r.Loaded? && r.values.ignoredPaths[..|v.ignoredPaths|] == v.ignoredPaths
      && r.values.ignoredPaths[|v.ignoredPaths|..] == Strings(doc["ignored_paths"].items)
      && r.values.rawFormat == v.rawFormat
  {
    var r := ConfigApplied(v, Decoded(doc));
    assert r.values.ignoredPaths == v.ignoredPaths + Strings(doc["ignored_paths"].items);
  }

  /**
   * After start-up, a non-empty environment value of the endpoint, token
   * or slug is the setting whatever the file said; an empty one leaves the
   * file's value (or the default) in place.
   */
  lemma EnvOverridesFile(file: ConfigFile, env: map<string, string>)
    requires ConfigApplied(Initial, file).Loaded?
    ensures var fromFile := ConfigApplied(Initial, file).values;
      var r := Startup(file, env);
      r.Loaded?
      && (Getenv(env, EnvApiEndpoint) != "" ==> r.values.apiEndpoint == env[EnvApiEndpoint])
      && (Getenv(env, EnvApiEndpoint) == "" ==> r.values.apiEndpoint == fromFile.apiEndpoint)
      && (Getenv(env, EnvToken) != "" ==> r.values.apiKey == env[EnvToken])
      && (Getenv(env, EnvToken) == "" ==> r.values.apiKey == fromFile.apiKey)
      && (Getenv(env, EnvProjectSlug) != "" ==> r.values.projectSlug == env[EnvProjectSlug])
      && (Getenv(env, EnvProjectSlug) == "" ==> r.values.projectSlug == fromFile.projectSlug)
  {
  }

  /** With neither a file nor variables, the endpoint is the default and the rest is empty. */
  lemma DefaultsWithoutFileOrEnv()
    ensures Startup(Unreadable, map[]) == Loaded(Initial)
    ensures Initial.apiEndpoint == "https://api.gemnasium.com/v1"
  {
    assert Getenv(map[], EnvIgnoredPaths) == "" && Getenv(map[], EnvRawFormat) == "";
  }

  /**
   * A non-empty GEMNASIUM_IGNORED_PATHS replaces the list with its
   * comma-separated pieces, untrimmed: joined back with commas they give
   * the variable's value.
   */
  lemma IgnoredPathsFromEnv(v: Values, env: map<string, string>)
    requires Getenv(env, EnvIgnoredPaths) != ""
    ensures var paths := EnvApplied(v, env).ignoredPaths;
      |paths| >= 1 && Join(paths, ",") == env[EnvIgnoredPaths]
      && forall i :: 0 <= i < |paths| ==> ',' !in paths[i]
  {
    JoinSplit(env[EnvIgnoredPaths], ',');
  }

  /** The environment can switch raw output on, never off. */
  lemma RawFormatNeverCleared(v: Values, env: map<string, string>)
    ensures v.rawFormat ==> EnvApplied(v, env).rawFormat
    ensures EnvApplied(v, env).rawFormat <==> v.rawFormat || Getenv(env, EnvRawFormat) != ""
  {
  }

  /** Applying the environment a second time changes nothing. */
  lemma EnvAppliedIdempotent(v: Values, env: map<string, string>)
    ensures EnvApplied(EnvApplied(v, env), env) == EnvApplied(v, env)
  {
  }

  /** The package-level variables. */
  class Settings {
    var apiEndpoint: string
    var apiKey: string
    var apiVersion: int
    var projectSlug: string
    var ignoredPaths: seq<string>
    var rawFormat: bool

    function Current(): Values
      reads this
    {
      Values(apiEndpoint, apiKey, apiVersion, projectSlug, ignoredPaths, rawFormat)
    }

    constructor ()
      ensures Current() == Initial
    {
      apiEndpoint := DefaultApiEndpoint;
      apiKey := "";
      apiVersion := 1;
      projectSlug := "";
      ignoredPaths := [];
      rawFormat := false;
    }

    /** `loadConfig`. */
    method LoadConfig(file: ConfigFile) returns (out: LoadOutcome)
      modifies this
      ensures out == ConfigApplied(old(Current()), file)
      ensures out.Loaded? ==> Current() == out.values
    {
      if file.Unreadable? {
        return Loaded(Current());
      }
      if file.Undecodable? {
        return LoadOutcome.Exited(1);
      }
      var doc := file.doc;
      ghost var start := Current();
      if "api_endpoint" in doc {
        if !doc["api_endpoint"].YStr? {
          return Panicked;
        }
        apiEndpoint := doc["api_endpoint"].s;
      }
      if "api_key" in doc {
        if !doc["api_key"].YStr? {
          return Panicked;
        }
        apiKey := doc["api_key"].s;
      }
      if "project_slug" in doc {
        if !doc["project_slug"].YStr? {
          return Panicked;
        }
        projectSlug := doc["project_slug"].s;
      }
      if "ignored_paths" in doc {
        var ips := doc["ignored_paths"];
        if !ips.YList? {
          return Panicked;
        }
        var appended := AppendIgnoredPaths(ips.items);
        if !appended {
          return Panicked;
        }
      }
      assert WellTyped(doc);
      assert ignoredPaths == start.ignoredPaths + (if "ignored_paths" in doc then Strings(doc["ignored_paths"].items) else []);
      return Loaded(Current());
    }

    /**
     * The `ignored_paths` loop: each entry, asserted to be a string, is
     * appended in turn; a non-string entry panics part-way.
     */
    method AppendIgnoredPaths(items: seq<Yaml>) returns (ok: bool)
      modifies this
      ensures ok <==> AllStrings(items)
      ensures ok ==> Current() == old(Current()).(ignoredPaths := old(ignoredPaths) + Strings(items))
    {
      ghost var before := Current();
      for i := 0 to |items|
        invariant Current() == before.(ignoredPaths := ignoredPaths)
        invariant AllStrings(items[..i])
        invariant ignoredPaths == before.ignoredPaths + Strings(items[..i])
      {
        if !items[i].YStr? {
          return false;
        }
        assert items[..i + 1] == items[..i] + [items[i]];
        ignoredPaths := ignoredPaths + [items[i].s];
      }
      assert items[..|items|] == items;
      return true;
    }

    /** `loadEnv`. */
    method LoadEnv(env: map<string, string>)
      modifies this
      ensures Current() == EnvApplied(old(Current()), env)
    {
      apiEndpoint := GetEnvOrElse(env, EnvApiEndpoint, apiEndpoint);
      apiKey := GetEnvOrElse(env, EnvToken, apiKey);
      projectSlug := GetEnvOrElse(env, EnvProjectSlug, projectSlug);
      var ip := Getenv(env, EnvIgnoredPaths);
      if ip != "" {
        ignoredPaths := Split(ip, ',');
      }
      var raw := Getenv(env, EnvRawFormat);
      if raw != "" {
        rawFormat := true;
      }
    }

    /** `init`: the file first, then the environment, which overrides it. */
    method Init(file: ConfigFile, env: map<string, string>) returns (out: LoadOutcome)
      requires Current() == Initial
      modifies this
      ensures out == Startup(file, env)
      ensures out.Loaded? ==> Current() == out.values
    {
      out := LoadConfig(file);
      if out.Loaded? {
        LoadEnv(env);
        out := Loaded(Current());
      }
    }
  }
}
