/** The section choice of `load_config`: the deployment environment string
    picks one top-level section of the parsed configuration file. */
module Config {
  import opened Wrappers

  /** The three sections the configuration file may hold. */
  datatype Section = Development | Production | Local

  /** The configuration error the source raises. */
  datatype ConfigError = MissingSection(key: string)

  /** The top-level key under which a section is stored. */
  function Key(sec: Section): string
  {
    match sec
    case Development => "development"
    case Production => "production"
    case Local => "local"
  }

  /** The text of the exception raised for a missing section: the fixed
      wording with the missing key quoted at position 9. */
  function Message(e: ConfigError): (r: string)
    ensures |r| == |e.key| + 33
    ensures r[9..9 + |e.key|] == e.key
    ensures r[..9] == "Missing '"
    ensures r[9 + |e.key|..] == "' section in config file"
  {
    "Missing '" + e.key + "' section in config file"
  }

  /** Different missing keys give different exception texts, so the text
      identifies the section that was missing. */
  lemma MessageNamesKey(e1: ConfigError, e2: ConfigError)
    ensures Message(e1) == Message(e2) ==> e1 == e2
  {
  }

  /** Python's `str.startswith`. */
  predicate StartsWith(s: string, prefix: string)
    ensures StartsWith(s, prefix) <==> prefix <= s
    ensures StartsWith(s, prefix) ==> forall k :: 0 <= k < |prefix| ==> s[k] == prefix[k]
  {
    |prefix| <= |s| && s[..|prefix|] == prefix
  }

  /** No string starts with both "develop" and "prod". */
  lemma PrefixesExclusive(env: string)
    ensures !(StartsWith(env, "develop") && StartsWith(env, "prod"))
  {
    if StartsWith(env, "develop") {
      assert env[..7][0] == 'd';
      assert env[..4][0] == env[..7][0];
      assert env[..4] != "prod";
    }
  }

  /** The section an environment string selects: "develop" is checked first,
      then "prod", and anything else falls back to the local section. As the
      two prefixes never both match, the order of the checks does not matter:
      each prefix selects its section exactly. */
  function SelectSection(env: string): (sec: Section)
    ensures sec == Development <==> StartsWith(env, "develop")
    ensures sec == Production <==> StartsWith(env, "prod")
    ensures sec == Local <==> !StartsWith(env, "develop") && !StartsWith(env, "prod")
  {
    PrefixesExclusive(env);
    if StartsWith(env, "develop") then Development
    else if StartsWith(env, "prod") then Production
    else Local
  }

  /** `load_config` after the file has been parsed into `config`: the
      selected section's value, or the error for its missing key. */
  function LoadConfig<T>(env: string, config: map<string, T>): (r: Result<T, ConfigError>)
    ensures r.Success? <==> Key(SelectSection(env)) in config
    ensures r.Success? ==> r.value == config[Key(SelectSection(env))]
    ensures r.Failure? ==> r.error == MissingSection(Key(SelectSection(env)))
  {
    var key := Key(SelectSection(env));
    if key in config then Success(config[key]) else Failure(MissingSection(key))
  }

  /** Every extension of "develop" selects the development section, and every
      extension of "prod" the production one. */
  lemma PrefixExtensions(rest: string)
    ensures SelectSection("develop" + rest) == Development
    ensures SelectSection("prod" + rest) == Production
  {
  }

  /** Sample environment names: extensions of each prefix, names matching
      neither, and the default "local". */
  lemma SelectionExamples()
    ensures SelectSection("development") == Development
    ensures SelectSection("develop-x") == Development
    ensures SelectSection("production") == Production
    ensures SelectSection("prod2") == Production
    ensures SelectSection("") == Local
    ensures SelectSection("staging") == Local
    ensures SelectSection("local") == Local
    ensures SelectSection("dev") == Local
  {
  }

  /** The result depends on the selected key alone: two configurations that
      agree on it (present with the same value, or both absent) give the same
      result, whatever their other sections hold. */
  lemma LoadConfigReadsOnlySelected<T>(env: string, c1: map<string, T>, c2: map<string, T>)
    requires var key := Key(SelectSection(env));
      (key in c1 <==> key in c2) && (key in c1 ==> c1[key] == c2[key])
    ensures LoadConfig(env, c1) == LoadConfig(env, c2)
  {
  }
}
