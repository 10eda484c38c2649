/** `ConfigEnvParser` (configenvparser.py): read the files, then overwrite
    every existing option whose upper-cased environment name is set. It
    never creates an option. The scan itself is EnvScan's, under the naming
    scheme `EnvParserScheme`. */
module EnvParser {
  import opened Wrappers
  import opened Text
  import opened IniStore
  import opened Environ
  import opened EnvScan

  class ConfigEnvParser {
    const config: ConfigStore
    const envPrefix: string

    /** `__init__(env_prefix)`: an empty store. */
    constructor (envPrefix: string)
      ensures this.envPrefix == envPrefix
      ensures fresh(config) && config.Valid() && config.State() == Empty
    {
      this.envPrefix := envPrefix;
      config := new ConfigStore();
    }

    /** `_find_and_override`: the section loop, then the default loop; a
        value `set` rejects raises ValueError and ends it. */
    method FindAndOverride(env: Env) returns (r: Outcome<Error>)
      requires config.Valid()
      modifies config
      ensures config.Valid()
      ensures r.Pass? <==> ScanOk(old(config.State()), env, EnvParserScheme(envPrefix))
      ensures r.Pass? ==> config.State() == ScanExisting(old(config.State()), env, EnvParserScheme(envPrefix))
      ensures r.Fail? ==> RejectedValue(r.error) && SameSections(old(config.State()), config.State())
    {
      r := ScanInPlace(config, env, EnvParserScheme(envPrefix));
    }

    /** `read(filenames)`: `loaded` is what reading the files leaves in the
        store, merged into what it already held; the overrides follow, and the store itself is returned, unless
        the overrides raise. */
    method Read(loaded: IniState, env: Env) returns (cfg: ConfigStore, r: Outcome<Error>)
      requires loaded.Valid()
      modifies config
      ensures cfg == config && config.Valid()
      ensures r.Pass? <==> ScanOk(loaded, env, EnvParserScheme(envPrefix))
      ensures r.Pass? ==> config.State() == ScanExisting(loaded, env, EnvParserScheme(envPrefix))
      ensures r.Fail? ==> RejectedValue(r.error) && SameSections(loaded, config.State())
    {
      config.Load(loaded);
      r := FindAndOverride(env);
      cfg := config;
    }
  }

  /** No lower-case ASCII letter occurs in `s`. */
  predicate NoLowerCase(s: string)
  {
    forall i :: 0 <= i < |s| ==> !('a' <= s[i] <= 'z')
  }

  /** Every name the parser consults is upper-cased. */
  lemma NamesAreUpperCase(prefix: string, section: string, option: string)
    ensures NoLowerCase(SectionVar(EnvParserScheme(prefix), section, option))
    ensures NoLowerCase(DefaultVar(EnvParserScheme(prefix), option))
  {
  }

  /** The environment without the entries whose name holds a lower-case
      letter. */
  function WithoutLowerCase(env: Env): (r: Env)
    ensures forall i :: 0 <= i < |r| ==> NoLowerCase(r[i].0)
    ensures forall e :: e in r ==> e in env
    decreases |env|
  {
    if env == [] then []
    else if NoLowerCase(env[0].0) then [env[0]] + WithoutLowerCase(env[1..])
    else WithoutLowerCase(env[1..])
  }

  lemma {:induction false} LookupWithoutLowerCase(env: Env, name: string)
    requires NoLowerCase(name)
    ensures Lookup(WithoutLowerCase(env), name) == Lookup(env, name)
    decreases |env|
  {
    if env != [] {
      LookupWithoutLowerCase(env[1..], name);
      if NoLowerCase(env[0].0) {
        assert ([env[0]] + WithoutLowerCase(env[1..]))[1..] == WithoutLowerCase(env[1..]);
      }
    }
  }

  /** So an environment variable whose name holds a lower-case letter never
      overrides anything and never makes the pass raise: the parser behaves
      as if it were not set. */
  lemma IgnoresLowerCaseNames(st: IniState, env: Env, prefix: string)
    requires st.Valid()
    ensures ScanExisting(st, env, EnvParserScheme(prefix)) == ScanExisting(st, WithoutLowerCase(env), EnvParserScheme(prefix))
    ensures ScanOk(st, env, EnvParserScheme(prefix)) == ScanOk(st, WithoutLowerCase(env), EnvParserScheme(prefix))
  {
    var n := EnvParserScheme(prefix);
    var env2 := WithoutLowerCase(env);
    forall section, opts ensures Found(env, n, section, opts) == Found(env2, n, section, opts) {
      FoundWithoutLowerCase(env, prefix, section, opts);
    }
    forall keys ensures DefaultsFound(env, n, keys) == DefaultsFound(env2, n, keys) {
      DefaultsFoundWithoutLowerCase(env, prefix, keys);
    }
    SameFindsSameScan(st, env, env2, n, st.order);
  }

  lemma FoundWithoutLowerCase(env: Env, prefix: string, section: string, opts: set<string>)
    ensures Found(env, EnvParserScheme(prefix), section, opts) == Found(WithoutLowerCase(env), EnvParserScheme(prefix), section, opts)
  {
    var n := EnvParserScheme(prefix);
    forall o | o in opts
      ensures Lookup(env, SectionVar(n, section, o)) == Lookup(WithoutLowerCase(env), SectionVar(n, section, o))
    {
      NamesAreUpperCase(prefix, section, o);
      LookupWithoutLowerCase(env, SectionVar(n, section, o));
    }
  }

  lemma DefaultsFoundWithoutLowerCase(env: Env, prefix: string, keys: set<string>)
    ensures DefaultsFound(env, EnvParserScheme(prefix), keys) == DefaultsFound(WithoutLowerCase(env), EnvParserScheme(prefix), keys)
  {
    var n := EnvParserScheme(prefix);
    forall o | o in keys
      ensures Lookup(env, DefaultVar(n, o)) == Lookup(WithoutLowerCase(env), DefaultVar(n, o))
    {
      NamesAreUpperCase(prefix, "", o);
      LookupWithoutLowerCase(env, DefaultVar(n, o));
    }
  }

  lemma {:induction false} SameFindsSameScan(st: IniState, env1: Env, env2: Env, n: Naming, names: seq<string>)
    requires st.Valid() && forall s :: s in names ==> s in st.sections
    requires forall section, opts :: Found(env1, n, section, opts) == Found(env2, n, section, opts)
    requires forall keys :: DefaultsFound(env1, n, keys) == DefaultsFound(env2, n, keys)
    ensures ScanSections(st, env1, n, names) == ScanSections(st, env2, n, names)
    ensures ScanSectionsOk(st, env1, n, names) == ScanSectionsOk(st, env2, n, names)
    ensures names == st.order ==> ScanExisting(st, env1, n) == ScanExisting(st, env2, n)
    ensures names == st.order ==> ScanOk(st, env1, n) == ScanOk(st, env2, n)
    decreases |names|
  {
    if names != [] {
      SameFindsSameScan(st, env1, env2, n, names[..|names| - 1]);
    }
  }

  /** With the `"_"` separator the names are ambiguous: a `_`-joined part
      moved from the end of the section to the front of the option gives the
      same variable (section `"a_b"` option `"c"` and section `"a"` option
      `"b_c"`), and so does every section with the same upper-case form. */
  lemma NamesCollide(prefix: string, section: string, part: string, option: string, other: string)
    requires Upper(other) == Upper(section)
    ensures SectionVar(EnvParserScheme(prefix), section + "_" + part, option) ==
      SectionVar(EnvParserScheme(prefix), section, part + "_" + option)
    ensures SectionVar(EnvParserScheme(prefix), other, option) == SectionVar(EnvParserScheme(prefix), section, option)
  {
    var head := if prefix != "" then prefix + "__" else "";
    assert head + (section + "_" + part) + "_" + option == head + section + "_" + (part + "_" + option);
    UpperConcat(head, other + "_" + option);
    UpperConcat(head, section + "_" + option);
    UpperConcat(other, "_" + option);
    UpperConcat(section, "_" + option);
  }

  /** Upper-casing works character by character. */
  lemma UpperConcat(a: string, b: string)
    ensures Upper(a + b) == Upper(a) + Upper(b)
  {
  }
}
