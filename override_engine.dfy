/** The override engine as the source runs it: loops that call `add_section`
    and `set` on the one mutable store (configparser_override.py). Each
    method is proved to leave the store in the state the matching function
    of OverridePasses and OverrideStrategy describes, so the properties
    proved there hold of these loops. */
module OverrideEngine {
  import opened Wrappers
  import opened IniStore
  import opened Environ
  import opened OverrideKeys
  import opened EnvScan
  import opened OverridePasses
  import opened OverrideStrategy

  /** One turn of a create-new loop. */
  method CreateTurn(store: ConfigStore, key: string, value: string) returns (r: Outcome<Error>)
    requires store.Valid()
    modifies store
    ensures store.Valid()
    ensures Run(store.State(), r) == CreateStep(old(store.State()), key, value)
  {
    var section, option := ParseKey(key).0, ParseKey(key).1;
    if !store.HasSection(section) {
      var added := store.AddSection(section);
      if added.Fail? {
        return added;
      }
    }
    r := store.Set(section, option, value);
  }

  /** A create-new loop (`override_env(True)`, `override_direct(True)`,
      `PrefixNewEnvStrategy.execute`): for each key in order, add its
      section when `has_section` says it is missing, then `set` the value;
      the first exception ends the loop. */
  method CreateInPlace(store: ConfigStore, kvs: Env) returns (r: Outcome<Error>)
    requires store.Valid()
    modifies store
    ensures store.Valid()
    ensures Run(store.State(), r) == CreatePass(old(store.State()), kvs)
  {
    ghost var st0 := store.State();
    var i := 0;
    while i < |kvs|
      invariant 0 <= i <= |kvs|
      invariant store.Valid()
      invariant CreatePass(st0, kvs[..i]) == Run(store.State(), Pass)
    {
      CreatePassNext(st0, kvs, i);
      r := CreateTurn(store, kvs[i].0, kvs[i].1);
      if r.Fail? {
        CreatePassStops(st0, kvs, i + 1);
        return;
      }
      i := i + 1;
    }
    assert kvs[..i] == kvs;
    r := Pass;
  }

  lemma CreatePassNext(st: IniState, kvs: Env, i: nat)
    requires i < |kvs| && CreatePass(st, kvs[..i]).outcome.Pass?
    ensures CreatePass(st, kvs[..i + 1]) == CreateStep(CreatePass(st, kvs[..i]).st, kvs[i].0, kvs[i].1)
  {
    assert kvs[..i + 1][..i] == kvs[..i];
  }

  /** One turn of a no-new loop. */
  method NoNewTurn(store: ConfigStore, key: string, value: string) returns (r: Outcome<Error>)
    requires store.Valid()
    modifies store
    ensures store.Valid()
    ensures Run(store.State(), r) == NoNewStep(old(store.State()), key, value)
  {
    var section, option := ParseKey(key).0, ParseKey(key).1;
    if store.HasSection(section) && store.HasOption(section, option) {
      r := store.Set(section, option, value);
    } else {
      r := Pass;
    }
  }

  /** A no-new loop (`override_direct(False)`,
      `NoPrefixNoNewStrategy.execute`): `set` a key only when its section
      exists and already shows the option; the first exception ends the
      loop. */
  method NoNewInPlace(store: ConfigStore, kvs: Env) returns (r: Outcome<Error>)
    requires store.Valid()
    modifies store
    ensures store.Valid()
    ensures Run(store.State(), r) == NoNewPass(old(store.State()), kvs)
  {
    ghost var st0 := store.State();
    var i := 0;
    while i < |kvs|
      invariant 0 <= i <= |kvs|
      invariant store.Valid()
      invariant NoNewPass(st0, kvs[..i]) == Run(store.State(), Pass)
    {
      NoNewPassNext(st0, kvs, i);
      r := NoNewTurn(store, kvs[i].0, kvs[i].1);
      if r.Fail? {
        NoNewPassStops(st0, kvs, i + 1);
        return;
      }
      i := i + 1;
    }
    assert kvs[..i] == kvs;
    r := Pass;
  }

  lemma NoNewPassNext(st: IniState, kvs: Env, i: nat)
    requires i < |kvs| && NoNewPass(st, kvs[..i]).outcome.Pass?
    ensures NoNewPass(st, kvs[..i + 1]) == NoNewStep(NoNewPass(st, kvs[..i]).st, kvs[i].0, kvs[i].1)
  {
    assert kvs[..i + 1][..i] == kvs[..i];
  }

  /** `Strategy` and its six subclasses, told apart by `kind`: the store it
      works on, the environment prefix and the direct overrides. The
      environment is passed to each call. */
  class Strategy {
    const kind: StrategyKind
    const config: ConfigStore
    const envPrefix: string
    const overrides: Env

    constructor (kind: StrategyKind, config: ConfigStore, envPrefix: string, overrides: Env)
      ensures this.kind == kind && this.config == config
      ensures this.envPrefix == envPrefix && this.overrides == overrides
    {
      this.kind := kind;
      this.config := config;
      this.envPrefix := envPrefix;
      this.overrides := overrides;
    }

    /** `override_env(create_new_options)`. */
    method OverrideEnv(env: Env, createNew: bool) returns (r: Outcome<Error>)
      requires config.Valid()
      modifies config
      ensures config.Valid()
      ensures Leaves(EnvPass(old(config.State()), envPrefix, env, createNew), old(config.State()), config.State(), r)
    {
      if createNew {
        var collected := CollectEnvVarsWithPrefix(env, envPrefix);
        r := CreateInPlace(config, collected);
      } else {
        r := ScanInPlace(config, env, OverrideScheme(envPrefix));
      }
    }

    /** `override_direct(create_new_options)`. */
    method OverrideDirect(createNew: bool) returns (r: Outcome<Error>)
      requires config.Valid()
      modifies config
      ensures config.Valid()
      ensures Run(config.State(), r) == DirectPass(old(config.State()), overrides, createNew)
    {
      if createNew {
        r := CreateInPlace(config, overrides);
      } else {
        r := NoNewInPlace(config, overrides);
      }
    }

    /** `execute()` of the strategy `kind`; an exception of the first pass
        skips the second. */
    method Execute(env: Env) returns (r: Outcome<Error>)
      requires config.Valid()
      modifies config
      ensures config.Valid()
      ensures Leaves(StrategyRun(kind, old(config.State()), envPrefix, overrides, env), old(config.State()), config.State(), r)
    {
      match kind
      case NoPrefixNoNew =>
        r := NoNewInPlace(config, overrides);
      case PrefixNewEnv =>
        var collected := CollectEnvVarsWithPrefix(env, envPrefix);
        r := CreateInPlace(config, collected);
      case _ =>
        r := OverrideEnv(env, kind.PrefixNewEnvNewDirect?);
        if r.Pass? {
          r := OverrideDirect(CreatesFromDirect(kind));
        }
    }
  }

  /** `ConfigParserOverride`: the settings it was built with and the store
      it owns. */
  class ConfigParserOverride {
    const envPrefix: string
    const createNewFromEnv: bool
    const createNewFromDirect: bool
    const overrides: Env
    const config: ConfigStore

    constructor (envPrefix: string, createNewFromEnv: bool, createNewFromDirect: bool, overrides: Env)
      ensures this.envPrefix == envPrefix && this.createNewFromEnv == createNewFromEnv
      ensures this.createNewFromDirect == createNewFromDirect && this.overrides == overrides
      ensures fresh(config) && config.Valid() && config.State() == Empty
    {
      this.envPrefix := envPrefix;
      this.createNewFromEnv := createNewFromEnv;
      this.createNewFromDirect := createNewFromDirect;
      this.overrides := overrides;
      config := new ConfigStore();
    }

    /** `__init__`: creating options from the environment needs a prefix
        (an AssertionError otherwise). Settings it accepts always select a
        strategy. */
    static method New(envPrefix: string, createNewFromEnv: bool, createNewFromDirect: bool, overrides: Env)
      returns (r: Result<ConfigParserOverride, OverrideError>)
      ensures r.Failure? <==> createNewFromEnv && envPrefix == ""
      ensures r.Failure? ==> r.error == PrefixRequired
      ensures r.Success? ==>
        && fresh(r.value) && fresh(r.value.config)
        && r.value.envPrefix == envPrefix && r.value.createNewFromEnv == createNewFromEnv
        && r.value.createNewFromDirect == createNewFromDirect && r.value.overrides == overrides
        && r.value.config.Valid() && r.value.config.State() == Empty
        && GetStrategy(envPrefix, createNewFromEnv, createNewFromDirect).Success?
    {
      if createNewFromEnv && envPrefix == "" {
        return Failure(PrefixRequired);
      }
      var o := new ConfigParserOverride(envPrefix, createNewFromEnv, createNewFromDirect, overrides);
      r := Success(o);
    }

    /** `read(filenames)`: `loaded` is what reading the files leaves in the
        store, merged into what it already held. The strategy is selected before anything runs, so a selection
        failure leaves the store as loaded; otherwise the store is the
        strategy's result, and a `configparser` exception is passed on.
        Returns the store itself. */
    method Read(loaded: IniState, env: Env) returns (cfg: ConfigStore, r: Outcome<OverrideError>)
      requires loaded.Valid()
      modifies config
      ensures cfg == config && config.Valid()
      ensures match GetStrategy(envPrefix, createNewFromEnv, createNewFromDirect)
        case Failure(e) => r == Fail(e) && config.State() == loaded
        case Success(kind) =>
          match StrategyRun(kind, loaded, envPrefix, overrides, env)
          case Ran(run) =>
            && config.State() == run.st
            && r == (if run.outcome.Pass? then Pass else Fail(ConfigError(run.outcome.error)))
          case ScanRaised =>
            r.Fail? && r.error.ConfigError? && RejectedValue(r.error.error) && SameSections(loaded, config.State())
    {
      cfg := config;
      config.Load(loaded);
      var selected := GetStrategy(envPrefix, createNewFromEnv, createNewFromDirect);
      match selected
      case Failure(e) =>
        r := Fail(e);
      case Success(kind) =>
        var strategy := new Strategy(kind, config, envPrefix, overrides);
        var done := strategy.Execute(env);
        r := if done.Pass? then Pass else Fail(ConfigError(done.error));
    }
  }
}
