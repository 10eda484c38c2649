/** The six override strategies of configparser_override.py and the
    factory that picks one from the constructor's flags. A strategy runs the
    environment pass and then the direct pass (or only one of them); its
    effect on the store is `StrategyRun`. */
module OverrideStrategy {
  import opened Wrappers
  import opened Interpolation
  import opened IniStore
  import opened Environ
  import opened EnvScan
  import opened OverrideKeys
  import opened OverridePasses

  /** What `read` raises. */
  datatype OverrideError =
    | ConfigError(error: Error)      // raised by configparser during a pass
    | StrategyNotImplemented         // OverrideStrategyNotImplementedError
    | PrefixRequired                 // the constructor's AssertionError

  /** The members of `OverrideStrategies`. */
  datatype StrategyKind =
    | NoPrefixNoNew
    | NoPrefixNewDirect
    | PrefixNoNew
    | PrefixNewEnv
    | PrefixNewDirect
    | PrefixNewEnvNewDirect

  /** The factory's condition for each strategy. */
  predicate Condition(kind: StrategyKind, envPrefix: string, newFromEnv: bool, newFromDirect: bool)
  {
    match kind
    case NoPrefixNoNew => envPrefix == "" && !newFromEnv && !newFromDirect
    case NoPrefixNewDirect => envPrefix == "" && !newFromEnv && newFromDirect
    case PrefixNoNew => envPrefix != "" && !newFromEnv && !newFromDirect
    case PrefixNewEnv => envPrefix != "" && newFromEnv && !newFromDirect
    case PrefixNewDirect => envPrefix != "" && !newFromEnv && newFromDirect
    case PrefixNewEnvNewDirect => envPrefix != "" && newFromEnv && newFromDirect
  }

  /** `StrategyFactory.get_strategy`: the first condition that holds picks the
      strategy; if none holds it raises. */
  function GetStrategy(envPrefix: string, newFromEnv: bool, newFromDirect: bool): (r: Result<StrategyKind, OverrideError>)
    ensures r.Success? ==> Condition(r.value, envPrefix, newFromEnv, newFromDirect)
    ensures r.Failure? <==> envPrefix == "" && newFromEnv
    ensures r.Failure? ==> r.error == StrategyNotImplemented
  {
    if Condition(NoPrefixNoNew, envPrefix, newFromEnv, newFromDirect) then Success(NoPrefixNoNew)
    else if Condition(NoPrefixNewDirect, envPrefix, newFromEnv, newFromDirect) then Success(NoPrefixNewDirect)
    else if Condition(PrefixNoNew, envPrefix, newFromEnv, newFromDirect) then Success(PrefixNoNew)
    else if Condition(PrefixNewEnv, envPrefix, newFromEnv, newFromDirect) then Success(PrefixNewEnv)
    else if Condition(PrefixNewDirect, envPrefix, newFromEnv, newFromDirect) then Success(PrefixNewDirect)
    else if Condition(PrefixNewEnvNewDirect, envPrefix, newFromEnv, newFromDirect) then Success(PrefixNewEnvNewDirect)
    else Failure(StrategyNotImplemented)
  }

  /** The six conditions exclude each other, so the order of the `elif`
      chain does not matter, and every strategy is the one picked for its
      own flags. */
  lemma ConditionsExclusive(k1: StrategyKind, k2: StrategyKind, envPrefix: string, newFromEnv: bool, newFromDirect: bool)
    ensures Condition(k1, envPrefix, newFromEnv, newFromDirect) && Condition(k2, envPrefix, newFromEnv, newFromDirect) ==> k1 == k2
    ensures Condition(k1, envPrefix, newFromEnv, newFromDirect) ==> GetStrategy(envPrefix, newFromEnv, newFromDirect) == Success(k1)
  {
    match k1
    case NoPrefixNoNew =>
    case NoPrefixNewDirect =>
    case PrefixNoNew =>
    case PrefixNewEnv =>
    case PrefixNewDirect =>
    case PrefixNewEnvNewDirect =>
  }

  // -----------------------------------------------------------------------
  // The passes and the strategies

  /** What a strategy leaves. `Ran` holds the store and the outcome of its
      passes. `ScanRaised` is a ValueError of the pass over existing options
      (`override_env(False)`): it visits options in the order of Python
      dicts, which the model does not keep, so the options it had written by
      then are not determined here. */
  datatype Effect = Ran(run: Run) | ScanRaised

  /** `override_env(create_new_options)`. */
  function EnvPass(st: IniState, envPrefix: string, env: Env, createNew: bool): Effect
    requires st.Valid()
  {
    if createNew then Ran(CreatePass(st, CollectEnvVarsWithPrefix(env, envPrefix)))
    else if ScanOk(st, env, OverrideScheme(envPrefix)) then Ran(Run(ScanExisting(st, env, OverrideScheme(envPrefix)), Pass))
    else ScanRaised
  }

  /** `override_direct(create_new_options)`. */
  function DirectPass(st: IniState, overrides: Env, createNew: bool): Run
  {
    if createNew then CreatePass(st, overrides) else NoNewPass(st, overrides)
  }

  /** The direct pass after `first`, unless `first` raised. */
  function ThenDirect(first: Effect, overrides: Env, createNew: bool): Effect
  {
    match first
    case ScanRaised => ScanRaised
    case Ran(run) => if run.outcome.Fail? then first else Ran(DirectPass(run.st, overrides, createNew))
  }

  /** `execute` of each strategy. */
  function StrategyRun(kind: StrategyKind, st: IniState, envPrefix: string, overrides: Env, env: Env): Effect
    requires st.Valid()
  {
    match kind
    case NoPrefixNoNew => Ran(NoNewPass(st, overrides))
    case NoPrefixNewDirect => ThenDirect(EnvPass(st, envPrefix, env, false), overrides, true)
    case PrefixNoNew => ThenDirect(EnvPass(st, envPrefix, env, false), overrides, false)
    case PrefixNewEnv => Ran(CreatePass(st, CollectEnvVarsWithPrefix(env, envPrefix)))
    case PrefixNewDirect => ThenDirect(EnvPass(st, envPrefix, env, false), overrides, true)
    case PrefixNewEnvNewDirect => ThenDirect(EnvPass(st, envPrefix, env, true), overrides, true)
  }

  /** The strategies that run a create-new direct pass last. */
  predicate CreatesFromDirect(kind: StrategyKind)
  {
    kind.NoPrefixNewDirect? || kind.PrefixNewDirect? || kind.PrefixNewEnvNewDirect?
  }

  /** The strategies that run the pass over existing options. */
  predicate ScansExisting(kind: StrategyKind)
  {
    kind.NoPrefixNewDirect? || kind.PrefixNoNew? || kind.PrefixNewDirect?
  }

  /** Whether `after` and `r` are what a strategy whose effect is `e` can
      leave, starting from `before`: the store and outcome of the run, or,
      after a raised scan, the scan's ValueError with the sections as they
      were. */
  ghost predicate Leaves(e: Effect, before: IniState, after: IniState, r: Outcome<Error>)
  {
    match e
    case Ran(run) => Run(after, r) == run
    case ScanRaised => r.Fail? && RejectedValue(r.error) && SameSections(before, after)
  }

  /** A strategy raises in its pass over existing options exactly when it
      runs one and that pass meets a value `set` rejects: with no section
      named "", an environment value under the name of an option some
      section shows, or of a default option. */
  lemma ScanRaisedIff(kind: StrategyKind, st: IniState, envPrefix: string, overrides: Env, env: Env)
    requires st.Valid()
    ensures StrategyRun(kind, st, envPrefix, overrides, env).ScanRaised? <==>
      ScansExisting(kind) && !ScanOk(st, env, OverrideScheme(envPrefix))
    ensures var n := OverrideScheme(envPrefix);
      "" !in st.sections ==>
        (StrategyRun(kind, st, envPrefix, overrides, env).ScanRaised? <==>
           && ScansExisting(kind)
           && !((forall s :: s in st.sections ==> AllValid(Found(env, n, s, st.Options(s))))
                && AllValid(DefaultsFound(env, n, st.defaults.Keys))))
  {
    if "" !in st.sections {
      ScanOkClosedForm(st, env, OverrideScheme(envPrefix));
    }
  }

  /** Every strategy that runs to an outcome leaves the store well formed,
      whether or not it raises. */
  lemma StrategyKeepsValid(kind: StrategyKind, st: IniState, envPrefix: string, overrides: Env, env: Env)
    requires st.Valid()
    ensures var r := StrategyRun(kind, st, envPrefix, overrides, env);
      r.Ran? ==> r.run.st.Valid()
  {
    ScanExistingKeepsValid(st, env, OverrideScheme(envPrefix));
    var scanned := ScanExisting(st, env, OverrideScheme(envPrefix));
    var collected := CollectEnvVarsWithPrefix(env, envPrefix);
    match kind
    case NoPrefixNoNew => NoNewPassSpec(st, overrides);
    case PrefixNoNew => NoNewPassSpec(scanned, overrides);
    case PrefixNewEnv => CreatePassKeepsValid(st, collected);
    case PrefixNewEnvNewDirect =>
      CreatePassKeepsValid(st, collected);
      CreatePassKeepsValid(CreatePass(st, collected).st, overrides);
    case _ => CreatePassKeepsValid(scanned, overrides);
  }

  /** The strategies that create nothing (`NoPrefixNoNewStrategy`,
      `PrefixNoNewStrategy`) never add a section, whether they complete or
      raise in the direct pass; when no section is named "" they do not
      change what `has_option` reports either. */
  lemma NoNewStrategiesAddNoSection(kind: StrategyKind, st: IniState, envPrefix: string, overrides: Env, env: Env)
    requires st.Valid() && (kind.NoPrefixNoNew? || kind.PrefixNoNew?)
    ensures var r := StrategyRun(kind, st, envPrefix, overrides, env);
      r.Ran? ==>
        && r.run.st.order == st.order && r.run.st.sections.Keys == st.sections.Keys
        && ("" !in st.sections ==> forall s, o :: r.run.st.HasOption(s, o) == st.HasOption(s, o))
  {
    if kind.NoPrefixNoNew? {
      NoNewPassSpec(st, overrides);
    } else {
      ScanExistingKeepsValid(st, env, OverrideScheme(envPrefix));
      var scanned := ScanExisting(st, env, OverrideScheme(envPrefix));
      NoNewPassSpec(scanned, overrides);
      if "" !in st.sections {
        ScanKeepsVisibleOptions(st, env, OverrideScheme(envPrefix));
      }
    }
  }

  /** They raise only on values: `NoPrefixNoNewStrategy` raises exactly when
      an override it accepts has a value `set` rejects, and so does
      `PrefixNoNewStrategy` once its environment pass has completed (with no
      section named ""). */
  lemma NoNewStrategiesRaise(kind: StrategyKind, st: IniState, envPrefix: string, overrides: Env, env: Env)
    requires st.Valid() && (kind.NoPrefixNoNew? || (kind.PrefixNoNew? && "" !in st.sections))
    ensures var r := StrategyRun(kind, st, envPrefix, overrides, env);
      r.Ran? ==> (r.run.outcome.Fail? <==> RejectsValue(st, overrides))
  {
    if kind.NoPrefixNoNew? {
      NoNewPassFailure(st, overrides);
    } else {
      ScanExistingKeepsValid(st, env, OverrideScheme(envPrefix));
      var scanned := ScanExisting(st, env, OverrideScheme(envPrefix));
      NoNewPassFailure(scanned, overrides);
      ScanKeepsAccepted(st, env, OverrideScheme(envPrefix));
      assert RejectsValue(scanned, overrides) == RejectsValue(st, overrides);
    }
  }

  /** In the strategies that run the environment pass and then a
      create-new direct pass, the direct value wins: when the strategy
      completes, a slot some override writes holds the last such value,
      whatever the environment held. */
  lemma DirectOverridesWin(kind: StrategyKind, st: IniState, envPrefix: string, overrides: Env, env: Env, i: nat)
    requires st.Valid() && CreatesFromDirect(kind)
    requires i < |overrides| && forall j :: i < j < |overrides| ==> Target(overrides[j].0) != Target(overrides[i].0)
    ensures var r := StrategyRun(kind, st, envPrefix, overrides, env);
      r.Ran? && r.run.outcome.Pass? ==> r.run.st.At(Target(overrides[i].0)) == Some(overrides[i].1)
  {
    var first := EnvPass(st, envPrefix, env, kind.PrefixNewEnvNewDirect?);
    if first.Ran? {
      CreatePassLastWins(first.run.st, overrides, i);
    }
  }

  /** In `PrefixNoNewStrategy`, with no section named "", the direct value
      wins over the environment for every override the store accepts, when
      the strategy completes. */
  lemma DirectOverridesWinWithoutCreating(st: IniState, envPrefix: string, overrides: Env, env: Env, i: nat)
    requires st.Valid() && "" !in st.sections
    requires i < |overrides| && Accepted(st, overrides[i].0)
    requires forall j :: i < j < |overrides| && Accepted(st, overrides[j].0) ==> Target(overrides[j].0) != Target(overrides[i].0)
    ensures var r := StrategyRun(PrefixNoNew, st, envPrefix, overrides, env);
      r.Ran? && r.run.outcome.Pass? ==> r.run.st.At(Target(overrides[i].0)) == Some(overrides[i].1)
  {
    var scanned := ScanExisting(st, env, OverrideScheme(envPrefix));
    if ScanOk(st, env, OverrideScheme(envPrefix)) {
      assert StrategyRun(PrefixNoNew, st, envPrefix, overrides, env) == Ran(NoNewPass(scanned, overrides));
      ScanExistingKeepsValid(st, env, OverrideScheme(envPrefix));
      ScanKeepsAccepted(st, env, OverrideScheme(envPrefix));
      NoNewPassLastWins(scanned, overrides, i);
    }
  }

  /** With no section named "", the environment pass does not change which
      keys a no-new pass accepts. */
  lemma ScanKeepsAccepted(st: IniState, env: Env, n: Naming)
    requires st.Valid() && "" !in st.sections
    ensures forall key :: Accepted(ScanExisting(st, env, n), key) == Accepted(st, key)
  {
    ScanKeepsVisibleOptions(st, env, n);
  }

  /** `NoPrefixNoNewStrategy` never reads the environment: its result is the
      same for every environment and prefix, and a slot no accepted override
      writes keeps its value. */
  lemma NoPrefixNoNewIgnoresEnvironment(st: IniState, envPrefix: string, overrides: Env, env: Env, otherPrefix: string, otherEnv: Env, slot: Slot)
    requires st.Valid()
    ensures StrategyRun(NoPrefixNoNew, st, envPrefix, overrides, env) == StrategyRun(NoPrefixNoNew, st, otherPrefix, overrides, otherEnv)
    ensures (forall i :: 0 <= i < |overrides| && Accepted(st, overrides[i].0) ==> Target(overrides[i].0) != slot) ==>
      StrategyRun(NoPrefixNoNew, st, envPrefix, overrides, env).run.st.At(slot) == st.At(slot)
  {
    if forall i :: 0 <= i < |overrides| && Accepted(st, overrides[i].0) ==> Target(overrides[i].0) != slot {
      NoNewPassKeepsUnwritten(st, overrides, slot);
    }
  }

  /** `PrefixNewEnvStrategy` never applies the direct overrides: its result
      is the same for every table of overrides, and after it completes a
      slot holds the last collected environment value written to it. */
  lemma PrefixNewEnvIgnoresOverrides(st: IniState, envPrefix: string, overrides: Env, env: Env, otherOverrides: Env, i: nat)
    requires st.Valid()
    requires var collected := CollectEnvVarsWithPrefix(env, envPrefix);
      i < |collected| && forall j :: i < j < |collected| ==> Target(collected[j].0) != Target(collected[i].0)
    ensures StrategyRun(PrefixNewEnv, st, envPrefix, overrides, env) == StrategyRun(PrefixNewEnv, st, envPrefix, otherOverrides, env)
    ensures var collected := CollectEnvVarsWithPrefix(env, envPrefix);
      var r := StrategyRun(PrefixNewEnv, st, envPrefix, overrides, env).run;
      r.outcome.Pass? ==> r.st.At(Target(collected[i].0)) == Some(collected[i].1)
  {
    var collected := CollectEnvVarsWithPrefix(env, envPrefix);
    CreatePassLastWins(st, collected, i);
  }

  /** A strategy that creates from both sources always runs to an outcome,
      and raises exactly when some collected environment entry or some
      override raises: a key naming the default section or a value `set`
      rejects. */
  lemma BothSourcesFailure(st: IniState, envPrefix: string, overrides: Env, env: Env)
    requires st.Valid()
    ensures StrategyRun(PrefixNewEnvNewDirect, st, envPrefix, overrides, env).Ran?
    ensures StrategyRun(PrefixNewEnvNewDirect, st, envPrefix, overrides, env).run.outcome.Fail? <==>
      HasRaisingEntry(CollectEnvVarsWithPrefix(env, envPrefix)) || HasRaisingEntry(overrides)
  {
    var collected := CollectEnvVarsWithPrefix(env, envPrefix);
    var first := CreatePass(st, collected);
    CreatePassFailure(st, collected);
    CreatePassKeepsValid(st, collected);
    CreatePassFailure(first.st, overrides);
  }

  /** When it completes, it has added exactly the sections either source
      names. */
  lemma BothSourcesSections(st: IniState, envPrefix: string, overrides: Env, env: Env)
    requires st.Valid()
    ensures var r := StrategyRun(PrefixNewEnvNewDirect, st, envPrefix, overrides, env).run;
      r.outcome.Pass? ==>
        r.st.sections.Keys == st.sections.Keys + KeySections(CollectEnvVarsWithPrefix(env, envPrefix)) + KeySections(overrides)
  {
    var collected := CollectEnvVarsWithPrefix(env, envPrefix);
    var first := CreatePass(st, collected);
    assert StrategyRun(PrefixNewEnvNewDirect, st, envPrefix, overrides, env) == ThenDirect(Ran(first), overrides, true);
    if first.outcome.Pass? {
      CreatePassSections(st, collected);
      CreatePassKeepsValid(st, collected);
      CreatePassSections(first.st, overrides);
    }
  }
}
