/** The "override existing options from the environment" pass. Two places
    run it: `Strategy.override_env(create_new_options=False)` in
    configparser_override.py and `ConfigEnvParser._find_and_override` in
    configenvparser.py. Both walk every section and every option that
    section shows (its own and the defaults), look up one environment name
    per option and overwrite the option when that name is set; then they do
    the same for the default section's options. They differ only in how the
    environment name is built, which `Naming` captures. A value `set`
    rejects raises ValueError and ends the pass. */
module EnvScan {
  import opened Wrappers
  import opened Text
  import opened Interpolation
  import opened IniStore
  import opened Environ

  datatype Naming =
    | OverrideScheme(prefix: string)    // configparser_override.py
    | EnvParserScheme(prefix: string)   // configenvparser.py

  /** The environment name consulted for `option` of a (non-default) section. */
  function SectionVar(n: Naming, section: string, option: string): string
  {
    match n
    // both branches of the source's conditional build this same string
    case OverrideScheme(p) => p + section + "__" + option
    case EnvParserScheme(p) =>
      if p != "" then Upper(p + "__" + section + "_" + option) else Upper(section + "_" + option)
  }

  /** The environment name consulted for `option` of the default section. */
  function DefaultVar(n: Naming, option: string): string
  {
    match n
    case OverrideScheme(p) => if p != "" then p + "_" + option else option
    case EnvParserScheme(p) => if p != "" then Upper(p + "_" + option) else Upper(option)
  }

  /** The environment values found for the options `opts` of `section`. */
  function Found(env: Env, n: Naming, section: string, opts: set<string>): Options
  {
    map o | o in opts && Lookup(env, SectionVar(n, section, o)).Some? :: Lookup(env, SectionVar(n, section, o)).value
  }

  /** The environment values found for the default options `keys`. */
  function DefaultsFound(env: Env, n: Naming, keys: set<string>): Options
  {
    map o | o in keys && Lookup(env, DefaultVar(n, o)).Some? :: Lookup(env, DefaultVar(n, o)).value
  }

  /** Writing `found` through `set(section, ...)`: into the defaults for a
      default-target name, into the section otherwise. */
  function Apply(st: IniState, section: string, found: Options): (r: IniState)
    requires IsDefaultTarget(section) || section in st.sections
    ensures r.order == st.order && r.sections.Keys == st.sections.Keys
  {
    if IsDefaultTarget(section) then st.(defaults := st.defaults + found)
    else st.(sections := st.sections[section := st.sections[section] + found])
  }

  /** The inner loop over one section's options. */
  function ScanSection(st: IniState, env: Env, n: Naming, section: string): (r: IniState)
    requires section in st.sections
    ensures r.order == st.order && r.sections.Keys == st.sections.Keys
  {
    Apply(st, section, Found(env, n, section, st.Options(section)))
  }

  /** The outer loop over `sections()`, after the first |names| sections. */
  function ScanSections(st: IniState, env: Env, n: Naming, names: seq<string>): (r: IniState)
    requires forall s :: s in names ==> s in st.sections
    ensures r.order == st.order && r.sections.Keys == st.sections.Keys
    decreases |names|
  {
    if names == [] then st
    else
      var prev := ScanSections(st, env, n, names[..|names| - 1]);
      ScanSection(prev, env, n, names[|names| - 1])
  }

  /** The loop over `defaults()`. */
  function ScanDefaults(st: IniState, env: Env, n: Naming): IniState
  {
    st.(defaults := st.defaults + DefaultsFound(env, n, st.defaults.Keys))
  }

  /** The whole pass: sections first, then the default section. */
  function ScanExisting(st: IniState, env: Env, n: Naming): IniState
    requires st.Valid()
  {
    ScanDefaults(ScanSections(st, env, n, st.order), env, n)
  }

  /** `set` takes every value of `found`. */
  predicate AllValid(found: Options)
  {
    forall o :: o in found ==> ValidSyntax(found[o])
  }

  /** The loop over the first |names| sections writes only values `set`
      takes. */
  predicate ScanSectionsOk(st: IniState, env: Env, n: Naming, names: seq<string>)
    requires forall s :: s in names ==> s in st.sections
    decreases |names|
  {
    if names == [] then true
    else
      var prev := ScanSections(st, env, n, names[..|names| - 1]);
      ScanSectionsOk(st, env, n, names[..|names| - 1])
        && AllValid(Found(env, n, names[|names| - 1], prev.Options(names[|names| - 1])))
  }

  /** The whole pass completes: no value it writes is rejected. */
  predicate ScanOk(st: IniState, env: Env, n: Naming)
    requires st.Valid()
  {
    var mid := ScanSections(st, env, n, st.order);
    ScanSectionsOk(st, env, n, st.order) && AllValid(DefaultsFound(env, n, mid.defaults.Keys))
  }

  /** `b` has the sections of `a`, in the same order. */
  predicate SameSections(a: IniState, b: IniState)
  {
    a.order == b.order && a.sections.Keys == b.sections.Keys
  }

  /** The exception a failed pass ends with: ValueError on a value `set`
      rejects. */
  predicate RejectedValue(e: Error)
  {
    e.InvalidInterpolation? && !ValidSyntax(e.value)
  }

  // -----------------------------------------------------------------------
  // Well-formedness

  lemma ApplyKeepsValid(st: IniState, section: string, found: Options)
    requires st.Valid() && (IsDefaultTarget(section) || section in st.sections)
    requires forall o :: o in found ==> IsLower(o)
    ensures Apply(st, section, found).Valid()
  {
  }

  lemma {:induction false} ScanSectionsKeepValid(st: IniState, env: Env, n: Naming, names: seq<string>)
    requires st.Valid() && forall s :: s in names ==> s in st.sections
    ensures ScanSections(st, env, n, names).Valid()
    decreases |names|
  {
    if names != [] {
      var prev := ScanSections(st, env, n, names[..|names| - 1]);
      ScanSectionsKeepValid(st, env, n, names[..|names| - 1]);
      ApplyKeepsValid(prev, names[|names| - 1], Found(env, n, names[|names| - 1], prev.Options(names[|names| - 1])));
    }
  }

  lemma ScanExistingKeepsValid(st: IniState, env: Env, n: Naming)
    requires st.Valid()
    ensures ScanExisting(st, env, n).Valid()
  {
    ScanSectionsKeepValid(st, env, n, st.order);
  }

  // -----------------------------------------------------------------------
  // What the pass does

  /** With no section named "" (no section write reaches the defaults), after
      the first |names| sections each of them holds its own options plus the
      environment values found for its visible options, the other sections
      and the defaults are untouched. */
  lemma {:induction false} ScanSectionsEffect(st: IniState, env: Env, n: Naming, names: seq<string>)
    requires st.Valid() && "" !in st.sections
    requires Distinct(names) && forall s :: s in names ==> s in st.sections
    ensures var r := ScanSections(st, env, n, names);
      && r.defaults == st.defaults
      && forall s :: s in st.sections ==>
           r.sections[s] == if s in names then st.sections[s] + Found(env, n, s, st.Options(s)) else st.sections[s]
    decreases |names|
  {
    if names != [] {
      var k := |names| - 1;
      var last := names[k];
      var init := names[..k];
      assert Distinct(init);
      assert forall s :: s in names <==> s in init || s == last;
      assert last !in init;
      ScanSectionsEffect(st, env, n, init);
      ScanSectionStep(st, ScanSections(st, env, n, init), env, n, last);
    }
  }

  /** Scanning a section nothing has touched yet, in a store whose defaults
      are untouched, adds the values found for the options it showed
      originally. */
  lemma ScanSectionStep(st: IniState, prev: IniState, env: Env, n: Naming, last: string)
    requires st.Valid() && "" !in st.sections && last in st.sections
    requires prev.sections.Keys == st.sections.Keys && prev.defaults == st.defaults
    requires prev.sections[last] == st.sections[last]
    ensures ScanSection(prev, env, n, last) ==
      prev.(sections := prev.sections[last := st.sections[last] + Found(env, n, last, st.Options(last))])
  {
    assert !IsDefaultTarget(last);
    assert prev.Options(last) == st.Options(last);
  }

  /** The pass never adds or removes a section, whatever the store holds. */
  lemma ScanKeepsSections(st: IniState, env: Env, n: Naming)
    requires st.Valid()
    ensures ScanExisting(st, env, n).order == st.order
    ensures ScanExisting(st, env, n).sections.Keys == st.sections.Keys
  {
  }

  /** With no section named "", the pass amounts to: each section gains the
      environment values found for the options it shows, and the defaults
      gain those found for the default options. */
  lemma ScanClosedForm(st: IniState, env: Env, n: Naming)
    requires st.Valid() && "" !in st.sections
    ensures var r := ScanExisting(st, env, n);
      && r.defaults == st.defaults + DefaultsFound(env, n, st.defaults.Keys)
      && forall s :: s in st.sections ==> r.sections[s] == st.sections[s] + Found(env, n, s, st.Options(s))
  {
    assert forall s :: s in st.order <==> s in st.sections;
    ScanSectionsEffect(st, env, n, st.order);
  }

  /** The default pass runs last and only there: the section pass leaves the
      defaults as they were (with no section named ""), and the default pass
      leaves every section as the section pass made it. */
  lemma DefaultPassRunsLast(st: IniState, env: Env, n: Naming)
    requires st.Valid() && "" !in st.sections
    ensures var mid := ScanSections(st, env, n, st.order);
      && mid.defaults == st.defaults
      && ScanExisting(st, env, n).sections == mid.sections
      && ScanExisting(st, env, n).defaults == st.defaults + DefaultsFound(env, n, st.defaults.Keys)
  {
    assert forall s :: s in st.order <==> s in st.sections;
    ScanSectionsEffect(st, env, n, st.order);
  }

  /** With no section named "", no option becomes visible or invisible:
      `options()` of every section, the default keys and `has_option` are as
      before the pass. */
  lemma ScanKeepsVisibleOptions(st: IniState, env: Env, n: Naming)
    requires st.Valid() && "" !in st.sections
    ensures var r := ScanExisting(st, env, n);
      && r.order == st.order && r.sections.Keys == st.sections.Keys && r.defaults.Keys == st.defaults.Keys
      && (forall s :: s in st.sections ==> r.Options(s) == st.Options(s))
      && (forall s, o :: r.HasOption(s, o) == st.HasOption(s, o))
  {
    ScanClosedForm(st, env, n);
  }

  /** With no section named "", an option that a section shows is replaced
      iff its environment name is set; every other slot of the section keeps
      its value. */
  lemma ScanReplacesSectionOptions(st: IniState, env: Env, n: Naming, s: string, o: string)
    requires st.Valid() && "" !in st.sections && s in st.sections
    ensures ScanExisting(st, env, n).At(SectionSlot(s, o)) ==
      if o in st.Options(s) && Lookup(env, SectionVar(n, s, o)).Some?
      then Lookup(env, SectionVar(n, s, o)) else st.At(SectionSlot(s, o))
  {
    ScanClosedForm(st, env, n);
  }

  /** A default option is replaced iff its environment name is set; every
      other default slot keeps its value. */
  lemma ScanReplacesDefaultOptions(st: IniState, env: Env, n: Naming, o: string)
    requires st.Valid() && "" !in st.sections
    ensures ScanExisting(st, env, n).At(DefaultSlot(o)) ==
      if o in st.defaults && Lookup(env, DefaultVar(n, o)).Some?
      then Lookup(env, DefaultVar(n, o)) else st.At(DefaultSlot(o))
  {
    ScanClosedForm(st, env, n);
  }

  /** With no section named "", the pass raises exactly when the
      environment holds a value `set` rejects under the name of an option
      some section shows or of a default option. */
  lemma ScanOkClosedForm(st: IniState, env: Env, n: Naming)
    requires st.Valid() && "" !in st.sections
    ensures ScanOk(st, env, n) <==>
      && (forall s :: s in st.sections ==> AllValid(Found(env, n, s, st.Options(s))))
      && AllValid(DefaultsFound(env, n, st.defaults.Keys))
  {
    assert forall s :: s in st.order <==> s in st.sections;
    ScanSectionsOkEffect(st, env, n, st.order);
    ScanSectionsEffect(st, env, n, st.order);
  }

  lemma {:induction false} ScanSectionsOkEffect(st: IniState, env: Env, n: Naming, names: seq<string>)
    requires st.Valid() && "" !in st.sections
    requires Distinct(names) && forall s :: s in names ==> s in st.sections
    ensures ScanSectionsOk(st, env, n, names) <==> forall s :: s in names ==> AllValid(Found(env, n, s, st.Options(s)))
    decreases |names|
  {
    if names != [] {
      var k := |names| - 1;
      var last := names[k];
      var init := names[..k];
      assert Distinct(init);
      assert forall s :: s in names <==> s in init || s == last;
      assert last !in init;
      ScanSectionsOkEffect(st, env, n, init);
      ScanSectionsEffect(st, env, n, init);
      var prev := ScanSections(st, env, n, init);
      assert prev.Options(last) == st.Options(last);
    }
  }

  /** A pass whose first sections raise raises as a whole. */
  lemma {:induction false} ScanSectionsOkPrefix(st: IniState, env: Env, n: Naming, names: seq<string>, k: nat)
    requires (forall s :: s in names ==> s in st.sections) && k <= |names|
    requires ScanSectionsOk(st, env, n, names)
    ensures ScanSectionsOk(st, env, n, names[..k])
    decreases |names|
  {
    if k < |names| {
      var init := names[..|names| - 1];
      assert init[..k] == names[..k];
      ScanSectionsOkPrefix(st, env, n, init, k);
    } else {
      assert names[..k] == names;
    }
  }

  // -----------------------------------------------------------------------
  // The loops

  /** One turn of the per-section loop: writing the value found for `o`
      (when there is one) extends the values found so far by `o`. */
  lemma SectionTurn(before: IniState, env: Env, n: Naming, section: string, done: set<string>, o: string)
    requires section in before.sections && IsLower(o)
    ensures var cur := Apply(before, section, Found(env, n, section, done));
      var next := Apply(before, section, Found(env, n, section, done + {o}));
      var v := Lookup(env, SectionVar(n, section, o));
      && (v.Some? && ValidSyntax(v.value) ==> cur.Set(section, o, v.value) == Success(next))
      && (v.None? ==> cur == next)
  {
    var v := Lookup(env, SectionVar(n, section, o));
    FoundGrows(env, n, section, done, o);
    if v.Some? && ValidSyntax(v.value) {
      SetInsideApply(before, section, Found(env, n, section, done), o, v.value);
    }
  }

  lemma SetInsideApply(st: IniState, section: string, found: Options, o: string, v: string)
    requires section in st.sections && IsLower(o) && ValidSyntax(v)
    ensures Apply(st, section, found).Set(section, o, v) == Success(Apply(st, section, found[o := v]))
  {
    LowerNormalises(o);
    if IsDefaultTarget(section) {
      assert (st.defaults + found)[o := v] == st.defaults + found[o := v];
    } else {
      var m := st.sections[section := st.sections[section] + found];
      assert (st.sections[section] + found)[o := v] == st.sections[section] + found[o := v];
      assert m[section := m[section][o := v]] == st.sections[section := st.sections[section] + found[o := v]];
    }
  }

  lemma FoundGrows(env: Env, n: Naming, section: string, done: set<string>, o: string)
    ensures Found(env, n, section, done + {o}) ==
      if Lookup(env, SectionVar(n, section, o)).Some?
      then Found(env, n, section, done)[o := Lookup(env, SectionVar(n, section, o)).value]
      else Found(env, n, section, done)
  {
  }

  /** One turn of the defaults loop. */
  lemma DefaultsTurn(mid: IniState, env: Env, n: Naming, done: set<string>, o: string)
    requires IsLower(o)
    ensures var cur := mid.(defaults := mid.defaults + DefaultsFound(env, n, done));
      var next := mid.(defaults := mid.defaults + DefaultsFound(env, n, done + {o}));
      var v := Lookup(env, DefaultVar(n, o));
      && (v.Some? && ValidSyntax(v.value) ==> cur.Set(DefaultSection, o, v.value) == Success(next))
      && (v.None? ==> cur == next)
  {
    LowerNormalises(o);
    var found := DefaultsFound(env, n, done);
    var v := Lookup(env, DefaultVar(n, o));
    DefaultsFoundGrows(env, n, done, o);
    if v.Some? && ValidSyntax(v.value) {
      UpdateAfterMerge(mid.defaults, found, o, v.value);
    }
  }

  lemma DefaultsFoundGrows(env: Env, n: Naming, done: set<string>, o: string)
    ensures DefaultsFound(env, n, done + {o}) ==
      if Lookup(env, DefaultVar(n, o)).Some?
      then DefaultsFound(env, n, done)[o := Lookup(env, DefaultVar(n, o)).value]
      else DefaultsFound(env, n, done)
  {
  }

  /** Updating a merge updates its right-hand side. */
  lemma UpdateAfterMerge(a: Options, b: Options, k: string, v: string)
    ensures (a + b)[k := v] == a + b[k := v]
  {
  }

  /** The loop over one section's options (`for option in config[section]`);
      a value `set` rejects ends it. */
  method ScanSectionInPlace(store: ConfigStore, env: Env, n: Naming, section: string) returns (r: Outcome<Error>)
    requires store.Valid() && section in store.sections
    modifies store
    ensures store.Valid()
    ensures r.Pass? <==> AllValid(Found(env, n, section, old(store.State()).Options(section)))
    ensures r.Pass? ==> store.State() == ScanSection(old(store.State()), env, n, section)
    ensures r.Fail? ==> RejectedValue(r.error) && SameSections(old(store.State()), store.State())
  {
    ghost var before := store.State();
    var opts := store.State().Options(section);
    var todo := opts;
    NothingFound(before, env, n, section);
    while todo != {}
      invariant todo <= opts
      invariant store.Valid()
      invariant AllValid(Found(env, n, section, opts - todo))
      invariant store.State() == Apply(before, section, Found(env, n, section, opts - todo))
      decreases |todo|
    {
      var o :| o in todo;
      SectionLoopTurn(before, env, n, section, todo, o);
      SectionValidTurn(env, n, section, opts, todo, o);
      var v := Lookup(env, SectionVar(n, section, o));
      if v.Some? {
        r := store.Set(section, o, v.value);
        if r.Fail? {
          assert Found(env, n, section, opts)[o] == v.value;
          return;
        }
      }
      todo := todo - {o};
    }
    assert opts - todo == opts;
    r := Pass;
  }

  /** Before the loop over a section's options nothing has been written. */
  lemma NothingFound(before: IniState, env: Env, n: Naming, section: string)
    requires section in before.sections
    ensures Apply(before, section, Found(env, n, section, before.Options(section) - before.Options(section))) == before
  {
    assert Found(env, n, section, before.Options(section) - before.Options(section)) == map[];
    assert before.sections[section] + map[] == before.sections[section];
    assert before.defaults + map[] == before.defaults;
  }

  /** `SectionTurn` at the loop's variables: `o` is taken from `todo`. */
  lemma SectionLoopTurn(before: IniState, env: Env, n: Naming, section: string, todo: set<string>, o: string)
    requires before.Valid() && section in before.sections && todo <= before.Options(section) && o in todo
    ensures var opts := before.Options(section);
      var cur := Apply(before, section, Found(env, n, section, opts - todo));
      var next := Apply(before, section, Found(env, n, section, opts - (todo - {o})));
      var v := Lookup(env, SectionVar(n, section, o));
      && (v.Some? && ValidSyntax(v.value) ==> cur.Set(section, o, v.value) == Success(next))
      && (v.None? ==> cur == next)
  {
    var opts := before.Options(section);
    assert IsLower(o);
    assert opts - (todo - {o}) == (opts - todo) + {o};
    SectionTurn(before, env, n, section, opts - todo, o);
  }

  /** The values found so far stay acceptable to `set` as long as the one
      found for `o` is. */
  lemma SectionValidTurn(env: Env, n: Naming, section: string, opts: set<string>, todo: set<string>, o: string)
    requires todo <= opts && o in todo
    ensures var v := Lookup(env, SectionVar(n, section, o));
      AllValid(Found(env, n, section, opts - (todo - {o}))) <==>
        AllValid(Found(env, n, section, opts - todo)) && (v.Some? ==> ValidSyntax(v.value))
  {
    var v := Lookup(env, SectionVar(n, section, o));
    assert opts - (todo - {o}) == (opts - todo) + {o};
    FoundGrows(env, n, section, opts - todo, o);
    if v.Some? {
      AllValidUpdate(Found(env, n, section, opts - todo), o, v.value);
    }
  }

  /** Adding a fresh entry keeps `set`'s approval iff the entry has it. */
  lemma AllValidUpdate(found: Options, k: string, v: string)
    requires k !in found
    ensures AllValid(found[k := v]) <==> AllValid(found) && ValidSyntax(v)
  {
    if AllValid(found[k := v]) {
      assert k in found[k := v];
      forall o | o in found ensures ValidSyntax(found[o]) {
        assert found[k := v][o] == found[o];
      }
    }
  }

  /** The loop over `defaults()`; a value `set` rejects ends it. */
  method ScanDefaultsInPlace(store: ConfigStore, env: Env, n: Naming) returns (r: Outcome<Error>)
    requires store.Valid()
    modifies store
    ensures store.Valid()
    ensures r.Pass? <==> AllValid(DefaultsFound(env, n, old(store.State()).defaults.Keys))
    ensures r.Pass? ==> store.State() == ScanDefaults(old(store.State()), env, n)
    ensures r.Fail? ==> RejectedValue(r.error) && SameSections(old(store.State()), store.State())
  {
    ghost var mid := store.State();
    var keys := store.Defaults().Keys;
    var todo := keys;
    NothingFoundInDefaults(mid, env, n);
    while todo != {}
      invariant todo <= keys
      invariant store.Valid()
      invariant AllValid(DefaultsFound(env, n, keys - todo))
      invariant store.State() == mid.(defaults := mid.defaults + DefaultsFound(env, n, keys - todo))
      decreases |todo|
    {
      var o :| o in todo;
      DefaultsLoopTurn(mid, env, n, todo, o);
      DefaultsValidTurn(env, n, keys, todo, o);
      var v := Lookup(env, DefaultVar(n, o));
      if v.Some? {
        r := store.Set(DefaultSection, o, v.value);
        if r.Fail? {
          assert DefaultsFound(env, n, keys)[o] == v.value;
          return;
        }
      }
      todo := todo - {o};
    }
    assert keys - todo == keys;
    r := Pass;
  }

  /** Before the loop over the defaults nothing has been written. */
  lemma NothingFoundInDefaults(mid: IniState, env: Env, n: Naming)
    ensures mid.(defaults := mid.defaults + DefaultsFound(env, n, mid.defaults.Keys - mid.defaults.Keys)) == mid
  {
    assert DefaultsFound(env, n, mid.defaults.Keys - mid.defaults.Keys) == map[];
    assert mid.defaults + map[] == mid.defaults;
  }

  /** `DefaultsTurn` at the loop's variables: `o` is taken from `todo`. */
  lemma DefaultsLoopTurn(mid: IniState, env: Env, n: Naming, todo: set<string>, o: string)
    requires mid.Valid() && todo <= mid.defaults.Keys && o in todo
    ensures var keys := mid.defaults.Keys;
      var cur := mid.(defaults := mid.defaults + DefaultsFound(env, n, keys - todo));
      var next := mid.(defaults := mid.defaults + DefaultsFound(env, n, keys - (todo - {o})));
      var v := Lookup(env, DefaultVar(n, o));
      && (v.Some? && ValidSyntax(v.value) ==> cur.Set(DefaultSection, o, v.value) == Success(next))
      && (v.None? ==> cur == next)
  {
    var keys := mid.defaults.Keys;
    assert IsLower(o);
    assert keys - (todo - {o}) == (keys - todo) + {o};
    DefaultsTurn(mid, env, n, keys - todo, o);
  }

  /** The default values found so far stay acceptable to `set` as long as
      the one found for `o` is. */
  lemma DefaultsValidTurn(env: Env, n: Naming, keys: set<string>, todo: set<string>, o: string)
    requires todo <= keys && o in todo
    ensures var v := Lookup(env, DefaultVar(n, o));
      AllValid(DefaultsFound(env, n, keys - (todo - {o}))) <==>
        AllValid(DefaultsFound(env, n, keys - todo)) && (v.Some? ==> ValidSyntax(v.value))
  {
    var v := Lookup(env, DefaultVar(n, o));
    assert keys - (todo - {o}) == (keys - todo) + {o};
    DefaultsFoundGrows(env, n, keys - todo, o);
    if v.Some? {
      AllValidUpdate(DefaultsFound(env, n, keys - todo), o, v.value);
    }
  }

  /** The whole pass: the loop over `sections()`, then the defaults; a
      value `set` rejects ends it. */
  method ScanInPlace(store: ConfigStore, env: Env, n: Naming) returns (r: Outcome<Error>)
    requires store.Valid()
    modifies store
    ensures store.Valid()
    ensures r.Pass? <==> ScanOk(old(store.State()), env, n)
    ensures r.Pass? ==> store.State() == ScanExisting(old(store.State()), env, n)
    ensures r.Fail? ==> RejectedValue(r.error) && SameSections(old(store.State()), store.State())
  {
    r := ScanSectionsInPlace(store, env, n);
    if r.Pass? {
      r := ScanDefaultsInPlace(store, env, n);
    }
  }

  /** The loop over `sections()`. */
  method ScanSectionsInPlace(store: ConfigStore, env: Env, n: Naming) returns (r: Outcome<Error>)
    requires store.Valid()
    modifies store
    ensures store.Valid()
    ensures r.Pass? <==> ScanSectionsOk(old(store.State()), env, n, old(store.State()).order)
    ensures r.Pass? ==> store.State() == ScanSections(old(store.State()), env, n, old(store.State()).order)
    ensures r.Fail? ==> RejectedValue(r.error) && SameSections(old(store.State()), store.State())
  {
    ghost var st0 := store.State();
    var names := store.Sections();
    var i := 0;
    ScannedNone(st0, env, n);
    while i < |names|
      invariant i <= |names| && names == st0.order
      invariant store.Valid()
      invariant ScannedUpTo(st0, env, n, i, store.State())
    {
      ScannedNext(st0, env, n, i, store.State());
      ghost var before := store.State();
      r := ScanSectionInPlace(store, env, n, names[i]);
      SectionsLoopTurn(st0, env, n, i, before, store.State(), r);
      if r.Fail? {
        return;
      }
      i := i + 1;
    }
    ScannedAll(st0, env, n, store.State());
    r := Pass;
  }

  /** The loop over `sections()` has scanned the first `i` sections of `st`
      without an exception and left `cur`. */
  ghost predicate ScannedUpTo(st: IniState, env: Env, n: Naming, i: nat, cur: IniState)
  {
    && st.Valid() && i <= |st.order|
    && ScanSectionsOk(st, env, n, st.order[..i])
    && cur == ScanSections(st, env, n, st.order[..i])
  }

  lemma ScannedNone(st: IniState, env: Env, n: Naming)
    requires st.Valid()
    ensures ScannedUpTo(st, env, n, 0, st)
  {
    assert st.order[..0] == [];
  }

  lemma ScannedNext(st: IniState, env: Env, n: Naming, i: nat, cur: IniState)
    requires ScannedUpTo(st, env, n, i, cur) && i < |st.order|
    ensures st.order[i] in cur.sections
  {
    ScanSectionsNext(st, env, n, i);
  }

  lemma ScannedAll(st: IniState, env: Env, n: Naming, cur: IniState)
    requires ScannedUpTo(st, env, n, |st.order|, cur)
    ensures ScanSectionsOk(st, env, n, st.order) && cur == ScanSections(st, env, n, st.order)
  {
    assert st.order[..|st.order|] == st.order;
  }

  /** One turn of the loop over `sections()`: the loop over the i-th
      section took the store from `before` to `after` and ended with `r`. */
  lemma SectionsLoopTurn(st: IniState, env: Env, n: Naming, i: nat, before: IniState, after: IniState, r: Outcome<Error>)
    requires ScannedUpTo(st, env, n, i, before) && i < |st.order|
    requires st.order[i] in before.sections
    requires r.Pass? <==> AllValid(Found(env, n, st.order[i], before.Options(st.order[i])))
    requires r.Pass? ==> after == ScanSection(before, env, n, st.order[i])
    requires r.Fail? ==> SameSections(before, after)
    ensures r.Pass? ==> ScannedUpTo(st, env, n, i + 1, after)
    ensures r.Fail? ==> !ScanSectionsOk(st, env, n, st.order) && SameSections(st, after)
  {
    ScanSectionsNext(st, env, n, i);
    ScanSectionsOkNext(st, env, n, i);
    if r.Fail? && ScanSectionsOk(st, env, n, st.order) {
      ScanSectionsOkPrefix(st, env, n, st.order, i + 1);
    }
  }

  /** One turn of the loop over `sections()`. */
  lemma ScanSectionsNext(st: IniState, env: Env, n: Naming, i: nat)
    requires st.Valid() && i < |st.order|
    ensures st.order[i] in ScanSections(st, env, n, st.order[..i]).sections
    ensures ScanSections(st, env, n, st.order[..i + 1]) ==
      ScanSection(ScanSections(st, env, n, st.order[..i]), env, n, st.order[i])
  {
    var prefix := st.order[..i + 1];
    assert prefix[..i] == st.order[..i] && prefix[i] == st.order[i];
  }

  lemma ScanSectionsOkNext(st: IniState, env: Env, n: Naming, i: nat)
    requires st.Valid() && i < |st.order|
    ensures ScanSectionsOk(st, env, n, st.order[..i + 1]) <==>
      && ScanSectionsOk(st, env, n, st.order[..i])
      && AllValid(Found(env, n, st.order[i], ScanSections(st, env, n, st.order[..i]).Options(st.order[i])))
  {
    var prefix := st.order[..i + 1];
    assert prefix[..|prefix| - 1] == st.order[..i] && prefix[|prefix| - 1] == st.order[i];
  }
}
