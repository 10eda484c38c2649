/** The two ways the override engine (configparser_override.py) applies a
    table of flat `SECTION__option` keys to the store:

    - create-new (`override_env(True)`, `override_direct(True)`,
      `PrefixNewEnvStrategy.execute`): add the section when `has_section`
      says it is missing, then `set` the option;
    - no-new (`override_direct(False)`, `NoPrefixNoNewStrategy.execute`):
      `set` only when `has_section` and `has_option` both hold.

    Each is a loop over the table in order; here it is a function defined
    on the table's first entries, last entry last. */
module OverridePasses {
  import opened Wrappers
  import opened Text
  import opened Interpolation
  import opened IniStore
  import opened Environ
  import opened OverrideKeys

  /** The store after a pass and how the pass ended. An exception ends the
      loop and leaves the store as far as the loop got. */
  datatype Run = Run(st: IniState, outcome: Outcome<Error>)

  /** The slot a key writes. */
  function Target(key: string): Slot
  {
    SlotOf(ParseKey(key).0, ParseKey(key).1)
  }

  /** A key naming the default section: `add_section` refuses it. */
  predicate NamesDefault(key: string)
  {
    ParseKey(key).0 == DefaultSection
  }

  /** An entry a create-new turn raises on: its key names the default
      section, or `set` rejects its value. */
  predicate Raises(key: string, value: string)
  {
    NamesDefault(key) || !ValidSyntax(value)
  }

  /** Some entry of `kvs` raises. */
  predicate HasRaisingEntry(kvs: Env)
  {
    exists i :: 0 <= i < |kvs| && Raises(kvs[i].0, kvs[i].1)
  }

  // -----------------------------------------------------------------------
  // Create-new

  /** `set`, with its NoSectionError as a failed run. */
  function SetStep(st: IniState, section: string, option: string, value: string): Run
  {
    match st.Set(section, option, value)
    case Success(st1) => Run(st1, Pass)
    case Failure(e) => Run(st, Fail(e))
  }

  /** One turn of a create-new loop. */
  function CreateStep(st: IniState, key: string, value: string): Run
  {
    var section := ParseKey(key).0;
    var option := ParseKey(key).1;
    if !st.HasSection(section) then
      match st.AddSection(section)
      case Failure(e) => Run(st, Fail(e))
      case Success(st1) => SetStep(st1, section, option, value)
    else
      SetStep(st, section, option, value)
  }

  /** A turn raises exactly on an entry that `Raises`: on a key naming the
      default section before anything changes, otherwise on its value after
      the key's section has been added. It keeps the store well formed, and
      a turn that completes keeps the section order and makes sure the key's
      section exists. */
  lemma CreateStepSpec(st: IniState, key: string, value: string)
    requires st.Valid()
    ensures var r := CreateStep(st, key, value);
      && r.st.Valid()
      && (r.outcome.Fail? <==> Raises(key, value))
      && (NamesDefault(key) ==> r == Run(st, Fail(InvalidSectionName(DefaultSection))))
      && (!NamesDefault(key) && !ValidSyntax(value) ==> r.outcome == Fail(InvalidInterpolation(value)))
      && (r.outcome.Pass? ==>
            && |r.st.order| >= |st.order| && r.st.order[..|st.order|] == st.order
            && r.st.sections.Keys == st.sections.Keys + {ParseKey(key).0})
  {
    CreateStepValid(st, key, value);
    CreateStepOutcome(st, key, value);
    CreateStepSections(st, key, value);
  }

  lemma CreateStepValid(st: IniState, key: string, value: string)
    requires st.Valid()
    ensures CreateStep(st, key, value).st.Valid()
  {
    var section := ParseKey(key).0;
    var option := ParseKey(key).1;
    UpdatesKeepValid(st, section, option, value);
    if !st.HasSection(section) && st.AddSection(section).Success? {
      UpdatesKeepValid(st.AddSection(section).value, section, option, value);
    }
  }

  /** A key that begins with `__` names the section "": a create-new turn
      with a valid value adds that section, although `set` on "" writes the
      option into the defaults. */
  lemma CreateStepAddsEmptySection(st: IniState, option: string, value: string)
    requires st.Valid() && ValidSyntax(value)
    ensures var r := CreateStep(st, "__" + option, value);
      && r.outcome.Pass? && "" in r.st.sections
      && Lower(option) in r.st.defaults && r.st.defaults[Lower(option)] == value
  {
    var key := "__" + option;
    assert FindSep(key) == Some(0);
    assert ParseKey(key) == ("", option);
    CreateStepSpec(st, key, value);
  }

  lemma CreateStepOutcome(st: IniState, key: string, value: string)
    requires DefaultSection !in st.sections
    ensures var r := CreateStep(st, key, value);
      && (r.outcome.Fail? <==> Raises(key, value))
      && (NamesDefault(key) ==> r == Run(st, Fail(InvalidSectionName(DefaultSection))))
      && (!NamesDefault(key) && !ValidSyntax(value) ==> r.outcome == Fail(InvalidInterpolation(value)))
  {
  }

  lemma CreateStepSections(st: IniState, key: string, value: string)
    ensures var r := CreateStep(st, key, value);
      r.outcome.Pass? ==>
        && |r.st.order| >= |st.order| && r.st.order[..|st.order|] == st.order
        && r.st.sections.Keys == st.sections.Keys + {ParseKey(key).0}
  {
    var section := ParseKey(key).0;
    if !st.HasSection(section) && st.AddSection(section).Success? {
      var st1 := st.AddSection(section).value;
      assert st1.order[..|st.order|] == st.order;
    }
  }

  /** A successful turn writes the key's value into the key's slot and
      leaves every other slot as it was. */
  lemma CreateStepWrites(st: IniState, key: string, value: string, slot: Slot)
    ensures var r := CreateStep(st, key, value);
      r.outcome.Pass? ==> r.st.At(slot) == if slot == Target(key) then Some(value) else st.At(slot)
  {
    var section := ParseKey(key).0;
    if !st.HasSection(section) && st.AddSection(section).Success? {
      var st1 := st.AddSection(section).value;
      assert st1.At(slot) == st.At(slot);
    }
  }

  /** A create-new loop over `kvs`; it stops at the first exception. */
  function CreatePass(st: IniState, kvs: Env): Run
    decreases |kvs|
  {
    if kvs == [] then Run(st, Pass)
    else
      var prev := CreatePass(st, kvs[..|kvs| - 1]);
      if prev.outcome.Fail? then prev
      else CreateStep(prev.st, kvs[|kvs| - 1].0, kvs[|kvs| - 1].1)
  }

  /** A create-new pass keeps the store well formed, whether or not it
      completes. */
  lemma {:induction false} CreatePassKeepsValid(st: IniState, kvs: Env)
    requires st.Valid()
    ensures CreatePass(st, kvs).st.Valid()
    decreases |kvs|
  {
    if kvs != [] {
      var prev := CreatePass(st, kvs[..|kvs| - 1]);
      CreatePassKeepsValid(st, kvs[..|kvs| - 1]);
      if prev.outcome.Pass? {
        CreateStepSpec(prev.st, kvs[|kvs| - 1].0, kvs[|kvs| - 1].1);
      }
    }
  }

  /** A create-new pass raises exactly when some entry `Raises`:
      `has_section` never reports the default section, so the loop calls
      `add_section("DEFAULT")`, which raises ValueError, and `set` raises
      ValueError on a value the interpolation rejects. */
  lemma CreatePassFailure(st: IniState, kvs: Env)
    requires st.Valid()
    ensures CreatePass(st, kvs).outcome.Fail? <==> HasRaisingEntry(kvs)
  {
    CreatePassKeepsNoDefault(st, kvs);
    if HasRaisingEntry(kvs) {
      var i :| 0 <= i < |kvs| && Raises(kvs[i].0, kvs[i].1);
      CreatePassFailsOnRaising(st, kvs, i);
    } else {
      CreatePassPassesWithoutRaising(st, kvs);
    }
  }

  /** The default section never becomes a section. */
  lemma {:induction false} CreatePassKeepsNoDefault(st: IniState, kvs: Env)
    requires DefaultSection !in st.sections
    ensures DefaultSection !in CreatePass(st, kvs).st.sections
    decreases |kvs|
  {
    if kvs != [] {
      CreatePassKeepsNoDefault(st, kvs[..|kvs| - 1]);
    }
  }

  lemma {:induction false} CreatePassFailsOnRaising(st: IniState, kvs: Env, i: nat)
    requires DefaultSection !in st.sections
    requires i < |kvs| && Raises(kvs[i].0, kvs[i].1)
    ensures CreatePass(st, kvs).outcome.Fail?
    decreases |kvs|
  {
    var init := kvs[..|kvs| - 1];
    var prev := CreatePass(st, init);
    if i < |init| {
      assert init[i] == kvs[i];
      CreatePassFailsOnRaising(st, init, i);
      assert CreatePass(st, kvs) == prev;
    } else if prev.outcome.Pass? {
      CreatePassKeepsNoDefault(st, init);
      CreateStepOutcome(prev.st, kvs[i].0, kvs[i].1);
      assert CreatePass(st, kvs) == CreateStep(prev.st, kvs[i].0, kvs[i].1);
    }
  }

  lemma {:induction false} CreatePassPassesWithoutRaising(st: IniState, kvs: Env)
    requires DefaultSection !in st.sections
    requires forall i :: 0 <= i < |kvs| ==> !Raises(kvs[i].0, kvs[i].1)
    ensures CreatePass(st, kvs).outcome.Pass?
    decreases |kvs|
  {
    if kvs != [] {
      var init := kvs[..|kvs| - 1];
      assert forall i :: 0 <= i < |init| ==> init[i] == kvs[i];
      CreatePassPassesWithoutRaising(st, init);
      CreatePassKeepsNoDefault(st, init);
      CreateStepOutcome(CreatePass(st, init).st, kvs[|kvs| - 1].0, kvs[|kvs| - 1].1);
    }
  }

  /** `kvs[k]` is the first entry that raises. */
  predicate FirstRaisingAt(kvs: Env, k: nat)
  {
    && k < |kvs| && Raises(kvs[k].0, kvs[k].1)
    && forall j :: 0 <= j < k ==> !Raises(kvs[j].0, kvs[j].1)
  }

  /** A failed pass is the turn of the first raising entry `kvs[k]`, taken on
      the store the entries before it left; its exception is the ValueError
      of `add_section("DEFAULT")` when the key names the default section,
      and that of `set` on the value otherwise. */
  lemma {:induction false} CreatePassFailsAtFirst(st: IniState, kvs: Env)
    requires st.Valid()
    ensures var r := CreatePass(st, kvs);
      r.outcome.Fail? ==>
        exists k: nat :: FirstRaisingAt(kvs, k)
          && r == CreateStep(CreatePass(st, kvs[..k]).st, kvs[k].0, kvs[k].1)
          && r.outcome.error == if NamesDefault(kvs[k].0) then InvalidSectionName(DefaultSection) else InvalidInterpolation(kvs[k].1)
    decreases |kvs|
  {
    if kvs != [] {
      var init := kvs[..|kvs| - 1];
      var last := kvs[|kvs| - 1];
      var r := CreatePass(st, kvs);
      CreatePassFailsAtFirst(st, init);
      var prev := CreatePass(st, init);
      if prev.outcome.Fail? {
        var k: nat :| FirstRaisingAt(init, k)
          && prev == CreateStep(CreatePass(st, init[..k]).st, init[k].0, init[k].1)
          && prev.outcome.error == if NamesDefault(init[k].0) then InvalidSectionName(DefaultSection) else InvalidInterpolation(init[k].1);
        FirstRaisingInPrefix(kvs, k);
        assert r == prev;
      } else {
        CreatePassKeepsValid(st, init);
        CreateStepSpec(prev.st, last.0, last.1);
        CreatePassFailure(st, init);
        if r.outcome.Fail? {
          FirstRaisingAtEnd(kvs);
          assert init == kvs[..|kvs| - 1];
        }
      }
    }
  }

  lemma FirstRaisingInPrefix(kvs: Env, k: nat)
    requires kvs != [] && FirstRaisingAt(kvs[..|kvs| - 1], k)
    ensures FirstRaisingAt(kvs, k) && kvs[..|kvs| - 1][..k] == kvs[..k] && kvs[..|kvs| - 1][k] == kvs[k]
  {
    var init := kvs[..|kvs| - 1];
    assert forall j :: 0 <= j < k ==> kvs[j] == init[j];
  }

  lemma FirstRaisingAtEnd(kvs: Env)
    requires kvs != [] && Raises(kvs[|kvs| - 1].0, kvs[|kvs| - 1].1) && !HasRaisingEntry(kvs[..|kvs| - 1])
    ensures FirstRaisingAt(kvs, |kvs| - 1)
  {
    var init := kvs[..|kvs| - 1];
    forall j | 0 <= j < |kvs| - 1 ensures !Raises(kvs[j].0, kvs[j].1) {
      assert kvs[j] == init[j];
    }
  }

  /** Once a pass has failed, the rest of the table is not processed. */
  lemma {:induction false} CreatePassStops(st: IniState, kvs: Env, n: nat)
    requires n <= |kvs|
    requires CreatePass(st, kvs[..n]).outcome.Fail?
    ensures CreatePass(st, kvs) == CreatePass(st, kvs[..n])
    decreases |kvs|
  {
    if n < |kvs| {
      var init := kvs[..|kvs| - 1];
      assert init[..n] == kvs[..n];
      CreatePassStops(st, init, n);
    } else {
      assert kvs[..n] == kvs;
    }
  }

  /** The sections the keys of `kvs` name. */
  ghost function KeySections(kvs: Env): set<string>
  {
    set i | 0 <= i < |kvs| :: ParseKey(kvs[i].0).0
  }

  /** A successful create-new pass keeps the existing sections in their
      order and adds exactly the sections its keys name. */
  lemma {:induction false} CreatePassSections(st: IniState, kvs: Env)
    requires st.Valid()
    ensures var r := CreatePass(st, kvs);
      r.outcome.Pass? ==>
        && |r.st.order| >= |st.order| && r.st.order[..|st.order|] == st.order
        && r.st.sections.Keys == st.sections.Keys + KeySections(kvs)
    decreases |kvs|
  {
    if kvs != [] {
      var init := kvs[..|kvs| - 1];
      CreatePassSections(st, init);
      var prev := CreatePass(st, init);
      if prev.outcome.Pass? {
        CreateStepSections(prev.st, kvs[|kvs| - 1].0, kvs[|kvs| - 1].1);
        KeySectionsSnoc(kvs);
        var r := CreatePass(st, kvs);
        if r.outcome.Pass? {
          assert r.st.order[..|prev.st.order|] == prev.st.order;
          assert r.st.order[..|st.order|] == r.st.order[..|prev.st.order|][..|st.order|];
        }
      }
    }
  }

  lemma KeySectionsSnoc(kvs: Env)
    requires kvs != []
    ensures KeySections(kvs) == KeySections(kvs[..|kvs| - 1]) + {ParseKey(kvs[|kvs| - 1].0).0}
  {
    var init := kvs[..|kvs| - 1];
    forall x | x in KeySections(kvs)
      ensures x in KeySections(init) + {ParseKey(kvs[|kvs| - 1].0).0}
    {
      var i :| 0 <= i < |kvs| && ParseKey(kvs[i].0).0 == x;
      if i < |init| { assert init[i] == kvs[i]; }
    }
    forall x | x in KeySections(init)
      ensures x in KeySections(kvs)
    {
      var i :| 0 <= i < |init| && ParseKey(init[i].0).0 == x;
      assert kvs[i] == init[i];
    }
    assert ParseKey(kvs[|kvs| - 1].0).0 in KeySections(kvs);
  }

  /** After a successful create-new pass, a slot no key writes keeps its
      value. */
  lemma {:induction false} CreatePassKeepsUnwritten(st: IniState, kvs: Env, slot: Slot)
    requires forall i :: 0 <= i < |kvs| ==> Target(kvs[i].0) != slot
    ensures CreatePass(st, kvs).outcome.Pass? ==> CreatePass(st, kvs).st.At(slot) == st.At(slot)
    decreases |kvs|
  {
    if kvs != [] {
      var init := kvs[..|kvs| - 1];
      var last := kvs[|kvs| - 1];
      assert forall i :: 0 <= i < |init| ==> init[i] == kvs[i];
      CreatePassKeepsUnwritten(st, init, slot);
      var prev := CreatePass(st, init);
      if prev.outcome.Pass? {
        CreateStepWrites(prev.st, last.0, last.1, slot);
      }
    }
  }

  /** After a successful create-new pass, the slot of the i-th key holds its
      value when no later key writes that slot: the last key wins. */
  lemma {:induction false} CreatePassLastWins(st: IniState, kvs: Env, i: nat)
    requires i < |kvs| && forall j :: i < j < |kvs| ==> Target(kvs[j].0) != Target(kvs[i].0)
    ensures CreatePass(st, kvs).outcome.Pass? ==> CreatePass(st, kvs).st.At(Target(kvs[i].0)) == Some(kvs[i].1)
    decreases |kvs|
  {
    var init := kvs[..|kvs| - 1];
    var last := kvs[|kvs| - 1];
    var prev := CreatePass(st, init);
    if prev.outcome.Pass? {
      CreateStepWrites(prev.st, last.0, last.1, Target(kvs[i].0));
      if i < |init| {
        assert init[i] == kvs[i];
        assert forall j :: i < j < |init| ==> init[j] == kvs[j];
        CreatePassLastWins(st, init, i);
      }
    }
  }

  // -----------------------------------------------------------------------
  // No-new

  /** Whether a no-new loop applies `key`: its section exists and
      `has_option` reports its option (the default section counts for every
      section). */
  predicate Accepted(st: IniState, key: string)
  {
    st.HasSection(ParseKey(key).0) && st.HasOption(ParseKey(key).0, ParseKey(key).1)
  }

  /** Some accepted key of `kvs` comes with a value `set` rejects. */
  predicate RejectsValue(st: IniState, kvs: Env)
  {
    exists i :: 0 <= i < |kvs| && Accepted(st, kvs[i].0) && !ValidSyntax(kvs[i].1)
  }

  /** One turn of a no-new loop. */
  function NoNewStep(st: IniState, key: string, value: string): Run
  {
    var section := ParseKey(key).0;
    var option := ParseKey(key).1;
    if st.HasSection(section) && st.HasOption(section, option) then SetStep(st, section, option, value)
    else Run(st, Pass)
  }

  /** A turn keeps the store well formed, adds no section and changes no
      answer of `has_option`; it raises exactly when it accepts the key and
      `set` rejects the value, and then changes nothing. */
  lemma NoNewStepSpec(st: IniState, key: string, value: string)
    requires st.Valid()
    ensures var r := NoNewStep(st, key, value);
      && r.st.Valid()
      && r.st.order == st.order && r.st.sections.Keys == st.sections.Keys
      && (forall s, o :: r.st.HasOption(s, o) == st.HasOption(s, o))
      && (r.outcome.Fail? <==> Accepted(st, key) && !ValidSyntax(value))
      && (r.outcome.Fail? ==> r == Run(st, Fail(InvalidInterpolation(value))))
  {
    var section := ParseKey(key).0;
    var option := ParseKey(key).1;
    UpdatesKeepValid(st, section, option, value);
    if st.HasSection(section) && st.HasOption(section, option) && ValidSyntax(value) {
      var r := st.Set(section, option, value).value;
      LowerNormalises(option);
      forall s, o ensures r.HasOption(s, o) == st.HasOption(s, o) {
        if IsDefaultTarget(section) {
          assert r.defaults.Keys == st.defaults.Keys;
          assert r.sections == st.sections;
        } else {
          assert r.defaults == st.defaults;
        }
      }
    }
  }

  /** A turn writes the key's value into its slot when it accepts the key
      and `set` takes the value, and changes nothing else. */
  lemma NoNewStepWrites(st: IniState, key: string, value: string, slot: Slot)
    ensures NoNewStep(st, key, value).st.At(slot) ==
      if Accepted(st, key) && ValidSyntax(value) && slot == Target(key) then Some(value) else st.At(slot)
  {
  }

  /** A no-new loop over `kvs`; it stops at the first exception. */
  function NoNewPass(st: IniState, kvs: Env): Run
    decreases |kvs|
  {
    if kvs == [] then Run(st, Pass)
    else
      var prev := NoNewPass(st, kvs[..|kvs| - 1]);
      if prev.outcome.Fail? then prev
      else NoNewStep(prev.st, kvs[|kvs| - 1].0, kvs[|kvs| - 1].1)
  }

  /** A no-new pass, whether or not it completes, never adds a section and
      never changes what `has_option` reports; the store stays well formed. */
  lemma {:induction false} NoNewPassSpec(st: IniState, kvs: Env)
    requires st.Valid()
    ensures var r := NoNewPass(st, kvs).st;
      && r.Valid()
      && r.order == st.order && r.sections.Keys == st.sections.Keys
      && forall s, o :: r.HasOption(s, o) == st.HasOption(s, o)
    decreases |kvs|
  {
    if kvs != [] {
      var prev := NoNewPass(st, kvs[..|kvs| - 1]);
      NoNewPassSpec(st, kvs[..|kvs| - 1]);
      if prev.outcome.Pass? {
        NoNewStepSpec(prev.st, kvs[|kvs| - 1].0, kvs[|kvs| - 1].1);
      }
    }
  }

  /** Once a pass has failed, the rest of the table is not processed. */
  lemma {:induction false} NoNewPassStops(st: IniState, kvs: Env, n: nat)
    requires n <= |kvs|
    requires NoNewPass(st, kvs[..n]).outcome.Fail?
    ensures NoNewPass(st, kvs) == NoNewPass(st, kvs[..n])
    decreases |kvs|
  {
    if n < |kvs| {
      var init := kvs[..|kvs| - 1];
      assert init[..n] == kvs[..n];
      NoNewPassStops(st, init, n);
    } else {
      assert kvs[..n] == kvs;
    }
  }

  /** A no-new pass does not change which keys are accepted. */
  lemma NoNewPassAccepts(st: IniState, kvs: Env, key: string)
    requires st.Valid()
    ensures Accepted(NoNewPass(st, kvs).st, key) == Accepted(st, key)
  {
    NoNewPassSpec(st, kvs);
  }

  /** A no-new pass raises exactly when some key it accepts comes with a
      value `set` rejects; the exception is that ValueError. */
  lemma {:induction false} NoNewPassFailure(st: IniState, kvs: Env)
    requires st.Valid()
    ensures NoNewPass(st, kvs).outcome.Fail? <==> RejectsValue(st, kvs)
    ensures NoNewPass(st, kvs).outcome.Fail? ==>
      NoNewPass(st, kvs).outcome.error.InvalidInterpolation? && !ValidSyntax(NoNewPass(st, kvs).outcome.error.value)
    decreases |kvs|
  {
    if kvs != [] {
      var init := kvs[..|kvs| - 1];
      var last := kvs[|kvs| - 1];
      var prev := NoNewPass(st, init);
      NoNewPassFailure(st, init);
      RejectsValueSnoc(st, kvs);
      if prev.outcome.Pass? {
        NoNewPassSpec(st, init);
        NoNewPassAccepts(st, init, last.0);
        NoNewStepSpec(prev.st, last.0, last.1);
      }
    }
  }

  lemma RejectsValueSnoc(st: IniState, kvs: Env)
    requires kvs != []
    ensures RejectsValue(st, kvs) <==>
      RejectsValue(st, kvs[..|kvs| - 1]) || (Accepted(st, kvs[|kvs| - 1].0) && !ValidSyntax(kvs[|kvs| - 1].1))
  {
    var init := kvs[..|kvs| - 1];
    if RejectsValue(st, kvs) {
      var i :| 0 <= i < |kvs| && Accepted(st, kvs[i].0) && !ValidSyntax(kvs[i].1);
      if i < |init| { assert init[i] == kvs[i]; }
    }
    if RejectsValue(st, init) {
      var i :| 0 <= i < |init| && Accepted(st, init[i].0) && !ValidSyntax(init[i].1);
      assert kvs[i] == init[i];
    }
  }

  /** After a no-new pass, a slot no accepted key writes keeps its value,
      so nothing `has_option` did not already report is set. */
  lemma {:induction false} NoNewPassKeepsUnwritten(st: IniState, kvs: Env, slot: Slot)
    requires st.Valid()
    requires forall i :: 0 <= i < |kvs| && Accepted(st, kvs[i].0) ==> Target(kvs[i].0) != slot
    ensures NoNewPass(st, kvs).st.At(slot) == st.At(slot)
    decreases |kvs|
  {
    if kvs != [] {
      var init := kvs[..|kvs| - 1];
      var last := kvs[|kvs| - 1];
      assert forall i :: 0 <= i < |init| ==> init[i] == kvs[i];
      NoNewPassKeepsUnwritten(st, init, slot);
      NoNewPassAccepts(st, init, last.0);
      NoNewStepWrites(NoNewPass(st, init).st, last.0, last.1, slot);
    }
  }

  /** After a no-new pass that completes, the slot of an accepted i-th key
      holds its value when no later accepted key writes that slot: the last
      key wins. */
  lemma {:induction false} NoNewPassLastWins(st: IniState, kvs: Env, i: nat)
    requires st.Valid()
    requires i < |kvs| && Accepted(st, kvs[i].0)
    requires forall j :: i < j < |kvs| && Accepted(st, kvs[j].0) ==> Target(kvs[j].0) != Target(kvs[i].0)
    ensures NoNewPass(st, kvs).outcome.Pass? ==> NoNewPass(st, kvs).st.At(Target(kvs[i].0)) == Some(kvs[i].1)
    decreases |kvs|
  {
    var init := kvs[..|kvs| - 1];
    var last := kvs[|kvs| - 1];
    var prev := NoNewPass(st, init);
    if prev.outcome.Pass? {
      NoNewPassSpec(st, init);
      NoNewPassAccepts(st, init, last.0);
      NoNewStepSpec(prev.st, last.0, last.1);
      NoNewStepWrites(prev.st, last.0, last.1, Target(kvs[i].0));
      if i < |init| {
        assert init[i] == kvs[i];
        assert forall j :: i < j < |init| ==> init[j] == kvs[j];
        NoNewPassLastWins(st, init, i);
      }
    }
  }
}
