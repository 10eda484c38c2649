/** Flat override keys and the environment collection of the override
    engine (configparser_override.py): `Strategy.parse_key` splits a key
    `SECTION__option` at the first `"__"`, and
    `Strategy.collect_env_vars_with_prefix` gathers the environment entries
    whose name starts with the prefix, naming each by `name.strip(prefix)`. */
module OverrideKeys {
  import opened Wrappers
  import opened Text
  import opened IniStore
  import opened Environ

  /** `parse_key`: `(section, option)`; a key without `"__"` addresses the
      default section. */
  function ParseKey(key: string): (string, string)
  {
    match FindSep(key)
    case None => (DefaultSection, key)
    case Some(i) => (key[..i], key[i + 2..])
  }

  /** A key without `"__"` names the default section; otherwise the key is
      the section, `"__"` and the option, and the section ends before the
      first `"__"` of the key. */
  lemma ParseKeySpec(key: string)
    ensures var r := ParseKey(key);
      && (!ContainsSep(key) ==> r == (DefaultSection, key))
      && (ContainsSep(key) ==>
        && key == r.0 + "__" + r.1
        && SepAt(key, |r.0|)
        && forall j :: 0 <= j < |r.0| ==> !SepAt(key, j))
  {
    match FindSep(key)
    case None =>
    case Some(i) =>
      assert key == key[..i] + "__" + key[i + 2..];
  }

  /** A section name that `parse_key` gives back from `section + "__" + option`:
      it holds no `"__"` and does not end in `'_'` (either would move the
      first separator to the left). */
  predicate RoundTrips(section: string)
  {
    !ContainsSep(section) && (section == [] || section[|section| - 1] != '_')
  }

  /** Joining a section and an option with `"__"` and parsing gives them back
      exactly when the section name round-trips; the option may hold `"__"`. */
  lemma ParseJoinedKey(section: string, option: string)
    ensures ParseKey(section + "__" + option) == (section, option) <==> RoundTrips(section)
  {
    var key := section + "__" + option;
    assert SepAt(key, |section|);
    ParseKeySpec(key);
    var r := ParseKey(key);
    if RoundTrips(section) {
      forall j | 0 <= j < |section|
        ensures !SepAt(key, j)
      {
        if j + 1 < |section| {
          assert !SepAt(section, j);
        } else {
          assert key[j] == section[|section| - 1];
        }
      }
      assert !(|r.0| < |section|);
      assert !(|r.0| > |section|);
      assert r.0 == key[..|section|] == section;
      assert r.1 == key[|section| + 2..] == option;
    }
    if r.0 == section {
      assert forall j :: 0 <= j < |section| && SepAt(section, j) ==> SepAt(key, j);
      assert section != [] ==> !SepAt(key, |section| - 1);
    }
  }

  /** The environment names the collection keeps: those starting with the
      prefix, renamed by `strip`. */
  ghost function Selected(env: Env, prefix: string): set<string>
  {
    set i | 0 <= i < |env| && prefix <= env[i].0 :: Strip(env[i].0, prefix)
  }

  /** `collect_env_vars_with_prefix(prefix)`: a dict built in environment
      order, so a later entry that strips to the same key overwrites an
      earlier one in place. */
  function CollectEnvVarsWithPrefix(env: Env, prefix: string): (r: Env)
    ensures UniqueNames(r)
    ensures Names(r) == Selected(env, prefix)
    decreases |env|
  {
    if env == [] then []
    else
      var init := env[..|env| - 1];
      var last := env[|env| - 1];
      var prev := CollectEnvVarsWithPrefix(init, prefix);
      SelectedSnoc(env, prefix);
      PutNames(prev, Strip(last.0, prefix), last.1);
      PutUnique(prev, Strip(last.0, prefix), last.1);
      if prefix <= last.0 then Put(prev, Strip(last.0, prefix), last.1) else prev
  }

  lemma SelectedSnoc(env: Env, prefix: string)
    requires env != []
    ensures var last := env[|env| - 1];
      Selected(env, prefix) ==
        Selected(env[..|env| - 1], prefix) + (if prefix <= last.0 then {Strip(last.0, prefix)} else {})
  {
    SelectedSnocShrinks(env, prefix);
    SelectedSnocGrows(env, prefix);
  }

  lemma SelectedSnocShrinks(env: Env, prefix: string)
    requires env != []
    ensures var last := env[|env| - 1];
      Selected(env, prefix) <= Selected(env[..|env| - 1], prefix) + (if prefix <= last.0 then {Strip(last.0, prefix)} else {})
  {
    var init := env[..|env| - 1];
    var last := env[|env| - 1];
    forall x | x in Selected(env, prefix)
      ensures x in Selected(init, prefix) + (if prefix <= last.0 then {Strip(last.0, prefix)} else {})
    {
      var i :| 0 <= i < |env| && prefix <= env[i].0 && Strip(env[i].0, prefix) == x;
      if i < |init| {
        assert init[i] == env[i];
      } else {
        assert env[i] == last;
      }
    }
  }

  lemma SelectedSnocGrows(env: Env, prefix: string)
    requires env != []
    ensures var last := env[|env| - 1];
      Selected(env[..|env| - 1], prefix) + (if prefix <= last.0 then {Strip(last.0, prefix)} else {}) <= Selected(env, prefix)
  {
    var init := env[..|env| - 1];
    forall x | x in Selected(init, prefix)
      ensures x in Selected(env, prefix)
    {
      var i :| 0 <= i < |init| && prefix <= init[i].0 && Strip(init[i].0, prefix) == x;
      assert env[i] == init[i];
    }
    if prefix <= env[|env| - 1].0 {
      assert Strip(env[|env| - 1].0, prefix) in Selected(env, prefix);
    }
  }

  /** No collected key begins or ends with a character of the prefix: `strip`
      removes every such character from both ends. */
  lemma CollectedKeysAreStripped(env: Env, prefix: string, k: string)
    requires k in Names(CollectEnvVarsWithPrefix(env, prefix))
    ensures k != [] ==> k[0] !in prefix && k[|k| - 1] !in prefix
  {
    var i :| 0 <= i < |env| && prefix <= env[i].0 && Strip(env[i].0, prefix) == k;
    StripSpec(env[i].0, prefix);
  }

  /** The value collected under a key is that of the last environment entry
      that starts with the prefix and strips to that key. */
  lemma {:induction false} CollectLastWins(env: Env, prefix: string, i: nat)
    requires i < |env| && prefix <= env[i].0
    requires forall j :: i < j < |env| && prefix <= env[j].0 ==> Strip(env[j].0, prefix) != Strip(env[i].0, prefix)
    ensures Lookup(CollectEnvVarsWithPrefix(env, prefix), Strip(env[i].0, prefix)) == Some(env[i].1)
    decreases |env|
  {
    var init := env[..|env| - 1];
    var last := env[|env| - 1];
    PutLookup(CollectEnvVarsWithPrefix(init, prefix), Strip(last.0, prefix), last.1, Strip(env[i].0, prefix));
    if i < |env| - 1 {
      assert init[i] == env[i];
      forall j | i < j < |init| && prefix <= init[j].0
        ensures Strip(init[j].0, prefix) != Strip(init[i].0, prefix)
      {
        assert init[j] == env[j];
      }
      CollectLastWins(init, prefix, i);
    }
  }

  /** `lstrip` cuts exactly the leading run of characters of `chars`. */
  lemma {:induction false} LStripPrefixRun(s: string, chars: string, n: nat)
    requires n <= |s| && forall i :: 0 <= i < n ==> s[i] in chars
    requires n < |s| ==> s[n] !in chars
    ensures LStrip(s, chars) == s[n..]
    decreases n
  {
    if n > 0 {
      assert s[1..][n - 1..] == s[n..];
      LStripPrefixRun(s[1..], chars, n - 1);
    }
  }

  /** `name.strip(prefix)` gives back the rest of a name `prefix + rest`
      exactly when `rest` neither begins nor ends with a character of the
      prefix: `strip` removes characters, not the prefix string. */
  lemma StripKeepsRestIff(prefix: string, rest: string)
    ensures Strip(prefix + rest, prefix) == rest <==> (rest == [] || (rest[0] !in prefix && rest[|rest| - 1] !in prefix))
  {
    var s := prefix + rest;
    StripSpec(s, prefix);
    if rest == [] || (rest[0] !in prefix && rest[|rest| - 1] !in prefix) {
      assert forall i :: 0 <= i < |prefix| ==> s[i] in prefix;
      assert |prefix| < |s| ==> s[|prefix|] == rest[0];
      LStripPrefixRun(s, prefix, |prefix|);
      assert s[|prefix|..] == rest;
    }
  }

  /** So a section whose name begins with a character of the prefix is never
      reached under its own name: with the prefix `"TEST_"`, the name
      `"TEST_SECTION2__OPTION2"` is collected as `"CTION2__OPTION2"`. */
  lemma StripEatsSectionName(prefix: string, section: string, option: string)
    requires section != [] && section[0] in prefix
    ensures Strip(prefix + section + "__" + option, prefix) != section + "__" + option
  {
    var rest := section + "__" + option;
    assert prefix + section + "__" + option == prefix + rest;
    assert rest[0] == section[0];
    StripKeepsRestIff(prefix, rest);
  }
}
