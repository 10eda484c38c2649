# configparser-override, modelled in Dafny

configparser-override is a small Python library. It reads INI files with the
standard `configparser` and then overrides the loaded values from two
sources: environment variables and keyword arguments ("direct overrides").
This project models its core and proves properties of the model:

- **The override engine** (`ConfigParserOverride` and its six strategies).
  - Keys such as `SECTION__option` are split on the first `__`.
  - Environment names are selected by a prefix and then stripped with
    `str.strip`.
  - A pass either creates new sections and options or only replaces options
    the store already reports.
  - A decision table picks one of six strategies from the prefix and the two
    "create new" flags.
- **The env-only parser** (`ConfigEnvParser`). It replaces existing options
  from upper-cased environment names.
- **The two converters** (`ConfigConverter` in convert.py and in
  dataclass.py).
  - They flatten the store into a mapping of section to option to value.
  - They fill a dataclass field by field, with skip and raise rules.
  - They cast booleans and unions.
- **The file collector** (`config_file_collector`). It finds the
  configuration files to read, ordered system files first and the user's file
  last.

The INI store is `IniStore.ConfigStore`: a class over a value
`IniStore.IniState` (section order, section maps, defaults). Its
`AddSection`, `Set`, `HasSection`, `HasOption` and `Get` behave as
`configparser` does for this code:

- `has_section("DEFAULT")` is false.
- `add_section` refuses "DEFAULT" and any existing name.
- `set` on "DEFAULT" (or on "", which `configparser` treats the same way)
  writes the defaults.
- Option names are lower-cased; section names are not.
- Every store of this code is a `ConfigParser()` with the default
  `BasicInterpolation` (configparser_override.py:277, configenvparser.py:26).
  Its `set` therefore first checks a non-empty value: once every `%%` and
  every `%(name)s` is removed, no `%` may be left, or `set` raises ValueError.
  This check comes before the section check. It is `Interpolation.ValidSyntax`.

Each loop of the source is an imperative method over the store. A `set`
that raises ends the loop and the strategy: the methods return an outcome,
`Pass` or `Fail` with the exception. Each method
is proved to leave the store in the state a pure function computes, and the
properties are proved as lemmas about those functions. The environment is a
sequence of (name, value) pairs, so its order is explicit. The files read,
the platform and which files exist are parameters.

Modules: `Wrappers`, `Text` (case mapping, `strip`, `split`), `Environ`,
`IniStore`, `OverrideKeys`, `OverridePasses`, `EnvScan`, `OverrideStrategy`,
`OverrideEngine`, `EnvParser`, `Conversion`, `Convert`, `DataclassConvert`,
`FileCollector`.

Where the code and its documentation disagree, the model follows the code:

- The code does no case folding of section names.
- `key.strip(prefix)` strips characters that occur in the prefix, not the
  prefix as a string.
- A key whose section part is "DEFAULT" (a key without `__`, or one
  beginning with `DEFAULT__`) in a create-new pass calls
  `add_section("DEFAULT")`, which raises. The tests in tests/test_configparser_override.py (lines 86-93
  and 322-333) expect such a key to be written to the defaults; the model
  follows the code.
- `NoPrefixNewDirectStrategy` also scans the environment (with the empty
  prefix) before the direct pass.

## Model

| member | source | states |
|---|---|---|
| OverrideKeys.ParseKeySpec | configparser_override/configparser_override.py:42-46 | A key without `__` gives ("DEFAULT", key). Otherwise it gives the text before the first `__` and everything after it; the option part may contain `__` |
| OverrideKeys.ParseJoinedKey | configparser_override/configparser_override.py:42-46 | Parsing `section + "__" + option` gives back (section, option) iff the section contains no `__` and does not end in `_` |
| OverrideKeys.CollectEnvVarsWithPrefix | configparser_override/configparser_override.py:35-40 | The collected names are exactly the stripped names of the variables starting with the prefix, each once |
| OverrideKeys.CollectedKeysAreStripped | configparser_override/configparser_override.py:35-40 | No collected name begins or ends with a character of the prefix |
| OverrideKeys.CollectLastWins | configparser_override/configparser_override.py:35-40 | When several variables strip to the same name, the dict keeps the value of the last one |
| OverrideKeys.StripKeepsRestIff | configparser_override/configparser_override.py:37 | Stripping `prefix + rest` gives `rest` back iff `rest` is empty or neither begins nor ends with a prefix character |
| OverrideKeys.StripEatsSectionName | configparser_override/configparser_override.py:37 | A section name that begins with a prefix character loses that character: the stripped key is not `section__option` |
| IniStore.IniState.AddSection | configparser_override/configparser_override.py:53-54 | `add_section` fails iff the name is "DEFAULT" or already a section; on success the name is appended with an empty map and nothing else changes |
| IniStore.IniState.Set | configparser_override/configparser_override.py:55 | `set` fails iff the value has invalid interpolation syntax (checked first, with that error) or the target is neither a default target nor a section; on success it writes the lower-cased option of that one slot and keeps the section order |
| IniStore.IniState.Get | configparser_override/convert.py:187 | `get` gives the section's own value when it has one, and otherwise the default value when there is one; for "DEFAULT" it gives the default value, and for a missing section nothing |
| IniStore.UpdatesKeepValid | configparser_override/configparser_override.py:53-55 | `add_section` and `set` keep the store well formed (order matches the sections, lower-case option names) |
| IniStore.SlotOf | configparser_override/configparser_override.py:55 | A write targets the defaults iff the section is "DEFAULT" or ""; the option is lower-cased |
| IniStore.ConfigStore.AddSection | configparser_override/configparser_override.py:54 | The store method changes the store exactly as `IniState.AddSection` says, or raises and changes nothing |
| IniStore.ConfigStore.Set | configparser_override/configparser_override.py:55 | The store method changes the store exactly as `IniState.Set` says, or raises and changes nothing |
| Interpolation.PlainIsValid | configparser_override/configparser_override.py:277 | A value without `%` passes the interpolation check |
| Interpolation.TrailingPercentIsInvalid | configparser_override/configparser_override.py:277 | A value ending in a lone `%` after text without `%` (such as "50%") fails the check |
| Interpolation.EscapeIsValid | configparser_override/configparser_override.py:277 | An escaped `%%` in front of a valid value keeps it valid |
| Interpolation.ReferenceIsValid | configparser_override/configparser_override.py:277 | A reference `%(name)s`, with a name without `)` or `%`, passes the check |
| OverridePasses.CreateStepSpec | configparser_override/configparser_override.py:52-55 | One create-new turn raises iff its key names "DEFAULT" or its value has invalid interpolation syntax. For "DEFAULT" it changes nothing, with `add_section`'s ValueError; for a value it raises `set`'s ValueError. On success the key's section exists afterwards and the section order is extended |
| OverridePasses.CreateStepOutcome | configparser_override/configparser_override.py:52-55 | The same outcome rule for any store without a "DEFAULT" section, well formed or not |
| OverridePasses.CreateStepAddsEmptySection | configparser_override/configparser_override.py:42-55 | A key beginning with `__` names the section "": a create-new turn with a valid value adds that section, while `set` on "" writes the option into the defaults |
| OverridePasses.CreateStepWrites | configparser_override/configparser_override.py:52-55 | A successful create-new turn writes the key's value into the key's slot and leaves every other slot unchanged |
| OverridePasses.CreatePassKeepsValid | configparser_override/configparser_override.py:49-55 | A create-new pass keeps the store well formed, whether or not it completes |
| OverridePasses.CreatePassFailure | configparser_override/configparser_override.py:49-55 | A create-new pass raises iff it has a key whose section part is "DEFAULT" (no `__`, or beginning with `DEFAULT__`) or some value has invalid interpolation syntax |
| OverridePasses.CreatePassFailsOnRaising | configparser_override/configparser_override.py:49-55 | A key whose section part is "DEFAULT" (no `__`, or beginning with `DEFAULT__`), or a value with invalid syntax, anywhere in the keys makes the pass raise |
| OverridePasses.CreatePassPassesWithoutRaising | configparser_override/configparser_override.py:49-55 | A pass in which no key's section part is "DEFAULT" (every key has `__` and none begins with `DEFAULT__`) and every value has valid syntax completes |
| OverridePasses.CreatePassFailsAtFirst | configparser_override/configparser_override.py:49-55 | On failure the store is as the keys before the first raising key left it, followed by that key's turn. The error is `add_section("DEFAULT")`'s for a key whose section part is "DEFAULT" (no `__`, or beginning with `DEFAULT__`), and otherwise `set`'s interpolation error |
| OverridePasses.CreatePassStops | configparser_override/configparser_override.py:51-55 | Once a turn raises, the later keys are not processed |
| OverridePasses.CreatePassSections | configparser_override/configparser_override.py:91-96 | A completed create-new pass keeps the existing sections in order and adds exactly the sections its keys name |
| OverridePasses.CreatePassLastWins | configparser_override/configparser_override.py:91-96 | After a completed create-new pass, the slot of a key that no later key writes holds that key's value: the last key wins |
| OverridePasses.CreatePassKeepsUnwritten | configparser_override/configparser_override.py:91-96 | After a completed create-new pass, a slot no key writes keeps its value |
| OverridePasses.NoNewStepSpec | configparser_override/configparser_override.py:99-107 | One no-new turn never adds a section, never changes what `has_option` reports, and keeps the store well formed. It raises iff the store accepts the key and the value has invalid syntax, and then changes nothing |
| OverridePasses.NoNewStepWrites | configparser_override/configparser_override.py:99-109 | A no-new turn writes the key's slot iff the section exists, `has_option` reports the option and the value has valid syntax; every other slot is unchanged |
| OverridePasses.NoNewPassSpec | configparser_override/configparser_override.py:99-109 | A no-new pass adds no section and leaves `has_option` unchanged |
| OverridePasses.NoNewPassFailure | configparser_override/configparser_override.py:99-109 | A no-new pass raises iff some key the store accepts carries a value with invalid syntax, and the exception is `set`'s interpolation error for such a value |
| OverridePasses.NoNewPassStops | configparser_override/configparser_override.py:101-107 | Once a turn raises, the later keys are not processed |
| OverridePasses.NoNewPassAccepts | configparser_override/configparser_override.py:99-109 | A no-new pass does not change which keys the store accepts |
| OverridePasses.NoNewPassLastWins | configparser_override/configparser_override.py:99-109 | After a completed no-new pass, the slot of an accepted key that no later accepted key writes holds that key's value |
| OverridePasses.NoNewPassKeepsUnwritten | configparser_override/configparser_override.py:99-109 | After a no-new pass, a slot no accepted key writes keeps its value, so nothing `has_option` did not report is set |
| EnvScan.ScanKeepsSections | configparser_override/configparser_override.py:58-88 | The no-new environment pass never adds or removes a section |
| EnvScan.ScanExistingKeepsValid | configparser_override/configparser_override.py:58-88 | The no-new environment pass keeps the store well formed |
| EnvScan.ScanClosedForm | configparser_override/configparser_override.py:58-88 | Each section gains the environment values found under `prefix+section+"__"+option` for the options it shows; the defaults gain those found under `prefix+"_"+option` (bare `option` without a prefix) |
| EnvScan.ScanReplacesSectionOptions | configparser_override/configparser_override.py:58-70 | A visible option of a section is replaced iff its environment name is set; otherwise the slot keeps its value |
| EnvScan.ScanReplacesDefaultOptions | configparser_override/configparser_override.py:72-88 | A default option is replaced iff its environment name is set; otherwise it keeps its value |
| EnvScan.ScanKeepsVisibleOptions | configparser_override/configparser_override.py:58-88 | The pass changes no section's `options()`, no default key and no `has_option` answer |
| EnvScan.DefaultPassRunsLast | configenvparser/configenvparser.py:51-65 | The section loop leaves the defaults as they were, and the default loop runs after it and touches only the defaults |
| EnvScan.ScanSectionsEffect | configparser_override/configparser_override.py:58-68 | Scanning a list of distinct sections updates exactly those sections and leaves the defaults alone |
| EnvScan.ScanSectionInPlace | configparser_override/configparser_override.py:59-70 | The loop over one section's options completes iff every value found for them has valid syntax, and then leaves the store in the state `ScanSection` describes; if it raises, the exception is an interpolation error and no section was added or removed |
| EnvScan.ScanSectionsInPlace | configparser_override/configparser_override.py:58-70 | The loop over the sections completes iff `ScanSectionsOk` holds, and then leaves the store in the state `ScanSections` describes; if it raises, the exception is an interpolation error and no section was added or removed |
| EnvScan.ScanDefaultsInPlace | configparser_override/configparser_override.py:72-88 | The loop over the default options completes iff every value found for them has valid syntax, and then leaves the store in the state `ScanDefaults` describes; if it raises, the exception is an interpolation error and no section was added or removed |
| EnvScan.ScanInPlace | configparser_override/configparser_override.py:58-88 | The two nested loops complete iff `ScanOk` holds, and then leave the store in the state `ScanExisting` describes; if they raise, the exception is an interpolation error and no section was added or removed |
| EnvScan.ScanOkClosedForm | configparser_override/configparser_override.py:58-88 | Without a section named "", the scan completes iff every value found for every section's options, and every value found for the default options, has valid syntax |
| OverrideStrategy.GetStrategy | configparser_override/configparser_override.py:180-243 | The selected strategy's condition holds; selection fails with OverrideStrategyNotImplementedError iff the prefix is empty and new options from the environment are asked for |
| OverrideStrategy.ConditionsExclusive | configparser_override/configparser_override.py:187-216 | At most one of the six conditions holds, and when one does the factory returns its strategy |
| OverrideStrategy.StrategyKeepsValid | configparser_override/configparser_override.py:112-153 | Every strategy that does not stop in the no-new environment scan keeps the store well formed |
| OverrideStrategy.NoNewStrategiesAddNoSection | configparser_override/configparser_override.py:112-131 | `NoPrefixNoNewStrategy` and `PrefixNoNewStrategy` never add a section; with no section named "" they do not change `has_option` either |
| OverrideStrategy.NoNewStrategiesRaise | configparser_override/configparser_override.py:112-131 | When their environment scan completes, `NoPrefixNoNewStrategy` and `PrefixNoNewStrategy` raise iff some accepted override carries a value with invalid syntax |
| OverrideStrategy.ScanRaisedIff | configparser_override/configparser_override.py:58-88 | A strategy stops in its environment scan iff it scans the existing options and the scan does not complete; without a section named "" that means some value found for an existing option has invalid syntax |
| OverrideStrategy.ScanKeepsAccepted | configparser_override/configparser_override.py:58-88 | Without a section named "", the environment scan does not change which override keys the store accepts |
| OverrideStrategy.DirectOverridesWin | configparser_override/configparser_override.py:122-153 | In the strategies ending with a create-new direct pass, when the strategy completes, a slot an override writes holds the last override's value, whatever the environment held |
| OverrideStrategy.DirectOverridesWinWithoutCreating | configparser_override/configparser_override.py:128-131 | When `PrefixNoNewStrategy` completes, the direct value wins over the environment for every override the store accepts |
| OverrideStrategy.NoPrefixNoNewIgnoresEnvironment | configparser_override/configparser_override.py:112-119 | `NoPrefixNoNewStrategy` gives the same result for every environment and prefix; slots no accepted override writes keep their values |
| OverrideStrategy.PrefixNewEnvIgnoresOverrides | configparser_override/configparser_override.py:134-141 | `PrefixNewEnvStrategy` gives the same result for every table of direct overrides; a slot holds the last collected environment value written to it |
| OverrideStrategy.BothSourcesFailure | configparser_override/configparser_override.py:150-153 | `PrefixNewEnvNewDirectStrategy` raises iff some collected environment entry or some override has a key whose section part is "DEFAULT" (no `__`, or beginning with `DEFAULT__`) or a value with invalid syntax |
| OverrideStrategy.BothSourcesSections | configparser_override/configparser_override.py:150-153 | When it completes, it has added exactly the sections either source names |
| OverrideEngine.CreateTurn | configparser_override/configparser_override.py:52-55 | `add_section` if missing, then `set`, change the store as `CreateStep` says |
| OverrideEngine.CreateInPlace | configparser_override/configparser_override.py:49-55 | The create-new loop changes the store as `CreatePass` says and returns its outcome |
| OverrideEngine.NoNewTurn | configparser_override/configparser_override.py:101-107 | One no-new turn changes the store as `NoNewStep` says and returns its outcome |
| OverrideEngine.NoNewInPlace | configparser_override/configparser_override.py:99-109 | The no-new loop changes the store as `NoNewPass` says and returns its outcome |
| OverrideEngine.Strategy.OverrideEnv | configparser_override/configparser_override.py:48-88 | `override_env` changes the store as `EnvPass` says in either mode; when the scan raises, the exception is an interpolation error and no section was added or removed |
| OverrideEngine.Strategy.OverrideDirect | configparser_override/configparser_override.py:90-109 | `override_direct` changes the store as `DirectPass` says in either mode |
| OverrideEngine.Strategy.Execute | configparser_override/configparser_override.py:112-153 | Each strategy's `execute` changes the store as `StrategyRun` says for its kind |
| OverrideEngine.ConfigParserOverride.New | configparser_override/configparser_override.py:269-277 | The constructor fails iff new options from the environment are asked for with an empty prefix; otherwise it stores its arguments with an empty store and a strategy is selectable |
| OverrideEngine.ConfigParserOverride.Read | configparser_override/configparser_override.py:311-314 | Loads the files' state, selects a strategy, then executes it; a selection failure leaves the store as loaded; a raising `set` is reported as the store's exception; the store object itself is returned |
| EnvParser.ConfigEnvParser.FindAndOverride | configenvparser/configenvparser.py:29-65 | `_find_and_override` completes iff every value found under the upper-cased naming scheme has valid syntax, and then changes the store as `ScanExisting` says; if it raises, no section was added or removed |
| EnvParser.ConfigEnvParser.Read | configenvparser/configenvparser.py:89-91 | `read` loads first, then overrides, with the same outcome rule, and returns the same store object |
| EnvParser.NamesAreUpperCase | configenvparser/configenvparser.py:38-43 | Every environment name the parser consults, for a section or a default option, has no lower-case letter |
| EnvParser.IgnoresLowerCaseNames | configenvparser/configenvparser.py:44-65 | Variables whose names contain a lower-case letter never affect the result or whether the scan completes |
| EnvParser.SameFindsSameScan | configenvparser/configenvparser.py:44-65 | Two environments that give the same value for every name the parser consults give the same scan and the same outcome |
| EnvParser.LookupWithoutLowerCase | configenvparser/configenvparser.py:44 | Looking up an upper-case name is unaffected by dropping the lower-case variables |
| EnvParser.WithoutLowerCase | configenvparser/configenvparser.py:44 | The filtered environment has no lower-case names and only entries of the original |
| EnvParser.NamesCollide | configenvparser/configenvparser.py:40-42 | Different section/option pairs share one environment name: `s_p`/`o` and `s`/`p_o` for every section, part and option, and any two sections with the same upper-case form |
| Conversion.EntryOf | configparser_override/convert.py:186-187 | The loop over options fills the entry with `get(section, option)` for each key |
| Conversion.FlatDictClosedForm | configparser_override/convert.py:182-194 | The flattened mapping has a key per section plus "DEFAULT"; a section's entry is the defaults overlaid by its own values; the default entry is the defaults |
| Conversion.SectionEntryClosedForm | configparser_override/dataclass.py:73-74 | A section's entry lists `options(section)` with the values `get` gives, which are the defaults overlaid by the section |
| Conversion.DefaultEntryClosedForm | configparser_override/dataclass.py:78-81 | The default entry has exactly the `defaults()` keys and values |
| Conversion.CastBool | configparser_override/convert.py:274-278 | The cast succeeds iff the lower-cased text is a boolean state, with that state's value; otherwise it raises ValueError (dataclass.py's `_cast_bool`, lines 172-175, is the same lookup) |
| Conversion.CastBoolIgnoresCase | configparser_override/convert.py:275-276 | The cast gives the same answer for a text and its upper-cased form; a state spelled with an upper-case letter never matches |
| Conversion.CastUnion | configparser_override/convert.py:353-360 | The cast succeeds iff some member cast succeeds, with the first success in declared order; otherwise it raises ConversionError (dataclass.py's `_cast_union`, lines 254-260, follows the same rule) |
| Conversion.FillKwargs | configparser_override/convert.py:204-232 | The field loop builds the keyword arguments `Kwargs` describes, or stops with the first exception |
| Conversion.KwargsStops | configparser_override/convert.py:205-231 | Once a field raises, the later fields are not looked at |
| Conversion.KwargsFailure | configparser_override/dataclass.py:117-127 | The loop raises iff some field raises, with the first such field's exception |
| Conversion.KwargsEntries | configparser_override/dataclass.py:117-127 | A completed loop's keys are exactly the kept field names, each with its value |
| Conversion.MissingAfterLoop | configparser_override/dataclass.py:117-127 | After a completed loop, `dataclass(**kwargs)` misses a field's argument iff the loop did not keep it and it has no default |
| Convert.ConfigConverter.Create | configparser_override/convert.py:103-113 | Giving both section lists raises InvalidParametersError; absent or empty boolean states fall back to `BOOLEAN_STATES` |
| Convert.AdmitsByList | configparser_override/convert.py:234-242 | `_parse_section` admits exactly the included sections, or exactly those not excluded, or every section |
| Convert.WithFieldSectionsSpec | configparser_override/convert.py:147-151 | `to_dataclass` adds exactly the field names that are neither "DEFAULT" nor sections, each empty and after the existing ones; existing sections and the defaults are untouched |
| Convert.WithFieldSectionsKeepsValid | configparser_override/convert.py:147-151 | Adding the field sections keeps the store well formed |
| Convert.ConfigConverter.AddFieldSections | configparser_override/convert.py:147-151 | The section-adding loop changes the store as `WithFieldSections` says |
| Convert.ConfigConverter.ToDict | configparser_override/convert.py:182-194 | `_to_dict` returns the flattened mapping `FlatDict` |
| Convert.ConfigConverter.DictToDataclass | configparser_override/convert.py:196-232 | `_dict_to_dataclass` runs the field loop under the skip and raise rules, then builds the dataclass, which raises TypeError for the fields without a default that the loop left out |
| Convert.ConfigConverter.ToDataclass | configparser_override/convert.py:147-157 | `to_dataclass` adds the field sections, then converts the flattened new store |
| Convert.FilteredSectionRule | configparser_override/convert.py:211-218 | A top-level field whose section is filtered out raises ConversionIgnoreError unless it is an optional dataclass or has a default; without a default the dataclass raises TypeError for it; after a completed conversion it has its default |
| Convert.MissingFieldRule | configparser_override/convert.py:221-232 | A field missing from the input raises ConversionIgnoreError unless it is optional or has a default; without a default the dataclass raises TypeError for it; after a completed conversion it has its default |
| Convert.PresentFieldRule | configparser_override/convert.py:221-227 | A present field is cast: a failing cast raises, and a completed conversion holds the cast value |
| Convert.ConversionCompletes | configparser_override/convert.py:196-232 | The conversion builds an instance iff every field it fills casts and every other field (filtered out or missing) has a default |
| DataclassConvert.ConfigConverter.ConfigToDict | configparser_override/dataclass.py:68-82 | `config_to_dict` returns the flattened mapping `FlatDict`: the sections plus "DEFAULT" |
| DataclassConvert.ConfigConverter.SectionsToDict | configparser_override/dataclass.py:69-74 | The section loop gives one entry per section, with `get` values for its options, and no "DEFAULT" key |
| DataclassConvert.ConfigConverter.DictToDataclass | configparser_override/dataclass.py:117-127 | `_dict_to_dataclass` runs the field loop under the missing-field rule, then builds the dataclass, which raises TypeError for the fields without a default that the loop left out |
| DataclassConvert.ConfigConverter.ConfigToDataclass | configparser_override/dataclass.py:93-97 | `config_to_dataclass` converts the flattened store |
| DataclassConvert.MissingFieldRule | configparser_override/dataclass.py:120-127 | A missing field raises "Missing field" unless its type is optional; without a default the dataclass raises TypeError for it; after a completed conversion it has its default |
| DataclassConvert.FieldLoopCompletes | configparser_override/dataclass.py:117-126 | The field loop completes iff every present field casts and every missing field is optional |
| DataclassConvert.ConversionCompletes | configparser_override/dataclass.py:117-127 | The conversion builds an instance iff every present field casts and every missing field is optional and has a default |
| DataclassConvert.PresentFieldRule | configparser_override/dataclass.py:120-124 | A present field is cast; a completed conversion holds the cast value |
| FileCollector.LogAndReturnIfExists | configparser_override/file_collector.py:12-16 | Returns the path iff it exists, else None |
| FileCollector.UnixCollectHomeConfig | configparser_override/file_collector.py:19-23 | The home candidate is `(XDG_CONFIG_HOME or home/.config)/subdir/file_name`, returned iff it exists |
| FileCollector.XdgDefault | configparser_override/file_collector.py:35-37 | With `XDG_CONFIG_DIRS` unset the only directory searched is /etc/xdg |
| FileCollector.BareEtcRule | configparser_override/file_collector.py:30-33 | With `bare_etc` the result is `/etc/subdir/file_name` if it exists and nothing otherwise, whatever the XDG directories are |
| FileCollector.UnixCollectSystemConfig | configparser_override/file_collector.py:26-44 | The append loop and the in-place reverse give `UnixSystemConfig` |
| FileCollector.ExistingCandidatesMembers | configparser_override/file_collector.py:38-42 | A path is kept iff it exists and is the candidate of some listed directory |
| FileCollector.SystemConfigMembers | configparser_override/file_collector.py:35-44 | Without `bare_etc`, a path is returned iff it exists and is the candidate of some XDG directory |
| FileCollector.FirstListedDirComesLast | configparser_override/file_collector.py:43 | The list is reversed, so the first XDG directory's file, when it exists, comes last |
| FileCollector.Reverse | configparser_override/file_collector.py:43 | `reverse()` puts element `i` at position `n-1-i` |
| FileCollector.WindowsCollectHomeConfig | configparser_override/file_collector.py:47-52 | An unset or empty `APPDATA` gives no home file; otherwise the candidate under it, iff it exists |
| FileCollector.WindowsCollectSystemConfig | configparser_override/file_collector.py:55-63 | At most one file; an unset or empty `PROGRAMDATA` gives none; the file found exists and lies under `PROGRAMDATA`; when the candidate under a set `PROGRAMDATA` exists, it is found |
| FileCollector.ConfigFileCollector | configparser_override/file_collector.py:66-92 | Raises NoConfigFilesFoundError iff nothing is found and that is not allowed; without merging, the single last file; otherwise every found file |
| FileCollector.HomeFileLast | configparser_override/file_collector.py:83-84 | The home file, when found, comes after every system file; the result is empty only when nothing was found; every file returned exists |
| Text.StripSpec | configparser_override/configparser_override.py:37 | `str.strip(chars)` removes the longest runs of characters in `chars` from both ends and nothing else |
| Text.JoinSplit | configparser_override/file_collector.py:36 | `split(":")` loses nothing: joining the pieces with ":" gives the text back |
| Text.SplitJoin | configparser_override/file_collector.py:36 | Splitting a ":"-join of pieces without ":" gives the pieces back |
| Text.SplitNoSeparator | configparser_override/file_collector.py:36 | A text without ":" splits into itself |
| Text.Split | configparser_override/file_collector.py:36 | `split(":")` gives at least one piece, and no piece contains ":" |
| Text.FindSep | configparser_override/configparser_override.py:43 | Finds the first `__` in the key, or reports that there is none |
| Environ.Lookup | configparser_override/configparser_override.py:65-66 | `env_var in os.environ` holds iff the name is in the table, and the value is that name's entry |
| Environ.PutLookup | configparser_override/configparser_override.py:36-40 | After a dict assignment the key maps to the new value and every other key keeps its value |
| Environ.PutNames | configparser_override/configparser_override.py:36-40 | A dict assignment adds its key to the keys and nothing else |
| Environ.PutUnique | configparser_override/configparser_override.py:36-40 | A dict assignment keeps every key unique |
| Environ.PutPlace | configparser_override/configparser_override.py:36-40 | Assigning an existing key adds no entry; a new key is appended at the end, as a dict keeps insertion order |

## Left out

- Reading and parsing the INI files (`configparser.read`) is a parameter: `Read` takes the store as it is after `read` has merged the files into it. `read` merges into whatever the store already holds, so a second `read` on the same object keeps the first run's sections and overrides; that is modelled only by passing the merged state.
- Interpolation in `get` (`before_get`, the expansion of `%(name)s`) is not modelled; `get` is a lookup with a fallback to the defaults. Only the check `set` makes (`before_set`) is modelled.
- The store left behind when a `set` inside the environment scan raises is not modelled beyond its sections: it depends on the order of the options in each section. The model states only that the exception is an interpolation error and that no section was added or removed.
- Logging calls are left out; they do not change the store.
- `os.environ`, `os.getenv`, `platform.system`, `Path.home` and `Path.exists` are parameters (an environment table, a platform string, a home path, a set of existing paths).
- The operating system's case-insensitive environment names on Windows are not modelled.
- Option order inside a section is not modelled (maps): every pass writes each option under its own key, so the order never changes a value.
- A `None` value in the overrides (allowed by the type hints) is not modelled; values are strings.
- The strategy subclasses are one class with a strategy kind field instead of six subclasses of an abstract base.
- `_cast_value`'s type dispatch is not modelled; the cast of a value to a field's type is a function parameter. This covers `get_type_hints`, `ast.literal_eval`, `_cast_list`, `_cast_set`, `_cast_tuple`, `_cast_dict` and the `int`/`float`/`complex`/`str`/`bytes`/`Path` constructors. `CastBool` and `CastUnion` are modelled, and the union cast takes its member cast as a parameter.
- Type hints are reduced to three flags per field (optional, has a default, optional dataclass). Nested dataclasses are a nesting level passed to the field rules.
- The dataclass constructor call `dataclass(**kwargs)` is modelled only by its TypeError for missing arguments; the instance is given by the keyword-argument map. Fields with `init=False` and `__post_init__` are not modelled.
- dataclass.py's ValueError for a class that is not a dataclass is not modelled, because every field list here is a dataclass's.
- Paths are sequences of components. A directory taken from the environment is one component and is not normalised; the empty string is the current directory.
- Case mapping (`lower`, `upper`) is ASCII only.
- EnvScan.ScanClosedForm, EnvScan.ScanReplacesSectionOptions, EnvScan.ScanReplacesDefaultOptions, EnvScan.ScanKeepsVisibleOptions, EnvScan.DefaultPassRunsLast: these assume no section is named "". `configparser` treats a `set` on "" as a write to the defaults, and an INI file never produces a section with an empty header. A create-new pass can create one, though: a key beginning with `__` names the section "" (OverridePasses.CreateStepAddsEmptySection), so a later `read` on the same object starts from a store these lemmas exclude. Without this assumption only EnvScan.ScanKeepsSections and EnvScan.ScanExistingKeepsValid are proved.
- OverrideStrategy.NoNewStrategiesAddNoSection, OverrideStrategy.DirectOverridesWinWithoutCreating, OverrideStrategy.ScanKeepsAccepted: the `has_option` part has the same assumption about a section named "".
- OverrideStrategy.NoNewStrategiesRaise: for `PrefixNoNewStrategy` it has the same assumption, because the scan before the direct pass could otherwise change which keys are accepted.
- OverrideStrategy.StrategyKeepsValid, OverrideStrategy.NoNewStrategiesAddNoSection, OverrideStrategy.DirectOverridesWin, OverrideStrategy.DirectOverridesWinWithoutCreating: these state nothing about a run that stops in the environment scan, whose store is described only by the scan methods (see above).
