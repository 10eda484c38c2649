/** `ConfigConverter` of convert.py: a converter over one store, with an
    optional included or excluded list of sections and the boolean states its
    bool cast uses. `to_dataclass` first adds a section for every top-level
    field the store lacks, then flattens the store and fills the dataclass
    field by field, skipping the sections the lists filter out. */
module Convert {
  import opened Wrappers
  import opened IniStore
  import opened Conversion

  datatype ConvertError =
    | InvalidParameters          // InvalidParametersError
    | ConversionIgnore(field: string)   // ConversionIgnoreError
    | Cast(error: CastError)     // an exception of the field's cast
    | Uninitialized(names: set<string>) // TypeError of the dataclass's `__init__`

  /** `include_sections` and `exclude_sections` (None when not given). */
  datatype SectionFilter = SectionFilter(included: Option<seq<string>>, excluded: Option<seq<string>>)
  {
    /** `_parse_section`. */
    predicate Admits(section: string)
    {
      !((included.Some? && section !in included.value) || (excluded.Some? && section in excluded.value))
    }
  }

  /** A filter the constructor accepts admits exactly the included sections,
      or exactly the sections not excluded, or every section. */
  lemma AdmitsByList(f: SectionFilter, section: string)
    requires !(f.included.Some? && f.excluded.Some?)
    ensures f.included.Some? ==> (f.Admits(section) <==> section in f.included.value)
    ensures f.excluded.Some? ==> (f.Admits(section) <==> section !in f.excluded.value)
    ensures f.included.None? && f.excluded.None? ==> f.Admits(section)
  {
  }

  /** `_can_ignore_section`. */
  predicate CanIgnoreSection(f: Field)
  {
    f.optionalDataclass || f.hasDefault
  }

  /** `_can_ignore_conversion`. */
  predicate CanIgnoreConversion(f: Field)
  {
    f.optional || f.hasDefault
  }

  /** One turn of `_dict_to_dataclass`'s loop at nesting level `level`. */
  function FieldStep<V, W>(filter: SectionFilter, level: nat, input: map<string, V>,
                           cast: (Field, V) -> Result<W, CastError>, f: Field): Step<W, ConvertError>
  {
    if level == 0 && !filter.Admits(f.name) then
      if CanIgnoreSection(f) then Skip else Raise(ConversionIgnore(f.name))
    else if f.name in input then
      match cast(f, input[f.name])
      case Success(w) => Keep(w)
      case Failure(e) => Raise(Cast(e))
    else if !CanIgnoreConversion(f) then Raise(ConversionIgnore(f.name))
    else Skip
  }

  function Steps<V, W>(filter: SectionFilter, level: nat, input: map<string, V>,
                       cast: (Field, V) -> Result<W, CastError>): Field -> Step<W, ConvertError>
  {
    f => FieldStep(filter, level, input, cast, f)
  }

  /** Whether `_dict_to_dataclass` at `level` fills field `f` from `input`:
      its section passes the filter and the input has it. */
  predicate Fills<V>(filter: SectionFilter, level: nat, input: map<string, V>, f: Field)
  {
    (level > 0 || filter.Admits(f.name)) && f.name in input
  }

  /** `_dict_to_dataclass` at nesting level `level`: the loop over the
      fields, then `dataclass(**kwargs)`, which raises TypeError for the
      arguments it misses; the instance is given by the arguments it was
      built from. */
  function Converted<V, W>(filter: SectionFilter, level: nat, input: map<string, V>,
                           cast: (Field, V) -> Result<W, CastError>, fields: seq<Field>): Result<map<string, W>, ConvertError>
  {
    match Kwargs(fields, Steps(filter, level, input, cast))
    case Failure(e) => Failure(e)
    case Success(kw) =>
      if MissingArguments(fields, kw) == {} then Success(kw) else Failure(Uninitialized(MissingArguments(fields, kw)))
  }

  /** The sections `to_dataclass` adds for `fields`: each field name that is
      not the default section and not yet a section, in field order. */
  function WithFieldSections(st: IniState, fields: seq<Field>): IniState
    decreases |fields|
  {
    if fields == [] then st
    else
      var prev := WithFieldSections(st, fields[..|fields| - 1]);
      var name := fields[|fields| - 1].name;
      if name != DefaultSection && !prev.HasSection(name) then
        match prev.AddSection(name)
        case Success(next) => next
        case Failure(_) => prev
      else prev
  }

  /** The field names `to_dataclass` makes sure are sections. */
  ghost function FieldSectionNames(fields: seq<Field>): set<string>
  {
    set i | 0 <= i < |fields| && fields[i].name != DefaultSection :: fields[i].name
  }

  /** One turn of the section-adding loop, written out. */
  lemma FieldSectionTurn(st: IniState, fields: seq<Field>)
    requires fields != []
    ensures var prev := WithFieldSections(st, fields[..|fields| - 1]);
      var name := fields[|fields| - 1].name;
      WithFieldSections(st, fields) ==
        if name != DefaultSection && name !in prev.sections
        then IniState(prev.order + [name], prev.sections[name := map[]], prev.defaults)
        else prev
  {
  }

  lemma FieldSectionNamesSnoc(fields: seq<Field>)
    requires fields != []
    ensures var name := fields[|fields| - 1].name;
      FieldSectionNames(fields) ==
        FieldSectionNames(fields[..|fields| - 1]) + (if name != DefaultSection then {name} else {})
  {
    var init := fields[..|fields| - 1];
    var name := fields[|fields| - 1].name;
    forall x | x in FieldSectionNames(fields)
      ensures x in FieldSectionNames(init) + (if name != DefaultSection then {name} else {})
    {
      var i :| 0 <= i < |fields| && fields[i].name != DefaultSection && fields[i].name == x;
      if i < |init| { assert init[i] == fields[i]; }
    }
    forall x | x in FieldSectionNames(init) ensures x in FieldSectionNames(fields) {
      var i :| 0 <= i < |init| && init[i].name != DefaultSection && init[i].name == x;
      assert fields[i] == init[i];
    }
    if name != DefaultSection {
      assert fields[|fields| - 1].name == name;
    }
  }

  /** Adding the field sections keeps the store well formed. */
  lemma {:induction false} WithFieldSectionsKeepsValid(st: IniState, fields: seq<Field>)
    requires st.Valid()
    ensures WithFieldSections(st, fields).Valid()
    decreases |fields|
  {
    if fields != [] {
      var init := fields[..|fields| - 1];
      WithFieldSectionsKeepsValid(st, init);
      UpdatesKeepValid(WithFieldSections(st, init), fields[|fields| - 1].name, "", "");
    }
  }

  /** It adds exactly the field names that are neither the default section
      nor sections already, each empty and after the existing ones, and
      leaves the existing sections and the defaults untouched. */
  lemma {:induction false} WithFieldSectionsSpec(st: IniState, fields: seq<Field>)
    ensures var r := WithFieldSections(st, fields);
      && r.sections.Keys == st.sections.Keys + FieldSectionNames(fields)
      && (forall s :: s in st.sections ==> r.sections[s] == st.sections[s])
      && (forall s :: s in r.sections && s !in st.sections ==> r.sections[s] == map[])
      && r.defaults == st.defaults
      && |r.order| >= |st.order| && r.order[..|st.order|] == st.order
    decreases |fields|
  {
    if fields != [] {
      var init := fields[..|fields| - 1];
      WithFieldSectionsSpec(st, init);
      FieldSectionTurn(st, fields);
      FieldSectionNamesSnoc(fields);
      var prev := WithFieldSections(st, init);
      var r := WithFieldSections(st, fields);
      assert r.order[..|st.order|] == prev.order[..|st.order|];
    }
  }

  class ConfigConverter {
    const config: ConfigStore
    const booleanStates: map<string, bool>
    const filter: SectionFilter

    constructor (config: ConfigStore, booleanStates: map<string, bool>, filter: SectionFilter)
      ensures this.config == config && this.booleanStates == booleanStates && this.filter == filter
    {
      this.config := config;
      this.booleanStates := booleanStates;
      this.filter := filter;
    }

    /** `__init__`: both section lists at once raise InvalidParametersError;
        missing or empty boolean states fall back to the parser's. */
    static method Create(config: ConfigStore, booleanStates: Option<map<string, bool>>,
                         included: Option<seq<string>>, excluded: Option<seq<string>>)
      returns (r: Result<ConfigConverter, ConvertError>)
      ensures r.Failure? <==> included.Some? && excluded.Some?
      ensures r.Failure? ==> r.error == InvalidParameters
      ensures r.Success? ==>
        && fresh(r.value)
        && r.value.config == config
        && r.value.filter == SectionFilter(included, excluded)
        && r.value.booleanStates ==
             (if booleanStates.Some? && |booleanStates.value| > 0 then booleanStates.value else ParserBooleanStates)
    {
      if included.Some? && excluded.Some? {
        return Failure(InvalidParameters);
      }
      var states := if booleanStates.Some? && |booleanStates.value| > 0 then booleanStates.value else ParserBooleanStates;
      var c := new ConfigConverter(config, states, SectionFilter(included, excluded));
      r := Success(c);
    }

    /** The section-adding loop at the start of `to_dataclass`. */
    method AddFieldSections(fields: seq<Field>)
      requires config.Valid()
      modifies config
      ensures config.Valid()
      ensures config.State() == WithFieldSections(old(config.State()), fields)
    {
      ghost var st0 := config.State();
      var i := 0;
      while i < |fields|
        invariant 0 <= i <= |fields|
        invariant config.Valid()
        invariant config.State() == WithFieldSections(st0, fields[..i])
      {
        assert fields[..i + 1][..i] == fields[..i];
        var name := fields[i].name;
        if name != DefaultSection && !config.HasSection(name) {
          var _ := config.AddSection(name);
        }
        i := i + 1;
      }
      assert fields[..i] == fields;
    }

    /** `_to_dict`. */
    method ToDict() returns (d: map<string, Options>)
      requires config.Valid()
      ensures d == FlatDict(config.State())
    {
      ghost var st := config.State();
      d := map[];
      var names := config.Sections();
      var i := 0;
      while i < |names|
        invariant 0 <= i <= |names|
        invariant forall s :: s in d <==> s in names[..i]
        invariant forall s :: s in d ==> s in st.sections && d[s] == SectionEntry(st, s)
      {
        assert names[i] in st.sections;
        var entry := EntryOf(config, names[i], config.State().Options(names[i]));
        assert names[..i + 1] == names[..i] + [names[i]];
        d := d[names[i] := entry];
        i := i + 1;
      }
      assert names[..i] == names;
      assert d == map s | s in st.sections :: SectionEntry(st, s);
      var defaults := EntryOf(config, DefaultSection, config.Defaults().Keys);
      d := d[DefaultSection := defaults];
    }

    /** `_dict_to_dataclass` at nesting level `level`: the arguments the
        dataclass was built from, or the exception. */
    method DictToDataclass<V, W>(input: map<string, V>, fields: seq<Field>, level: nat,
                                 cast: (Field, V) -> Result<W, CastError>)
      returns (r: Result<map<string, W>, ConvertError>)
      ensures r == Converted(filter, level, input, cast, fields)
    {
      r := FillKwargs(fields, Steps(filter, level, input, cast));
      if r.Success? {
        var missing := MissingArguments(fields, r.value);
        if missing != {} {
          r := Failure(Uninitialized(missing));
        }
      }
    }

    /** `to_dataclass`: add the field sections, flatten, convert at level 0. */
    method ToDataclass<W>(fields: seq<Field>, cast: (Field, Options) -> Result<W, CastError>)
      returns (r: Result<map<string, W>, ConvertError>)
      requires config.Valid()
      modifies config
      ensures config.Valid()
      ensures config.State() == WithFieldSections(old(config.State()), fields)
      ensures r == Converted(filter, 0, FlatDict(config.State()), cast, fields)
    {
      AddFieldSections(fields);
      var d := ToDict();
      r := DictToDataclass(d, fields, 0, cast);
    }
  }

  // -----------------------------------------------------------------------
  // The rules of `_dict_to_dataclass`

  /** A top-level field whose section the filter leaves out is skipped when
      it is an optional dataclass or has a default, and the conversion raises
      ConversionIgnore otherwise; a skipped field without a default makes the
      dataclass raise TypeError. */
  lemma FilteredSectionRule<V, W>(filter: SectionFilter, input: map<string, V>,
                                  cast: (Field, V) -> Result<W, CastError>, fields: seq<Field>, i: nat)
    requires DistinctNames(fields) && i < |fields| && !filter.Admits(fields[i].name)
    ensures var r := Converted(filter, 0, input, cast, fields);
      && (!CanIgnoreSection(fields[i]) ==> r == Kwargs(fields, Steps(filter, 0, input, cast)) && r.Failure?)
      && (!fields[i].hasDefault ==> r.Failure?)
      && (r.Success? ==> fields[i].hasDefault && fields[i].name !in r.value)
  {
    var step := Steps(filter, 0, input, cast);
    KwargsFailure(fields, step);
    if Kwargs(fields, step).Success? {
      MissingAfterLoop(fields, step, i);
      KwargsEntries(fields, step);
    }
  }

  /** A field the input lacks (and the filter does not skip) makes the
      conversion raise ConversionIgnore unless it is optional or has a
      default, and the dataclass raise TypeError unless it has a default;
      a missing field the conversion survives is left to its default. */
  lemma MissingFieldRule<V, W>(filter: SectionFilter, level: nat, input: map<string, V>,
                               cast: (Field, V) -> Result<W, CastError>, fields: seq<Field>, i: nat)
    requires DistinctNames(fields) && i < |fields| && fields[i].name !in input
    requires level > 0 || filter.Admits(fields[i].name)
    ensures var r := Converted(filter, level, input, cast, fields);
      && (!CanIgnoreConversion(fields[i]) ==> r == Kwargs(fields, Steps(filter, level, input, cast)) && r.Failure?)
      && (!fields[i].hasDefault ==> r.Failure?)
      && (r.Success? ==> fields[i].hasDefault && fields[i].name !in r.value)
  {
    var step := Steps(filter, level, input, cast);
    KwargsFailure(fields, step);
    if Kwargs(fields, step).Success? {
      MissingAfterLoop(fields, step, i);
      KwargsEntries(fields, step);
    }
  }

  /** The conversion yields an instance exactly when every field it fills
      casts and every other field has a default: a default excuses a
      filtered or missing field both in the loop and in `__init__`, and
      nothing else excuses it in `__init__`. */
  lemma ConversionCompletes<V, W>(filter: SectionFilter, level: nat, input: map<string, V>,
                                  cast: (Field, V) -> Result<W, CastError>, fields: seq<Field>)
    requires DistinctNames(fields)
    ensures Converted(filter, level, input, cast, fields).Success? <==>
      forall i :: 0 <= i < |fields| ==>
        if Fills(filter, level, input, fields[i]) then cast(fields[i], input[fields[i].name]).Success?
        else fields[i].hasDefault
  {
    var step := Steps(filter, level, input, cast);
    KwargsFailure(fields, step);
    if Kwargs(fields, step).Success? {
      var kw := Kwargs(fields, step).value;
      forall i | 0 <= i < |fields|
        ensures fields[i].name in MissingArguments(fields, kw) <==>
          !Fills(filter, level, input, fields[i]) && !fields[i].hasDefault
      {
        MissingAfterLoop(fields, step, i);
      }
    }
  }

  /** A field the input has (and the filter does not skip) is cast: a cast
      that raises makes the conversion raise, and a completed conversion
      holds the cast value. */
  lemma PresentFieldRule<V, W>(filter: SectionFilter, level: nat, input: map<string, V>,
                               cast: (Field, V) -> Result<W, CastError>, fields: seq<Field>, i: nat)
    requires DistinctNames(fields) && i < |fields| && fields[i].name in input
    requires level > 0 || filter.Admits(fields[i].name)
    ensures var r := Converted(filter, level, input, cast, fields);
      && (cast(fields[i], input[fields[i].name]).Failure? ==> r.Failure?)
      && (r.Success? ==> fields[i].name in r.value && r.value[fields[i].name] == cast(fields[i], input[fields[i].name]).value)
  {
    var step := Steps(filter, level, input, cast);
    KwargsFailure(fields, step);
    KwargsEntries(fields, step);
  }
}
