/** `ConfigConverter` of dataclass.py, the older converter: no section
    filter, and no section added before converting. A field the input lacks
    may be left out only when its type is optional; a default value does not
    excuse it, and the dataclass's own `__init__` then still demands every
    left-out field that has no default. */
module DataclassConvert {
  import opened Wrappers
  import opened IniStore
  import opened Conversion

  datatype DataclassError =
    | MissingField(field: string)   // ValueError("Missing field: ...")
    | Cast(error: CastError)        // an exception of the field's cast
    | Uninitialized(names: set<string>) // TypeError of the dataclass's `__init__`

  /** One turn of `_dict_to_dataclass`'s loop. */
  function FieldStep<V, W>(input: map<string, V>, cast: (Field, V) -> Result<W, CastError>, f: Field): Step<W, DataclassError>
  {
    if f.name in input then
      match cast(f, input[f.name])
      case Success(w) => Keep(w)
      case Failure(e) => Raise(Cast(e))
    else if !f.optional then Raise(MissingField(f.name))
    else Skip
  }

  function Steps<V, W>(input: map<string, V>, cast: (Field, V) -> Result<W, CastError>): Field -> Step<W, DataclassError>
  {
    f => FieldStep(input, cast, f)
  }

  /** `_dict_to_dataclass`: the loop over the fields, then
      `dataclass(**kwargs)`, which raises TypeError for the arguments it
      misses; the instance is given by the arguments it was built from. */
  function Converted<V, W>(input: map<string, V>, cast: (Field, V) -> Result<W, CastError>, fields: seq<Field>): Result<map<string, W>, DataclassError>
  {
    match Kwargs(fields, Steps(input, cast))
    case Failure(e) => Failure(e)
    case Success(kw) =>
      if MissingArguments(fields, kw) == {} then Success(kw) else Failure(Uninitialized(MissingArguments(fields, kw)))
  }

  class ConfigConverter {
    const config: ConfigStore
    const booleanStates: map<string, bool>

    /** `__init__`: missing or empty boolean states fall back to the
        parser's. */
    constructor (config: ConfigStore, booleanStates: Option<map<string, bool>>)
      ensures this.config == config
      ensures this.booleanStates ==
        (if booleanStates.Some? && |booleanStates.value| > 0 then booleanStates.value else ParserBooleanStates)
    {
      this.config := config;
      this.booleanStates := if booleanStates.Some? && |booleanStates.value| > 0 then booleanStates.value else ParserBooleanStates;
    }

    /** `config_to_dict`: the loop over the sections, then the default
        section. An entry is created only when missing, which, sections being
        distinct and never the default section, is always. */
    method ConfigToDict() returns (d: map<string, Options>)
      requires config.Valid()
      ensures d == FlatDict(config.State())
    {
      d := SectionsToDict();
      if DefaultSection !in d {
        d := d[DefaultSection := map[]];
      }
      var defaults := EntryOf(config, DefaultSection, config.Defaults().Keys);
      d := d[DefaultSection := d[DefaultSection] + defaults];
      assert d[DefaultSection] == defaults;
    }

    /** The loop over `sections()` in `config_to_dict`. */
    method SectionsToDict() returns (d: map<string, Options>)
      requires config.Valid()
      ensures DefaultSection !in d
      ensures d == map s | s in config.State().sections :: SectionEntry(config.State(), s)
    {
      ghost var st := config.State();
      d := map[];
      var names := config.Sections();
      var i := 0;
      while i < |names|
        invariant 0 <= i <= |names|
        invariant forall s :: s in d <==> s in names[..i]
        invariant forall s :: s in d ==> s in st.sections && d[s] == SectionEntry(st, s)
      {
        assert names[i] in st.sections;
        assert names[i] !in names[..i];
        assert names[i] !in d;
        if names[i] !in d {
          d := d[names[i] := map[]];
        }
        var entry := EntryOf(config, names[i], config.State().Options(names[i]));
        var merged := d[names[i]] + entry;
        assert merged == entry;
        assert names[..i + 1] == names[..i] + [names[i]];
        d := d[names[i] := merged];
        i := i + 1;
      }
      assert names[..i] == names;
    }

    /** `_dict_to_dataclass`: the arguments the dataclass was built from, or
        the exception. */
    method DictToDataclass<V, W>(input: map<string, V>, fields: seq<Field>, cast: (Field, V) -> Result<W, CastError>)
      returns (r: Result<map<string, W>, DataclassError>)
      ensures r == Converted(input, cast, fields)
    {
      r := FillKwargs(fields, Steps(input, cast));
      if r.Success? {
        var missing := MissingArguments(fields, r.value);
        if missing != {} {
          r := Failure(Uninitialized(missing));
        }
      }
    }

    /** `config_to_dataclass`: flatten, then convert. */
    method ConfigToDataclass<W>(fields: seq<Field>, cast: (Field, Options) -> Result<W, CastError>)
      returns (r: Result<map<string, W>, DataclassError>)
      requires config.Valid()
      ensures r == Converted(FlatDict(config.State()), cast, fields)
    {
      var d := ConfigToDict();
      r := DictToDataclass(d, fields, cast);
    }
  }

  /** A missing field raises "Missing field" unless its type is optional, and
      the dataclass raises TypeError for it unless it has a default; a missing
      field the conversion survives is left to its default. */
  lemma MissingFieldRule<V, W>(input: map<string, V>, cast: (Field, V) -> Result<W, CastError>, fields: seq<Field>, i: nat)
    requires DistinctNames(fields) && i < |fields| && fields[i].name !in input
    ensures var r := Converted(input, cast, fields);
      && (!fields[i].optional ==> r == Kwargs(fields, Steps(input, cast)) && r.Failure?)
      && (!fields[i].hasDefault ==> r.Failure?)
      && (r.Success? ==> fields[i].optional && fields[i].hasDefault && fields[i].name !in r.value)
  {
    var step := Steps(input, cast);
    KwargsFailure(fields, step);
    if Kwargs(fields, step).Success? {
      MissingAfterLoop(fields, step, i);
      KwargsEntries(fields, step);
    }
  }

  /** The field loop completes exactly when every field the input lacks is
      optional and every present field casts. */
  lemma FieldLoopCompletes<V, W>(input: map<string, V>, cast: (Field, V) -> Result<W, CastError>, fields: seq<Field>)
    ensures Kwargs(fields, Steps(input, cast)).Success? <==>
      forall i :: 0 <= i < |fields| ==>
        if fields[i].name in input then cast(fields[i], input[fields[i].name]).Success? else fields[i].optional
  {
    KwargsFailure(fields, Steps(input, cast));
  }

  /** The conversion yields an instance exactly when every present field
      casts and every field the input lacks is optional and has a default. */
  lemma ConversionCompletes<V, W>(input: map<string, V>, cast: (Field, V) -> Result<W, CastError>, fields: seq<Field>)
    requires DistinctNames(fields)
    ensures Converted(input, cast, fields).Success? <==>
      forall i :: 0 <= i < |fields| ==>
        if fields[i].name in input then cast(fields[i], input[fields[i].name]).Success?
        else fields[i].optional && fields[i].hasDefault
  {
    var step := Steps(input, cast);
    FieldLoopCompletes(input, cast, fields);
    if Kwargs(fields, step).Success? {
      var kw := Kwargs(fields, step).value;
      forall i | 0 <= i < |fields|
        ensures fields[i].name in MissingArguments(fields, kw) <==> fields[i].name !in input && !fields[i].hasDefault
      {
        MissingAfterLoop(fields, step, i);
      }
    }
  }

  /** A field the input has is cast, and a completed conversion holds the
      cast value. */
  lemma PresentFieldRule<V, W>(input: map<string, V>, cast: (Field, V) -> Result<W, CastError>, fields: seq<Field>, i: nat)
    requires DistinctNames(fields) && i < |fields| && fields[i].name in input
    ensures var r := Converted(input, cast, fields);
      && (cast(fields[i], input[fields[i].name]).Failure? ==> r.Failure?)
      && (r.Success? ==> fields[i].name in r.value && r.value[fields[i].name] == cast(fields[i], input[fields[i].name]).value)
  {
    var step := Steps(input, cast);
    KwargsFailure(fields, step);
    KwargsEntries(fields, step);
  }
}
