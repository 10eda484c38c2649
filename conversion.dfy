/** What the two `ConfigConverter`s (convert.py and dataclass.py) share:
    the nested mapping a store flattens into, the boolean and union casts,
    and the field-by-field loop that builds the keyword arguments of a
    dataclass. Type hints are reduced to the flags the skip rules read; the
    casts of a value to a field's type are a function parameter. */
module Conversion {
  import opened Wrappers
  import opened Text
  import opened IniStore

  // -----------------------------------------------------------------------
  // The flattened store

  /** The options `keys` of `section` with the values `get` gives. */
  function EntryOver(st: IniState, section: string, keys: set<string>): Options
  {
    map o | o in keys :: st.Get(section, o).GetOr("")
  }

  /** One section as `_to_dict` / `config_to_dict` lists it: every option
      `options(section)` reports. */
  function SectionEntry(st: IniState, section: string): Options
    requires section in st.sections
  {
    EntryOver(st, section, st.Options(section))
  }

  /** The nested mapping: one entry per section, then the default section
      with the `defaults()` keys. */
  function FlatDict(st: IniState): map<string, Options>
  {
    (map s | s in st.sections :: SectionEntry(st, s))[DefaultSection := EntryOver(st, DefaultSection, st.defaults.Keys)]
  }

  lemma EntryOverGrows(st: IniState, section: string, keys: set<string>, o: string)
    ensures EntryOver(st, section, keys + {o}) == EntryOver(st, section, keys)[o := st.Get(section, o).GetOr("")]
  {
  }

  /** The loop `for opt in keys: entry[opt] = get(section, opt)`. */
  method EntryOf(store: ConfigStore, section: string, keys: set<string>) returns (entry: Options)
    ensures entry == EntryOver(store.State(), section, keys)
  {
    var todo := keys;
    entry := map[];
    while todo != {}
      invariant todo <= keys
      invariant entry == EntryOver(store.State(), section, keys - todo)
      decreases |todo|
    {
      var o :| o in todo;
      EntryOverGrows(store.State(), section, keys - todo, o);
      entry := entry[o := store.State().Get(section, o).GetOr("")];
      assert keys - (todo - {o}) == (keys - todo) + {o};
      todo := todo - {o};
    }
    assert keys - todo == keys;
  }

  /** The flattened store has a key per section plus the default section; a
      section's entry is the defaults overlaid by the section's own values,
      and the default entry is the defaults. */
  lemma FlatDictClosedForm(st: IniState)
    requires st.Valid()
    ensures FlatDict(st).Keys == st.sections.Keys + {DefaultSection}
    ensures forall s :: s in st.sections ==> FlatDict(st)[s] == st.defaults + st.sections[s]
    ensures FlatDict(st)[DefaultSection] == st.defaults
  {
    forall s | s in st.sections
      ensures SectionEntry(st, s) == st.defaults + st.sections[s]
    {
      SectionEntryClosedForm(st, s);
    }
    DefaultEntryClosedForm(st);
  }

  lemma SectionEntryClosedForm(st: IniState, s: string)
    requires st.Valid() && s in st.sections
    ensures SectionEntry(st, s) == st.defaults + st.sections[s]
  {
    forall o | o in st.Options(s)
      ensures st.Get(s, o) == Some((st.defaults + st.sections[s])[o])
    {
      LowerNormalises(o);
    }
  }

  lemma DefaultEntryClosedForm(st: IniState)
    requires st.Valid()
    ensures EntryOver(st, DefaultSection, st.defaults.Keys) == st.defaults
  {
    forall o | o in st.defaults
      ensures st.Get(DefaultSection, o) == Some(st.defaults[o])
    {
      LowerNormalises(o);
    }
  }

  // -----------------------------------------------------------------------
  // Casts

  /** The exceptions a cast raises. */
  datatype CastError =
    | ValueError(text: string)   // `_cast_bool` on an unknown text, or a failed member cast
    | ConversionError            // no member of a union accepted the value

  /** `ConfigParser.BOOLEAN_STATES`. */
  const ParserBooleanStates: map<string, bool> :=
    map["1" := true, "yes" := true, "true" := true, "on" := true,
        "0" := false, "no" := false, "false" := false, "off" := false]

  /** `_cast_bool`: the lower-cased text looked up in the boolean states. */
  function CastBool(states: map<string, bool>, text: string): (r: Result<bool, CastError>)
    ensures r.Success? <==> Lower(text) in states
    ensures r.Success? ==> r.value == states[Lower(text)]
    ensures r.Failure? ==> r == Failure(ValueError(text))
  {
    var key := Lower(text);
    if key in states then Success(states[key]) else Failure(ValueError(text))
  }

  /** The cast ignores case, and a state spelled with an upper-case letter is
      never the one a text matches. */
  lemma CastBoolIgnoresCase(states: map<string, bool>, text: string, spelled: string)
    ensures CastBool(states, Upper(text)).Success? ==> CastBool(states, Upper(text)) == CastBool(states, text)
    ensures CastBool(states, text).Success? ==> CastBool(states, Upper(text)) == CastBool(states, text)
    ensures !IsLower(spelled) ==> Lower(text) != spelled
  {
    assert Lower(Upper(text)) == Lower(text);
    LowerNormalises(text);
  }

  /** `_cast_union`: the first member, in declared order, whose cast
      succeeds gives the result; if none does, ConversionError. */
  function CastUnion<H, W>(members: seq<H>, cast: H -> Result<W, CastError>): (r: Result<W, CastError>)
    ensures r.Success? <==> exists i :: 0 <= i < |members| && cast(members[i]).Success?
    ensures r.Success? ==>
      exists i :: (0 <= i < |members| && r == cast(members[i])
        && forall j :: 0 <= j < i ==> cast(members[j]).Failure?)
    ensures r.Failure? ==> r.error == ConversionError
    decreases |members|
  {
    if members == [] then Failure(ConversionError)
    else
      match cast(members[0])
      case Success(w) => Success(w)
      case Failure(_) =>
        var rest := CastUnion(members[1..], cast);
        assert forall i :: 1 <= i < |members| ==> members[i] == members[1..][i - 1];
        rest
  }

  // -----------------------------------------------------------------------
  // The loop over a dataclass's fields

  /** A dataclass field: its name and the three facts about its type hint
      and default that the skip rules read. */
  datatype Field = Field(name: string, optional: bool, hasDefault: bool, optionalDataclass: bool)

  predicate DistinctNames(fields: seq<Field>)
  {
    forall i, j :: 0 <= i < j < |fields| ==> fields[i].name != fields[j].name
  }

  /** What one turn of the loop does with a field: nothing, store a cast
      value under the field's name, or raise. */
  datatype Step<+W, +E> = Skip | Keep(value: W) | Raise(error: E)

  /** The keyword arguments the loop builds, or the first exception. */
  function Kwargs<W, E>(fields: seq<Field>, step: Field -> Step<W, E>): Result<map<string, W>, E>
    decreases |fields|
  {
    if fields == [] then Success(map[])
    else
      var prev := Kwargs(fields[..|fields| - 1], step);
      var last := fields[|fields| - 1];
      if prev.Failure? then prev
      else match step(last)
        case Skip => prev
        case Keep(w) => Success(prev.value[last.name := w])
        case Raise(e) => Failure(e)
  }

  /** The loop itself: `_dict_with_types[field_name] = ...` field by field. */
  method FillKwargs<W, E>(fields: seq<Field>, step: Field -> Step<W, E>) returns (r: Result<map<string, W>, E>)
    ensures r == Kwargs(fields, step)
  {
    var kwargs: map<string, W> := map[];
    var i := 0;
    while i < |fields|
      invariant 0 <= i <= |fields|
      invariant Kwargs(fields[..i], step) == Success(kwargs)
    {
      assert fields[..i + 1][..i] == fields[..i];
      match step(fields[i]) {
        case Skip =>
        case Keep(w) =>
          kwargs := kwargs[fields[i].name := w];
        case Raise(e) =>
          KwargsStops(fields, step, i + 1);
          return Failure(e);
      }
      i := i + 1;
    }
    assert fields[..i] == fields;
    r := Success(kwargs);
  }

  /** Once a field has raised, the later fields are not looked at. */
  lemma {:induction false} KwargsStops<W, E>(fields: seq<Field>, step: Field -> Step<W, E>, n: nat)
    requires n <= |fields| && Kwargs(fields[..n], step).Failure?
    ensures Kwargs(fields, step) == Kwargs(fields[..n], step)
    decreases |fields|
  {
    if n < |fields| {
      var init := fields[..|fields| - 1];
      assert init[..n] == fields[..n];
      KwargsStops(init, step, n);
    } else {
      assert fields[..n] == fields;
    }
  }

  /** The loop raises exactly when some field raises, and then with the
      exception of the first such field. */
  lemma {:induction false} KwargsFailure<W, E>(fields: seq<Field>, step: Field -> Step<W, E>)
    ensures Kwargs(fields, step).Failure? <==> exists i :: 0 <= i < |fields| && step(fields[i]).Raise?
    ensures Kwargs(fields, step).Failure? ==>
      exists i :: 0 <= i < |fields| && step(fields[i]).Raise?
        && Kwargs(fields, step).error == step(fields[i]).error
        && forall j :: 0 <= j < i ==> !step(fields[j]).Raise?
    decreases |fields|
  {
    if fields != [] {
      var init := fields[..|fields| - 1];
      KwargsFailure(init, step);
      assert forall i :: 0 <= i < |init| ==> init[i] == fields[i];
    }
  }

  /** When the loop completes, its keys are the names of the kept fields and
      each holds that field's value. */
  lemma {:induction false} KwargsEntries<W, E>(fields: seq<Field>, step: Field -> Step<W, E>)
    requires DistinctNames(fields)
    ensures var r := Kwargs(fields, step);
      r.Success? ==>
        && r.value.Keys == KeptNames(fields, step)
        && forall i :: 0 <= i < |fields| && step(fields[i]).Keep? ==> r.value[fields[i].name] == step(fields[i]).value
    decreases |fields|
  {
    if fields != [] {
      var init := fields[..|fields| - 1];
      var last := fields[|fields| - 1];
      assert DistinctNames(init);
      KwargsEntries(init, step);
      KeptNamesSnoc(fields, step);
      var r := Kwargs(fields, step);
      if r.Success? {
        assert forall i :: 0 <= i < |init| ==> init[i] == fields[i] && fields[i].name != last.name;
      }
    }
  }

  // -----------------------------------------------------------------------
  // The dataclass call after the loop

  /** The fields without a default that `kwargs` lacks: the arguments the
      dataclass's generated `__init__` reports missing with a TypeError. */
  function MissingArguments<W>(fields: seq<Field>, kwargs: map<string, W>): set<string>
  {
    set i | 0 <= i < |fields| && fields[i].name !in kwargs && !fields[i].hasDefault :: fields[i].name
  }

  /** After a completed loop, a field's argument is missing exactly when the
      loop did not keep it and it has no default. */
  lemma MissingAfterLoop<W, E>(fields: seq<Field>, step: Field -> Step<W, E>, i: nat)
    requires DistinctNames(fields) && i < |fields| && Kwargs(fields, step).Success?
    ensures fields[i].name in MissingArguments(fields, Kwargs(fields, step).value) <==>
      !step(fields[i]).Keep? && !fields[i].hasDefault
  {
    KwargsEntries(fields, step);
    var kw := Kwargs(fields, step).value;
    var name := fields[i].name;
    if step(fields[i]).Keep? {
      assert name in KeptNames(fields, step);
    } else {
      assert name !in KeptNames(fields, step);
      if !fields[i].hasDefault {
        assert name in MissingArguments(fields, kw);
      }
    }
  }

  /** The names of the fields the loop keeps. */
  ghost function KeptNames<W, E>(fields: seq<Field>, step: Field -> Step<W, E>): set<string>
  {
    set i | 0 <= i < |fields| && step(fields[i]).Keep? :: fields[i].name
  }

  lemma KeptNamesSnoc<W, E>(fields: seq<Field>, step: Field -> Step<W, E>)
    requires fields != []
    ensures var last := fields[|fields| - 1];
      KeptNames(fields, step) == KeptNames(fields[..|fields| - 1], step) + (if step(last).Keep? then {last.name} else {})
  {
    var init := fields[..|fields| - 1];
    var last := fields[|fields| - 1];
    forall x | x in KeptNames(fields, step)
      ensures x in KeptNames(init, step) + (if step(last).Keep? then {last.name} else {})
    {
      var i :| 0 <= i < |fields| && step(fields[i]).Keep? && fields[i].name == x;
      if i < |init| { assert step(init[i]).Keep? && init[i].name == x; }
    }
    forall x | x in KeptNames(init, step)
      ensures x in KeptNames(fields, step)
    {
      var i :| 0 <= i < |init| && step(init[i]).Keep? && init[i].name == x;
      assert fields[i] == init[i];
    }
    if step(last).Keep? {
      assert step(fields[|fields| - 1]).Keep?;
    }
  }
}
