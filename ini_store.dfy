/** The INI store the override engine mutates: Python's
    `configparser.ConfigParser` as the modelled code uses it.

    Its state is the ordered list of section names, each section's own
    option→value map, and the map of the default section `"DEFAULT"`, whose
    options every other section also sees. Option names are lower-cased on
    the way in (`optionxform`); section names are kept as given. As in
    `configparser`, the empty section name and `"DEFAULT"` both address the
    defaults when setting a value or asking whether an option exists.
    Every value passes the check of the default interpolation on the way in
    (`Interpolation.ValidSyntax`). */
module IniStore {
  import opened Wrappers
  import opened Text
  import opened Interpolation

  const DefaultSection: string := "DEFAULT"

  /** The exceptions `configparser` raises on the paths used here. */
  datatype Error =
    | InvalidSectionName(name: string)   // ValueError: add_section of the default section
    | DuplicateSection(name: string)     // DuplicateSectionError
    | NoSection(name: string)            // NoSectionError
    | InvalidInterpolation(value: string) // ValueError: a stray `%` in a value set

  type Options = map<string, string>

  /** The place `set(section, option, ...)` writes to. */
  datatype Slot = DefaultSlot(key: string) | SectionSlot(section: string, key: string)

  /** `set` and `has_option` treat "" like the default section. */
  predicate IsDefaultTarget(section: string)
  {
    section == "" || section == DefaultSection
  }

  function SlotOf(section: string, option: string): (slot: Slot)
    ensures slot.DefaultSlot? <==> IsDefaultTarget(section)
    ensures slot.key == Lower(option)
  {
    if IsDefaultTarget(section) then DefaultSlot(Lower(option)) else SectionSlot(section, Lower(option))
  }

  predicate Distinct(xs: seq<string>)
  {
    forall i, j :: 0 <= i < j < |xs| ==> xs[i] != xs[j]
  }

  datatype IniState = IniState(order: seq<string>, sections: map<string, Options>, defaults: Options)
  {
    /** `order` lists the sections once each, in creation order; the default
        section is never among them; stored option names are lower-case. */
    ghost predicate Valid()
    {
      && Distinct(order)
      && (forall s :: s in sections <==> s in order)
      && DefaultSection !in sections
      && (forall s, o :: s in sections && o in sections[s] ==> IsLower(o))
      && (forall o :: o in defaults ==> IsLower(o))
    }

    /** `has_section`: false for the default section. */
    predicate HasSection(section: string)
    {
      section in sections
    }

    /** `has_option`: the default section's options count for every section. */
    predicate HasOption(section: string, option: string)
    {
      if IsDefaultTarget(section) then Lower(option) in defaults
      else section in sections && (Lower(option) in sections[section] || Lower(option) in defaults)
    }

    /** `options(section)`: the section's own options and the defaults. */
    function Options(section: string): set<string>
      requires section in sections
    {
      sections[section].Keys + defaults.Keys
    }

    /** The value held in a slot (not falling back to the defaults). */
    function At(slot: Slot): Option<string>
    {
      match slot
      case DefaultSlot(k) => if k in defaults then Some(defaults[k]) else None
      case SectionSlot(s, k) =>
        if s in sections && k in sections[s] then Some(sections[s][k]) else None
    }

    /** `get(section, option)` without interpolation: the section's own value,
        else the default; None where configparser raises NoSectionError or
        NoOptionError. */
    function Get(section: string, option: string): (r: Option<string>)
      ensures section != DefaultSection && section in sections && Lower(option) in sections[section] ==> r == Some(sections[section][Lower(option)])
      ensures section == DefaultSection || (section in sections && Lower(option) !in sections[section]) ==>
        r == if Lower(option) in defaults then Some(defaults[Lower(option)]) else None
      ensures section != DefaultSection && section !in sections ==> r.None?
    {
      var k := Lower(option);
      if section == DefaultSection then
        if k in defaults then Some(defaults[k]) else None
      else if section !in sections then None
      else if k in sections[section] then Some(sections[section][k])
      else if k in defaults then Some(defaults[k])
      else None
    }

    /** `add_section(section)`. */
    function AddSection(section: string): (r: Result<IniState, Error>)
      ensures r.Failure? <==> section == DefaultSection || section in sections
      ensures r.Success? ==>
        r.value.order == order + [section] && r.value.sections == sections[section := map[]] && r.value.defaults == defaults
    {
      if section == DefaultSection then Failure(InvalidSectionName(section))
      else if section in sections then Failure(DuplicateSection(section))
      else Success(IniState(order + [section], sections[section := map[]], defaults))
    }

    /** `set(section, option, value)`: a value the interpolation rejects
        raises ValueError before anything else is looked at; otherwise the
        lower-cased option is written into the defaults for "" and the
        default section, into an existing section otherwise; a missing
        section raises NoSectionError. */
    function Set(section: string, option: string, value: string): (r: Result<IniState, Error>)
      ensures r.Failure? <==> !ValidSyntax(value) || (!IsDefaultTarget(section) && section !in sections)
      ensures !ValidSyntax(value) ==> r == Failure(InvalidInterpolation(value))
      ensures r.Success? ==> r.value.order == order && r.value.sections.Keys == sections.Keys
      ensures r.Success? ==>
        forall slot :: r.value.At(slot) == (if slot == SlotOf(section, option) then Some(value) else At(slot))
    {
      var k := Lower(option);
      if !ValidSyntax(value) then Failure(InvalidInterpolation(value))
      else if IsDefaultTarget(section) then Success(this.(defaults := defaults[k := value]))
      else if section !in sections then Failure(NoSection(section))
      else Success(this.(sections := sections[section := sections[section][k := value]]))
    }
  }

  const Empty := IniState([], map[], map[])

  /** Adding a section and setting a value keep the store well formed. */
  lemma UpdatesKeepValid(st: IniState, section: string, option: string, value: string)
    requires st.Valid()
    ensures st.AddSection(section).Success? ==> st.AddSection(section).value.Valid()
    ensures st.Set(section, option, value).Success? ==> st.Set(section, option, value).value.Valid()
  {
    LowerNormalises(option);
    if st.AddSection(section).Success? {
      var n := st.AddSection(section).value;
      assert forall i, j :: 0 <= i < j < |n.order| ==> n.order[i] != n.order[j] by {
        forall i, j | 0 <= i < j < |n.order| ensures n.order[i] != n.order[j] {
          if j == |st.order| { assert n.order[i] in st.order; }
        }
      }
    }
  }

  /** The mutable store. */
  class ConfigStore {
    var order: seq<string>
    var sections: map<string, Options>
    var defaults: Options

    function State(): IniState
      reads this
    {
      IniState(order, sections, defaults)
    }

    ghost predicate Valid()
      reads this
    {
      State().Valid()
    }

    /** `ConfigParser()`: no sections, no defaults. */
    constructor ()
      ensures Valid() && State() == Empty
    {
      order, sections, defaults := [], map[], map[];
    }

    /** `read(filenames)`: `parsed` is the store after `read` has merged the
        files into what it already held (file parsing and that merge are
        outside this model). */
    method Load(parsed: IniState)
      requires parsed.Valid()
      modifies this
      ensures Valid() && State() == parsed
    {
      order, sections, defaults := parsed.order, parsed.sections, parsed.defaults;
    }

    function Sections(): seq<string>
      reads this
    {
      order
    }

    function Defaults(): Options
      reads this
    {
      defaults
    }

    predicate HasSection(section: string)
      reads this
    {
      State().HasSection(section)
    }

    predicate HasOption(section: string, option: string)
      reads this
    {
      State().HasOption(section, option)
    }

    method AddSection(section: string) returns (r: Outcome<Error>)
      requires Valid()
      modifies this
      ensures Valid()
      ensures match old(State()).AddSection(section)
        case Success(st) => r == Pass && State() == st
        case Failure(e) => r == Fail(e) && State() == old(State())
    {
      UpdatesKeepValid(State(), section, "", "");
      if section == DefaultSection {
        r := Fail(InvalidSectionName(section));
      } else if section in sections {
        r := Fail(DuplicateSection(section));
      } else {
        order := order + [section];
        sections := sections[section := map[]];
        r := Pass;
      }
    }

    method Set(section: string, option: string, value: string) returns (r: Outcome<Error>)
      requires Valid()
      modifies this
      ensures Valid()
      ensures match old(State()).Set(section, option, value)
        case Success(st) => r == Pass && State() == st
        case Failure(e) => r == Fail(e) && State() == old(State())
    {
      UpdatesKeepValid(State(), section, option, value);
      var k := Lower(option);
      if !ValidSyntax(value) {
        r := Fail(InvalidInterpolation(value));
      } else if IsDefaultTarget(section) {
        defaults := defaults[k := value];
        r := Pass;
      } else if section !in sections {
        r := Fail(NoSection(section));
      } else {
        sections := sections[section := sections[section][k := value]];
        r := Pass;
      }
    }
  }
}
