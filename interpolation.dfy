/** The value check of `configparser`'s default interpolation
    (`BasicInterpolation.before_set`), which every `ConfigParser.set` of the
    modelled code goes through: once each `%%` escape and each `%(name)s`
    reference is removed from the value, no `%` may be left; otherwise `set`
    raises ValueError ("invalid interpolation syntax"). */
module Interpolation {
  import opened Wrappers

  /** `value.replace("%%", "")`: pairs are taken left to right, without
      overlap. */
  function DropEscapes(s: string): string
    decreases |s|
  {
    if s == [] then []
    else if |s| >= 2 && s[0] == '%' && s[1] == '%' then DropEscapes(s[2..])
    else [s[0]] + DropEscapes(s[1..])
  }

  /** The position of the first `)` in `s`. */
  function FirstClose(s: string): (r: Option<nat>)
    ensures r.Some? ==> r.value < |s| && s[r.value] == ')' && forall j :: 0 <= j < r.value ==> s[j] != ')'
    ensures r.None? ==> ')' !in s
    decreases |s|
  {
    if s == [] then None
    else if s[0] == ')' then Some(0)
    else match FirstClose(s[1..])
      case None => None
      case Some(k) => Some(k + 1)
  }

  /** The length of the match of `%\(([^)]+)\)s` at the start of `s`: `%(`,
      a non-empty name without `)`, then `)s`. A name cannot run past its
      first `)`, so that `)` must be followed by `s`. */
  function KeyMatch(s: string): (r: Option<nat>)
    ensures r.Some? ==> 5 <= r.value <= |s| && s[0] == '%'
  {
    if |s| >= 2 && s[0] == '%' && s[1] == '(' then
      match FirstClose(s[2..])
      case Some(k) => if 1 <= k && k + 3 < |s| && s[k + 3] == 's' then Some(k + 4) else None
      case None => None
    else None
  }

  /** `re.sub(r"%\(([^)]+)\)s", "", s)`: every reference removed, scanning
      left to right. */
  function DropKeys(s: string): string
    decreases |s|
  {
    if s == [] then []
    else match KeyMatch(s)
      case Some(n) => DropKeys(s[n..])
      case None => [s[0]] + DropKeys(s[1..])
  }

  /** The values `set` accepts. */
  predicate ValidSyntax(value: string)
  {
    '%' !in DropKeys(DropEscapes(value))
  }

  // -----------------------------------------------------------------------
  // Which values pass

  /** Neither pass changes a value without `%`. */
  lemma {:induction false} PlainUnchanged(s: string)
    requires '%' !in s
    ensures DropEscapes(s) == s && DropKeys(s) == s
    decreases |s|
  {
    if s != [] {
      assert s[0] != '%' && '%' !in s[1..];
      PlainUnchanged(s[1..]);
      assert s == [s[0]] + s[1..];
    }
  }

  /** A value without `%` is accepted. */
  lemma PlainIsValid(s: string)
    requires '%' !in s
    ensures ValidSyntax(s)
  {
    PlainUnchanged(s);
  }

  /** A lone `%` after text without `%` (as in `"50%"`) is rejected. */
  lemma {:induction false} TrailingPercentIsInvalid(s: string)
    requires '%' !in s
    ensures DropEscapes(s + "%") == s + "%" && DropKeys(s + "%") == s + "%"
    ensures !ValidSyntax(s + "%")
    decreases |s|
  {
    var t := s + "%";
    if s == [] {
      assert t == "%";
    } else {
      assert t[0] == s[0] && t[0] != '%' && t[1..] == s[1..] + "%";
      assert '%' !in s[1..];
      TrailingPercentIsInvalid(s[1..]);
      assert KeyMatch(t).None?;
    }
    assert t[|t| - 1] == '%';
  }

  /** An escaped `%%` in front of an accepted value is accepted. */
  lemma EscapeIsValid(s: string)
    requires ValidSyntax(s)
    ensures ValidSyntax("%%" + s)
  {
    assert ("%%" + s)[2..] == s;
  }

  /** A reference `%(name)s`, with a name that holds neither `)` nor `%`,
      is accepted. */
  lemma ReferenceIsValid(name: string)
    requires name != [] && ')' !in name && '%' !in name
    ensures ValidSyntax("%(" + name + ")s")
  {
    var r := "%(" + name + ")s";
    ReferenceUnescaped(name);
    NoCloseBefore(name, ")s");
    assert r[2..] == name + ")s";
    assert r[|name| + 3] == 's';
    assert KeyMatch(r) == Some(|r|);
    assert r[|r|..] == [];
  }

  /** `%%` does not occur in a reference, so its escapes pass leaves it be. */
  lemma ReferenceUnescaped(name: string)
    requires '%' !in name
    ensures DropEscapes("%(" + name + ")s") == "%(" + name + ")s"
  {
    var tail := name + ")s";
    assert '%' !in tail by {
      forall i | 0 <= i < |tail| ensures tail[i] != '%' {
        if i >= |name| { assert tail[i] == ")s"[i - |name|]; } else { assert tail[i] == name[i]; }
      }
    }
    PlainUnchanged(tail);
    var paren := "(" + tail;
    assert paren[1..] == tail;
    assert DropEscapes(paren) == "(" + DropEscapes(tail);
    var r := "%" + paren;
    assert r[1..] == paren && r[1] == '(';
    assert DropEscapes(r) == "%" + DropEscapes(paren);
    assert r == "%(" + name + ")s";
  }

  /** The first `)` of `name + rest` is the first of `rest` when `name` has
      none. */
  lemma {:induction false} NoCloseBefore(name: string, rest: string)
    requires ')' !in name && rest != [] && rest[0] == ')'
    ensures FirstClose(name + rest) == Some(|name|)
    decreases |name|
  {
    if name == [] {
      assert name + rest == rest;
    } else {
      assert (name + rest)[1..] == name[1..] + rest;
      assert ')' !in name[1..];
      NoCloseBefore(name[1..], rest);
    }
  }
}
