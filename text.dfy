/** String operations of Python's `str` that the modelled code relies on:
    ASCII case mapping (`lower`, `upper`), `strip(chars)`, the first
    occurrence of the `"__"` separator (`split("__", 1)`) and `split(":")`. */
module Text {

  /** `str.lower` on one character (ASCII letters only). */
  function LowerChar(c: char): char
  {
    if 'A' <= c <= 'Z' then (c as int + 32) as char else c
  }

  /** `str.upper` on one character (ASCII letters only). */
  function UpperChar(c: char): char
  {
    if 'a' <= c <= 'z' then (c as int - 32) as char else c
  }

  function Lower(s: string): (r: string)
    ensures |r| == |s|
    ensures forall i :: 0 <= i < |s| ==> r[i] == LowerChar(s[i])
  {
    seq(|s|, i requires 0 <= i < |s| => LowerChar(s[i]))
  }

  function Upper(s: string): (r: string)
    ensures |r| == |s|
    ensures forall i :: 0 <= i < |s| ==> r[i] == UpperChar(s[i])
  {
    seq(|s|, i requires 0 <= i < |s| => UpperChar(s[i]))
  }

  /** No upper-case ASCII letter occurs in `s`. */
  predicate IsLower(s: string)
  {
    forall i :: 0 <= i < |s| ==> !('A' <= s[i] <= 'Z')
  }

  /** Lower-casing yields a lower-case name, and leaves a lower-case name as
      it is: option names normalised once keep their identity. */
  lemma LowerNormalises(s: string)
    ensures IsLower(Lower(s))
    ensures IsLower(s) ==> Lower(s) == s
  {
  }

  // ---------------------------------------------------------------------
  // str.strip(chars)

  /** `s.lstrip(chars)`: drop leading characters that occur in `chars`. */
  function LStrip(s: string, chars: string): (r: string)
    ensures |r| <= |s| && r == s[|s| - |r|..]
    ensures forall i :: 0 <= i < |s| - |r| ==> s[i] in chars
    ensures r != [] ==> r[0] !in chars
    decreases |s|
  {
    if |s| > 0 && s[0] in chars then LStrip(s[1..], chars) else s
  }

  /** `s.rstrip(chars)`: drop trailing characters that occur in `chars`. */
  function RStrip(s: string, chars: string): (r: string)
    ensures |r| <= |s| && r == s[..|r|]
    ensures forall i :: |r| <= i < |s| ==> s[i] in chars
    ensures r != [] ==> r[|r| - 1] !in chars
    decreases |s|
  {
    if |s| > 0 && s[|s| - 1] in chars then RStrip(s[..|s| - 1], chars) else s
  }

  /** `s.strip(chars)`: every character of `chars` is removed from both ends,
      whatever its position in `chars` (it is a set of characters, not a
      prefix). */
  function Strip(s: string, chars: string): string
  {
    RStrip(LStrip(s, chars), chars)
  }

  /** What `strip` keeps is a contiguous piece `s[lo..hi]`, everything cut off
      on either side is a character of `chars`, and the piece neither begins
      nor ends with a character of `chars`. */
  lemma StripSpec(s: string, chars: string)
    ensures exists lo, hi :: StripWitness(s, chars, Strip(s, chars), lo, hi)
    ensures var r := Strip(s, chars); r != [] ==> r[0] !in chars && r[|r| - 1] !in chars
  {
    var l := LStrip(s, chars);
    var r := RStrip(l, chars);
    assert Strip(s, chars) == r;
    StripPiece(s, chars, l, r);
    if r != [] {
      assert r[0] == l[0];
    }
  }

  /** A right-trimmed piece of a left-trimmed suffix is a trimmed slice. */
  lemma StripPiece(s: string, chars: string, l: string, r: string)
    requires |l| <= |s| && l == s[|s| - |l|..] && forall i :: 0 <= i < |s| - |l| ==> s[i] in chars
    requires |r| <= |l| && r == l[..|r|] && forall i :: |r| <= i < |l| ==> l[i] in chars
    ensures StripWitness(s, chars, r, |s| - |l|, |s| - |l| + |r|)
  {
    var lo := |s| - |l|;
    var hi := lo + |r|;
    assert s[lo..][..|r|] == s[lo..hi];
    forall i | hi <= i < |s| ensures s[i] in chars {
      assert s[i] == l[i - lo];
    }
  }

  predicate StripWitness(s: string, chars: string, r: string, lo: int, hi: int)
  {
    0 <= lo <= hi <= |s| && r == s[lo..hi]
    && (forall i :: 0 <= i < lo ==> s[i] in chars)
    && (forall i :: hi <= i < |s| ==> s[i] in chars)
  }

  // ---------------------------------------------------------------------
  // The "__" separator

  /** A `"__"` starts at index `j` of `s`. */
  predicate SepAt(s: string, j: int)
  {
    0 <= j && j + 1 < |s| && s[j] == '_' && s[j + 1] == '_'
  }

  predicate ContainsSep(s: string)
  {
    exists j :: 0 <= j < |s| && SepAt(s, j)
  }

  /** Index of the first `"__"` in `s`, as `str.split("__", 1)` finds it. */
  function FindSep(s: string): (r: Option<nat>)
    ensures r.Some? ==> SepAt(s, r.value) && forall j :: 0 <= j < r.value ==> !SepAt(s, j)
    ensures r.None? ==> !ContainsSep(s)
    decreases |s|
  {
    if |s| < 2 then None
    else if s[0] == '_' && s[1] == '_' then Some(0)
    else match FindSep(s[1..])
      case None =>
        assert forall j :: SepAt(s, j) && j > 0 ==> SepAt(s[1..], j - 1);
        None
      case Some(k) =>
        assert forall j :: 0 < j <= k ==> (SepAt(s, j) ==> SepAt(s[1..], j - 1));
        Some(k + 1)
  }

  // ---------------------------------------------------------------------
  // str.split(c) for a single character

  /** `s.split(c)`: the pieces between occurrences of `c`, always at least one. */
  function Split(s: string, c: char): (r: seq<string>)
    ensures |r| >= 1
    ensures forall i :: 0 <= i < |r| ==> c !in r[i]
    decreases |s|
  {
    if |s| == 0 then [""]
    else
      var rest := Split(s[1..], c);
      if s[0] == c then [""] + rest else [[s[0]] + rest[0]] + rest[1..]
  }

  /** `c.join(parts)`. */
  function JoinWith(parts: seq<string>, c: char): string
    requires |parts| >= 1
    decreases |parts|
  {
    if |parts| == 1 then parts[0] else parts[0] + [c] + JoinWith(parts[1..], c)
  }

  /** Joining the pieces of a split gives the string back. */
  lemma {:induction false} JoinSplit(s: string, c: char)
    ensures JoinWith(Split(s, c), c) == s
    decreases |s|
  {
    if |s| > 0 {
      var rest := Split(s[1..], c);
      JoinSplit(s[1..], c);
      if s[0] != c {
        if |rest| == 1 {
          assert rest[0] == s[1..];
        } else {
          assert JoinWith(rest, c) == rest[0] + [c] + JoinWith(rest[1..], c);
          assert [[s[0]] + rest[0]] + rest[1..] == [[s[0]] + rest[0]] + rest[1..];
          assert ([[s[0]] + rest[0]] + rest[1..])[1..] == rest[1..];
        }
      } else {
        assert ([""] + rest)[1..] == rest;
      }
    }
  }

  /** Splitting a join of pieces free of `c` gives the pieces back. */
  lemma {:induction false} SplitJoin(parts: seq<string>, c: char)
    requires |parts| >= 1
    requires forall i :: 0 <= i < |parts| ==> c !in parts[i]
    ensures Split(JoinWith(parts, c), c) == parts
    decreases |parts|, |parts[0]|
  {
    if |parts| == 1 {
      SplitNoSeparator(parts[0], c);
    } else if parts[0] == [] {
      var tail := JoinWith(parts[1..], c);
      SplitJoin(parts[1..], c);
      assert JoinWith(parts, c) == [c] + tail;
      SplitAtSeparator(tail, c);
      assert [""] + parts[1..] == parts;
    } else {
      var shorter := [parts[0][1..]] + parts[1..];
      JoinFirstChar(parts, c);
      SplitJoin(shorter, c);
      SplitAtOther(parts[0][0], JoinWith(shorter, c), c);
      assert [parts[0][0]] + parts[0][1..] == parts[0];
      assert [parts[0]] + parts[1..] == parts;
    }
  }

  /** A join whose first piece is not empty starts with that piece's first
      character, followed by the join of the pieces with it removed. */
  lemma JoinFirstChar(parts: seq<string>, c: char)
    requires |parts| >= 2 && parts[0] != []
    ensures var shorter := [parts[0][1..]] + parts[1..];
      shorter[1..] == parts[1..] && JoinWith(parts, c) == [parts[0][0]] + JoinWith(shorter, c)
  {
    var shorter := [parts[0][1..]] + parts[1..];
    assert shorter[1..] == parts[1..];
    assert parts[0] == [parts[0][0]] + parts[0][1..];
  }

  /** A separator first starts a new, empty, piece. */
  lemma SplitAtSeparator(s: string, c: char)
    ensures Split([c] + s, c) == [""] + Split(s, c)
  {
    assert ([c] + s)[1..] == s;
  }

  /** Any other character first joins the first piece. */
  lemma SplitAtOther(x: char, s: string, c: char)
    requires x != c
    ensures Split([x] + s, c) == [[x] + Split(s, c)[0]] + Split(s, c)[1..]
  {
    assert ([x] + s)[1..] == s;
  }

  lemma {:induction false} SplitNoSeparator(s: string, c: char)
    requires c !in s
    ensures Split(s, c) == [s]
    decreases |s|
  {
    if |s| > 0 {
      assert s[0] != c && c !in s[1..];
      SplitNoSeparator(s[1..], c);
      assert [s[0]] + s[1..] == s;
    }
  }

  import opened Wrappers
}
