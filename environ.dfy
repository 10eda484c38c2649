/** Name/value tables: the process environment (`os.environ`), injected as a
    sequence so that its iteration order is explicit, and Python's
    insertion-ordered `dict[str, str]`, which has the same shape. */
module Environ {
  import opened Wrappers

  type Env = seq<(string, string)>

  /** `name in table` and `table[name]`; the first entry with that name wins
      (a real environment or dict holds each name once). */
  function Lookup(table: Env, name: string): (r: Option<string>)
    ensures r.Some? <==> name in Names(table)
    ensures r.Some? ==> (name, r.value) in table
    decreases |table|
  {
    if table == [] then None
    else if table[0].0 == name then Some(table[0].1)
    else
      NamesCons(table[0], table[1..]);
      assert [table[0]] + table[1..] == table;
      Lookup(table[1..], name)
  }

  function Names(table: Env): set<string>
  {
    set i | 0 <= i < |table| :: table[i].0
  }

  lemma NamesCons(p: (string, string), t: Env)
    ensures Names([p] + t) == {p.0} + Names(t)
  {
    var c := [p] + t;
    forall x | x in Names(c) ensures x in {p.0} + Names(t) {
      var i :| 0 <= i < |c| && c[i].0 == x;
      if i > 0 { assert t[i - 1].0 == x; }
    }
    forall x | x in Names(t) ensures x in Names(c) {
      var i :| 0 <= i < |t| && t[i].0 == x;
      assert c[i + 1].0 == x;
    }
    assert c[0].0 == p.0;
  }

  predicate UniqueNames(table: Env)
  {
    forall i, j :: 0 <= i < j < |table| ==> table[i].0 != table[j].0
  }

  /** `d[k] = v` on an insertion-ordered dict: an existing key keeps its
      position and takes the new value; a new key goes to the end. */
  function Put(d: Env, k: string, v: string): Env
    decreases |d|
  {
    if d == [] then [(k, v)]
    else if d[0].0 == k then [(k, v)] + d[1..]
    else [d[0]] + Put(d[1..], k, v)
  }

  /** The assignment adds `k` to the names and nothing else. */
  lemma {:induction false} PutNames(d: Env, k: string, v: string)
    ensures Names(Put(d, k, v)) == Names(d) + {k}
    decreases |d|
  {
    if d == [] {
      assert Put(d, k, v)[0].0 == k;
    } else if d[0].0 == k {
      NamesCons(d[0], d[1..]);
      NamesCons((k, v), d[1..]);
      assert [d[0]] + d[1..] == d;
    } else {
      PutNames(d[1..], k, v);
      NamesCons(d[0], d[1..]);
      NamesCons(d[0], Put(d[1..], k, v));
      assert [d[0]] + d[1..] == d;
    }
  }

  /** The assignment keeps the names unique. */
  lemma {:induction false} PutUnique(d: Env, k: string, v: string)
    requires UniqueNames(d)
    ensures UniqueNames(Put(d, k, v))
    decreases |d|
  {
    if d != [] {
      assert [d[0]] + d[1..] == d;
      UnconsUnique(d[0], d[1..]);
      if d[0].0 == k {
        ConsUnique((k, v), d[1..]);
      } else {
        PutUnique(d[1..], k, v);
        PutNames(d[1..], k, v);
        ConsUnique(d[0], Put(d[1..], k, v));
      }
    }
  }

  lemma ConsUnique(p: (string, string), t: Env)
    requires UniqueNames(t) && p.0 !in Names(t)
    ensures UniqueNames([p] + t)
  {
    var c := [p] + t;
    forall i, j | 0 <= i < j < |c| ensures c[i].0 != c[j].0 {
      assert c[j] == t[j - 1];
      if i > 0 { assert c[i] == t[i - 1]; }
    }
  }

  lemma UnconsUnique(p: (string, string), t: Env)
    requires UniqueNames([p] + t)
    ensures UniqueNames(t) && p.0 !in Names(t)
  {
    var c := [p] + t;
    forall i, j | 0 <= i < j < |t| ensures t[i].0 != t[j].0 {
      assert c[i + 1] == t[i] && c[j + 1] == t[j];
    }
    forall j | 0 <= j < |t| ensures t[j].0 != p.0 {
      assert c[j + 1] == t[j] && c[0] == p;
    }
  }

  /** After the assignment `k` maps to `v` and every other name to what it
      mapped to before. */
  lemma {:induction false} PutLookup(d: Env, k: string, v: string, x: string)
    ensures Lookup(Put(d, k, v), x) == if x == k then Some(v) else Lookup(d, x)
    decreases |d|
  {
    if d != [] && d[0].0 != k {
      PutLookup(d[1..], k, v, x);
      assert ([d[0]] + Put(d[1..], k, v))[1..] == Put(d[1..], k, v);
    } else if d != [] {
      assert ([(k, v)] + d[1..])[1..] == d[1..];
    }
  }

  /** An existing key adds no entry; a new key is appended at the end. */
  lemma {:induction false} PutPlace(d: Env, k: string, v: string)
    ensures k in Names(d) ==> |Put(d, k, v)| == |d|
    ensures k !in Names(d) ==> Put(d, k, v) == d + [(k, v)]
    decreases |d|
  {
    if d != [] {
      NamesCons(d[0], d[1..]);
      assert [d[0]] + d[1..] == d;
      if d[0].0 != k {
        PutPlace(d[1..], k, v);
      }
    }
  }
}
