/**
 * JSON-like values: decoded messages, filter values and dictionary query objects.
 *
 * Objects keep their fields in insertion order, as JavaScript objects do.  A 64-bit integer
 * decoded from protobuf is a `Long`, which is neither a number nor a string.
 */
module JsonValues {
  import opened Wrappers

  datatype Leaf = Null | Bool(b: bool) | Num(n: int) | Str(s: string)

  datatype Json =
    | Atom(leaf: Leaf)
    | Long(n: int)
    | Arr(elems: seq<Json>)
    | Obj(fields: Fields)

  datatype Fields = Empty | Field(key: string, value: Json, rest: Fields)

  type Path = p: seq<string> | |p| > 0 witness [""]

  function Get(fields: Fields, key: string): Option<Json> {
    match fields
    case Empty => None
    case Field(k, v, rest) => if k == key then Some(v) else Get(rest, key)
  }

  /** Assignment to a property: an existing field keeps its place, a new one goes last. */
  function Put(fields: Fields, key: string, value: Json): Fields {
    match fields
    case Empty => Field(key, value, Empty)
    case Field(k, v, rest) => if k == key then Field(k, value, rest) else Field(k, v, Put(rest, key, value))
  }

  /** A property read on a value that is not `undefined` or `null`. */
  function Property(v: Json, key: string): Option<Json> {
    if v.Obj? then Get(v.fields, key) else None
  }

  datatype Access = Throws | Value(v: Option<Json>)

  /** The chain of property reads along a path; reading from `undefined` or `null` throws. */
  function Resolve(v: Option<Json>, path: seq<string>): Access
    decreases |path|
  {
    if path == [] then Value(v)
    else if v.None? || v.value == Atom(Null) then Throws
    else Resolve(Property(v.value, path[0]), path[1..])
  }

  /** The value at a path, when every step of the path exists. */
  function Lookup(v: Json, path: seq<string>): Option<Json>
    decreases |path|
  {
    if path == [] then Some(v)
    else match Property(v, path[0])
      case None => None
      case Some(w) => Lookup(w, path[1..])
  }

  lemma {:induction false} ResolveIsLookup(v: Json, path: seq<string>, w: Json)
    ensures Resolve(Some(v), path) == Value(Some(w)) <==> Lookup(v, path) == Some(w)
    decreases |path|
  {
    if path == [] {
    } else {
      match Property(v, path[0])
      case None =>
        if |path| == 1 {
          assert Resolve(None, path[1..]) == Value(None);
        }
      case Some(x) => ResolveIsLookup(x, path[1..], w);
    }
  }

  /** A step of the path starts from a value that is missing or null. */
  predicate Blocked(v: Json, path: seq<string>) {
    exists n | 0 <= n < |path| :: Lookup(v, path[..n]) == None || Lookup(v, path[..n]) == Some(Atom(Null))
  }

  lemma {:induction false} LookupPrefixes(v: Json, path: seq<string>, n: nat)
    requires 0 < n <= |path|
    ensures Lookup(v, path[..n]) ==
            match Property(v, path[0]) case None => None case Some(w) => Lookup(w, path[1..][..n - 1])
  {
    assert path[..n][1..] == path[1..][..n - 1];
  }

  lemma BlockedStep(v: Json, path: seq<string>)
    requires path != []
    ensures Blocked(v, path) <==>
            || v == Atom(Null)
            || (|path| > 1 && match Property(v, path[0]) case None => true case Some(w) => Blocked(w, path[1..]))
  {
    var rest := path[1..];
    assert path[..0] == [];
    if Blocked(v, path) {
      var n :| 0 <= n < |path| && (Lookup(v, path[..n]) == None || Lookup(v, path[..n]) == Some(Atom(Null)));
      if n > 0 {
        LookupPrefixes(v, path, n);
        assert 0 <= n - 1 < |rest|;
      }
    }
    if |path| > 1 {
      match Property(v, path[0])
      case None =>
        LookupPrefixes(v, path, 1);
      case Some(w) =>
        if Blocked(w, rest) {
          var n :| 0 <= n < |rest| && (Lookup(w, rest[..n]) == None || Lookup(w, rest[..n]) == Some(Atom(Null)));
          LookupPrefixes(v, path, n + 1);
        }
    }
    if v == Atom(Null) {
      assert Lookup(v, path[..0]) == Some(v);
    }
  }

  /** Reading along a path throws exactly when a step starts from a missing or null value. */
  lemma {:induction false} ResolveThrowsIff(v: Json, path: seq<string>)
    ensures Resolve(Some(v), path) == Throws <==> Blocked(v, path)
    decreases |path|
  {
    if path == [] {
    } else {
      BlockedStep(v, path);
      match Property(v, path[0])
      case None =>
        assert Resolve(None, path[1..]) == Throws <==> |path| > 1;
      case Some(w) => ResolveThrowsIff(w, path[1..]);
    }
  }

  lemma {:induction false} LookupAppend(v: Json, p: seq<string>, q: seq<string>)
    ensures Lookup(v, p + q) == (match Lookup(v, p) case None => None case Some(w) => Lookup(w, q))
    decreases |p|
  {
    if p == [] {
      assert p + q == q;
    } else {
      assert (p + q)[1..] == p[1..] + q;
      match Property(v, p[0])
      case None =>
      case Some(w) => LookupAppend(w, p[1..], q);
    }
  }

  lemma {:induction false} GetPut(fields: Fields, key: string, value: Json, other: string)
    ensures Get(Put(fields, key, value), other) == if other == key then Some(value) else Get(fields, other)
  {
    match fields
    case Empty =>
    case Field(k, v, rest) => GetPut(rest, key, value, other);
  }

  function Keys(fields: Fields): seq<string> {
    match fields
    case Empty => []
    case Field(k, _, rest) => [k] + Keys(rest)
  }

  /** An assignment keeps the order of the properties and adds a new one at the end. */
  lemma {:induction false} PutKeys(fields: Fields, key: string, value: Json)
    ensures Keys(Put(fields, key, value)) == if key in Keys(fields) then Keys(fields) else Keys(fields) + [key]
  {
    match fields
    case Empty =>
    case Field(k, v, rest) =>
      if k != key {
        PutKeys(rest, key, value);
        assert [k] + (Keys(rest) + [key]) == ([k] + Keys(rest)) + [key];
      }
  }

  lemma {:induction false} GetIffKey(fields: Fields, key: string)
    ensures Get(fields, key).Some? <==> key in Keys(fields)
  {
    match fields
    case Empty =>
    case Field(_, _, rest) => GetIffKey(rest, key);
  }
}
