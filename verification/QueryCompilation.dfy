/**
 * The translation of dotted-path equalities into one nested object, and its meaning.
 *
 * A message filter's `values` is a list of `path -> leaf` equalities.  The dictionary query
 * states them as a single object that the stored message has to contain.
 */
module QueryCompilation {
  import opened Wrappers
  import opened Text
  import opened JsonValues

  type Values = seq<(string, Leaf)>

  /** How a dictionary stores a `Long`: as a leaf, or as something no leaf equals. */
  type LongColumn = int -> Option<Leaf>

  // ----- containment, as section 8.14.3 of the PostgreSQL documentation defines it

  predicate Agrees(longAs: LongColumn, v: Json, leaf: Leaf) {
    match v
    case Atom(l) => l == leaf
    case Long(n) => longAs(n) == Some(leaf)
    case _ => false
  }

  predicate Contains(longAs: LongColumn, doc: Json, query: Json)
    decreases query, 0
  {
    match query
    case Atom(leaf) => Agrees(longAs, doc, leaf)
    case Long(n) => doc == query
    case Arr(qs) => doc.Arr? && forall q | q in qs :: exists d | d in doc.elems :: Contains(longAs, d, q)
    case Obj(fields) => doc.Obj? && ContainsFields(longAs, doc.fields, fields)
  }

  predicate ContainsFields(longAs: LongColumn, doc: Fields, query: Fields)
    decreases query, 0
  {
    match query
    case Empty => true
    case Field(k, q, rest) => FieldContains(longAs, doc, k, q) && ContainsFields(longAs, doc, rest)
  }

  predicate FieldContains(longAs: LongColumn, doc: Fields, key: string, query: Json)
    decreases query, 1
  {
    match Get(doc, key)
    case None => false
    case Some(d) => Contains(longAs, d, query)
  }

  function Atoms(leaves: seq<Leaf>): seq<Json> {
    seq(|leaves|, i requires 0 <= i < |leaves| => Atom(leaves[i]))
  }

  /** Arrays of leaves: every leaf of the query is in the document, whatever the order and number. */
  lemma LeafArrays(longAs: LongColumn, doc: seq<Leaf>, query: seq<Leaf>)
    ensures Contains(longAs, Arr(Atoms(doc)), Arr(Atoms(query))) <==> forall l | l in query :: l in doc
  {
    forall l | l in query ensures l in doc <==> exists d | d in Atoms(doc) :: Contains(longAs, d, Atom(l)) {
      if l in doc {
        var i :| 0 <= i < |doc| && doc[i] == l;
        assert Atoms(doc)[i] in Atoms(doc) && Contains(longAs, Atoms(doc)[i], Atom(l));
      }
    }
    forall l | l in query ensures Atom(l) in Atoms(query) {
      var i :| 0 <= i < |query| && query[i] == l;
      assert Atoms(query)[i] == Atom(l);
    }
  }

  // ----- compilation

  /** Assigns a leaf at a path, creating objects on the way and overwriting whatever is not one. */
  function PutPath(fields: Fields, path: Path, leaf: Leaf): Fields
    decreases |path|
  {
    if |path| == 1 then
      Put(fields, path[0], Atom(leaf))
    else
      Put(fields, path[0], Obj(PutPath(Child(fields, path[0]), path[1..], leaf)))
  }

  /** The object already stored under a key, or a fresh one. */
  function Child(fields: Fields, key: string): Fields {
    match Get(fields, key)
    case Some(Obj(child)) => child
    case _ => Empty
  }

  function PathOf(entry: (string, Leaf)): Path {
    Split(entry.0, '.')
  }

  function Compile(values: Values): Fields {
    if values == [] then Empty
    else
      var last := values[|values| - 1];
      PutPath(Compile(values[..|values| - 1]), PathOf(last), last.1)
  }

  // ----- meaning of the equalities

  predicate PathHolds(longAs: LongColumn, doc: Json, path: seq<string>, leaf: Leaf) {
    match Lookup(doc, path)
    case None => false
    case Some(v) => Agrees(longAs, v, leaf)
  }

  predicate AllHold(longAs: LongColumn, doc: Json, values: Values) {
    forall i | 0 <= i < |values| :: PathHolds(longAs, doc, PathOf(values[i]), values[i].1)
  }

  predicate DistinctKeys(values: Values) {
    forall i, j | 0 <= i < j < |values| :: values[i].0 != values[j].0
  }

  /** A filter's `values` is an object, so its keys are distinct. */
  type KeyedValues = vs: Values | DistinctKeys(vs) witness []

  /** One path continues, or repeats, the other. */
  predicate Overlap(p: seq<string>, q: seq<string>) {
    p <= q || q <= p
  }

  /** No key path is a prefix of another one. */
  predicate PrefixFree(values: Values) {
    forall i, j | 0 <= i < j < |values| :: !Overlap(PathOf(values[i]), PathOf(values[j]))
  }

  /** Writing at `path` neither replaces a leaf nor hides a branch of `fields`. */
  predicate Room(fields: Fields, path: Path)
    decreases |path|
  {
    match Get(fields, path[0])
    case None => true
    case Some(Obj(child)) => |path| > 1 && Room(child, path[1..])
    case _ => false
  }

  lemma {:induction false} ContainsPut(longAs: LongColumn, doc: Fields, fields: Fields, key: string, q: Json)
    requires match Get(fields, key)
             case None => true
             case Some(was) => FieldContains(longAs, doc, key, q) ==> FieldContains(longAs, doc, key, was)
    ensures ContainsFields(longAs, doc, Put(fields, key, q)) <==>
            ContainsFields(longAs, doc, fields) && FieldContains(longAs, doc, key, q)
  {
    match fields
    case Empty =>
    case Field(k, v, rest) =>
      if k != key {
        ContainsPut(longAs, doc, rest, key, q);
      }
  }

  lemma {:induction false} ContainsGet(longAs: LongColumn, doc: Fields, fields: Fields, key: string)
    requires ContainsFields(longAs, doc, fields) && Get(fields, key).Some?
    ensures FieldContains(longAs, doc, key, Get(fields, key).value)
  {
    if fields.key != key {
      ContainsGet(longAs, doc, fields.rest, key);
    }
  }

  /** One assignment adds exactly one equality to what the object demands. */
  lemma {:induction false} ContainsPutPath(longAs: LongColumn, doc: Json, fields: Fields, path: Path, leaf: Leaf)
    requires Room(fields, path)
    ensures Contains(longAs, doc, Obj(PutPath(fields, path, leaf))) <==>
            Contains(longAs, doc, Obj(fields)) && PathHolds(longAs, doc, path, leaf)
    decreases |path|
  {
    if !doc.Obj? {
      assert Property(doc, path[0]) == None;
      return;
    }
    var key := path[0];
    if |path| == 1 {
      ContainsPut(longAs, doc.fields, fields, key, Atom(leaf));
      match Get(doc.fields, key)
      case None =>
      case Some(d) => assert Lookup(d, path[1..]) == Some(d);
    } else {
      var child := Child(fields, key);
      var q := Obj(PutPath(child, path[1..], leaf));
      match Get(doc.fields, key) {
        case None =>
        case Some(d) =>
          assert Room(child, path[1..]);
          ContainsPutPath(longAs, d, child, path[1..], leaf);
          assert Lookup(doc, path) == Lookup(d, path[1..]);
          assert FieldContains(longAs, doc.fields, key, q) <==>
                 Contains(longAs, d, Obj(child)) && PathHolds(longAs, d, path[1..], leaf);
          if PathHolds(longAs, d, path[1..], leaf) {
            assert Property(d, path[1..][0]).Some?;
            assert Contains(longAs, d, Obj(Empty));
          }
      }
      ContainsPut(longAs, doc.fields, fields, key, q);
      if ContainsFields(longAs, doc.fields, fields) && Get(fields, key).Some? {
        ContainsGet(longAs, doc.fields, fields, key);
      }
    }
  }

  lemma {:induction false} RoomAfterPut(fields: Fields, path: Path, other: Path, leaf: Leaf)
    requires Room(fields, path) && !Overlap(path, other)
    ensures Room(PutPath(fields, other, leaf), path)
    decreases |path|
  {
    var key := other[0];
    var q := if |other| == 1 then Atom(leaf) else Obj(PutPath(Child(fields, key), other[1..], leaf));
    assert PutPath(fields, other, leaf) == Put(fields, key, q);
    GetPut(fields, key, q, path[0]);
    if path[0] == key {
      assert path == [key] + path[1..] && other == [key] + other[1..];
      assert !Overlap(path[1..], other[1..]);
      assert Room(Child(fields, key), path[1..]);
      RoomAfterPut(Child(fields, key), path[1..], other[1..], leaf);
    }
  }

  lemma {:induction false} RoomInCompiled(values: Values, path: Path)
    requires forall i | 0 <= i < |values| :: !Overlap(path, PathOf(values[i]))
    ensures Room(Compile(values), path)
  {
    if values == [] {
    } else {
      var n := |values| - 1;
      RoomInCompiled(values[..n], path);
      RoomAfterPut(Compile(values[..n]), path, PathOf(values[n]), values[n].1);
    }
  }

  lemma AllHoldSnoc(longAs: LongColumn, doc: Json, values: Values)
    requires values != []
    ensures var n := |values| - 1;
            AllHold(longAs, doc, values) <==>
            AllHold(longAs, doc, values[..n]) && PathHolds(longAs, doc, PathOf(values[n]), values[n].1)
  {
    var n := |values| - 1;
    assert forall i | 0 <= i < n :: values[..n][i] == values[i];
  }

  /** Compilation preserves meaning when no key path is a prefix of another. */
  lemma {:induction false} CompilePreservesMeaning(longAs: LongColumn, doc: Json, values: Values)
    requires PrefixFree(values)
    ensures Contains(longAs, doc, Obj(Compile(values))) <==> doc.Obj? && AllHold(longAs, doc, values)
  {
    if values == [] {
    } else {
      var n := |values| - 1;
      var front, last := values[..n], values[n];
      CompilePreservesMeaning(longAs, doc, front);
      forall i | 0 <= i < |front| ensures !Overlap(PathOf(last), PathOf(front[i])) {
        assert !Overlap(PathOf(values[i]), PathOf(values[n]));
      }
      RoomInCompiled(front, PathOf(last));
      ContainsPutPath(longAs, doc, Compile(front), PathOf(last), last.1);
      AllHoldSnoc(longAs, doc, values);
    }
  }

  // ----- key paths that continue one another

  /** Below a value that is not an object there is nothing to look up. */
  lemma {:induction false} NothingBelowALeaf(doc: Json, p: seq<string>, q: seq<string>)
    requires p <= q && p != q
    requires Lookup(doc, p).Some? && !Lookup(doc, p).value.Obj?
    ensures Lookup(doc, q) == None
  {
    var rest := q[|p|..];
    assert q == p + rest;
    LookupAppend(doc, p, rest);
    assert Property(Lookup(doc, p).value, rest[0]) == None;
  }

  /** No document has a leaf at every key path when one key path is a prefix of another. */
  lemma MatchableIsPrefixFree(doc: Json, values: Values)
    requires DistinctKeys(values)
    requires forall i | 0 <= i < |values| ::
               Lookup(doc, PathOf(values[i])).Some? && !Lookup(doc, PathOf(values[i])).value.Obj?
    ensures PrefixFree(values)
  {
    forall i, j | 0 <= i < j < |values| ensures !Overlap(PathOf(values[i]), PathOf(values[j])) {
      var p, q := PathOf(values[i]), PathOf(values[j]);
      if p == q {
        SplitInjective(values[i].0, values[j].0, '.');
      } else if p <= q {
        NothingBelowALeaf(doc, p, q);
      } else if q <= p {
        NothingBelowALeaf(doc, q, p);
      }
    }
  }

  // ----- the compiled object is itself a document that contains it

  predicate UniqueKeys(fields: Fields) {
    match fields
    case Empty => true
    case Field(k, v, rest) =>
      Get(rest, k) == None && UniqueKeys(rest) && (v.Atom? || (v.Obj? && UniqueKeys(v.fields)))
  }

  lemma {:induction false} PutKeepsUnique(fields: Fields, key: string, q: Json)
    requires UniqueKeys(fields) && (q.Atom? || (q.Obj? && UniqueKeys(q.fields)))
    ensures UniqueKeys(Put(fields, key, q))
  {
    match fields
    case Empty =>
    case Field(k, v, rest) =>
      if k != key {
        PutKeepsUnique(rest, key, q);
        GetPut(rest, key, q, k);
      }
  }

  lemma {:induction false} ChildIsUnique(fields: Fields, key: string)
    requires UniqueKeys(fields)
    ensures UniqueKeys(Child(fields, key))
  {
    match fields
    case Empty =>
    case Field(k, v, rest) =>
      if k != key {
        ChildIsUnique(rest, key);
        assert Child(fields, key) == Child(rest, key);
      }
  }

  lemma {:induction false} PutPathKeepsUnique(fields: Fields, path: Path, leaf: Leaf)
    requires UniqueKeys(fields)
    ensures UniqueKeys(PutPath(fields, path, leaf))
    decreases |path|
  {
    if |path| == 1 {
      PutKeepsUnique(fields, path[0], Atom(leaf));
    } else {
      ChildIsUnique(fields, path[0]);
      PutPathKeepsUnique(Child(fields, path[0]), path[1..], leaf);
      PutKeepsUnique(fields, path[0], Obj(PutPath(Child(fields, path[0]), path[1..], leaf)));
    }
  }

  lemma {:induction false} CompiledIsUnique(values: Values)
    ensures UniqueKeys(Compile(values))
  {
    if values == [] {
    } else {
      var n := |values| - 1;
      CompiledIsUnique(values[..n]);
      PutPathKeepsUnique(Compile(values[..n]), PathOf(values[n]), values[n].1);
    }
  }

  /** `outer` answers every key of `inner` the way `inner` does. */
  lemma {:induction false} ContainsItself(longAs: LongColumn, outer: Fields, inner: Fields)
    requires UniqueKeys(inner)
    requires forall k :: Get(inner, k).Some? ==> Get(outer, k) == Get(inner, k)
    ensures ContainsFields(longAs, outer, inner)
    decreases inner
  {
    match inner
    case Empty =>
    case Field(k, v, rest) =>
      assert Get(inner, k) == Some(v);
      if v.Obj? {
        ContainsItself(longAs, v.fields, v.fields);
      }
      forall k' | Get(rest, k').Some? ensures Get(outer, k') == Get(rest, k') {
        assert k' != k;
        assert Get(inner, k') == Get(rest, k');
      }
      ContainsItself(longAs, outer, rest);
  }

  /**
   * Exactly when compilation is faithful: the nested object is contained in precisely the
   * objects on which all equalities hold if and only if no key path is a prefix of another.
   */
  lemma {:induction false} CompileIsExactIffPrefixFree(longAs: LongColumn, values: Values)
    requires DistinctKeys(values)
    ensures (forall doc: Json :: doc.Obj? ==>
               (Contains(longAs, doc, Obj(Compile(values))) <==> AllHold(longAs, doc, values)))
            <==> PrefixFree(values)
  {
    if PrefixFree(values) {
      forall doc: Json | doc.Obj?
        ensures Contains(longAs, doc, Obj(Compile(values))) <==> AllHold(longAs, doc, values)
      {
        CompilePreservesMeaning(longAs, doc, values);
      }
    } else {
      var doc := Obj(Compile(values));
      CompiledIsUnique(values);
      ContainsItself(longAs, doc.fields, doc.fields);
      if AllHold(longAs, doc, values) {
        MatchableIsPrefixFree(doc, values);
      }
    }
  }

  /** Every filter, overlapping or not: a document on which all equalities hold contains the object. */
  lemma {:induction false} CompileOverApproximates(longAs: LongColumn, doc: Json, values: Values)
    requires DistinctKeys(values)
    requires doc.Obj? && AllHold(longAs, doc, values)
    ensures Contains(longAs, doc, Obj(Compile(values)))
  {
    MatchableIsPrefixFree(doc, values);
    CompilePreservesMeaning(longAs, doc, values);
  }

  // ----- what assignment leaves at a path

  lemma {:induction false} LookupCons(fields: Fields, key: string, rest: seq<string>)
    ensures Lookup(Obj(fields), [key] + rest) ==
            match Get(fields, key) case None => None case Some(v) => Lookup(v, rest)
  {
    assert ([key] + rest)[1..] == rest;
  }

  /** Nothing is found below a path through a value that is not an object. */
  lemma {:induction false} LookupThroughLeaf(v: Json, q: seq<string>)
    requires !v.Obj? && q != []
    ensures Lookup(v, q) == None
  {
  }

  /**
   * An assignment at `path`, whatever was there before: the leaf is at `path`, nothing is below
   * it, an object is at every shorter path, and all other paths are as they were.
   */
  lemma {:induction false} LookupPutPath(fields: Fields, path: Path, leaf: Leaf, q: Path)
    ensures var v := Lookup(Obj(PutPath(fields, path, leaf)), q);
            if q == path then v == Some(Atom(leaf))
            else if path <= q then v == None
            else if q <= path then v.Some? && v.value.Obj?
            else v == Lookup(Obj(fields), q)
    decreases |path|
  {
    var key, below := path[0], q[1..];
    var value := if |path| == 1 then Atom(leaf) else Obj(PutPath(Child(fields, key), path[1..], leaf));
    assert PutPath(fields, path, leaf) == Put(fields, key, value);
    GetPut(fields, key, value, q[0]);
    assert path == [key] + path[1..] && q == [q[0]] + below;
    LookupCons(Put(fields, key, value), q[0], below);
    LookupCons(fields, q[0], below);
    if q[0] == key {
      if |path| == 1 {
        assert path <= q;
        if below != [] {
          LookupThroughLeaf(Atom(leaf), below);
        }
      } else if below == [] {
        assert q <= path;
      } else {
        LookupPutPath(Child(fields, key), path[1..], leaf, below);
        PrefixCons(key, path[1..], below);
        PrefixCons(key, below, path[1..]);
        ChildLookup(fields, key, below);
      }
    }
  }

  lemma PrefixCons(key: string, a: seq<string>, b: seq<string>)
    ensures [key] + a <= [key] + b <==> a <= b
    ensures [key] + a == [key] + b <==> a == b
  {
    if [key] + a <= [key] + b {
      assert a == ([key] + a)[1..] && b == ([key] + b)[1..];
    }
    if [key] + a == [key] + b {
      assert a == ([key] + a)[1..] && b == ([key] + b)[1..];
    }
  }

  lemma {:induction false} ChildLookup(fields: Fields, key: string, rest: Path)
    ensures Lookup(Obj(Child(fields, key)), rest) ==
            match Get(fields, key) case None => None case Some(v) => Lookup(v, rest)
  {
    match Get(fields, key)
    case Some(Obj(_)) =>
    case Some(v) => LookupThroughLeaf(v, rest);
    case None =>
  }

  /** No key path after number `i` overlaps with that of number `i`. */
  predicate LastWord(values: Values, i: nat)
    requires i < |values|
  {
    forall j | i < j < |values| :: !Overlap(PathOf(values[i]), PathOf(values[j]))
  }

  /**
   * What the nested object says at each key path: the value assigned there, if and only if no
   * later key path continues it or is continued by it.
   */
  lemma {:induction false} LaterKeysWin(values: Values, i: nat)
    requires DistinctKeys(values) && i < |values|
    ensures var v := Lookup(Obj(Compile(values)), PathOf(values[i]));
            if LastWord(values, i) then v == Some(Atom(values[i].1)) else v.None? || v.value.Obj?
  {
    var n := |values| - 1;
    var front, last := values[..n], values[n];
    LookupPutPath(Compile(front), PathOf(last), last.1, PathOf(values[i]));
    if i < n {
      LaterKeysWin(front, i);
      if PathOf(values[i]) == PathOf(last) {
        SplitInjective(values[i].0, last.0, '.');
      }
      assert LastWord(values, i) <==> LastWord(front, i) && !Overlap(PathOf(values[i]), PathOf(last));
    }
  }

  /** A key is its path with dots in between, and no segment has a dot. */
  lemma PathMeaning(key: string, leaf: Leaf)
    ensures Join(PathOf((key, leaf)), '.') == key && forall s | s in PathOf((key, leaf)) :: '.' !in s
  {
    JoinSplit(key, '.');
    SplitSeparates(key, '.');
  }
}
