/**
 * Dictionary query entries and the records they select.
 *
 * An entry is a conjunction of conditions on the records of one entity, and a list of entries
 * selects every record that one of them matches.
 */
module Dictionary {
  import opened Wrappers
  import opened Text
  import opened JsonValues
  import opened QueryCompilation
  import opened JsonText

  /** Entities are named by GraphQL identifiers. */
  type EntityName = s: string | '|' !in s witness "messages"

  datatype Condition = Condition(field: string, value: Option<Plain>, matcher: string)

  datatype QueryEntry = QueryEntry(entity: EntityName, conditions: seq<Condition>)

  datatype Record = Record(entity: string, columns: map<string, Json>)

  /** How a database stores `Long` values, and what its remaining matchers mean. */
  datatype Database = Database(longAs: LongColumn, other: (string, Json, Json) -> bool)

  predicate ConditionHolds(db: Database, c: Condition, r: Record) {
    && c.value.Some?
    && c.field in r.columns
    && if c.matcher == "equalTo" then r.columns[c.field] == c.value.value
       else if c.matcher == "contains" then Contains(db.longAs, r.columns[c.field], c.value.value)
       else db.other(c.matcher, r.columns[c.field], c.value.value)
  }

  predicate EntryMatches(db: Database, e: QueryEntry, r: Record) {
    e.entity == r.entity && forall c | c in e.conditions :: ConditionHolds(db, c, r)
  }

  predicate Selects(db: Database, entries: seq<QueryEntry>, r: Record) {
    exists e | e in entries :: EntryMatches(db, e, r)
  }

  // ----- sorting conditions by field

  predicate Before(a: string, b: string) {
    b != "" && (a == "" || a[0] < b[0] || (a[0] == b[0] && Before(a[1..], b[1..])))
  }

  function Insert(c: Condition, cs: seq<Condition>): seq<Condition> {
    if cs == [] || !Before(cs[0].field, c.field) then [c] + cs else [cs[0]] + Insert(c, cs[1..])
  }

  function SortByField(cs: seq<Condition>): seq<Condition> {
    if cs == [] then [] else Insert(cs[0], SortByField(cs[1..]))
  }

  lemma {:induction false} BeforeIsIrreflexive(a: string)
    ensures !Before(a, a)
  {
    if a == "" {
    } else {
      BeforeIsIrreflexive(a[1..]);
    }
  }

  lemma {:induction false} BeforeIsTotal(a: string, b: string)
    requires a != b
    ensures Before(a, b) <==> !Before(b, a)
    decreases |a|
  {
    if a != "" && b != "" && a[0] == b[0] {
      assert a == [a[0]] + a[1..] && b == [b[0]] + b[1..];
      BeforeIsTotal(a[1..], b[1..]);
    }
  }

  lemma {:induction false} BeforeIsTransitive(a: string, b: string, c: string)
    requires Before(a, b) && Before(b, c)
    ensures Before(a, c)
    decreases |a|
  {
    if a != "" && a[0] == b[0] && b[0] == c[0] {
      BeforeIsTransitive(a[1..], b[1..], c[1..]);
    }
  }

  lemma {:induction false} InsertKeepsAll(c: Condition, cs: seq<Condition>)
    ensures multiset(Insert(c, cs)) == multiset(cs) + multiset{c}
  {
    if cs != [] && Before(cs[0].field, c.field) {
      InsertKeepsAll(c, cs[1..]);
      assert cs == [cs[0]] + cs[1..];
    }
  }

  lemma {:induction false} SortIsPermutation(cs: seq<Condition>)
    ensures multiset(SortByField(cs)) == multiset(cs)
  {
    if cs == [] {
    } else {
      SortIsPermutation(cs[1..]);
      InsertKeepsAll(cs[0], SortByField(cs[1..]));
      assert cs == [cs[0]] + cs[1..];
    }
  }

  /** Strictly increasing fields. */
  predicate Ascending(cs: seq<Condition>) {
    forall i, j | 0 <= i < j < |cs| :: Before(cs[i].field, cs[j].field)
  }

  predicate DistinctFields(cs: seq<Condition>) {
    forall i, j | 0 <= i < j < |cs| :: cs[i].field != cs[j].field
  }

  /** The first of an ascending list is first by field. */
  lemma FirstIsLeast(cs: seq<Condition>, c: Condition)
    requires Ascending(cs) && c in cs
    ensures c == cs[0] || Before(cs[0].field, c.field)
  {
    var i :| 0 <= i < |cs| && cs[i] == c;
  }

  lemma AscendingCons(c: Condition, cs: seq<Condition>)
    requires Ascending(cs) && forall x | x in cs :: Before(c.field, x.field)
    ensures Ascending([c] + cs)
  {
  }

  lemma {:induction false} InsertHas(c: Condition, cs: seq<Condition>, x: Condition)
    requires x in Insert(c, cs)
    ensures x == c || x in cs
  {
    InsertKeepsAll(c, cs);
    assert x in multiset(Insert(c, cs));
  }

  lemma {:induction false} InsertAscends(c: Condition, cs: seq<Condition>)
    requires Ascending(cs)
    requires forall x | x in cs :: x.field != c.field
    ensures Ascending(Insert(c, cs))
  {
    if cs == [] {
    } else if Before(cs[0].field, c.field) {
      InsertAscends(c, cs[1..]);
      forall x | x in Insert(c, cs[1..]) ensures Before(cs[0].field, x.field) {
        InsertHas(c, cs[1..], x);
      }
      AscendingCons(cs[0], Insert(c, cs[1..]));
    } else {
      BeforeIsTotal(cs[0].field, c.field);
      forall x | x in cs ensures Before(c.field, x.field) {
        FirstIsLeast(cs, x);
        if x != cs[0] {
          BeforeIsTransitive(c.field, cs[0].field, x.field);
        }
      }
      AscendingCons(c, cs);
    }
  }

  lemma {:induction false} SortAscends(cs: seq<Condition>)
    requires DistinctFields(cs)
    ensures Ascending(SortByField(cs))
  {
    if cs == [] {
    } else {
      SortAscends(cs[1..]);
      SortIsPermutation(cs[1..]);
      forall x | x in SortByField(cs[1..]) ensures x.field != cs[0].field {
        assert x in multiset(SortByField(cs[1..]));
        assert x in cs[1..];
      }
      InsertAscends(cs[0], SortByField(cs[1..]));
    }
  }

  lemma SameFirst(a: seq<Condition>, b: seq<Condition>)
    requires Ascending(a) && Ascending(b) && multiset(a) == multiset(b) && a != [] && b != []
    ensures a[0] == b[0]
  {
    assert a[0] in multiset(a) && b[0] in multiset(b);
    assert a[0] in b && b[0] in a;
    FirstIsLeast(a, b[0]);
    FirstIsLeast(b, a[0]);
    if a[0].field == b[0].field {
      BeforeIsIrreflexive(a[0].field);
    } else {
      BeforeIsTotal(a[0].field, b[0].field);
    }
  }

  lemma WithoutFirst(cs: seq<Condition>)
    requires cs != []
    ensures multiset(cs[1..]) == multiset(cs) - multiset{cs[0]}
  {
    assert cs == [cs[0]] + cs[1..];
  }

  lemma {:induction false} AscendingIsUnique(a: seq<Condition>, b: seq<Condition>)
    requires Ascending(a) && Ascending(b) && multiset(a) == multiset(b)
    ensures a == b
  {
    assert |a| == |multiset(a)| && |b| == |multiset(b)|;
    if a == [] {
    } else {
      SameFirst(a, b);
      WithoutFirst(a);
      WithoutFirst(b);
      AscendingIsUnique(a[1..], b[1..]);
      assert a == [a[0]] + a[1..] && b == [b[0]] + b[1..];
    }
  }

  // ----- what sorting does in general

  /** Strings are compared at the first character in which they differ; a prefix comes first. */
  lemma {:induction false} BeforeMeaning(a: string, b: string)
    ensures Before(a, b) <==> exists i | 0 <= i < |b| :: DiffersAt(a, b, i)
    decreases |a|
  {
    if b == "" {
    } else if a == "" || a[0] != b[0] {
      assert a == "" || a[0] < b[0] ==> DiffersAt(a, b, 0);
      forall i | 0 < i < |b| ensures !DiffersAt(a, b, i) {
        assert 0 < i <= |a| ==> a[..i][0] == a[0] && b[..i][0] == b[0];
      }
    } else {
      BeforeMeaning(a[1..], b[1..]);
      if i :| 0 <= i < |b| && DiffersAt(a, b, i) {
        assert i > 0;
        DiffersLater(a, b, i - 1);
      }
      if i :| 0 <= i < |b| - 1 && DiffersAt(a[1..], b[1..], i) {
        DiffersLater(a, b, i);
      }
    }
  }

  /** The first `i` characters agree, and then `a` ends or has the smaller character. */
  predicate DiffersAt(a: string, b: string, i: nat)
    requires i < |b|
  {
    i <= |a| && a[..i] == b[..i] && (i == |a| || a[i] < b[i])
  }

  lemma DiffersLater(a: string, b: string, i: nat)
    requires a != "" && b != "" && a[0] == b[0] && i + 1 < |b|
    ensures DiffersAt(a, b, i + 1) <==> DiffersAt(a[1..], b[1..], i)
  {
    if i + 1 <= |a| {
      assert a[..i + 1] == [a[0]] + a[1..][..i] && b[..i + 1] == [b[0]] + b[1..][..i];
      if a[..i + 1] == b[..i + 1] {
        assert a[..i + 1][1..] == b[..i + 1][1..];
      }
    }
  }

  /** The conditions on one field, in order. */
  function OnField(cs: seq<Condition>, field: string): seq<Condition> {
    if cs == [] then []
    else if cs[0].field == field then [cs[0]] + OnField(cs[1..], field)
    else OnField(cs[1..], field)
  }

  lemma {:induction false} InsertIsStable(c: Condition, cs: seq<Condition>, field: string)
    ensures OnField(Insert(c, cs), field) == if c.field == field then [c] + OnField(cs, field) else OnField(cs, field)
  {
    if cs == [] || !Before(cs[0].field, c.field) {
      assert ([c] + cs)[1..] == cs;
    } else {
      var rest := Insert(c, cs[1..]);
      assert ([cs[0]] + rest)[1..] == rest;
      InsertIsStable(c, cs[1..], field);
      BeforeIsIrreflexive(c.field);
    }
  }

  /** No field comes before that of an earlier condition. */
  predicate NonDescending(cs: seq<Condition>) {
    forall i, j | 0 <= i < j < |cs| :: !Before(cs[j].field, cs[i].field)
  }

  lemma {:induction false} InsertKeepsOrder(c: Condition, cs: seq<Condition>)
    requires NonDescending(cs)
    ensures NonDescending(Insert(c, cs))
  {
    if cs == [] {
    } else if !Before(cs[0].field, c.field) {
      forall x | x in cs ensures !Before(x.field, c.field) {
        NotBeforeFirst(cs, x, c.field);
      }
      OrderCons(c, cs);
    } else {
      InsertKeepsOrder(c, cs[1..]);
      forall x | x in Insert(c, cs[1..]) ensures !Before(x.field, cs[0].field) {
        InsertHas(c, cs[1..], x);
        if x == c {
          NotBoth(cs[0].field, c.field);
        } else {
          var i :| 0 <= i < |cs| - 1 && cs[1..][i] == x;
          assert cs[i + 1] == x;
        }
      }
      OrderCons(cs[0], Insert(c, cs[1..]));
    }
  }

  lemma {:induction false} NotBoth(a: string, b: string)
    requires Before(a, b)
    ensures !Before(b, a)
  {
    BeforeIsIrreflexive(a);
    BeforeIsTotal(a, b);
  }

  /** What is not before the first of an ordered list is before none of it. */
  lemma {:induction false} NotBeforeFirst(cs: seq<Condition>, x: Condition, field: string)
    requires NonDescending(cs) && x in cs && !Before(cs[0].field, field)
    ensures !Before(x.field, field)
  {
    var i :| 0 <= i < |cs| && cs[i] == x;
    if Before(x.field, field) && i > 0 {
      assert !Before(x.field, cs[0].field);
      if x.field != cs[0].field {
        BeforeIsTotal(x.field, cs[0].field);
        BeforeIsTransitive(cs[0].field, x.field, field);
      }
    }
  }

  lemma OrderCons(c: Condition, cs: seq<Condition>)
    requires NonDescending(cs) && forall x | x in cs :: !Before(x.field, c.field)
    ensures NonDescending([c] + cs)
  {
  }

  /** Sorting by field: a permutation in order of the fields, stable among conditions on the same field. */
  lemma {:induction false} SortMeaning(cs: seq<Condition>, field: string)
    ensures multiset(SortByField(cs)) == multiset(cs)
    ensures NonDescending(SortByField(cs))
    ensures OnField(SortByField(cs), field) == OnField(cs, field)
  {
    SortIsPermutation(cs);
    if cs == [] {
    } else {
      SortMeaning(cs[1..], field);
      InsertKeepsOrder(cs[0], SortByField(cs[1..]));
      InsertIsStable(cs[0], SortByField(cs[1..]), field);
    }
  }

  // ----- deduplication keys

  /** The properties `value`, when there is one, and `matcher`. */
  function ValueAndMatcher(value: Option<Plain>, matcher: Plain): (fields: Fields)
    ensures ArePlain(fields)
  {
    PlainField("matcher", matcher, Empty);
    var last := Field("matcher", matcher, Empty);
    match value
    case None => last
    case Some(v) =>
      PlainField("value", v, last);
      Field("value", v, last)
  }

  function ConditionJson(c: Condition): Plain {
    var fields := ValueAndMatcher(c.value, Atom(Str(c.matcher)));
    PlainField("field", Atom(Str(c.field)), fields);
    Obj(Field("field", Atom(Str(c.field)), fields))
  }

  function ConditionsJson(cs: seq<Condition>): (js: seq<Plain>)
    ensures |js| == |cs|
    ensures forall i | 0 <= i < |cs| :: js[i] == ConditionJson(cs[i])
  {
    seq(|cs|, i requires 0 <= i < |cs| => ConditionJson(cs[i]))
  }

  /** The properties of a condition in its text: the names a query condition has, without an absent value. */
  lemma ConditionProperties(c: Condition)
    ensures ConditionJson(c).Obj?
    ensures var fields := ConditionJson(c).fields;
            && Keys(fields) == (if c.value.None? then ["field", "matcher"] else ["field", "value", "matcher"])
            && Get(fields, "field") == Some(Atom(Str(c.field)))
            && Get(fields, "value") == c.value
            && Get(fields, "matcher") == Some(Atom(Str(c.matcher)))
  {
    var rest := ValueAndMatcher(c.value, Atom(Str(c.matcher)));
    assert Keys(Empty) == [];
    assert Keys(rest) == if c.value.None? then ["matcher"] else ["value", "matcher"];
    assert "field" != "value" && "field" != "matcher" && "value" != "matcher" by {
      assert |"field"| != |"matcher"| && |"value"| != |"matcher"| && "field"[0] != "value"[0];
    }
    assert Get(rest, "matcher") == Some(Atom(Str(c.matcher))) && Get(rest, "value") == c.value by {
      assert Get(Empty, "value") == None;
      assert Get(Field("matcher", Atom(Str(c.matcher)), Empty), "matcher") == Some(Atom(Str(c.matcher)));
    }
  }

  /** Two entries with equal keys count as the same entry. */
  function KeyText(e: QueryEntry): string {
    e.entity + "|" + Stringify(Arr(ConditionsJson(SortByField(e.conditions))))
  }

  lemma BarSplits(a: EntityName, b: EntityName, x: string, y: string)
    requires a + "|" + x == b + "|" + y
    ensures a == b && x == y
  {
    var u, v := a + "|" + x, b + "|" + y;
    assert u[|a|] == '|' && v[|b|] == '|';
    assert a == u[..|a|] && b == v[..|b|];
    assert x == u[|a| + 1..] && y == v[|b| + 1..];
  }

  /** The key text stands for exactly the entity and the sorted conditions. */
  lemma KeyDetermines(a: QueryEntry, b: QueryEntry)
    ensures KeyText(a) == KeyText(b) <==>
            a.entity == b.entity && SortByField(a.conditions) == SortByField(b.conditions)
  {
    if KeyText(a) == KeyText(b) {
      var s, t := SortByField(a.conditions), SortByField(b.conditions);
      BarSplits(a.entity, b.entity, Stringify(Arr(ConditionsJson(s))), Stringify(Arr(ConditionsJson(t))));
      TextDetermines(Arr(ConditionsJson(s)), Arr(ConditionsJson(t)), "", "");
      forall i | 0 <= i < |s| ensures s[i] == t[i] {
        assert ConditionsJson(s)[i] == ConditionsJson(t)[i];
      }
    }
  }

  /** Entries that list the same conditions in another order share a key. */
  lemma KeyIgnoresOrder(a: QueryEntry, b: QueryEntry)
    requires a.entity == b.entity && multiset(a.conditions) == multiset(b.conditions)
    requires DistinctFields(a.conditions) && DistinctFields(b.conditions)
    ensures KeyText(a) == KeyText(b)
  {
    SortAscends(a.conditions);
    SortAscends(b.conditions);
    SortIsPermutation(a.conditions);
    SortIsPermutation(b.conditions);
    AscendingIsUnique(SortByField(a.conditions), SortByField(b.conditions));
  }

  lemma SameKeySameRecords(db: Database, a: QueryEntry, b: QueryEntry, r: Record)
    requires KeyText(a) == KeyText(b)
    ensures EntryMatches(db, a, r) <==> EntryMatches(db, b, r)
  {
    KeyDetermines(a, b);
    SortIsPermutation(a.conditions);
    SortIsPermutation(b.conditions);
    assert forall c :: c in a.conditions <==> c in multiset(a.conditions);
    assert forall c :: c in b.conditions <==> c in multiset(b.conditions);
  }

  // ----- deduplication

  predicate HasKey<T(!new)>(key: T -> string, items: seq<T>, k: string) {
    exists i | 0 <= i < |items| :: key(items[i]) == k
  }

  predicate KeysDiffer<T(!new)>(key: T -> string, items: seq<T>) {
    forall i, j | 0 <= i < j < |items| :: key(items[i]) != key(items[j])
  }

  /** Keeps the first item of every key. */
  function UniqBy<T(!new)>(items: seq<T>, key: T -> string): seq<T> {
    if items == [] then []
    else
      var n := |items| - 1;
      var front := UniqBy(items[..n], key);
      if HasKey(key, front, key(items[n])) then front else front + [items[n]]
  }

  /** `a` arises from `b` by leaving elements out. */
  predicate Subsequence<T(==)>(a: seq<T>, b: seq<T>)
    decreases |b|
  {
    a == [] ||
    (b != [] &&
     (Subsequence(a, b[..|b| - 1]) ||
      (a[|a| - 1] == b[|b| - 1] && Subsequence(a[..|a| - 1], b[..|b| - 1]))))
  }

  lemma {:induction false} UniqIsSubsequence<T(!new)>(items: seq<T>, key: T -> string)
    ensures Subsequence(UniqBy(items, key), items)
  {
    if items == [] {
    } else {
      var n := |items| - 1;
      UniqIsSubsequence(items[..n], key);
      var front, result := UniqBy(items[..n], key), UniqBy(items, key);
      if result != front {
        assert result[..|front|] == front;
      }
    }
  }

  lemma {:induction false} UniqKeysAreDistinct<T(!new)>(items: seq<T>, key: T -> string)
    ensures KeysDiffer(key, UniqBy(items, key))
  {
    if items == [] {
    } else {
      var n := |items| - 1;
      UniqKeysAreDistinct(items[..n], key);
      var front := UniqBy(items[..n], key);
      assert HasKey(key, front, key(items[n])) || forall i | 0 <= i < |front| :: key(front[i]) != key(items[n]);
    }
  }

  lemma {:induction false} UniqCovers<T(!new)>(items: seq<T>, key: T -> string)
    ensures forall e | e in items :: HasKey(key, UniqBy(items, key), key(e))
    ensures forall e | e in UniqBy(items, key) :: e in items
  {
    if items == [] {
    } else {
      var n := |items| - 1;
      UniqCovers(items[..n], key);
      var front, result := UniqBy(items[..n], key), UniqBy(items, key);
      forall e | e in items ensures HasKey(key, result, key(e)) {
        if e in items[..n] {
          var i :| 0 <= i < |front| && key(front[i]) == key(e);
          assert result[i] == front[i];
        } else {
          assert e == items[n];
          assert |result| > |front| ==> result[|front|] == e;
        }
      }
    }
  }

  /** Item number `i`, unless an earlier one has its key. */
  function IfFirst<T(!new)>(items: seq<T>, key: T -> string, i: nat): seq<T>
    requires i < |items|
  {
    if HasKey(key, items[..i], key(items[i])) then [] else [items[i]]
  }

  function FirstOnes<T(!new)>(items: seq<T>, key: T -> string, n: nat): seq<seq<T>>
    requires n <= |items|
  {
    seq(n, i requires 0 <= i < n => IfFirst(items, key, i))
  }

  lemma {:induction false} UniqHasKey<T(!new)>(items: seq<T>, key: T -> string, k: string)
    ensures HasKey(key, UniqBy(items, key), k) <==> HasKey(key, items, k)
  {
    UniqCovers(items, key);
    if HasKey(key, items, k) {
      var i :| 0 <= i < |items| && key(items[i]) == k;
      assert items[i] in items;
    }
    if HasKey(key, UniqBy(items, key), k) {
      var i :| 0 <= i < |UniqBy(items, key)| && key(UniqBy(items, key)[i]) == k;
      assert UniqBy(items, key)[i] in UniqBy(items, key);
      assert UniqBy(items, key)[i] in items;
    }
  }

  lemma {:induction false} UniqUpTo<T(!new)>(items: seq<T>, key: T -> string, n: nat)
    requires n <= |items|
    ensures UniqBy(items[..n], key) == Flatten(FirstOnes(items, key, n))
  {
    if n == 0 {
    } else {
      var k: nat := n - 1;
      var part := items[..n];
      assert part[..k] == items[..k] && part[k] == items[k];
      UniqUpTo(items, key, k);
      UniqHasKey(items[..k], key, key(items[k]));
      FlattenSnoc(FirstOnes(items, key, k), IfFirst(items, key, k));
      assert FirstOnes(items, key, n) == FirstOnes(items, key, k) + [IfFirst(items, key, k)];
      assert UniqBy(items[..k], key) + [] == UniqBy(items[..k], key);
    }
  }

  /** Exactly the first item of every key is kept, in order. */
  lemma {:induction false} UniqKeepsFirst<T(!new)>(items: seq<T>, key: T -> string)
    ensures UniqBy(items, key) == Flatten(FirstOnes(items, key, |items|))
  {
    UniqUpTo(items, key, |items|);
    assert items[..|items|] == items;
  }

  function Deduplicate(entries: seq<QueryEntry>): seq<QueryEntry> {
    UniqBy(entries, KeyText)
  }

  /**
   * Deduplication keeps a subsequence with pairwise distinct keys that selects the same records,
   * and leaves nothing only when there was nothing.
   */
  lemma {:induction false} DeduplicatePreservesSelection(db: Database, entries: seq<QueryEntry>)
    ensures Subsequence(Deduplicate(entries), entries)
    ensures KeysDiffer(KeyText, Deduplicate(entries))
    ensures forall r :: Selects(db, Deduplicate(entries), r) <==> Selects(db, entries, r)
    ensures Deduplicate(entries) == [] <==> entries == []
  {
    UniqIsSubsequence(entries, KeyText);
    UniqKeysAreDistinct(entries, KeyText);
    UniqCovers(entries, KeyText);
    forall r ensures Selects(db, Deduplicate(entries), r) <==> Selects(db, entries, r) {
      SameSelection(db, entries, r);
    }
    if entries != [] {
      assert HasKey(KeyText, Deduplicate(entries), KeyText(entries[0]));
    }
  }

  lemma SameSelection(db: Database, entries: seq<QueryEntry>, r: Record)
    ensures Selects(db, Deduplicate(entries), r) <==> Selects(db, entries, r)
  {
    UniqCovers(entries, KeyText);
    var kept := Deduplicate(entries);
    if Selects(db, entries, r) {
      var e :| e in entries && EntryMatches(db, e, r);
      assert HasKey(KeyText, kept, KeyText(e));
      var i :| 0 <= i < |kept| && KeyText(kept[i]) == KeyText(e);
      SameKeySameRecords(db, kept[i], e, r);
      assert kept[i] in kept;
    }
  }
}
