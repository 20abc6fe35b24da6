/**
 * The handler filters: which blocks, transactions, messages and events a handler is called with.
 *
 * A filter is an untyped object read according to the kind of its handler, so one record holds
 * every property any kind looks at.
 */
module Filters {
  import opened Wrappers
  import opened Text
  import opened JsonValues
  import opened QueryCompilation
  import opened CosmosTypes
  import Decimal

  datatype Filter = Filter(
    modulo: Option<int>,
    includeFailedTx: bool,
    ty: Option<string>,
    contractCall: Option<string>,
    values: Option<KeyedValues>,
    messageFilter: Option<Filter>,
    attributes: seq<(string, Leaf)>)

  /** The base filter of a custom handler: absent, one filter, or a list with possible holes. */
  datatype BaseFilter = Absent | Single(filter: Filter) | Many(filters: seq<Option<Filter>>)

  datatype Verdict = Accept | Reject | Throw

  const EXECUTE_CONTRACT := "/cosmwasm.wasm.v1.MsgExecuteContract"

  function Decide(b: bool): Verdict {
    if b then Accept else Reject
  }

  // ----- blocks and transactions

  /** A modulo of zero is falsy and filters nothing. */
  predicate FilterBlock(height: nat, filter: Option<Filter>) {
    match filter
    case None => true
    case Some(f) => f.modulo.None? || f.modulo == Some(0) || height % f.modulo.value == 0
  }

  predicate FilterTx(tx: CosmosTransaction, filter: Option<Filter>) {
    (filter.Some? && filter.value.includeFailedTx) || tx.tx.code == 0
  }

  // ----- messages

  /** Strict equality with a filter value, after a `Long` was turned into a number or its text. */
  predicate LeafEquals(v: Option<Json>, leaf: Leaf) {
    match v
    case Some(Atom(l)) => l == leaf
    case Some(Long(n)) => leaf == Num(n) || leaf == Str(Decimal.Print(n))
    case _ => false
  }

  function ValuesVerdict(decoded: Option<Json>, values: Values): Verdict {
    if values == [] then Accept
    else if decoded.None? then Throw
    else match Resolve(decoded, PathOf(values[0]))
      case Throws => Throw
      case Value(v) => if LeafEquals(v, values[0].1) then ValuesVerdict(decoded, values[1..]) else Reject
  }

  predicate AsksForCall(f: Filter) {
    f.ty == Some(EXECUTE_CONTRACT) && f.contractCall.Some? && f.contractCall.value != ""
  }

  predicate NamesCall(msg: Option<Json>, call: string) {
    match msg
    case None => false
    case Some(v) => v == Atom(Str(call)) || Property(v, call).Some?
  }

  function CallVerdict(decoded: Option<Json>, f: Filter): Verdict {
    if !AsksForCall(f) then Accept
    else if decoded.None? then Throw
    else match Resolve(decoded, ["msg"])
      case Throws => Throw
      case Value(v) => Decide(NamesCall(v, f.contractCall.value))
  }

  /** `filterMessageData` on an eagerly decoded message; `None` stands for a failed decode. */
  function MessageVerdict(codec: Codec, m: CosmosMessage, filter: Option<Filter>): Verdict {
    match filter
    case None => Accept
    case Some(f) =>
      if !FilterTx(m.tx, filter) || f.ty != Some(m.raw.typeUrl) then Reject
      else
        var decoded := codec.decodeMsg(m.raw);
        match ValuesVerdict(decoded, ValuesOf(f))
        case Accept => CallVerdict(decoded, f)
        case v => v
  }

  function ValuesOf(f: Filter): Values {
    match f.values
    case None => []
    case Some(vs) => vs
  }

  /** The equalities as a reader states them: every path leads to a value equal to the filter's. */
  predicate ValuesMatch(doc: Json, values: Values) {
    forall i | 0 <= i < |values| :: LeafEquals(Lookup(doc, PathOf(values[i])), values[i].1)
  }

  lemma {:induction false} AcceptsMatches(doc: Json, values: Values)
    ensures ValuesVerdict(Some(doc), values) == Accept <==> ValuesMatch(doc, values)
  {
    if values == [] {
    } else {
      var path, leaf := PathOf(values[0]), values[0].1;
      AcceptsMatches(doc, values[1..]);
      assert ValuesMatch(doc, values) <==> LeafEquals(Lookup(doc, path), leaf) && ValuesMatch(doc, values[1..]) by {
        assert forall i | 0 <= i < |values| - 1 :: values[1..][i] == values[i + 1];
        assert forall i | 1 <= i < |values| :: values[i] == values[1..][i - 1];
      }
      match Lookup(doc, path)
      case Some(w) => ResolveIsLookup(doc, path, w);
      case None =>
        match Resolve(Some(doc), path)
        case Value(Some(w)) => ResolveIsLookup(doc, path, w);
        case _ =>
    }
  }

  /**
   * The comparison written out: the value is the filter's own, or a `Long` that the filter names as
   * a number or by its canonical decimal text.
   */
  predicate Means(v: Option<Json>, leaf: Leaf) {
    match v
    case None => false
    case Some(w) =>
      || w == Atom(leaf)
      || (w.Long? && leaf == Num(w.n))
      || (w.Long? && leaf.Str? && Decimal.Canonical(leaf.s) && Decimal.ParseInt(leaf.s) == Some(w.n))
  }

  lemma LeafEqualsMeans(v: Option<Json>, leaf: Leaf)
    ensures LeafEquals(v, leaf) <==> Means(v, leaf)
  {
    match v
    case Some(Long(n)) =>
      Decimal.ParsePrint(n, "");
      assert Decimal.Print(n) + "" == Decimal.Print(n);
      Decimal.PrintIsCanonical(n);
      if leaf.Str? && Decimal.Canonical(leaf.s) && Decimal.ParseInt(leaf.s) == Some(n) {
        Decimal.PrintParse(leaf.s, n);
      }
    case _ =>
  }

  /** Every key, split at its dots, leads to the value the filter means. */
  predicate AllMeant(doc: Json, values: Values) {
    forall i | 0 <= i < |values| :: Means(Lookup(doc, PathOf(values[i])), values[i].1)
  }

  lemma MatchIsMeant(doc: Json, values: Values)
    ensures ValuesMatch(doc, values) <==> AllMeant(doc, values)
  {
    forall i | 0 <= i < |values|
      ensures LeafEquals(Lookup(doc, PathOf(values[i])), values[i].1) <==>
              Means(Lookup(doc, PathOf(values[i])), values[i].1)
    {
      LeafEqualsMeans(Lookup(doc, PathOf(values[i])), values[i].1);
    }
  }

  /** All values before number `k` are met, and the path of number `k` cannot be read to its end. */
  predicate ThrowsAt(doc: Json, values: Values, k: nat)
    requires k < |values|
  {
    AllMeant(doc, values[..k]) && Blocked(doc, PathOf(values[k]))
  }

  lemma {:induction false} ValuesThrowIff(doc: Json, values: Values)
    ensures ValuesVerdict(Some(doc), values) == Throw <==> exists k | 0 <= k < |values| :: ThrowsAt(doc, values, k)
  {
    if values == [] {
    } else {
      var path, leaf, rest := PathOf(values[0]), values[0].1, values[1..];
      ValuesThrowIff(doc, rest);
      ResolveThrowsIff(doc, path);
      LeafEqualsMeans(Lookup(doc, path), leaf);
      ThrowsLater(doc, values);
      if !Blocked(doc, path) {
        ReadIsLookup(doc, path);
      } else {
        assert ThrowsAt(doc, values, 0);
      }
    }
  }

  /** A path that can be read to its end gives what is there, if anything. */
  lemma {:induction false} ReadIsLookup(doc: Json, path: seq<string>)
    requires !Blocked(doc, path)
    ensures Resolve(Some(doc), path) == Value(Lookup(doc, path))
  {
    ResolveThrowsIff(doc, path);
    match Resolve(Some(doc), path)
    case Value(Some(w)) => ResolveIsLookup(doc, path, w);
    case Value(None) =>
      match Lookup(doc, path) {
        case None =>
        case Some(w) => ResolveIsLookup(doc, path, w);
      }
    case Throws =>
  }

  lemma {:induction false} ThrowsLater(doc: Json, values: Values)
    requires values != []
    ensures (exists k | 0 <= k < |values| :: ThrowsAt(doc, values, k)) <==>
            || Blocked(doc, PathOf(values[0]))
            || (Means(Lookup(doc, PathOf(values[0])), values[0].1) &&
                exists k | 0 <= k < |values| - 1 :: ThrowsAt(doc, values[1..], k))
  {
    var rest := values[1..];
    if k :| 0 <= k < |values| && ThrowsAt(doc, values, k) && k > 0 {
      assert values[..k][0] == values[0];
      forall i | 0 <= i < k - 1 ensures Means(Lookup(doc, PathOf(rest[i])), rest[i].1) {
        assert rest[i] == values[..k][i + 1];
      }
      assert ThrowsAt(doc, rest, k - 1);
    }
    if k :| 0 <= k < |rest| && ThrowsAt(doc, rest, k) && Means(Lookup(doc, PathOf(values[0])), values[0].1) {
      forall i | 0 <= i < k + 1 ensures Means(Lookup(doc, PathOf(values[i])), values[i].1) {
        assert i > 0 ==> values[i] == rest[..k][i - 1];
      }
      assert ThrowsAt(doc, values, k + 1);
    }
    if Blocked(doc, PathOf(values[0])) {
      assert ThrowsAt(doc, values, 0);
    }
  }

  /**
   * The loop over `values` accepts exactly when every path leads to the value the filter means,
   * and throws exactly when the first path that does not is cut off by a missing or null value.
   */
  lemma {:induction false} ValuesVerdictMeaning(doc: Json, values: Values)
    ensures ValuesVerdict(Some(doc), values) == Accept <==> AllMeant(doc, values)
    ensures ValuesVerdict(Some(doc), values) == Throw <==> exists k | 0 <= k < |values| :: ThrowsAt(doc, values, k)
  {
    AcceptsMatches(doc, values);
    MatchIsMeant(doc, values);
    ValuesThrowIff(doc, values);
  }

  /** The message's `msg` is the called name itself, or an object with a property of this name. */
  predicate MakesCall(doc: Json, call: string) {
    match Lookup(doc, ["msg"])
    case None => false
    case Some(v) => v == Atom(Str(call)) || (v.Obj? && call in Keys(v.fields))
  }

  /** The filter asks for a contract call. */
  predicate WantsCall(f: Filter) {
    f.ty == Some("/cosmwasm.wasm.v1.MsgExecuteContract") && f.contractCall.Some? && |f.contractCall.value| > 0
  }

  lemma CallVerdictMeaning(decoded: Option<Json>, f: Filter)
    ensures AsksForCall(f) <==> WantsCall(f)
    ensures CallVerdict(decoded, f) == Throw <==> WantsCall(f) && (decoded.None? || decoded.value == Atom(Null))
    ensures CallVerdict(decoded, f) == Accept <==>
            (WantsCall(f) ==> decoded.Some? && MakesCall(decoded.value, f.contractCall.value))
  {
    if WantsCall(f) && decoded.Some? {
      var doc := decoded.value;
      assert ["msg"][1..] == [];
      assert Lookup(doc, ["msg"]) == match Property(doc, "msg") case None => None case Some(v) => Some(v);
      assert doc != Atom(Null) ==> Resolve(Some(doc), ["msg"]) == Value(Property(doc, "msg"));
      match Property(doc, "msg")
      case Some(Obj(fields)) => GetIffKey(fields, f.contractCall.value);
      case _ =>
    }
  }

  /**
   * What a message filter accepts: successful transactions (unless failed ones are wanted), the
   * exact type, all path equalities, and the named contract call.
   */
  lemma MessageAcceptedIff(codec: Codec, m: CosmosMessage, f: Filter)
    ensures MessageVerdict(codec, m, Some(f)) == Accept <==>
            && (f.includeFailedTx || m.tx.tx.code == 0)
            && f.ty == Some(m.raw.typeUrl)
            && (ValuesOf(f) != [] || WantsCall(f) ==> codec.decodeMsg(m.raw).Some?)
            && (ValuesOf(f) != [] ==> AllMeant(codec.decodeMsg(m.raw).value, ValuesOf(f)))
            && (WantsCall(f) ==> MakesCall(codec.decodeMsg(m.raw).value, f.contractCall.value))
  {
    CallVerdictMeaning(codec.decodeMsg(m.raw), f);
    match codec.decodeMsg(m.raw)
    case None =>
    case Some(doc) =>
      ValuesVerdictMeaning(doc, ValuesOf(f));
  }

  /**
   * When a message filter throws: the transaction and the type pass, and then the message cannot
   * be decoded though it is needed, or the first unmet path has a missing or null value on the
   * way, or all paths are met and the message itself is null where a contract call is asked for.
   */
  lemma MessageThrowsIff(codec: Codec, m: CosmosMessage, f: Filter)
    ensures MessageVerdict(codec, m, Some(f)) == Throw <==>
            && (f.includeFailedTx || m.tx.tx.code == 0)
            && f.ty == Some(m.raw.typeUrl)
            && match codec.decodeMsg(m.raw)
               case None => ValuesOf(f) != [] || WantsCall(f)
               case Some(doc) =>
                 || (exists k | 0 <= k < |ValuesOf(f)| :: ThrowsAt(doc, ValuesOf(f), k))
                 || (AllMeant(doc, ValuesOf(f)) && WantsCall(f) && doc == Atom(Null))
  {
    CallVerdictMeaning(codec.decodeMsg(m.raw), f);
    match codec.decodeMsg(m.raw)
    case None =>
    case Some(doc) =>
      ValuesVerdictMeaning(doc, ValuesOf(f));
  }

  // ----- events

  predicate HasAttribute(e: Event, key: string, value: Leaf) {
    exists i | 0 <= i < |e.attributes| :: e.attributes[i].key == key && Str(e.attributes[i].value) == value
  }

  predicate AttributesMatch(e: Event, attributes: seq<(string, Leaf)>) {
    forall i | 0 <= i < |attributes| :: HasAttribute(e, attributes[i].0, attributes[i].1)
  }

  function EventVerdict(codec: Codec, e: CosmosEvent, filter: Option<Filter>): Verdict {
    match filter
    case None => Accept
    case Some(f) =>
      if f.ty != Some(e.event.ty) then Reject
      else match EventMessageVerdict(codec, e, f)
        case Accept => Decide(AttributesMatch(e.event, f.attributes))
        case v => v
  }

  function EventMessageVerdict(codec: Codec, e: CosmosEvent, f: Filter): Verdict {
    if f.messageFilter.None? then Accept
    else if e.msg.None? then Reject
    else MessageVerdict(codec, e.msg.value, f.messageFilter)
  }

  /**
   * What an event filter accepts: the exact type, a message its message filter accepts, and every
   * attribute with key and value.
   */
  lemma EventAcceptedIff(codec: Codec, e: CosmosEvent, f: Filter)
    ensures EventVerdict(codec, e, Some(f)) == Accept <==>
            && f.ty == Some(e.event.ty)
            && (f.messageFilter.Some? ==>
                  e.msg.Some? && MessageVerdict(codec, e.msg.value, f.messageFilter) == Accept)
            && forall a | a in f.attributes :: a.1.Str? && Attribute(a.0, a.1.s) in e.event.attributes
  {
    forall a | a in f.attributes
      ensures HasAttribute(e.event, a.0, a.1) <==> a.1.Str? && Attribute(a.0, a.1.s) in e.event.attributes
    {
      AttributeIsListed(e.event, a.0, a.1);
    }
    assert AttributesMatch(e.event, f.attributes) <==>
           forall a | a in f.attributes :: HasAttribute(e.event, a.0, a.1);
  }

  lemma AttributeIsListed(e: Event, key: string, value: Leaf)
    ensures HasAttribute(e, key, value) <==> value.Str? && Attribute(key, value.s) in e.attributes
  {
    if value.Str? && Attribute(key, value.s) in e.attributes {
      var i :| 0 <= i < |e.attributes| && e.attributes[i] == Attribute(key, value.s);
    }
    if HasAttribute(e, key, value) {
      var i :| 0 <= i < |e.attributes| && e.attributes[i].key == key && Str(e.attributes[i].value) == value;
      assert e.attributes[i] == Attribute(key, value.s);
    }
  }

  /** It throws exactly when the type is right and its message filter throws on the event's message. */
  lemma EventThrowsIff(codec: Codec, e: CosmosEvent, f: Filter)
    ensures EventVerdict(codec, e, Some(f)) == Throw <==>
            && f.ty == Some(e.event.ty)
            && f.messageFilter.Some? && e.msg.Some?
            && MessageVerdict(codec, e.msg.value, f.messageFilter) == Throw
  {
  }

  // ----- base filters of custom handlers

  /** `find` returns the first accepted element, and a hole in the list that accepts is falsy. */
  function FirstAccepting<T(!new)>(verdict: (T, Option<Filter>) -> Verdict, item: T,
                                   filters: seq<Option<Filter>>): Verdict
  {
    if filters == [] then Reject
    else match verdict(item, filters[0])
      case Throw => Throw
      case Accept => Decide(filters[0].Some?)
      case Reject => FirstAccepting(verdict, item, filters[1..])
  }

  function BaseVerdict<T(!new)>(verdict: (T, Option<Filter>) -> Verdict, item: T, base: BaseFilter): Verdict {
    match base
    case Absent => Accept
    case Single(f) => FirstAccepting(verdict, item, [Some(f)])
    case Many(fs) => if fs == [] then Accept else FirstAccepting(verdict, item, fs)
  }

  lemma OneFilter<T(!new)>(verdict: (T, Option<Filter>) -> Verdict, item: T, f: Filter)
    ensures BaseVerdict(verdict, item, Single(f)) == verdict(item, Some(f))
  {
    assert [Some(f)][1..] == [];
    assert FirstAccepting(verdict, item, []) == Reject;
  }

  /** The base filters that are actual filters, in order. */
  function Present(filters: seq<Option<Filter>>): seq<Filter> {
    if filters == [] then []
    else if filters[0].Some? then [filters[0].value] + Present(filters[1..])
    else Present(filters[1..])
  }

  function FilterAt(filters: seq<Option<Filter>>, i: nat): seq<Filter>
    requires i < |filters|
  {
    match filters[i] case None => [] case Some(f) => [f]
  }

  /** Holes are dropped and nothing else changes. */
  lemma {:induction false} PresentInOrder(filters: seq<Option<Filter>>)
    ensures Present(filters) ==
            Flatten(seq(|filters|, i requires 0 <= i < |filters| => FilterAt(filters, i)))
  {
    var parts := seq(|filters|, i requires 0 <= i < |filters| => FilterAt(filters, i));
    if filters == [] {
    } else {
      var rest := filters[1..];
      PresentInOrder(rest);
      assert parts[1..] == seq(|rest|, i requires 0 <= i < |rest| => FilterAt(rest, i));
    }
  }

  function FilterList(base: BaseFilter): seq<Filter> {
    match base
    case Absent => []
    case Single(f) => [f]
    case Many(fs) => Present(fs)
  }

  /** Number `k` is the first filter of the list that does not reject the item, and its verdict is `v`. */
  predicate DecidedAt<T(!new)>(verdict: (T, Option<Filter>) -> Verdict, item: T, filters: seq<Option<Filter>>, k: nat,
                               v: Verdict)
  {
    k < |filters| && verdict(item, filters[k]) == v && forall j | 0 <= j < k :: verdict(item, filters[j]) == Reject
  }

  lemma DecidedLater<T(!new)>(verdict: (T, Option<Filter>) -> Verdict, item: T, filters: seq<Option<Filter>>, k: nat,
                              v: Verdict)
    requires filters != [] && verdict(item, filters[0]) == Reject
    ensures DecidedAt(verdict, item, filters, k + 1, v) <==> DecidedAt(verdict, item, filters[1..], k, v)
  {
    var rest := filters[1..];
    assert forall j | 0 <= j < |rest| :: rest[j] == filters[j + 1];
    if DecidedAt(verdict, item, rest, k, v) {
      forall j | 0 <= j < k + 1 ensures verdict(item, filters[j]) == Reject {
        assert j > 0 ==> filters[j] == rest[j - 1];
      }
    }
  }

  /**
   * What a list of base filters does: it lets an item through exactly when the first element that
   * does not reject it is an actual filter that accepts it, and throws exactly when it throws.
   */
  lemma {:induction false} ListVerdictIff<T(!new)>(verdict: (T, Option<Filter>) -> Verdict, item: T,
                                                   filters: seq<Option<Filter>>)
    ensures FirstAccepting(verdict, item, filters) == Accept <==>
            exists k: nat :: DecidedAt(verdict, item, filters, k, Accept) && filters[k].Some?
    ensures FirstAccepting(verdict, item, filters) == Throw <==>
            exists k: nat :: DecidedAt(verdict, item, filters, k, Throw)
  {
    if filters == [] {
    } else if verdict(item, filters[0]) == Reject {
      var rest := filters[1..];
      ListVerdictIff(verdict, item, rest);
      forall k: nat, v ensures DecidedAt(verdict, item, filters, k + 1, v) <==> DecidedAt(verdict, item, rest, k, v) {
        DecidedLater(verdict, item, filters, k, v);
      }
      forall k: nat, v | DecidedAt(verdict, item, filters, k, v) && v != Reject
        ensures k > 0 && DecidedAt(verdict, item, rest, k - 1, v)
      {
        DecidedLater(verdict, item, filters, k - 1, v);
      }
    } else {
      assert DecidedAt(verdict, item, filters, 0, verdict(item, filters[0]));
    }
  }

  /** Whatever a non-empty base filter lets through, one of its filters accepted. */
  lemma {:induction false} AcceptedByOne<T(!new)>(verdict: (T, Option<Filter>) -> Verdict, item: T,
                                                  filters: seq<Option<Filter>>)
    requires FirstAccepting(verdict, item, filters) == Accept
    ensures exists f | f in Present(filters) :: verdict(item, Some(f)) == Accept
  {
    if verdict(item, filters[0]) == Accept {
      assert filters[0].value in Present(filters);
    } else {
      AcceptedByOne(verdict, item, filters[1..]);
    }
  }

  /** Holes in a list let nothing through that its filters reject. */
  lemma {:induction false} NoneAccepts<T(!new)>(verdict: (T, Option<Filter>) -> Verdict, item: T,
                                                filters: seq<Option<Filter>>)
    requires verdict(item, None) == Accept
    requires forall f | f in Present(filters) :: verdict(item, Some(f)) == Reject
    ensures FirstAccepting(verdict, item, filters) == Reject
  {
    if filters == [] {
    } else if filters[0].Some? {
      assert filters[0].value in Present(filters);
      NoneAccepts(verdict, item, filters[1..]);
    }
  }
}
