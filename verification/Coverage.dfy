/**
 * What the dictionary may be trusted with: no message or event a handler accepts is missed by
 * the query entries built for the project.
 */
module Coverage {
  import opened Wrappers
  import opened JsonValues
  import opened QueryCompilation
  import opened CosmosTypes
  import opened Filters
  import opened Dictionary
  import opened FetchService

  // ----- the records a dictionary keeps

  function DataColumn(codec: Codec, m: CosmosMessage): map<string, Json> {
    match codec.decodeMsg(m.raw)
    case None => map[]
    case Some(doc) => map["data" := doc]
  }

  function MessageRecord(codec: Codec, m: CosmosMessage): Record {
    Record("messages", DataColumn(codec, m)["type" := Atom(Str(m.raw.typeUrl))])
  }

  function EventRecord(codec: Codec, e: CosmosEvent): Record {
    var ofMessage := match e.msg
                     case None => map[]
                     case Some(m) => DataColumn(codec, m)["msgType" := Atom(Str(m.raw.typeUrl))];
    Record("events", ofMessage["type" := Atom(Str(e.event.ty))])
  }

  /**
   * The dictionary stores what a filter's `values` look at the way the filter reads it: the
   * message as an object, and each `Long` at a filtered path as the leaf the filter names.
   */
  predicate StoredAsFiltered(db: Database, codec: Codec, m: CosmosMessage, f: Filter) {
    f.values.Some? ==>
      match codec.decodeMsg(m.raw)
      case None => false
      case Some(doc) => doc.Obj? && LongsStored(db, doc, f.values.value)
  }

  predicate LongsStored(db: Database, doc: Json, values: Values) {
    forall i | 0 <= i < |values| ::
      match Lookup(doc, PathOf(values[i]))
      case Some(Long(n)) => db.longAs(n) == Some(values[i].1)
      case _ => true
  }

  // ----- single filters

  /** A filter that matches a document selects it through the nested object, `Long` values aside. */
  lemma {:induction false} MatchedValuesAreContained(db: Database, doc: Json, values: Values)
    requires DistinctKeys(values) && ValuesMatch(doc, values)
    ensures Contains(db.longAs, doc, Obj(Compile(values))) <==> doc.Obj? && LongsStored(db, doc, values)
  {
    MatchableIsPrefixFree(doc, values);
    CompilePreservesMeaning(db.longAs, doc, values);
    forall i | 0 <= i < |values|
      ensures PathHolds(db.longAs, doc, PathOf(values[i]), values[i].1) <==>
              match Lookup(doc, PathOf(values[i]))
              case Some(Long(n)) => db.longAs(n) == Some(values[i].1)
              case _ => true
    {
      assert LeafEquals(Lookup(doc, PathOf(values[i])), values[i].1);
    }
  }

  /** The message's data column contains what the filter's `values` were compiled to. */
  predicate DataContains(db: Database, codec: Codec, m: CosmosMessage, f: Filter) {
    f.values.Some? ==>
      match codec.decodeMsg(m.raw)
      case None => false
      case Some(doc) => Contains(db.longAs, doc, NestedObject(f.values.value))
  }

  /** What a message entry selects: the records of messages of its type whose data contains its object. */
  lemma MessageEntryMeaning(db: Database, codec: Codec, m: CosmosMessage, f: Filter)
    ensures EntryMatches(db, MessageEntry(f), MessageRecord(codec, m)) <==>
            f.ty == Some(m.raw.typeUrl) && DataContains(db, codec, m, f)
  {
    var r, cs := MessageRecord(codec, m), MessageEntry(f).conditions;
    assert cs[0] == TypeCondition(f) && cs[0] in cs;
    assert ConditionHolds(db, cs[0], r) <==> f.ty == Some(m.raw.typeUrl);
    match f.values
    case None =>
      assert forall c | c in cs :: c == cs[0];
    case Some(values) =>
      assert cs[1] == Condition("data", Some(NestedObject(values)), "contains");
      assert cs[1] in cs && forall c | c in cs :: c == cs[0] || c == cs[1];
  }

  /**
   * An accepted message is matched by its filter's entry exactly when the dictionary stores the
   * filtered parts of the message as the filter reads them.
   */
  lemma AcceptedMessageIsMatched(db: Database, codec: Codec, m: CosmosMessage, f: Filter)
    requires MessageVerdict(codec, m, Some(f)) == Accept
    ensures EntryMatches(db, MessageEntry(f), MessageRecord(codec, m)) <==> StoredAsFiltered(db, codec, m, f)
  {
    MessageAcceptedIff(codec, m, f);
    MessageEntryMeaning(db, codec, m, f);
    if f.values.Some? && codec.decodeMsg(m.raw).Some? {
      var doc, values := codec.decodeMsg(m.raw).value, f.values.value;
      MatchIsMeant(doc, values);
      MatchedValuesAreContained(db, doc, values);
    }
  }

  /** Renaming `type` to `msgType` moves a message's conditions onto its events. */
  lemma EventConditionsHold(db: Database, codec: Codec, e: CosmosEvent, mf: Filter)
    requires e.msg.Some?
    ensures (forall c | c in AsEventConditions(MessageEntry(mf).conditions) ::
               ConditionHolds(db, c, EventRecord(codec, e)))
            <==> EntryMatches(db, MessageEntry(mf), MessageRecord(codec, e.msg.value))
  {
    var cs := MessageEntry(mf).conditions;
    var es := AsEventConditions(cs);
    var r, s := MessageRecord(codec, e.msg.value), EventRecord(codec, e);
    forall i | 0 <= i < |cs| ensures ConditionHolds(db, es[i], s) <==> ConditionHolds(db, cs[i], r) {
      assert cs[i].field == "type" || cs[i].field == "data";
    }
    assert forall i | 0 <= i < |cs| :: cs[i] in cs && es[i] in es;
  }

  /** What an event entry selects: events of its type whose message its message filter's entry selects. */
  lemma EventEntryMeaning(db: Database, codec: Codec, e: CosmosEvent, f: Filter)
    ensures EntryMatches(db, EventEntry(f), EventRecord(codec, e)) <==>
            && f.ty == Some(e.event.ty)
            && (f.messageFilter.Some? ==>
                  && e.msg.Some?
                  && EntryMatches(db, MessageEntry(f.messageFilter.value), MessageRecord(codec, e.msg.value)))
  {
    var cs := EventEntry(f).conditions;
    var r := EventRecord(codec, e);
    assert cs[0] == TypeCondition(f) && cs[0] in cs;
    assert ConditionHolds(db, cs[0], r) <==> f.ty == Some(e.event.ty);
    match f.messageFilter
    case None =>
      assert forall c | c in cs :: c == cs[0];
    case Some(mf) =>
      var es := AsEventConditions(MessageEntry(mf).conditions);
      assert cs == [cs[0]] + es;
      assert forall c :: c in cs <==> c == cs[0] || c in es;
      if e.msg.Some? {
        EventConditionsHold(db, codec, e, mf);
      } else {
        assert es[0].field == "msgType" && es[0] in es && !ConditionHolds(db, es[0], r);
      }
  }

  /** The same for events; attribute filters are not part of the query. */
  lemma AcceptedEventIsMatched(db: Database, codec: Codec, e: CosmosEvent, f: Filter)
    requires EventVerdict(codec, e, Some(f)) == Accept
    ensures EntryMatches(db, EventEntry(f), EventRecord(codec, e)) <==>
            (f.messageFilter.Some? ==> StoredAsFiltered(db, codec, e.msg.value, f.messageFilter.value))
  {
    EventEntryMeaning(db, codec, e, f);
    if f.messageFilter.Some? {
      AcceptedMessageIsMatched(db, codec, e.msg.value, f.messageFilter.value);
    }
  }

  // ----- handlers

  function KindOfItem(item: Item): Kind {
    match item
    case BlockItem(_) => BlockKind
    case TxItem(_) => TransactionKind
    case MessageItem(_) => MessageKind
    case EventItem(_) => EventKind
  }

  /** The filter of a runtime handler, applied to an item of its kind. */
  function FilterVerdict(codec: Codec, item: Item, filter: Option<Filter>): Verdict {
    match item
    case BlockItem(b) => Decide(FilterBlock(b.height, filter))
    case TxItem(tx) => Decide(FilterTx(tx, filter))
    case MessageItem(m) => MessageVerdict(codec, m, filter)
    case EventItem(e) => EventVerdict(codec, e, filter)
  }

  function Verdicts(codec: Codec): (Item, Option<Filter>) -> Verdict {
    (item, filter) => FilterVerdict(codec, item, filter)
  }

  const NO_PROPERTIES := Filter(None, false, None, None, None, None, [])

  /** A list passed where one filter is expected: an object without any of a filter's properties. */
  function AsOneFilter(base: BaseFilter): Option<Filter> {
    match base
    case Absent => None
    case Single(f) => Some(f)
    case Many(_) => Some(NO_PROPERTIES)
  }

  function BaseCustomHandlerFilter(codec: Codec, item: Item, base: BaseFilter): Verdict {
    match item
    case BlockItem(_) => FilterVerdict(codec, item, AsOneFilter(base))
    case TxItem(_) => FilterVerdict(codec, item, AsOneFilter(base))
    case MessageItem(m) => BaseVerdict(Verdicts(codec), item, base)
    case EventItem(e) => BaseVerdict(Verdicts(codec), item, base)
  }

  /**
   * Whether the node's own filters let an item through to a handler.  A plugin may reject more
   * on top of this, never less.
   */
  function HandlerVerdict(codec: Codec, source: Source, h: Handler, item: Item): Verdict {
    match source
    case Runtime =>
      if KindOf(h.kind) == Some(KindOfItem(item)) then FilterVerdict(codec, item, h.filter) else Reject
    case Custom(processors) =>
      if h.kind in processors && processors[h.kind].baseKind == Some(KindOfItem(item))
      then BaseCustomHandlerFilter(codec, item, processors[h.kind].baseFilter)
      else Reject
    case Unknown => Reject
  }

  function RecordOf(codec: Codec, item: Item): Record
    requires item.MessageItem? || item.EventItem?
  {
    match item
    case MessageItem(m) => MessageRecord(codec, m)
    case EventItem(e) => EventRecord(codec, e)
  }

  /** The filter's entry matches the item's record, by the two lemmas above. */
  predicate Faithful(db: Database, codec: Codec, item: Item, f: Filter)
    requires item.MessageItem? || item.EventItem?
  {
    match item
    case MessageItem(m) => StoredAsFiltered(db, codec, m, f)
    case EventItem(e) =>
      f.messageFilter.Some? && e.msg.Some? ==> StoredAsFiltered(db, codec, e.msg.value, f.messageFilter.value)
  }

  /** A custom handler named like a runtime one: its base kind is never looked up. */
  predicate ReusesRuntimeName(source: Source, h: Handler) {
    source.Custom? && KindOf(h.kind).Some?
  }

  /** Some filter of the handler accepts every item the handler is given. */
  lemma AcceptedByAFilter(codec: Codec, source: Source, h: Handler, item: Item)
    requires item.MessageItem? || item.EventItem?
    requires HandlerVerdict(codec, source, h, item) == Accept
    requires HandlerFilters(source, h) != []
    ensures exists f | f in HandlerFilters(source, h) :: FilterVerdict(codec, item, Some(f)) == Accept
  {
    match source
    case Runtime =>
      assert h.filter.value in HandlerFilters(source, h);
    case Custom(processors) =>
      var verdict := Verdicts(codec);
      match processors[h.kind].baseFilter {
        case Single(f) =>
          AcceptedByOne(verdict, item, [Some(f)]);
          assert Present([Some(f)]) == [f];
        case Many(fs) =>
          AcceptedByOne(verdict, item, fs);
      }
  }

  /**
   * A handler with filters that contributes nothing and does not disable the dictionary either:
   * a transaction handler, or a custom one that reuses a runtime name, without an own query.
   */
  predicate Invisible(source: Source, h: Handler) {
    && HandlerFilters(source, h) != []
    && OwnQuery(source, h).None?
    && (GetBaseHandlerKind(source, h) == Found(Some(TransactionKind)) || ReusesRuntimeName(source, h))
  }

  /** What coverage asks of the database and of plugins, for one handler and item. */
  predicate Trusted(db: Database, codec: Codec, source: Source, h: Handler, item: Item)
    requires item.MessageItem? || item.EventItem?
  {
    && (OwnQuery(source, h).Some? ==> EntryMatches(db, OwnQuery(source, h).value, RecordOf(codec, item)))
    && forall f | f in HandlerFilters(source, h) && FilterVerdict(codec, item, Some(f)) == Accept ::
         Faithful(db, codec, item, f)
  }

  /** The filters of a handler select every item the handler is given. */
  lemma FiltersSelect(db: Database, codec: Codec, source: Source, h: Handler, item: Item)
    requires item.MessageItem? || item.EventItem?
    requires HandlerVerdict(codec, source, h, item) == Accept && HandlerFilters(source, h) != []
    requires Trusted(db, codec, source, h, item)
    ensures Selects(db, FilterEntries(item, HandlerFilters(source, h)), RecordOf(codec, item))
  {
    var fs := HandlerFilters(source, h);
    var entries := FilterEntries(item, fs);
    AcceptedByAFilter(codec, source, h, item);
    var f :| f in fs && FilterVerdict(codec, item, Some(f)) == Accept;
    var i :| 0 <= i < |fs| && fs[i] == f;
    assert entries[i] in entries;
    match item
    case MessageItem(m) => AcceptedMessageIsMatched(db, codec, m, f);
    case EventItem(e) => AcceptedEventIsMatched(db, codec, e, f);
  }

  function FilterEntries(item: Item, fs: seq<Filter>): seq<QueryEntry>
    requires item.MessageItem? || item.EventItem?
  {
    match item
    case MessageItem(_) => MessageEntries(fs)
    case EventItem(_) => EventEntries(fs)
  }

  /** A visible handler without own query that is given messages or events is translated by its filters. */
  lemma VisibleTranslation(codec: Codec, source: Source, h: Handler, item: Item)
    requires item.MessageItem? || item.EventItem?
    requires HandlerVerdict(codec, source, h, item) == Accept && Translate(source, h).Emits?
    requires OwnQuery(source, h).None? && !Invisible(source, h)
    ensures HandlerFilters(source, h) != []
    ensures Translate(source, h) == Emits(FilterEntries(item, HandlerFilters(source, h)))
  {
  }

  /**
   * The entries a handler contributes select an item that the handler is given if and only if
   * the handler is visible.
   */
  lemma HandlerIsCovered(db: Database, codec: Codec, source: Source, h: Handler, item: Item)
    requires item.MessageItem? || item.EventItem?
    requires Translate(source, h).Emits?
    requires HandlerVerdict(codec, source, h, item) == Accept && Trusted(db, codec, source, h, item)
    ensures Selects(db, Translate(source, h).entries, RecordOf(codec, item)) <==> !Invisible(source, h)
  {
    if OwnQuery(source, h).Some? {
      assert OwnQuery(source, h).value in Translate(source, h).entries;
    } else if !Invisible(source, h) {
      VisibleTranslation(codec, source, h, item);
      FiltersSelect(db, codec, source, h, item);
    }
  }

  lemma SingleFilter(codec: Codec, item: Item, f: Filter)
    ensures BaseCustomHandlerFilter(codec, item, Single(f)) == FilterVerdict(codec, item, Some(f))
  {
    OneFilter(Verdicts(codec), item, f);
  }

  /**
   * What an invisible handler is given all the same: every admitted transaction for a runtime
   * handler, and everything its base filter accepts for a custom one.
   */
  lemma InvisibleHandlersAreCalled(codec: Codec, source: Source, h: Handler, item: Item)
    requires Invisible(source, h)
    ensures source.Runtime? && item.TxItem? ==>
              (HandlerVerdict(codec, source, h, item) == Accept <==>
               h.filter.value.includeFailedTx || item.tx.tx.code == 0)
    ensures source.Custom? && source.processors[h.kind].baseKind == Some(KindOfItem(item)) ==>
              match source.processors[h.kind].baseFilter
              case Single(f) => HandlerVerdict(codec, source, h, item) == FilterVerdict(codec, item, Some(f))
              case Many(_) => (item.MessageItem? || item.EventItem?) &&
                              HandlerVerdict(codec, source, h, item) == Accept ==>
                                exists f | f in HandlerFilters(source, h) ::
                                  FilterVerdict(codec, item, Some(f)) == Accept
              case Absent => false
  {
    match source
    case Runtime =>
    case Unknown =>
    case Custom(processors) =>
      if processors[h.kind].baseKind == Some(KindOfItem(item)) {
        match processors[h.kind].baseFilter {
          case Single(f) => SingleFilter(codec, item, f);
          case Absent =>
          case Many(_) =>
            if (item.MessageItem? || item.EventItem?) && HandlerVerdict(codec, source, h, item) == Accept {
              AcceptedByAFilter(codec, source, h, item);
            }
        }
      }
  }

  // ----- what a handler is given

  /** The one filter that applies to blocks and transactions; a list has none of a filter's properties. */
  function OneFilterOf(source: Source, h: Handler): Option<Filter> {
    match source
    case Runtime => h.filter
    case Custom(processors) =>
      if h.kind in processors && processors[h.kind].baseFilter.Single? then Some(processors[h.kind].baseFilter.filter)
      else None
    case Unknown => None
  }

  /** The handler is for items of this kind. */
  predicate IsFor(source: Source, h: Handler, kind: Kind) {
    match source
    case Runtime => KindOf(h.kind) == Some(kind)
    case Custom(processors) => h.kind in processors && processors[h.kind].baseKind == Some(kind)
    case Unknown => false
  }

  /**
   * Exactly the blocks and transactions a handler is given: blocks unless its one filter has a
   * non-zero modulo that does not divide the height, and successful transactions unless its one
   * filter wants failed ones too.
   */
  lemma BlocksAndTransactionsGiven(codec: Codec, source: Source, h: Handler, item: Item)
    requires item.BlockItem? || item.TxItem?
    ensures HandlerVerdict(codec, source, h, item) == Accept <==>
            && IsFor(source, h, KindOfItem(item))
            && match item
               case BlockItem(b) =>
                 !exists f, m :: OneFilterOf(source, h) == Some(f) && f.modulo == Some(m) && m != 0 && b.height % m != 0
               case TxItem(tx) =>
                 tx.tx.code == 0 || exists f :: OneFilterOf(source, h) == Some(f) && f.includeFailedTx
               case _ => false
    ensures HandlerVerdict(codec, source, h, item) != Throw
  {
  }

  /** The filters consulted for messages and events, in order, with holes. */
  function ConsultedFilters(source: Source, h: Handler): seq<Option<Filter>> {
    match source
    case Runtime => [h.filter]
    case Custom(processors) =>
      if h.kind !in processors then []
      else (match processors[h.kind].baseFilter
            case Absent => []
            case Single(f) => [Some(f)]
            case Many(fs) => fs)
    case Unknown => []
  }

  /**
   * Exactly the messages and events a handler is given: those of its kind, when no filter applies
   * or the first filter that does not reject the item accepts it.
   */
  lemma MessagesAndEventsGiven(codec: Codec, source: Source, h: Handler, item: Item)
    requires item.MessageItem? || item.EventItem?
    ensures HandlerVerdict(codec, source, h, item) == Accept <==>
            && IsFor(source, h, KindOfItem(item))
            && (|| Unfiltered(source, h)
                || exists k: nat :: DecidedAt(Verdicts(codec), item, ConsultedFilters(source, h), k, Accept)
                                    && ConsultedFilters(source, h)[k].Some?)
    ensures HandlerVerdict(codec, source, h, item) == Throw <==>
            && IsFor(source, h, KindOfItem(item))
            && exists k: nat :: DecidedAt(Verdicts(codec), item, ConsultedFilters(source, h), k, Throw)
  {
    var filters := ConsultedFilters(source, h);
    ListVerdictIff(Verdicts(codec), item, filters);
    match source
    case Runtime =>
      assert filters[1..] == [] && FirstAccepting(Verdicts(codec), item, []) == Reject;
    case Custom(processors) =>
      if h.kind in processors && processors[h.kind].baseFilter.Absent? {
        assert FirstAccepting(Verdicts(codec), item, filters) == Reject;
      }
    case Unknown =>
  }

  // ----- handlers without filters

  /** A custom handler whose base filter is a list. */
  predicate ListsBaseFilters(source: Source, h: Handler) {
    source.Custom? && h.kind in source.processors && source.processors[h.kind].baseFilter.Many?
  }

  /** No filter applies to what the handler is given. */
  predicate Unfiltered(source: Source, h: Handler) {
    match source
    case Runtime => h.filter.None?
    case Custom(processors) =>
      && h.kind in processors
      && (processors[h.kind].baseFilter.Absent? || processors[h.kind].baseFilter == Many([]))
    case Unknown => false
  }

  /** A list of base filters without any filter in it. */
  predicate OnlyHoles(source: Source, h: Handler) {
    && ListsBaseFilters(source, h)
    && source.processors[h.kind].baseFilter.filters != []
    && Present(source.processors[h.kind].baseFilter.filters) == []
  }

  /** A handler for messages or events by its own declaration. */
  predicate Handles(source: Source, h: Handler, kind: Kind) {
    GetBaseHandlerKind(source, h) == Found(Some(kind)) && (kind == MessageKind || kind == EventKind)
  }

  /** Exactly when a message or event handler disables the dictionary. */
  lemma DisablesIff(source: Source, h: Handler, kind: Kind)
    requires Handles(source, h, kind)
    ensures Translate(source, h).Disables? <==>
            && OwnQuery(source, h).None?
            && (|| Unfiltered(source, h)
                || OnlyHoles(source, h)
                || exists f | f in HandlerFilters(source, h) :: f.ty.None?)
  {
    assert HandlerFilters(source, h) == [] <==> Unfiltered(source, h) || OnlyHoles(source, h);
  }

  /** A string that is not among the given ones. */
  function Longer(names: seq<string>): (name: string)
    ensures forall n | n in names :: |n| < |name|
  {
    if names == [] then "x"
    else
      var rest := Longer(names[1..]);
      if |names[0]| < |rest| then rest else names[0] + "x"
  }

  function AskedTypes(fs: seq<Filter>): seq<string> {
    seq(|fs|, i requires 0 <= i < |fs| => match fs[i].ty case None => "" case Some(t) => t)
  }

  lemma UnaskedType(fs: seq<Filter>, f: Filter)
    requires f in fs
    ensures f.ty != Some(Longer(AskedTypes(fs)))
  {
    var i :| 0 <= i < |fs| && fs[i] == f;
    assert AskedTypes(fs)[i] in AskedTypes(fs);
  }

  /** A message or event of the given type. */
  function ItemOf(kind: Kind, ty: string): Item {
    var block := CosmosBlock(0, [], []);
    var tx := CosmosTransaction(0, block, TxData(0, ""), "", []);
    if kind == MessageKind then MessageItem(CosmosMessage(0, tx, block, RawMessage(ty, [])))
    else EventItem(CosmosEvent(0, None, None, block, None, Event(ty, [])))
  }

  lemma OtherTypeIsRejected(codec: Codec, kind: Kind, ty: string, f: Filter)
    requires f.ty != Some(ty)
    ensures FilterVerdict(codec, ItemOf(kind, ty), Some(f)) == Reject
  {
  }

  /** An item of the kind whose type none of the filters asks for. */
  lemma UnaskedItem(codec: Codec, kind: Kind, fs: seq<Filter>) returns (item: Item)
    requires kind == MessageKind || kind == EventKind
    ensures KindOfItem(item) == kind
    ensures forall f | f in fs :: FilterVerdict(codec, item, Some(f)) == Reject
  {
    var ty := Longer(AskedTypes(fs));
    item := ItemOf(kind, ty);
    forall f | f in fs ensures FilterVerdict(codec, item, Some(f)) == Reject {
      UnaskedType(fs, f);
      OtherTypeIsRejected(codec, kind, ty, f);
    }
  }

  /** A handler is given everything of its kind exactly when it is unfiltered, and nothing when it has only holes. */
  lemma UnfilteredIffGivenAll(codec: Codec, source: Source, h: Handler, kind: Kind)
    requires Handles(source, h, kind)
    ensures Unfiltered(source, h) <==>
            forall item :: KindOfItem(item) == kind ==> HandlerVerdict(codec, source, h, item) == Accept
    ensures OnlyHoles(source, h) ==>
              forall item :: KindOfItem(item) == kind ==> HandlerVerdict(codec, source, h, item) == Reject
  {
    if OnlyHoles(source, h) {
      forall item | KindOfItem(item) == kind ensures HandlerVerdict(codec, source, h, item) == Reject {
        NoneAccepts(Verdicts(codec), item, source.processors[h.kind].baseFilter.filters);
      }
    }
    if !Unfiltered(source, h) {
      var item := UnaskedItem(codec, kind, HandlerFilters(source, h));
      RejectedByAll(codec, source, h, item);
    }
  }

  lemma RejectedByAll(codec: Codec, source: Source, h: Handler, item: Item)
    requires Handles(source, h, KindOfItem(item)) && !Unfiltered(source, h)
    requires forall f | f in HandlerFilters(source, h) :: FilterVerdict(codec, item, Some(f)) == Reject
    ensures HandlerVerdict(codec, source, h, item) == Reject
  {
    match source
    case Runtime => assert h.filter.value in HandlerFilters(source, h);
    case Custom(processors) =>
      match processors[h.kind].baseFilter {
        case Absent =>
        case Single(f) =>
          SingleFilter(codec, item, f);
          assert f in HandlerFilters(source, h);
        case Many(fs) => NoneAccepts(Verdicts(codec), item, fs);
      }
  }

  // ----- whole projects

  /** The project declares handler `h` in a datasource interpreted by `source`. */
  ghost predicate Declares(dataSources: seq<DataSource>, source: Source, h: Handler) {
    exists i | 0 <= i < |dataSources| :: dataSources[i].source == source && h in dataSources[i].handlers
  }

  lemma {:induction false} TasksOfAreHandlers(source: Source, handlers: seq<Handler>, task: Task)
    ensures task in TasksOf(source, handlers) <==> task.0 == source && task.1 in handlers
  {
    if handlers == [] {
    } else {
      TasksOfAreHandlers(source, handlers[1..], task);
    }
  }

  lemma {:induction false} TasksAreDeclared(dataSources: seq<DataSource>, task: Task)
    ensures task in Tasks(dataSources) <==> Declares(dataSources, task.0, task.1)
  {
    if dataSources == [] {
    } else {
      var first, rest := dataSources[0], dataSources[1..];
      TasksOfAreHandlers(first.source, first.handlers, task);
      TasksAreDeclared(rest, task);
      if Declares(rest, task.0, task.1) {
        var i :| 0 <= i < |rest| && rest[i].source == task.0 && task.1 in rest[i].handlers;
        assert dataSources[i + 1] == rest[i];
      }
      if Declares(dataSources, task.0, task.1) {
        var i :| 0 <= i < |dataSources| && dataSources[i].source == task.0 && task.1 in dataSources[i].handlers;
        assert i > 0 ==> rest[i - 1] == dataSources[i];
      }
    }
  }

  function Contribution(task: Task): seq<QueryEntry> {
    match Translate(task.0, task.1)
    case Emits(entries) => entries
    case _ => []
  }

  /** Without failing handlers: one disabling handler disables, else the entries are those of all handlers. */
  lemma {:induction false} CollectMeaning(tasks: seq<Task>)
    requires forall t | t in tasks :: !Translate(t.0, t.1).Fails?
    ensures !Collect(tasks).Fails?
    ensures Collect(tasks).Disables? <==> exists t | t in tasks :: Translate(t.0, t.1).Disables?
    ensures Collect(tasks).Emits? ==>
              forall e :: e in Collect(tasks).entries <==> exists t | t in tasks :: e in Contribution(t)
  {
    if tasks == [] {
    } else {
      var rest := tasks[1..];
      CollectMeaning(rest);
      assert forall t :: t in tasks <==> t == tasks[0] || t in rest;
      if Collect(tasks).Emits? {
        var own := Contribution(tasks[0]);
        assert Collect(tasks).entries == own + Collect(rest).entries;
        forall e ensures e in Collect(tasks).entries <==> exists t | t in tasks :: e in Contribution(t) {
          if e in own {
            assert tasks[0] in tasks && e in Contribution(tasks[0]);
          }
        }
      }
    }
  }

  /** When the run emits, every handler in it emitted, and its entries are in the result. */
  lemma {:induction false} EmittedPart(tasks: seq<Task>, task: Task) returns (emitted: seq<QueryEntry>)
    requires Collect(tasks).Emits? && task in tasks
    ensures Translate(task.0, task.1) == Emits(emitted)
    ensures forall e | e in emitted :: e in Collect(tasks).entries
  {
    if task == tasks[0] {
      emitted := Translate(task.0, task.1).entries;
    } else {
      emitted := EmittedPart(tasks[1..], task);
    }
  }

  /** The dictionary is in use for the project. */
  ghost predicate InUse(dataSources: seq<DataSource>) {
    Build(dataSources).Entries? && Build(dataSources).entries != []
  }

  /** While the dictionary is in use, every declared handler emits, and what it selects the project selects. */
  lemma ContributionIsSelected(db: Database, dataSources: seq<DataSource>, source: Source, h: Handler, r: Record)
    requires InUse(dataSources) && Declares(dataSources, source, h)
    ensures Translate(source, h).Emits?
    ensures Selects(db, Translate(source, h).entries, r) ==> Selects(db, Build(dataSources).entries, r)
  {
    var tasks := Tasks(dataSources);
    TasksAreDeclared(dataSources, (source, h));
    var emitted := EmittedPart(tasks, (source, h));
    DeduplicatePreservesSelection(db, Collect(tasks).entries);
    if Selects(db, emitted, r) {
      var e :| e in emitted && EntryMatches(db, e, r);
      assert e in Collect(tasks).entries;
    }
  }

  // ----- a project that looks for nothing but one message type

  function OfType(ty: string): Filter {
    Filter(None, false, Some(ty), None, None, None, [])
  }

  function ProjectWith(source: Source, h: Handler, ty: string): seq<DataSource> {
    [DataSource(source, [h]), DataSource(Runtime, [Handler("cosmos/MessageHandler", Some(OfType(ty)))])]
  }

  /** Next to a message handler, a handler that contributes nothing leaves a query for one type. */
  lemma ProjectWithEntries(source: Source, h: Handler, ty: string)
    requires Translate(source, h) == Emits([])
    ensures Declares(ProjectWith(source, h, ty), source, h)
    ensures Build(ProjectWith(source, h, ty)) == Entries([MessageEntry(OfType(ty))])
  {
    var project, g := ProjectWith(source, h, ty), Handler("cosmos/MessageHandler", Some(OfType(ty)));
    assert project[0].source == source && h in project[0].handlers;
    assert Translate(Runtime, g) == Emits([MessageEntry(OfType(ty))]) by {
      assert MessageEntries([OfType(ty)]) == [MessageEntry(OfType(ty))];
    }
    TwoTasks((source, h), (Runtime, g));
    assert Tasks(project) == [(source, h), (Runtime, g)] by {
      OneHandlerEach(source, h, Runtime, g);
    }
    UniqueSingleton(MessageEntry(OfType(ty)));
  }

  lemma OneHandlerEach(source: Source, h: Handler, other: Source, g: Handler)
    ensures Tasks([DataSource(source, [h]), DataSource(other, [g])]) == [(source, h), (other, g)]
  {
    var a, b := DataSource(source, [h]), DataSource(other, [g]);
    assert [a, b][1..] == [b] && [b][1..] == [];
    assert [h][1..] == [] && [g][1..] == [];
    assert TasksOf(source, [h]) == [(source, h)] && TasksOf(other, [g]) == [(other, g)];
    assert Tasks([b]) == [(other, g)];
  }

  lemma TwoTasks(a: Task, b: Task)
    requires Translate(a.0, a.1).Emits? && Translate(b.0, b.1).Emits?
    ensures Collect([a, b]) == Emits(Translate(a.0, a.1).entries + Translate(b.0, b.1).entries)
  {
    assert [a, b][1..] == [b] && [b][1..] == [];
    var own := Translate(b.0, b.1).entries;
    assert own + [] == own;
    assert Collect([b]) == Emits(own);
  }

  lemma UniqueSingleton(e: QueryEntry)
    ensures Deduplicate([e]) == [e]
  {
    var none := UniqBy([e][..0], KeyText);
    assert none == [] && !HasKey(KeyText, none, KeyText(e));
    assert none + [e] == [e];
  }

  /** The query for one type selects no record of a message of another type, and no event. */
  lemma OtherRecordsAreMissed(db: Database, ty: string, r: Record)
    requires r.entity != "messages" || ("type" in r.columns && r.columns["type"] != Atom(Str(ty)))
    ensures !Selects(db, [MessageEntry(OfType(ty))], r)
  {
    var c := TypeCondition(OfType(ty));
    assert c in MessageEntry(OfType(ty)).conditions;
    assert !EntryMatches(db, MessageEntry(OfType(ty)), r) by {
      assert r.entity == "messages" ==> !ConditionHolds(db, c, r);
    }
  }

  // ----- coverage

  lemma InvisibleIsMissed(db: Database, codec: Codec, source: Source, h: Handler, item: Item)
    returns (project: seq<DataSource>)
    requires Invisible(source, h) && (item.MessageItem? || item.EventItem?)
    ensures InUse(project) && Declares(project, source, h)
    ensures !Selects(db, Build(project).entries, RecordOf(codec, item))
  {
    var types := if item.MessageItem? then [item.message.raw.typeUrl] else [];
    var ty := Longer(types);
    assert item.MessageItem? ==> types[0] in types;
    InvisibleTranslation(source, h);
    project := ProjectWith(source, h, ty);
    ProjectWithEntries(source, h, ty);
    OtherRecordsAreMissed(db, ty, RecordOf(codec, item));
  }

  lemma InvisibleTranslation(source: Source, h: Handler)
    requires Invisible(source, h)
    ensures Translate(source, h) == Emits([])
  {
  }

  /**
   * Dictionary coverage.  In every project that declares a handler and has the dictionary in use,
   * a message or event that the handler is given has a record that an entry selects, if and only
   * if the handler is visible.
   */
  lemma DictionaryCovers(db: Database, codec: Codec, source: Source, h: Handler, item: Item)
    requires item.MessageItem? || item.EventItem?
    requires HandlerVerdict(codec, source, h, item) == Accept && Trusted(db, codec, source, h, item)
    ensures (forall dataSources | InUse(dataSources) && Declares(dataSources, source, h) ::
               Selects(db, Build(dataSources).entries, RecordOf(codec, item)))
            <==> !Invisible(source, h)
  {
    var r := RecordOf(codec, item);
    if Invisible(source, h) {
      var _ := InvisibleIsMissed(db, codec, source, h, item);
    } else {
      forall dataSources | InUse(dataSources) && Declares(dataSources, source, h)
        ensures Selects(db, Build(dataSources).entries, r)
      {
        ContributionIsSelected(db, dataSources, source, h, r);
        HandlerIsCovered(db, codec, source, h, item);
      }
    }
  }

  /** While the dictionary is in use, transactions go to invisible handlers or ones with an own query only. */
  lemma TransactionsAreNotQueried(codec: Codec, dataSources: seq<DataSource>, source: Source, h: Handler,
                                  tx: CosmosTransaction)
    requires InUse(dataSources) && Declares(dataSources, source, h)
    requires HandlerVerdict(codec, source, h, TxItem(tx)) == Accept
    ensures OwnQuery(source, h).Some? || Invisible(source, h)
  {
    TasksAreDeclared(dataSources, (source, h));
    var _ := EmittedPart(Tasks(dataSources), (source, h));
  }

  lemma BlockVerdict(codec: Codec, source: Source, h: Handler, b: CosmosBlock, modulo: int)
    requires GetBaseHandlerKind(source, h) == Found(Some(BlockKind))
    requires HandlerFilters(source, h) != [] && HandlerFilters(source, h)[0].modulo == Some(modulo)
    ensures HandlerVerdict(codec, source, h, BlockItem(b)) == Accept <==>
            ListsBaseFilters(source, h) || modulo == 0 || b.height % modulo == 0
  {
    match source
    case Runtime => assert HandlerFilters(source, h)[0] == h.filter.value;
    case Custom(processors) =>
      match processors[h.kind].baseFilter {
        case Single(f) => assert HandlerFilters(source, h)[0] == f;
        case Many(_) =>
      }
  }

  /**
   * While the dictionary is in use, a block handler has a modulo and is given exactly the blocks
   * whose height it divides; all blocks when the modulo is zero or base filters are listed.
   */
  lemma BlockHandlersHaveModulos(codec: Codec, dataSources: seq<DataSource>, source: Source, h: Handler)
    returns (modulo: int)
    requires InUse(dataSources) && Declares(dataSources, source, h)
    requires GetBaseHandlerKind(source, h) == Found(Some(BlockKind)) && OwnQuery(source, h).None?
    ensures HandlerFilters(source, h) != [] && HandlerFilters(source, h)[0].modulo == Some(modulo)
    ensures forall b :: HandlerVerdict(codec, source, h, BlockItem(b)) == Accept <==>
                        ListsBaseFilters(source, h) || modulo == 0 || b.height % modulo == 0
  {
    TasksAreDeclared(dataSources, (source, h));
    var _ := EmittedPart(Tasks(dataSources), (source, h));
    modulo := ModuloOf(source, h);
    forall b: CosmosBlock
      ensures HandlerVerdict(codec, source, h, BlockItem(b)) == Accept <==>
              ListsBaseFilters(source, h) || modulo == 0 || b.height % modulo == 0
    {
      BlockVerdict(codec, source, h, b, modulo);
    }
  }

  lemma ModuloOf(source: Source, h: Handler) returns (modulo: int)
    requires GetBaseHandlerKind(source, h) == Found(Some(BlockKind)) && OwnQuery(source, h).None?
    requires Translate(source, h).Emits?
    ensures HandlerFilters(source, h) != [] && HandlerFilters(source, h)[0].modulo == Some(modulo)
  {
    var f := HandlerFilters(source, h)[0];
    assert f in HandlerFilters(source, h);
    modulo := f.modulo.value;
  }

  /** The query is the same without an invisible handler, wherever it is declared. */
  lemma {:induction false} InvisibleHandlersLeaveNoTrace(before: seq<Task>, source: Source, h: Handler,
                                                         after: seq<Task>)
    requires Invisible(source, h)
    ensures Collect(before + ([(source, h)] + after)) == Collect(before + after)
  {
    var with := [(source, h)] + after;
    if before == [] {
      assert before + with == with && before + after == after;
      CollectCons((source, h), after);
      InvisibleTranslation(source, h);
      AfterNothing(Collect(after));
    } else {
      var first, rest := before[0], before[1..];
      assert before + with == [first] + (rest + with) && before + after == [first] + (rest + after);
      InvisibleHandlersLeaveNoTrace(rest, source, h, after);
      CollectCons(first, rest + with);
      CollectCons(first, rest + after);
    }
  }

  /** Some declared handler switches the dictionary off. */
  ghost predicate Disabled(dataSources: seq<DataSource>) {
    exists s, h :: Declares(dataSources, s, h) && Translate(s, h).Disables?
  }

  /** Some declared handler contributes this entry. */
  ghost predicate Contributed(dataSources: seq<DataSource>, e: QueryEntry) {
    exists s, h :: Declares(dataSources, s, h) && e in Contribution((s, h))
  }

  lemma {:induction false} CollectedFromDeclared(dataSources: seq<DataSource>)
    requires forall s, h :: Declares(dataSources, s, h) ==> !Translate(s, h).Fails?
    ensures var outcome := Collect(Tasks(dataSources));
            && !outcome.Fails?
            && (outcome.Disables? <==> Disabled(dataSources))
            && (outcome.Emits? ==> forall e :: e in outcome.entries <==> Contributed(dataSources, e))
  {
    var tasks := Tasks(dataSources);
    forall task: Task ensures task in tasks <==> Declares(dataSources, task.0, task.1) {
      TasksAreDeclared(dataSources, task);
    }
    CollectMeaning(tasks);
    if Disabled(dataSources) {
      var s, h :| Declares(dataSources, s, h) && Translate(s, h).Disables?;
      assert (s, h) in tasks;
    }
    if Collect(tasks).Emits? {
      forall e ensures e in Collect(tasks).entries <==> Contributed(dataSources, e) {
        if Contributed(dataSources, e) {
          var s, h :| Declares(dataSources, s, h) && e in Contribution((s, h));
          assert (s, h) in tasks;
        }
      }
    }
  }

  /**
   * What the built list means when no kind lookup fails: it is empty exactly when some handler
   * disables the dictionary or no handler contributes an entry, and otherwise it selects exactly
   * the records that an entry contributed by some declared handler matches.
   */
  lemma BuildMeaning(db: Database, dataSources: seq<DataSource>)
    requires forall s, h :: Declares(dataSources, s, h) ==> !Translate(s, h).Fails?
    ensures Build(dataSources).Entries?
    ensures Build(dataSources).entries == [] <==> Disabled(dataSources) || forall e :: !Contributed(dataSources, e)
    ensures forall r :: Selects(db, Build(dataSources).entries, r) <==>
              !Disabled(dataSources) && exists e :: Contributed(dataSources, e) && EntryMatches(db, e, r)
  {
    CollectedFromDeclared(dataSources);
    var outcome := Collect(Tasks(dataSources));
    if outcome.Emits? {
      DeduplicatePreservesSelection(db, outcome.entries);
      if outcome.entries != [] {
        assert Contributed(dataSources, outcome.entries[0]);
      }
    }
  }

  /**
   * Order independence: two projects that declare the same handlers, in whatever order and under
   * however many datasources, disable the dictionary together and otherwise select the same records.
   */
  lemma OrderDoesNotMatter(db: Database, a: seq<DataSource>, b: seq<DataSource>)
    requires forall s, h :: Declares(a, s, h) <==> Declares(b, s, h)
    requires forall s, h :: Declares(a, s, h) ==> !Translate(s, h).Fails?
    ensures Build(a).Entries? && Build(b).Entries?
    ensures Build(a).entries == [] <==> Build(b).entries == []
    ensures forall r :: Selects(db, Build(a).entries, r) <==> Selects(db, Build(b).entries, r)
  {
    BuildMeaning(db, a);
    BuildMeaning(db, b);
    assert Disabled(a) <==> Disabled(b);
    assert forall e :: Contributed(a, e) <==> Contributed(b, e);
  }
}
