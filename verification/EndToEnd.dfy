/** The dictionary and the traversal together: no block with something to handle is skipped. */
module EndToEnd {
  import opened Wrappers
  import opened CosmosTypes
  import opened Filters
  import opened Dictionary
  import opened FetchService
  import opened Coverage
  import opened BlockContent
  import opened Indexer
  import opened EventOrder

  /** The dictionary has a record for every message and every event of the block. */
  ghost predicate HasRecord(input: RawInput, r: Record)
    requires input.Matched() && input.AllMessages().Some?
  {
    || (exists m | m in input.AllMessages().value :: r == MessageRecord(input.codec, m))
    || (exists e | e in BlockEventList(input) :: r == EventRecord(input.codec, e))
  }

  /** All events of the block; their numbering plays no role for the records. */
  function BlockEventList(input: RawInput): seq<CosmosEvent>
    requires input.Matched()
  {
    BlockEvents(input.Block(), input.results.beginBlockEvents, 0)
    + Numbered(input.Block(), input.PendingEvents(), 0)
    + BlockEvents(input.Block(), input.results.endBlockEvents, 0)
  }

  // ----- what is delivered comes from the block

  lemma {:induction false} VisitsComeFrom(events: seq<CosmosEvent>, hash: string, msgs: seq<CosmosMessage>, item: Item)
    requires item in MessageVisits(events, hash, msgs)
    ensures match item
            case MessageItem(m) => m in msgs
            case EventItem(e) => e in events
            case _ => false
  {
    var n := |msgs| - 1;
    if item in MessageVisits(events, hash, msgs[..n]) {
      VisitsComeFrom(events, hash, msgs[..n], item);
    } else if item.EventItem? {
      EventsForHas(events, hash, msgs[n].idx, item.event);
    }
  }

  lemma {:induction false} MessagesOfComeFrom(msgs: seq<CosmosMessage>, hash: string, m: CosmosMessage)
    requires m in MessagesOf(msgs, hash)
    ensures m in msgs
  {
    if m != msgs[|msgs| - 1] {
      MessagesOfComeFrom(msgs[..|msgs| - 1], hash, m);
    }
  }

  lemma {:induction false} PhaseComesFrom(msgs: seq<CosmosMessage>, events: seq<CosmosEvent>,
                                          txs: seq<CosmosTransaction>, item: Item)
    requires item in TxPhase(msgs, events, txs)
    ensures item.MessageItem? ==> item.message in msgs
    ensures item.EventItem? ==> item.event in events
  {
    var n := |txs| - 1;
    if item in TxPhase(msgs, events, txs[..n]) {
      PhaseComesFrom(msgs, events, txs[..n], item);
    } else if item != TxItem(txs[n]) {
      VisitsComeFrom(events, txs[n].hash, MessagesOf(msgs, txs[n].hash), item);
      if item.MessageItem? {
        MessagesOfComeFrom(msgs, txs[n].hash, item.message);
      }
    }
  }

  /** Some event of the block differs from `e` at most in its index. */
  ghost predicate InBlock(input: RawInput, e: CosmosEvent)
    requires input.Matched()
  {
    exists x | x in BlockEventList(input) :: x.(idx := 0) == e.(idx := 0)
  }

  lemma InBlockAt(input: RawInput, i: nat, e: CosmosEvent)
    requires input.Matched() && i < |BlockEventList(input)| && BlockEventList(input)[i].(idx := 0) == e.(idx := 0)
    ensures InBlock(input, e)
  {
    assert BlockEventList(input)[i] in BlockEventList(input);
  }

  /** A memo whose begin-block and end-block events are forced and which some schedule may have produced. */
  ghost predicate Traversable(input: RawInput, m: Memo) {
    input.Matched() && input.AllMessages().Some? && m.beginEvents.Some? && m.endEvents.Some? && Listed(input, m)
  }

  lemma ForcedEventsAreInBlock(input: RawInput, m: Memo, e: CosmosEvent)
    requires Traversable(input, m)
    requires e in m.beginEvents.value || e in EventsOrNone(m) || e in m.endEvents.value
    ensures InBlock(input, e)
  {
    var b, p := |input.results.beginBlockEvents|, |input.PendingEvents()|;
    if e in m.beginEvents.value {
      var i :| 0 <= i < b && m.beginEvents.value[i] == e;
      InBlockAt(input, i, e);
    } else if e in EventsOrNone(m) {
      var i :| 0 <= i < p && EventsOrNone(m)[i] == e;
      InBlockAt(input, b + i, e);
    } else {
      var i :| 0 <= i < |m.endEvents.value| && m.endEvents.value[i] == e;
      InBlockAt(input, b + p + i, e);
    }
  }

  lemma DeliveredItemsHaveRecords(input: RawInput, m: Memo, item: Item)
    requires Traversable(input, m) && item in Items(input, m)
    requires item.MessageItem? || item.EventItem?
    ensures HasRecord(input, RecordOf(input.codec, item))
  {
    var phase := TxPhase(input.AllMessages().value, EventsOrNone(m), input.Transactions());
    if item in phase {
      PhaseComesFrom(input.AllMessages().value, EventsOrNone(m), input.Transactions(), item);
    }
    match item
    case MessageItem(_) =>
    case EventItem(e) =>
      ForcedEventsAreInBlock(input, m, e);
      var x :| x in BlockEventList(input) && x.(idx := 0) == e.(idx := 0);
      assert EventRecord(input.codec, x) == EventRecord(input.codec, e);
  }

  /** The traversal of an untouched block leaves such a memo behind. */
  lemma {:induction false} TraversalIsTraversable(input: RawInput)
    requires input.Matched() && input.AllMessages().Some?
    ensures Traversable(input, Run(input, FRESH, Schedule(input)))
  {
    AnySchedule(input, Schedule(input), []);
    ForcedIffCalled(input, FRESH, Schedule(input));
  }

  // ----- which blocks are fetched

  /** What is asked of the database and of plugins for one handler and delivered item. */
  ghost predicate TrustedIn(db: Database, input: RawInput, source: Source, h: Handler, item: Item)
    requires input.Matched() && input.AllMessages().Some?
  {
    match OwnQuery(source, h)
    case Some(q) => exists r :: HasRecord(input, r) && EntryMatches(db, q, r)
    case None => item.MessageItem? || item.EventItem? ==> Trusted(db, input.codec, source, h, item)
  }

  /** The height is a multiple of a modulo of the block handler. */
  predicate AtModulo(source: Source, h: Handler, height: nat) {
    && GetBaseHandlerKind(source, h) == Found(Some(BlockKind))
    && exists f | f in HandlerFilters(source, h) ::
         f.modulo.Some? && f.modulo.value != 0 && height % f.modulo.value == 0
  }

  /** The block is fetched: an entry selects one of its records, or it is due for the block handler. */
  ghost predicate Fetched(db: Database, dataSources: seq<DataSource>, input: RawInput, source: Source, h: Handler,
                          item: Item)
    requires input.Matched() && input.AllMessages().Some? && Build(dataSources).Entries?
  {
    || (exists r :: HasRecord(input, r) && Selects(db, Build(dataSources).entries, r))
    || (item.BlockItem? && AtModulo(source, h, item.block.height))
  }

  /** A block handler whose modulo is zero, or whose base filters are listed, at a height that is no multiple. */
  predicate BlockGap(source: Source, h: Handler, height: nat) {
    && GetBaseHandlerKind(source, h) == Found(Some(BlockKind))
    && OwnQuery(source, h).None?
    && HandlerFilters(source, h) != []
    && (forall f | f in HandlerFilters(source, h) :: f.modulo.Some?)
    && (ListsBaseFilters(source, h) || HandlerFilters(source, h)[0].modulo == Some(0))
    && !AtModulo(source, h, height)
  }

  /** Where the dictionary loses what a handler is given. */
  predicate Gap(source: Source, h: Handler, item: Item) {
    Invisible(source, h) || (item.BlockItem? && BlockGap(source, h, item.block.height))
  }

  lemma BlocksAreDue(codec: Codec, dataSources: seq<DataSource>, source: Source, h: Handler, b: CosmosBlock)
    requires InUse(dataSources) && Declares(dataSources, source, h)
    requires HandlerVerdict(codec, source, h, BlockItem(b)) == Accept
    requires OwnQuery(source, h).None? && !Gap(source, h, BlockItem(b))
    ensures AtModulo(source, h, b.height)
  {
    TasksAreDeclared(dataSources, (source, h));
    var _ := EmittedPart(Tasks(dataSources), (source, h));
    var modulo := BlockHandlersHaveModulos(codec, dataSources, source, h);
    assert HandlerFilters(source, h)[0] in HandlerFilters(source, h);
  }

  lemma FetchedWithoutGap(db: Database, dataSources: seq<DataSource>, source: Source, h: Handler, input: RawInput,
                          m: Memo, item: Item)
    requires InUse(dataSources) && Declares(dataSources, source, h)
    requires Traversable(input, m) && item in Items(input, m)
    requires HandlerVerdict(input.codec, source, h, item) == Accept && TrustedIn(db, input, source, h, item)
    requires !Gap(source, h, item)
    ensures Fetched(db, dataSources, input, source, h, item)
  {
    if OwnQuery(source, h).Some? {
      var r :| HasRecord(input, r) && EntryMatches(db, OwnQuery(source, h).value, r);
      ContributionIsSelected(db, dataSources, source, h, r);
      assert OwnQuery(source, h).value in Translate(source, h).entries;
    } else {
      match item
      case BlockItem(b) => BlocksAreDue(input.codec, dataSources, source, h, b);
      case TxItem(tx) => TransactionsAreNotQueried(input.codec, dataSources, source, h, tx);
      case _ =>
        DeliveredItemsHaveRecords(input, m, item);
        var r := RecordOf(input.codec, item);
        ContributionIsSelected(db, dataSources, source, h, r);
        HandlerIsCovered(db, input.codec, source, h, item);
        assert HasRecord(input, r);
    }
  }

  function TypesOf(msgs: seq<CosmosMessage>): seq<string> {
    seq(|msgs|, i requires 0 <= i < |msgs| => msgs[i].raw.typeUrl)
  }

  lemma BlockIsMissed(db: Database, input: RawInput, ty: string, r: Record)
    requires input.Matched() && input.AllMessages().Some? && HasRecord(input, r)
    requires ty == Longer(TypesOf(input.AllMessages().value))
    ensures !Selects(db, [MessageEntry(OfType(ty))], r)
  {
    var msgs := input.AllMessages().value;
    if m :| m in msgs && r == MessageRecord(input.codec, m) {
      var i :| 0 <= i < |msgs| && msgs[i] == m;
      assert TypesOf(msgs)[i] in TypesOf(msgs);
    }
    OtherRecordsAreMissed(db, ty, r);
  }

  lemma GapTranslation(source: Source, h: Handler, item: Item)
    requires Gap(source, h, item)
    ensures Translate(source, h) == Emits([])
    ensures item.BlockItem? ==> !AtModulo(source, h, item.block.height)
  {
  }

  /** Every gap is real: next to a handler for a message type the block does not have, the block is skipped. */
  lemma GapIsSkipped(db: Database, source: Source, h: Handler, input: RawInput, item: Item)
    returns (project: seq<DataSource>)
    requires input.Matched() && input.AllMessages().Some?
    requires Gap(source, h, item)
    ensures InUse(project) && Declares(project, source, h)
    ensures !Fetched(db, project, input, source, h, item)
  {
    var ty := Longer(TypesOf(input.AllMessages().value));
    GapTranslation(source, h, item);
    project := ProjectWith(source, h, ty);
    ProjectWithEntries(source, h, ty);
    forall r | HasRecord(input, r) ensures !Selects(db, Build(project).entries, r) {
      BlockIsMissed(db, input, ty, r);
    }
  }

  /**
   * The dictionary and the traversal together, for every item the traversal of a block hands to a
   * handler that accepts it: in every project that declares the handler and has the dictionary in
   * use the block is fetched, if and only if the handler has no gap there.
   */
  lemma NoHandledBlockIsSkipped(db: Database, source: Source, h: Handler, input: RawInput, m: Memo, item: Item)
    requires Traversable(input, m) && item in Items(input, m)
    requires HandlerVerdict(input.codec, source, h, item) == Accept && TrustedIn(db, input, source, h, item)
    ensures (forall dataSources | InUse(dataSources) && Declares(dataSources, source, h) ::
               Fetched(db, dataSources, input, source, h, item))
            <==> !Gap(source, h, item)
  {
    if Gap(source, h, item) {
      var _ := GapIsSkipped(db, source, h, input, item);
    } else {
      forall dataSources | InUse(dataSources) && Declares(dataSources, source, h)
        ensures Fetched(db, dataSources, input, source, h, item)
      {
        FetchedWithoutGap(db, dataSources, source, h, input, m, item);
      }
    }
  }
}
