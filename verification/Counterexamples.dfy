/** Inputs on which the code does less than one might expect, and one on which coverage applies. */
module Counterexamples {
  import opened Wrappers
  import opened JsonValues
  import opened CosmosTypes
  import opened Filters
  import opened Dictionary
  import opened FetchService
  import opened Coverage
  import opened BlockContent
  import opened Indexer
  import opened Delivery
  import opened DeliveryOrder
  import opened EventOrder
  import opened BlockOrder
  import opened TraceOrder
  import opened EndToEnd

  const PING := Event("ping", [])
  const MESSAGE := RawMessage("/ping", [])
  const DATABASE := Database(_ => None, (_, _, _) => false)

  /** Every transaction has the same hash, messages and log. */
  function CodecOf(messages: seq<RawMessage>, logs: seq<Log>): Codec {
    Codec(_ => "hash", _ => Some(messages), _ => Some(logs), _ => None)
  }

  /** A block at height 1 with `n` equal, successful transactions and the given begin-block events. */
  function BlockOf(codec: Codec, n: nat, begin: seq<Event>): RawInput {
    Input(codec, BlockInfo(1, seq(n, _ => [])), BlockResults(seq(n, _ => TxData(0, "")), begin, []))
  }

  lemma BlockOfDecodes(messages: seq<RawMessage>, logs: seq<Log>, n: nat, begin: seq<Event>)
    ensures var input := BlockOf(CodecOf(messages, logs), n, begin);
            && input.Matched() && AllDecodable(input.codec, input.Transactions()) && input.AllMessages().Some?
            && |input.Transactions()| == n
            && forall i | 0 <= i < n ::
                 input.Transactions()[i] == CosmosTransaction(i, input.Block(), TxData(0, ""), "hash", [])
  {
    var input := BlockOf(CodecOf(messages, logs), n, begin);
    MessagesExist(input.codec, input.Block(), input.Transactions());
  }

  // ----- a block that is skipped although a transaction handler would be given its transaction

  const TX_HANDLER := Handler("cosmos/TransactionHandler", Some(NO_PROPERTIES))

  /**
   * A project with a message handler and a filtered transaction handler, and a block with one
   * successful transaction without messages: the dictionary is in use, the transaction handler is
   * given the transaction, and no record of the block is selected.
   */
  lemma TransactionBlockIsSkipped()
    ensures var input := BlockOf(CodecOf([], []), 1, []);
            var project := ProjectWith(Runtime, TX_HANDLER, "/ping");
            && Traversable(input, Run(input, FRESH, Schedule(input)))
            && InUse(project) && Declares(project, Runtime, TX_HANDLER)
            && (exists item | item in Items(input, Run(input, FRESH, Schedule(input))) ::
                  HandlerVerdict(input.codec, Runtime, TX_HANDLER, item) == Accept
                  && !Fetched(DATABASE, project, input, Runtime, TX_HANDLER, item))
  {
    var input := BlockOf(CodecOf([], []), 1, []);
    BlockOfDecodes([], [], 1, []);
    TraversalIsTraversable(input);
    ProjectWithEntries(Runtime, TX_HANDLER, "/ping");
    MessageFreeBlock(input);
    var tx := input.Transactions()[0];
    TransactionIsVisited(input, Run(input, FRESH, Schedule(input)), tx);
    NotFetchedForTransaction(input, tx);
  }

  lemma MessageFreeBlock(input: RawInput)
    requires input == BlockOf(CodecOf([], []), 1, [])
    requires input.Matched() && |input.Transactions()| == 1 && AllDecodable(input.codec, input.Transactions())
    requires input.AllMessages().Some?
    ensures forall r :: !HasRecord(input, r)
  {
    OneTransaction(input);
    assert input.AllMessages().value == [] && input.PendingEvents() == [];
  }

  lemma NotFetchedForTransaction(input: RawInput, tx: CosmosTransaction)
    requires input.Matched() && input.AllMessages().Some? && tx.tx.code == 0
    requires forall r :: !HasRecord(input, r)
    requires Build(ProjectWith(Runtime, TX_HANDLER, "/ping")).Entries?
    ensures HandlerVerdict(input.codec, Runtime, TX_HANDLER, TxItem(tx)) == Accept
    ensures !Fetched(DATABASE, ProjectWith(Runtime, TX_HANDLER, "/ping"), input, Runtime, TX_HANDLER, TxItem(tx))
  {
  }

  lemma OneTransaction(input: RawInput)
    requires input.Matched() && |input.Transactions()| == 1 && AllDecodable(input.codec, input.Transactions())
    ensures var tx := input.Transactions()[0];
            && input.AllMessages() == Some(OwnMessages(input.codec, input.Block(), tx))
            && input.PendingEvents() == TxEvents(input.codec, input.Block(), tx)
  {
    var codec, block, txs := input.codec, input.Block(), input.Transactions();
    assert txs[..0] == [];
    assert Messages(codec, block, txs[..0]) == Some([]) && AllEvents(codec, block, txs[..0]) == [];
    assert [] + OwnMessages(codec, block, txs[0]) == OwnMessages(codec, block, txs[0]);
    assert [] + TxEvents(codec, block, txs[0]) == TxEvents(codec, block, txs[0]);
  }

  lemma TransactionIsVisited(input: RawInput, m: Memo, tx: CosmosTransaction)
    requires Traversable(input, m) && input.Transactions() != []
    requires tx == input.Transactions()[|input.Transactions()| - 1]
    ensures TxItem(tx) in Items(input, m)
  {
    var phase := TxPhase(input.AllMessages().value, EventsOrNone(m), input.Transactions());
    assert TxItem(tx) in TxVisit(input.AllMessages().value, EventsOrNone(m), tx);
    assert TxItem(tx) in phase;
  }

  // ----- a custom handler under the name of a runtime kind

  const PINGS := Processor(Some(MessageKind), Single(OfType("/ping")), _ => None)
  const RENAMING := Custom(map["cosmos/MessageHandler" := PINGS])
  const RENAMED := Handler("cosmos/MessageHandler", None)

  /** A plugin's message handler of that name accepts the message of a block, and the block is skipped. */
  lemma RenamedHandlerIsSkipped()
    ensures var input := BlockOf(CodecOf([MESSAGE], []), 1, []);
            var project := ProjectWith(RENAMING, RENAMED, "/pong");
            && InUse(project) && Declares(project, RENAMING, RENAMED)
            && input.Matched() && input.AllMessages().Some?
            && exists m | m in input.AllMessages().value ::
                 && HandlerVerdict(input.codec, RENAMING, RENAMED, MessageItem(m)) == Accept
                 && !Fetched(DATABASE, project, input, RENAMING, RENAMED, MessageItem(m))
  {
    var input := BlockOf(CodecOf([MESSAGE], []), 1, []);
    BlockOfDecodes([MESSAGE], [], 1, []);
    var m := OneMessage(input);
    InvisibleTranslation(RENAMING, RENAMED);
    ProjectWithEntries(RENAMING, RENAMED, "/pong");
    NotFetchedForMessage(input, m);
    RenamedAccepts(input.codec, m);
    assert m in input.AllMessages().value;
  }

  lemma OneMessage(input: RawInput) returns (m: CosmosMessage)
    requires input == BlockOf(CodecOf([MESSAGE], []), 1, [])
    requires input.Matched() && |input.Transactions()| == 1 && AllDecodable(input.codec, input.Transactions())
    ensures input.AllMessages() == Some([m]) && BlockEventList(input) == []
    ensures m.raw == MESSAGE && m.tx.tx.code == 0
  {
    OneTransaction(input);
    m := CosmosMessage(0, input.Transactions()[0], input.Block(), MESSAGE);
    assert input.AllMessages().value == [m] && input.PendingEvents() == [];
  }

  lemma NotFetchedForMessage(input: RawInput, m: CosmosMessage)
    requires input.Matched() && input.AllMessages() == Some([m]) && m.raw == MESSAGE && BlockEventList(input) == []
    requires Build(ProjectWith(RENAMING, RENAMED, "/pong")) == Entries([MessageEntry(OfType("/pong"))])
    ensures !Fetched(DATABASE, ProjectWith(RENAMING, RENAMED, "/pong"), input, RENAMING, RENAMED, MessageItem(m))
  {
    forall r | HasRecord(input, r) ensures !Selects(DATABASE, [MessageEntry(OfType("/pong"))], r) {
      OnlyRecord(input, m, r);
      OtherRecordsAreMissed(DATABASE, "/pong", r);
    }
  }

  lemma OnlyRecord(input: RawInput, m: CosmosMessage, r: Record)
    requires input.Matched() && input.AllMessages() == Some([m]) && BlockEventList(input) == [] && HasRecord(input, r)
    ensures r.entity == "messages" && "type" in r.columns && r.columns["type"] == Atom(Str(m.raw.typeUrl))
  {
    assert r == MessageRecord(input.codec, m);
  }

  lemma RenamedAccepts(codec: Codec, m: CosmosMessage)
    requires m.raw == MESSAGE && m.tx.tx.code == 0
    ensures HandlerVerdict(codec, RENAMING, RENAMED, MessageItem(m)) == Accept
  {
    SingleFilter(codec, MessageItem(m), OfType("/ping"));
  }

  // ----- block handlers that are given every block

  const EVERY_BLOCK := Handler("cosmos/BlockHandler", Some(NO_PROPERTIES.(modulo := Some(0))))

  const EVEN := NO_PROPERTIES.(modulo := Some(2))
  const LISTING := Custom(map["plugin/Block" := Processor(Some(BlockKind), Many([Some(EVEN)]), _ => None)])
  const LISTED := Handler("plugin/Block", None)

  function EmptyBlock(): RawInput {
    BlockOf(CodecOf([], []), 0, [])
  }

  lemma EmptyBlockHasNoRecords()
    ensures EmptyBlock().Matched() && EmptyBlock().AllMessages() == Some([])
    ensures forall r :: !HasRecord(EmptyBlock(), r)
  {
    assert EmptyBlock().PendingEvents() == [];
  }

  /** Next to a message handler, a block handler at no multiple of its modulo gets no empty block. */
  lemma EmptyBlockIsSkipped(source: Source, h: Handler)
    requires Translate(source, h) == Emits([]) && !AtModulo(source, h, 1)
    ensures var project := ProjectWith(source, h, "/ping");
            && InUse(project) && Declares(project, source, h)
            && EmptyBlock().Matched() && EmptyBlock().AllMessages().Some?
            && !Fetched(DATABASE, project, EmptyBlock(), source, h, BlockItem(EmptyBlock().Block()))
  {
    EmptyBlockHasNoRecords();
    ProjectWithEntries(source, h, "/ping");
  }

  /**
   * With the dictionary in use, a block handler with modulo zero is given every block, and an
   * empty block at height 1 is not fetched for it.
   */
  lemma ModuloZeroIsGivenAll(codec: Codec, b: CosmosBlock)
    ensures HandlerVerdict(codec, Runtime, EVERY_BLOCK, BlockItem(b)) == Accept
    ensures var project := ProjectWith(Runtime, EVERY_BLOCK, "/ping");
            && InUse(project) && Declares(project, Runtime, EVERY_BLOCK)
            && EmptyBlock().Matched() && EmptyBlock().AllMessages().Some?
            && !Fetched(DATABASE, project, EmptyBlock(), Runtime, EVERY_BLOCK, BlockItem(EmptyBlock().Block()))
  {
    EmptyBlockIsSkipped(Runtime, EVERY_BLOCK);
  }

  /** The same for a custom block handler that lists a base filter with a modulo of two. */
  lemma ListedModulosAreIgnored(codec: Codec, b: CosmosBlock)
    ensures HandlerVerdict(codec, LISTING, LISTED, BlockItem(b)) == Accept
    ensures var project := ProjectWith(LISTING, LISTED, "/ping");
            && InUse(project) && Declares(project, LISTING, LISTED)
            && EmptyBlock().Matched() && EmptyBlock().AllMessages().Some?
            && !Fetched(DATABASE, project, EmptyBlock(), LISTING, LISTED, BlockItem(EmptyBlock().Block()))
  {
    ListedFilters();
    EmptyBlockIsSkipped(LISTING, LISTED);
  }

  lemma ListedFilters()
    ensures HandlerFilters(LISTING, LISTED) == [EVEN]
    ensures Translate(LISTING, LISTED) == Emits([]) && !AtModulo(LISTING, LISTED, 1)
  {
    var f := EVEN;
    assert [Some(f)][1..] == [];
    assert Present([Some(f)]) == [f];
    assert HandlerFilters(LISTING, LISTED) == [f];
  }

  // ----- events that are delivered several times

  /** Two equal transactions in a block, each with one message and one event: both events are delivered four times. */
  lemma DeliveredFourTimes(offset: nat, q: nat)
    requires q < 2
    ensures var input := BlockOf(CodecOf([MESSAGE], [Log(0, [PING])]), 2, []);
            && input.Matched() && input.AllMessages().Some? && |input.PendingEvents()| == 2
            && var events := Numbered(input.Block(), input.PendingEvents(), offset);
               Count(TxPhase(input.AllMessages().value, events, input.Transactions()), EventItem(events[q])) == 4
  {
    var input := BlockOf(CodecOf([MESSAGE], [Log(0, [PING])]), 2, []);
    BlockOfDecodes([MESSAGE], [Log(0, [PING])], 2, []);
    TwoPings(input, input.Transactions());
    CopiesAreDeliveredSquared(input, offset, q);
  }

  lemma {:induction false} TwoPings(input: RawInput, txs: seq<CosmosTransaction>)
    requires input.Matched() && input.codec == CodecOf([MESSAGE], [Log(0, [PING])]) && txs == input.Transactions()
    requires |txs| == 2 && forall i | 0 <= i < 2 :: txs[i].hash == "hash" && txs[i].raw == []
    ensures |input.PendingEvents()| == 2 && CountTxs(txs, "hash") == 2
    ensures forall q | 0 <= q < 2 :: input.PendingEvents()[q].msg.Some? && input.PendingEvents()[q].tx == txs[q]
  {
    OnePing(input.codec, input.Block(), txs[0]);
    OnePing(input.codec, input.Block(), txs[1]);
    TwoTransactions(input.codec, input.Block(), txs);
  }

  lemma OnePing(codec: Codec, block: CosmosBlock, tx: CosmosTransaction)
    requires codec == CodecOf([MESSAGE], [Log(0, [PING])])
    ensures TxEvents(codec, block, tx) ==
            [Pending(Some(CosmosMessage(0, tx, block, MESSAGE)), tx, Log(0, [PING]), PING)]
  {
    var logs := [Log(0, [PING])];
    assert logs[..0] == [];
    assert LogsEvents(codec, block, tx, logs[..0]) == [];
    assert LogsEvents(codec, block, tx, logs) == [] + LogEvents(codec, block, tx, logs[0]);
  }

  lemma {:induction false} TwoTransactions(codec: Codec, block: CosmosBlock, txs: seq<CosmosTransaction>)
    requires |txs| == 2 && txs[0].hash == txs[1].hash
    ensures AllEvents(codec, block, txs) == TxEvents(codec, block, txs[0]) + TxEvents(codec, block, txs[1])
    ensures CountTxs(txs, txs[0].hash) == 2
  {
    var first := txs[..1];
    assert first[..0] == [];
    assert AllEvents(codec, block, first[..0]) == [] && CountTxs(first[..0], txs[0].hash) == 0;
    assert AllEvents(codec, block, first) == [] + TxEvents(codec, block, txs[0]);
    assert CountTxs(first, txs[0].hash) == 1;
  }

  // ----- event indices that step back

  /** A transaction whose log names message 1 before message 0: event 1 is delivered before event 0. */
  lemma IndicesStepBack()
    ensures var input := BlockOf(CodecOf([MESSAGE, MESSAGE], [Log(1, [PING]), Log(0, [PING])]), 1, []);
            && input.Matched() && input.AllMessages().Some?
            && var last := Run(input, FRESH, Schedule(input));
               && last.beginEvents.Some? && last.endEvents.Some?
               && var events := EventsIn(Items(input, last));
                  |events| == 2 && events[0].idx == 1 && events[1].idx == 0
  {
    var logs := [Log(1, [PING]), Log(0, [PING])];
    var input := BlockOf(CodecOf([MESSAGE, MESSAGE], logs), 1, []);
    BlockOfDecodes([MESSAGE, MESSAGE], logs, 1, []);
    TwoEvents(input, input.Transactions()[0], logs);
    var last := Run(input, FRESH, Schedule(input));
    ScheduleOffsets(input, FRESH);
    assert forall k: nat :: BlockEvents(input.Block(), [], k) == [];
    TraceIsDelivery(input, last);
    SteppedBack(input, EventsIn(Items(input, last)));
  }

  /** Without begin-block and end-block events the trace has the delivered transaction events. */
  lemma TraceIsDelivery(input: RawInput, m: Memo)
    requires input.Matched() && input.AllMessages().Some?
    requires m.beginEvents == Some([]) && m.endEvents == Some([])
    requires EventsOrNone(m) == Numbered(input.Block(), input.PendingEvents(), 0)
    ensures EventsIn(Items(input, m)) == Delivered(input.codec, input.Block(), input.Transactions(), 0)
  {
    var delivered := EventsIn(TxPhase(input.AllMessages().value, EventsOrNone(m), input.Transactions()));
    EventsOfTrace(input, m);
    assert [] + delivered + [] == delivered;
  }

  lemma SteppedBack(input: RawInput, delivered: seq<CosmosEvent>)
    requires input.Matched() && AllDecodable(input.codec, input.Transactions()) && input.AllMessages().Some?
    requires HashesDistinct(input.Transactions()) && !BlockInOrder(input.codec, input.Block(), input.Transactions())
    requires |input.PendingEvents()| == 2 && forall i | 0 <= i < 2 :: input.PendingEvents()[i].msg.Some?
    requires delivered == Delivered(input.codec, input.Block(), input.Transactions(), 0)
    ensures |delivered| == 2 && delivered[0].idx == 1 && delivered[1].idx == 0
  {
    var events := Numbered(input.Block(), input.PendingEvents(), 0);
    AllHaveMessages(events);
    DeliveryKeepsAll(input.codec, input.Block(), input.Transactions(), 0);
    FullListIncreases(input.codec, input.Block(), input.Transactions(), 0);
    SwappedPair(delivered, events);
  }

  lemma {:induction false} AllHaveMessages(events: seq<CosmosEvent>)
    requires forall e | e in events :: e.msg.Some?
    ensures WithMessage(events) == events
  {
    if events == [] {
    } else {
      var n := |events| - 1;
      AllHaveMessages(events[..n]);
      assert events == events[..n] + [events[n]] && events[n] in events;
    }
  }

  lemma SwappedPair(delivered: seq<CosmosEvent>, events: seq<CosmosEvent>)
    requires SameElements(delivered, events) && |events| == 2 && NumberedFrom(events, 0) && !Increasing(delivered)
    ensures delivered[0].idx == 1 && delivered[1].idx == 0
  {
    assert events[0] in delivered && events[1] in delivered;
    assert delivered[0] in events && delivered[1] in events;
    assert delivered[0].idx >= delivered[1].idx;
  }

  lemma TwoEvents(input: RawInput, tx: CosmosTransaction, logs: seq<Log>)
    requires input == BlockOf(CodecOf([MESSAGE, MESSAGE], logs), 1, []) && logs == [Log(1, [PING]), Log(0, [PING])]
    requires input.Matched() && |input.Transactions()| == 1 && tx == input.Transactions()[0]
    ensures |input.PendingEvents()| == 2 && input.AllMessages().Some? && input.AllMessages().value != []
    ensures forall i | 0 <= i < 2 :: input.PendingEvents()[i].msg.Some?
    ensures !BlockInOrder(input.codec, input.Block(), input.Transactions())
  {
    var codec, block := input.codec, input.Block();
    OneTransaction(input);
    assert logs[..1][..0] == [] && LogsEvents(codec, block, tx, logs[..1][..0]) == [];
    assert LogsEvents(codec, block, tx, logs[..1]) == LogEvents(codec, block, tx, logs[0]);
    assert LogsEvents(codec, block, tx, logs) ==
           LogEvents(codec, block, tx, logs[0]) + LogEvents(codec, block, tx, logs[1]);
    assert logs[0] in logs[..1] && Effective(codec, block, tx, logs[0]) && Effective(codec, block, tx, logs[1]);
    assert !LogsOrdered(codec, block, tx, logs);
    assert !TxInOrder(codec, block, tx);
  }

  // ----- coverage applies

  const PING_HANDLER := Handler("cosmos/EventHandler", Some(OfType("ping")))

  /** A project with one event handler and a block with one begin-block event meet all that coverage asks for. */
  lemma CoverageApplies()
    ensures var input := BlockOf(CodecOf([], []), 0, [PING]);
            var project := [DataSource(Runtime, [PING_HANDLER])];
            && Traversable(input, Run(input, FRESH, Schedule(input)))
            && InUse(project) && Declares(project, Runtime, PING_HANDLER)
            && exists item | item in Items(input, Run(input, FRESH, Schedule(input))) ::
                 && HandlerVerdict(input.codec, Runtime, PING_HANDLER, item) == Accept
                 && TrustedIn(DATABASE, input, Runtime, PING_HANDLER, item)
                 && !Gap(Runtime, PING_HANDLER, item)
                 && Fetched(DATABASE, project, input, Runtime, PING_HANDLER, item)
  {
    var input := BlockOf(CodecOf([], []), 0, [PING]);
    var project := [DataSource(Runtime, [PING_HANDLER])];
    BlockOfDecodes([], [], 0, [PING]);
    TraversalIsTraversable(input);
    PingProject(project);
    var item := PingIsVisited(input);
    FetchedWithoutGap(DATABASE, project, Runtime, PING_HANDLER, input, Run(input, FRESH, Schedule(input)), item);
  }

  lemma PingProject(project: seq<DataSource>)
    requires project == [DataSource(Runtime, [PING_HANDLER])]
    ensures InUse(project) && Declares(project, Runtime, PING_HANDLER)
  {
    PingTranslation();
    OneHandler(Runtime, PING_HANDLER);
    UniqueSingleton(EventEntry(OfType("ping")));
    assert project[0].source == Runtime && PING_HANDLER in project[0].handlers;
  }

  lemma PingTranslation()
    ensures Translate(Runtime, PING_HANDLER) == Emits([EventEntry(OfType("ping"))])
  {
    assert GetBaseHandlerKind(Runtime, PING_HANDLER) == Found(Some(EventKind));
    assert HandlerFilters(Runtime, PING_HANDLER) == [OfType("ping")];
    assert EventEntries([OfType("ping")]) == [EventEntry(OfType("ping"))];
  }

  lemma PingIsVisited(input: RawInput) returns (item: Item)
    requires input == BlockOf(CodecOf([], []), 0, [PING])
    requires input.Matched() && Traversable(input, Run(input, FRESH, Schedule(input)))
    ensures item in Items(input, Run(input, FRESH, Schedule(input)))
    ensures HandlerVerdict(input.codec, Runtime, PING_HANDLER, item) == Accept
    ensures TrustedIn(DATABASE, input, Runtime, PING_HANDLER, item)
    ensures !Gap(Runtime, PING_HANDLER, item)
  {
    var last := Run(input, FRESH, Schedule(input));
    ScheduleOffsets(input, FRESH);
    var e := CosmosEvent(0, None, None, input.Block(), None, PING);
    assert last.beginEvents.value == [e];
    item := EventItem(e);
    assert EventItems([e])[0] == item;
    assert item in EventItems(last.beginEvents.value);
  }

  lemma OneHandler(source: Source, h: Handler)
    requires Translate(source, h).Emits?
    ensures Build([DataSource(source, [h])]) == Entries(Deduplicate(Translate(source, h).entries))
  {
    var d, task := DataSource(source, [h]), (source, h);
    assert [d][1..] == [] && [h][1..] == [] && [task][1..] == [];
    assert Tasks([d][1..]) == [] && TasksOf(source, [h][1..]) == [];
    assert TasksOf(source, [h]) == [task] + [];
    assert Tasks([d]) == [task] + [];
    CollectCons(task, []);
    var own := Translate(source, h).entries;
    assert own + [] == own;
  }
}
