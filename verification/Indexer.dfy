/**
 * The traversal of one block.  Every item is handed to every datasource in turn; transaction
 * events are found by joining the flat event list with messages on hash and message index.
 */
module Indexer {
  import opened Wrappers
  import opened Text
  import opened CosmosTypes
  import opened BlockContent

  /** Handing an item to datasource number `ds`. */
  datatype Call = Call(ds: nat, item: Item)

  function CallsFor(item: Item, n: nat): seq<Call> {
    seq(n, d requires 0 <= d => Call(d, item))
  }

  /** The calls for a sequence of items with `n` datasources. */
  function FanOut(items: seq<Item>, n: nat): seq<Call> {
    if items == [] then [] else FanOut(items[..|items| - 1], n) + CallsFor(items[|items| - 1], n)
  }

  // ----- the join

  function MessagesOf(msgs: seq<CosmosMessage>, hash: string): seq<CosmosMessage> {
    if msgs == [] then []
    else
      var m := msgs[|msgs| - 1];
      MessagesOf(msgs[..|msgs| - 1], hash) + if m.tx.hash == hash then [m] else []
  }

  predicate Belongs(e: CosmosEvent, hash: string, idx: nat) {
    e.tx.Some? && e.tx.value.hash == hash && e.msg.Some? && e.msg.value.idx == idx
  }

  function EventsFor(events: seq<CosmosEvent>, hash: string, idx: nat): seq<CosmosEvent> {
    if events == [] then []
    else
      var e := events[|events| - 1];
      EventsFor(events[..|events| - 1], hash, idx) + if Belongs(e, hash, idx) then [e] else []
  }

  function EventItems(events: seq<CosmosEvent>): seq<Item> {
    seq(|events|, i requires 0 <= i < |events| => EventItem(events[i]))
  }

  function MessageVisit(events: seq<CosmosEvent>, hash: string, m: CosmosMessage): seq<Item> {
    [MessageItem(m)] + EventItems(EventsFor(events, hash, m.idx))
  }

  function MessageVisits(events: seq<CosmosEvent>, hash: string, msgs: seq<CosmosMessage>): seq<Item> {
    if msgs == [] then []
    else MessageVisits(events, hash, msgs[..|msgs| - 1]) + MessageVisit(events, hash, msgs[|msgs| - 1])
  }

  function TxVisit(msgs: seq<CosmosMessage>, events: seq<CosmosEvent>, tx: CosmosTransaction): seq<Item> {
    [TxItem(tx)] + MessageVisits(events, tx.hash, MessagesOf(msgs, tx.hash))
  }

  function TxPhase(msgs: seq<CosmosMessage>, events: seq<CosmosEvent>, txs: seq<CosmosTransaction>): seq<Item> {
    if txs == [] then []
    else TxPhase(msgs, events, txs[..|txs| - 1]) + TxVisit(msgs, events, txs[|txs| - 1])
  }

  // ----- which getters a traversal forces

  function Opening(): seq<Getter> {
    [TheBlock, TheBeginEvents, TheTransactions]
  }

  /** The schedule of a traversal that decodes every transaction. */
  function Schedule(input: RawInput): seq<Getter>
    requires input.Matched()
  {
    Opening()
    + (if input.Transactions() == [] then [] else [TheMessages])
    + (if input.AllMessages() == Some([]) then [] else [TheEvents])
    + [TheEndEvents]
  }

  function EventsOrNone(m: Memo): seq<CosmosEvent> {
    match m.events case None => [] case Some(es) => es
  }

  /** The items of a complete traversal, given what its getters returned. */
  function Items(input: RawInput, m: Memo): seq<Item>
    requires input.Matched() && input.AllMessages().Some? && m.beginEvents.Some? && m.endEvents.Some?
  {
    [BlockItem(input.Block())]
    + EventItems(m.beginEvents.value)
    + TxPhase(input.AllMessages().value, EventsOrNone(m), input.Transactions())
    + EventItems(m.endEvents.value)
  }

  // ----- the traversal

  lemma {:induction false} FanOutSnoc(items: seq<Item>, item: Item, n: nat)
    ensures FanOut(items + [item], n) == FanOut(items, n) + CallsFor(item, n)
  {
    assert (items + [item])[..|items|] == items;
  }

  method IndexItem(trace: seq<Call>, ghost items: seq<Item>, item: Item, n: nat) returns (longer: seq<Call>)
    requires trace == FanOut(items, n)
    ensures longer == FanOut(items + [item], n)
  {
    longer := trace;
    for d := 0 to n
      invariant longer == trace + CallsFor(item, n)[..d]
    {
      longer := longer + [Call(d, item)];
    }
    FanOutSnoc(items, item, n);
  }

  lemma ItemsGrow(items: seq<Item>, more: seq<Item>, i: nat)
    requires i < |more|
    ensures items + more[..i] + [more[i]] == items + more[..i + 1]
  {
  }

  method IndexEvents(trace: seq<Call>, ghost items: seq<Item>, events: seq<CosmosEvent>, n: nat)
    returns (longer: seq<Call>)
    requires trace == FanOut(items, n)
    ensures longer == FanOut(items + EventItems(events), n)
  {
    longer := trace;
    assert items + EventItems(events)[..0] == items;
    for i := 0 to |events|
      invariant longer == FanOut(items + EventItems(events)[..i], n)
    {
      longer := IndexItem(longer, items + EventItems(events)[..i], EventItem(events[i]), n);
      ItemsGrow(items, EventItems(events), i);
    }
    assert EventItems(events)[..|events|] == EventItems(events);
  }

  lemma StepIsIdempotent(input: RawInput, m: Memo)
    requires input.Matched()
    ensures Step(input, Step(input, m, TheEvents), TheEvents) == Step(input, m, TheEvents)
  {
  }

  /** One message, followed by its events. */
  method IndexMessage(content: LazyBlockContent, trace: seq<Call>, ghost items: seq<Item>, tx: CosmosTransaction,
                      msg: CosmosMessage, n: nat) returns (longer: seq<Call>)
    requires content.Valid() && trace == FanOut(items, n)
    modifies content, content.cells
    ensures content.Valid()
    ensures content.View() == Step(content.input, old(content.View()), TheEvents)
    ensures longer == FanOut(items + MessageVisit(EventsOrNone(content.View()), tx.hash, msg), n)
  {
    longer := IndexItem(trace, items, MessageItem(msg), n);
    var all := content.GetEvents();
    var own := EventsFor(all, tx.hash, msg.idx);
    longer := IndexEvents(longer, items + [MessageItem(msg)], own, n);
    Associate(items, [MessageItem(msg)], EventItems(own));
  }

  lemma {:induction false} VisitsGrow(items: seq<Item>, events: seq<CosmosEvent>, hash: string,
                                      msgs: seq<CosmosMessage>, i: nat)
    requires i < |msgs|
    ensures items + MessageVisits(events, hash, msgs[..i]) + MessageVisit(events, hash, msgs[i]) ==
            items + MessageVisits(events, hash, msgs[..i + 1])
  {
    assert msgs[..i + 1][..i] == msgs[..i];
  }

  /** The messages of one transaction, each followed by its events. */
  method IndexMessages(content: LazyBlockContent, trace: seq<Call>, ghost items: seq<Item>, tx: CosmosTransaction,
                       msgs: seq<CosmosMessage>, n: nat) returns (longer: seq<Call>)
    requires content.Valid() && trace == FanOut(items, n)
    modifies content, content.cells
    ensures content.Valid()
    ensures content.View() ==
            if msgs == [] then old(content.View()) else Step(content.input, old(content.View()), TheEvents)
    ensures longer == FanOut(items + MessageVisits(EventsOrNone(content.View()), tx.hash, msgs), n)
  {
    longer := trace;
    ghost var after := Step(content.input, content.View(), TheEvents);
    ghost var events := EventsOrNone(after);
    StepIsIdempotent(content.input, content.View());
    assert items + MessageVisits(events, tx.hash, []) == items;
    for i := 0 to |msgs|
      invariant content.Valid()
      invariant content.View() == if i == 0 then old(content.View()) else after
      invariant longer == FanOut(items + MessageVisits(events, tx.hash, msgs[..i]), n)
    {
      longer := IndexMessage(content, longer, items + MessageVisits(events, tx.hash, msgs[..i]), tx, msgs[i], n);
      VisitsGrow(items, events, tx.hash, msgs, i);
    }
    assert msgs[..|msgs|] == msgs;
  }

  // ----- facts about the schedule

  /** The memo after the block, the begin-block events and the transactions were forced. */
  function Opened(input: RawInput, m: Memo): Memo
    requires input.Matched()
  {
    Step(input, Step(input, Step(input, m, TheBlock), TheBeginEvents), TheTransactions)
  }

  /** The memo once the transactions of a block with these messages were visited. */
  function Visited(input: RawInput, m: Memo): Memo
    requires input.Matched()
  {
    if input.Transactions() == [] then m
    else if input.AllMessages() == Some([]) then Step(input, m, TheMessages)
    else Step(input, Step(input, m, TheMessages), TheEvents)
  }

  lemma {:induction false} RunOpening(input: RawInput, m: Memo)
    requires input.Matched()
    ensures Run(input, m, Opening()) == Opened(input, m)
    ensures Run(input, m, Opening() + [TheMessages]) == Step(input, Opened(input, m), TheMessages)
  {
    RunOne(input, m, [], TheBlock);
    RunOne(input, m, [TheBlock], TheBeginEvents);
    RunOne(input, m, [TheBlock, TheBeginEvents], TheTransactions);
    assert [] + [TheBlock] == [TheBlock];
    assert [TheBlock] + [TheBeginEvents] == [TheBlock, TheBeginEvents];
    assert [TheBlock, TheBeginEvents] + [TheTransactions] == Opening();
    RunOne(input, m, Opening(), TheMessages);
  }

  lemma {:induction false} RunSchedule(input: RawInput, m: Memo)
    requires input.Matched() && input.AllMessages().Some?
    ensures Run(input, m, Schedule(input)) == Step(input, Visited(input, Opened(input, m)), TheEndEvents)
  {
    RunOpening(input, m);
    if input.Transactions() == [] {
      RunOne(input, m, Opening(), TheEndEvents);
      assert Schedule(input) == Opening() + [TheEndEvents];
    } else if input.AllMessages() == Some([]) {
      RunOne(input, m, Opening() + [TheMessages], TheEndEvents);
      assert Schedule(input) == Opening() + [TheMessages] + [TheEndEvents];
    } else {
      RunOne(input, m, Opening() + [TheMessages], TheEvents);
      RunOne(input, m, Opening() + [TheMessages] + [TheEvents], TheEndEvents);
      assert Schedule(input) == Opening() + [TheMessages] + [TheEvents] + [TheEndEvents];
    }
  }

  lemma {:induction false} MessagesHaveTxs(codec: Codec, block: CosmosBlock, txs: seq<CosmosTransaction>)
    requires Messages(codec, block, txs).Some?
    ensures forall m | m in Messages(codec, block, txs).value :: m.tx in txs
  {
    if txs == [] {
    } else {
      MessagesHaveTxs(codec, block, txs[..|txs| - 1]);
    }
  }

  lemma {:induction false} MessagesOfKeeps(msgs: seq<CosmosMessage>, m: CosmosMessage)
    requires m in msgs
    ensures m in MessagesOf(msgs, m.tx.hash)
  {
    if m != msgs[|msgs| - 1] {
      MessagesOfKeeps(msgs[..|msgs| - 1], m);
    }
  }

  /** Some of the transactions has a message to visit. */
  predicate AnyVisit(msgs: seq<CosmosMessage>, txs: seq<CosmosTransaction>) {
    txs != [] && (AnyVisit(msgs, txs[..|txs| - 1]) || MessagesOf(msgs, txs[|txs| - 1].hash) != [])
  }

  lemma {:induction false} VisitFound(msgs: seq<CosmosMessage>, txs: seq<CosmosTransaction>, tx: CosmosTransaction)
    requires tx in txs && MessagesOf(msgs, tx.hash) != []
    ensures AnyVisit(msgs, txs)
  {
    if tx != txs[|txs| - 1] {
      VisitFound(msgs, txs[..|txs| - 1], tx);
    }
  }

  lemma {:induction false} NothingToVisit(txs: seq<CosmosTransaction>)
    ensures !AnyVisit([], txs)
  {
    if txs == [] {
    } else {
      NothingToVisit(txs[..|txs| - 1]);
    }
  }

  /** The event list is consulted exactly when the block has a message. */
  lemma SomeTxHasMessages(input: RawInput)
    requires input.Matched() && input.AllMessages().Some?
    ensures input.AllMessages().value != [] <==> AnyVisit(input.AllMessages().value, input.Transactions())
  {
    var txs, msgs := input.Transactions(), input.AllMessages().value;
    if msgs == [] {
      NothingToVisit(txs);
    } else {
      MessagesHaveTxs(input.codec, input.Block(), txs);
      assert msgs[0] in msgs;
      MessagesOfKeeps(msgs, msgs[0]);
      VisitFound(msgs, txs, msgs[0].tx);
    }
  }

  lemma {:induction false} NoMessagesNoEvents(msgs: seq<CosmosMessage>, a: seq<CosmosEvent>, b: seq<CosmosEvent>,
                                              txs: seq<CosmosTransaction>)
    requires msgs == []
    ensures TxPhase(msgs, a, txs) == TxPhase(msgs, b, txs)
  {
    if txs == [] {
    } else {
      NoMessagesNoEvents(msgs, a, b, txs[..|txs| - 1]);
    }
  }

  // ----- the traversal

  /** The memo after one transaction with the given messages was visited. */
  function AfterTx(input: RawInput, m: Memo, mine: seq<CosmosMessage>): Memo
    requires input.Matched()
  {
    var forced := Step(input, m, TheMessages);
    if mine == [] then forced else Step(input, forced, TheEvents)
  }

  /** The memo after some transactions, of which some or none had messages. */
  function Progress(input: RawInput, m: Memo, started: bool, visited: bool): Memo
    requires input.Matched()
  {
    if !started then m
    else if visited then Step(input, Step(input, m, TheMessages), TheEvents)
    else Step(input, m, TheMessages)
  }

  lemma ProgressStep(input: RawInput, m: Memo, started: bool, visited: bool, mine: seq<CosmosMessage>)
    requires input.Matched() && input.AllMessages().Some? && (visited ==> started)
    ensures AfterTx(input, Progress(input, m, started, visited), mine) ==
            Progress(input, m, true, visited || mine != [])
  {
  }

  method IndexTransaction(content: LazyBlockContent, trace: seq<Call>, ghost items: seq<Item>, tx: CosmosTransaction,
                          n: nat)
    returns (longer: seq<Call>, ok: bool)
    requires content.Valid() && trace == FanOut(items, n)
    modifies content, content.cells
    ensures content.Valid()
    ensures ok <==> content.input.AllMessages().Some?
    ensures ok ==>
              var mine := MessagesOf(content.input.AllMessages().value, tx.hash);
              && content.View() == AfterTx(content.input, old(content.View()), mine)
              && longer ==
                 FanOut(items + ([TxItem(tx)] + MessageVisits(EventsOrNone(content.View()), tx.hash, mine)), n)
    ensures !ok ==> content.View() == Step(content.input, old(content.View()), TheMessages)
    ensures !ok ==> longer == FanOut(items + [TxItem(tx)], n)
  {
    longer := IndexItem(trace, items, TxItem(tx), n);
    var all := content.GetMessages();
    if all.None? {
      return longer, false;
    }
    var mine := MessagesOf(all.value, tx.hash);
    longer := IndexMessages(content, longer, items + [TxItem(tx)], tx, mine, n);
    assert content.View() == AfterTx(content.input, old(content.View()), mine);
    Associate(items, [TxItem(tx)], MessageVisits(EventsOrNone(content.View()), tx.hash, mine));
    return longer, true;
  }

  lemma {:induction false} PhaseGrows(items: seq<Item>, msgs: seq<CosmosMessage>, a: seq<CosmosEvent>,
                                      b: seq<CosmosEvent>, txs: seq<CosmosTransaction>, i: nat)
    requires i < |txs|
    requires MessagesOf(msgs, txs[i].hash) == [] || a == b
    ensures items + TxPhase(msgs, b, txs[..i])
            + ([TxItem(txs[i])] + MessageVisits(a, txs[i].hash, MessagesOf(msgs, txs[i].hash)))
            == items + TxPhase(msgs, b, txs[..i + 1])
  {
    assert txs[..i + 1][..i] == txs[..i];
    assert MessageVisits(a, txs[i].hash, MessagesOf(msgs, txs[i].hash)) ==
           MessageVisits(b, txs[i].hash, MessagesOf(msgs, txs[i].hash));
    assert TxPhase(msgs, b, txs[..i + 1]) == TxPhase(msgs, b, txs[..i]) + TxVisit(msgs, b, txs[i]);
  }

  lemma AllVisited(input: RawInput, m: Memo)
    requires input.Matched()
    requires input.Transactions() == [] || input.AllMessages().Some?
    ensures input.AllMessages().Some?
    ensures Progress(input, m, input.Transactions() != [], AnyVisit(input.AllMessages().value, input.Transactions())) ==
            Visited(input, m)
    ensures TxPhase(input.AllMessages().value, EventsOrNone(Progress(input, m, true, true)), input.Transactions()) ==
            TxPhase(input.AllMessages().value, EventsOrNone(Visited(input, m)), input.Transactions())
  {
    var txs := input.Transactions();
    MessagesExist(input.codec, input.Block(), txs);
    SomeTxHasMessages(input);
    NoMessagesNoEvents([], EventsOrNone(Progress(input, m, true, true)), EventsOrNone(Visited(input, m)), txs);
  }

  /** The memo, once `m`, after the first `i` transactions. */
  ghost function ViewAfter(input: RawInput, m: Memo, i: nat): Memo
    requires input.Matched() && i <= |input.Transactions()|
  {
    match input.AllMessages()
    case None => m
    case Some(msgs) => Progress(input, m, i > 0, AnyVisit(msgs, input.Transactions()[..i]))
  }

  /** What has been visited, once `items`, after the first `i` transactions. */
  ghost function DoneAfter(input: RawInput, m: Memo, items: seq<Item>, i: nat): seq<Item>
    requires input.Matched() && i <= |input.Transactions()|
  {
    match input.AllMessages()
    case None => items
    case Some(msgs) => items + TxPhase(msgs, EventsOrNone(Progress(input, m, true, true)), input.Transactions()[..i])
  }

  ghost predicate Reached(input: RawInput, m: Memo, view: Memo, items: seq<Item>, n: nat, i: nat, trace: seq<Call>)
    requires input.Matched() && i <= |input.Transactions()|
  {
    && (input.AllMessages().None? ==> i == 0)
    && view == ViewAfter(input, m, i)
    && trace == FanOut(DoneAfter(input, m, items, i), n)
  }

  lemma ViewGrows(input: RawInput, m: Memo, i: nat, mine: seq<CosmosMessage>)
    requires input.Matched() && i < |input.Transactions()| && input.AllMessages().Some?
    requires mine == MessagesOf(input.AllMessages().value, input.Transactions()[i].hash)
    ensures AfterTx(input, ViewAfter(input, m, i), mine) == ViewAfter(input, m, i + 1)
  {
    var txs, msgs := input.Transactions(), input.AllMessages().value;
    assert txs[..i + 1][..i] == txs[..i];
    ProgressStep(input, m, i > 0, AnyVisit(msgs, txs[..i]), mine);
  }

  lemma {:induction false} DoneGrows(input: RawInput, m: Memo, items: seq<Item>, i: nat, mine: seq<CosmosMessage>,
                                     next: Memo)
    requires input.Matched() && i < |input.Transactions()| && input.AllMessages().Some?
    requires mine == MessagesOf(input.AllMessages().value, input.Transactions()[i].hash)
    requires next == ViewAfter(input, m, i + 1)
    ensures var tx := input.Transactions()[i];
            DoneAfter(input, m, items, i) + ([TxItem(tx)] + MessageVisits(EventsOrNone(next), tx.hash, mine)) ==
            DoneAfter(input, m, items, i + 1)
  {
    var txs, msgs := input.Transactions(), input.AllMessages().value;
    assert txs[..i + 1][..i] == txs[..i];
    assert mine != [] ==> AnyVisit(msgs, txs[..i + 1]);
    PhaseGrows(items, msgs, EventsOrNone(next), EventsOrNone(Progress(input, m, true, true)), txs, i);
  }

  /** One round of the loop. */
  method IndexNext(content: LazyBlockContent, ghost m: Memo, ghost items: seq<Item>, n: nat, i: nat,
                   tx: CosmosTransaction, trace: seq<Call>)
    returns (longer: seq<Call>, ok: bool)
    requires content.Valid() && i < |content.input.Transactions()| && tx == content.input.Transactions()[i]
    requires Reached(content.input, m, content.View(), items, n, i, trace)
    modifies content, content.cells
    ensures content.Valid()
    ensures ok <==> content.input.AllMessages().Some?
    ensures ok ==> Reached(content.input, m, content.View(), items, n, i + 1, longer)
    ensures !ok ==> content.View() == Step(content.input, m, TheMessages)
    ensures !ok ==> i == 0 && longer == FanOut(items + [TxItem(tx)], n)
  {
    longer, ok := IndexTransaction(content, trace, DoneAfter(content.input, m, items, i), tx, n);
    if ok {
      ghost var mine := MessagesOf(content.input.AllMessages().value, tx.hash);
      ViewGrows(content.input, m, i, mine);
      DoneGrows(content.input, m, items, i, mine, content.View());
    }
  }

  lemma NothingReached(input: RawInput, m: Memo, items: seq<Item>)
    requires input.Matched()
    ensures ViewAfter(input, m, 0) == m && DoneAfter(input, m, items, 0) == items
  {
    assert input.Transactions()[..0] == [] && items + [] == items;
  }

  lemma AllReached(input: RawInput, m: Memo, items: seq<Item>)
    requires input.Matched()
    requires input.Transactions() == [] || input.AllMessages().Some?
    ensures input.AllMessages().Some?
    ensures ViewAfter(input, m, |input.Transactions()|) == Visited(input, m)
    ensures DoneAfter(input, m, items, |input.Transactions()|) ==
            items + TxPhase(input.AllMessages().value, EventsOrNone(Visited(input, m)), input.Transactions())
  {
    AllVisited(input, m);
    assert input.Transactions()[..|input.Transactions()|] == input.Transactions();
  }

  /** The loop over transactions; it ends before any message when one of them cannot be decoded. */
  method IndexEach(content: LazyBlockContent, trace: seq<Call>, ghost m: Memo, ghost items: seq<Item>,
                   txs: seq<CosmosTransaction>, n: nat)
    returns (longer: seq<Call>, ok: bool)
    requires content.Valid() && txs == content.input.Transactions()
    requires Reached(content.input, m, content.View(), items, n, 0, trace)
    modifies content, content.cells
    ensures content.Valid()
    ensures ok <==> txs == [] || content.input.AllMessages().Some?
    ensures ok ==> Reached(content.input, m, content.View(), items, n, |txs|, longer)
    ensures !ok ==> content.View() == Step(content.input, m, TheMessages)
    ensures !ok ==> longer == FanOut(items + [TxItem(txs[0])], n)
  {
    longer := trace;
    for i := 0 to |txs|
      invariant content.Valid()
      invariant i > 0 ==> content.input.AllMessages().Some?
      invariant Reached(content.input, m, content.View(), items, n, i, longer)
    {
      longer, ok := IndexNext(content, m, items, n, i, txs[i], longer);
      if !ok {
        return;
      }
    }
    ok := true;
  }

  /** The transaction phase, or a stop after the first transaction. */
  method IndexTransactions(content: LazyBlockContent, trace: seq<Call>, ghost items: seq<Item>,
                           txs: seq<CosmosTransaction>, n: nat)
    returns (longer: seq<Call>, ok: bool)
    requires content.Valid() && trace == FanOut(items, n) && txs == content.input.Transactions()
    modifies content, content.cells
    ensures content.Valid()
    ensures ok <==> content.input.AllMessages().Some?
    ensures ok ==> content.View() == Visited(content.input, old(content.View()))
    ensures ok ==> longer ==
                   FanOut(items + TxPhase(content.input.AllMessages().value, EventsOrNone(content.View()), txs), n)
    ensures !ok ==> content.View() == Step(content.input, old(content.View()), TheMessages)
    ensures !ok ==> txs != [] && longer == FanOut(items + [TxItem(txs[0])], n)
  {
    ghost var m := content.View();
    NothingReached(content.input, m, items);
    longer, ok := IndexEach(content, trace, m, items, txs, n);
    if ok {
      AllReached(content.input, m, items);
    }
  }

  method IndexOpening(content: LazyBlockContent, n: nat)
    returns (trace: seq<Call>, txs: seq<CosmosTransaction>, ghost items: seq<Item>)
    requires content.Valid()
    modifies content, content.cells
    ensures content.Valid()
    ensures content.View() == Opened(content.input, old(content.View()))
    ensures content.View().beginEvents.Some? && txs == content.input.Transactions()
    ensures items == [BlockItem(content.input.Block())] + EventItems(content.View().beginEvents.value)
    ensures trace == FanOut(items, n)
  {
    var block := content.GetBlock();
    trace := IndexItem([], [], BlockItem(block), n);
    assert [] + [BlockItem(block)] == [BlockItem(block)];
    var begin := content.GetBeginBlockEvents();
    trace := IndexEvents(trace, [BlockItem(block)], begin, n);
    items := [BlockItem(block)] + EventItems(begin);
    txs := content.GetTransactions();
  }

  lemma LaterStepsKeepBegin(input: RawInput, m: Memo)
    requires input.Matched() && m.beginEvents.Some?
    ensures Step(input, m, TheMessages).beginEvents == m.beginEvents
    ensures var v := Visited(input, m);
            var last := Step(input, v, TheEndEvents);
            && last.beginEvents == m.beginEvents && last.events == v.events && last.endEvents.Some?
  {
  }

  /**
   * The traversal.  When every transaction can be decoded it visits exactly `Items`; otherwise it
   * stops after the first transaction, before any message.
   */
  method IndexBlockData(content: LazyBlockContent, n: nat) returns (trace: seq<Call>, ok: bool)
    requires content.Valid()
    modifies content, content.cells
    ensures content.Valid()
    ensures ok <==> content.input.AllMessages().Some?
    ensures ok ==> content.View() == Run(content.input, old(content.View()), Schedule(content.input))
    ensures ok ==> content.View().beginEvents.Some? && content.View().endEvents.Some?
    ensures ok ==> trace == FanOut(Items(content.input, content.View()), n)
    ensures !ok ==> content.View() == Run(content.input, old(content.View()), Opening() + [TheMessages])
    ensures !ok ==> content.View().beginEvents.Some? && content.input.Transactions() != []
    ensures !ok ==> trace == FanOut([BlockItem(content.input.Block())] + EventItems(content.View().beginEvents.value)
                                    + [TxItem(content.input.Transactions()[0])], n)
  {
    ghost var input := content.input;
    RunOpening(input, content.View());
    if input.AllMessages().Some? {
      RunSchedule(input, content.View());
    }
    var txs;
    ghost var head;
    trace, txs, head := IndexOpening(content, n);
    LaterStepsKeepBegin(input, content.View());
    trace, ok := IndexTransactions(content, trace, head, txs, n);
    if ok {
      ghost var middle := TxPhase(input.AllMessages().value, EventsOrNone(content.View()), txs);
      var end := content.GetEndBlockEvents();
      trace := IndexEvents(trace, head + middle, end, n);
    }
  }
}
