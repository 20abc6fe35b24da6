/**
 * Where the wrapped transactions, messages and events of a block come from, stated on what the
 * RPC calls returned: raw bytes, results, parsed logs and their events, by position.
 */
module Provenance {
  import opened Wrappers
  import opened Text
  import opened CosmosTypes
  import opened BlockContent
  import opened Indexer
  import opened TraceOrder
  import opened EndToEnd

  // ----- single items

  /** The block as fetched. */
  predicate IsBlock(input: RawInput, b: CosmosBlock) {
    b.height == input.info.height && b.rawTxs == input.info.txs && b.txs == input.results.results
  }

  /** The transaction at its own position: result, hash and bytes belong together. */
  predicate IsTx(input: RawInput, tx: CosmosTransaction)
    requires input.Matched()
  {
    && tx.idx < |input.info.txs|
    && tx.raw == input.info.txs[tx.idx]
    && tx.hash == input.codec.hash(input.info.txs[tx.idx])
    && tx.tx == input.results.results[tx.idx]
    && IsBlock(input, tx.block)
  }

  /** The message at its own position in the decoded bytes of its transaction. */
  predicate IsMessage(input: RawInput, m: CosmosMessage)
    requires input.Matched()
  {
    && IsTx(input, m.tx)
    && IsBlock(input, m.block)
    && match input.codec.decodeTx(input.info.txs[m.tx.idx])
       case None => false
       case Some(raws) => m.idx < |raws| && m.raw == raws[m.idx]
  }

  /** The message a log entry's index names in the transaction's bytes, or none. */
  predicate NamesMessage(input: RawInput, tx: CosmosTransaction, msgIndex: int, msg: Option<CosmosMessage>)
    requires input.Matched() && IsTx(input, tx)
  {
    match input.codec.decodeTx(input.info.txs[tx.idx])
    case Some(raws) =>
      if 0 <= msgIndex < |raws|
      then msg.Some? && msg.value.tx == tx && msg.value.idx == msgIndex && IsMessage(input, msg.value)
      else msg.None?
    case None => msg.None?
  }

  /** A transaction event: an event of a log entry of its transaction, with the message the entry names. */
  predicate IsTxEvent(input: RawInput, e: CosmosEvent)
    requires input.Matched()
  {
    && e.tx.Some? && IsTx(input, e.tx.value)
    && e.log.Some?
    && IsBlock(input, e.block)
    && e.event in e.log.value.events
    && NamesMessage(input, e.tx.value, e.log.value.msgIndex, e.msg)
    && match input.codec.parseLog(input.results.results[e.tx.value.idx].log)
       case None => false
       case Some(logs) => e.log.value in logs
  }

  /** A begin-block or end-block event. */
  predicate IsBlockEvent(input: RawInput, e: CosmosEvent) {
    && e.tx.None? && e.msg.None? && e.log.None?
    && IsBlock(input, e.block)
    && (e.event in input.results.beginBlockEvents || e.event in input.results.endBlockEvents)
  }

  // ----- transactions

  /** One transaction per raw transaction, in order, each with its own bytes, hash and result. */
  lemma TransactionsComeFromBytes(input: RawInput)
    requires input.Matched()
    ensures IsBlock(input, input.Block())
    ensures |input.Transactions()| == |input.info.txs|
    ensures forall i | 0 <= i < |input.info.txs| ::
              input.Transactions()[i].idx == i && IsTx(input, input.Transactions()[i])
  {
  }

  // ----- messages

  /** What identifies a message: transaction, position in it, and content. */
  type MessageTag = (nat, nat, RawMessage)

  /** The messages in the bytes of transaction number `i`. */
  function RawMessagesAt(input: RawInput, i: nat): seq<MessageTag>
    requires i < |input.info.txs|
  {
    match input.codec.decodeTx(input.info.txs[i])
    case None => []
    case Some(raws) => seq(|raws|, j requires 0 <= j < |raws| => (i, j, raws[j]))
  }

  function RawMessages(input: RawInput, n: nat): seq<seq<MessageTag>>
    requires n <= |input.info.txs|
  {
    seq(n, i requires 0 <= i < n => RawMessagesAt(input, i))
  }

  function MessageTags(msgs: seq<CosmosMessage>): seq<MessageTag> {
    seq(|msgs|, i requires 0 <= i < |msgs| => (msgs[i].tx.idx, msgs[i].idx, msgs[i].raw))
  }

  /** The messages are those in the bytes of the first `n` transactions. */
  predicate MessagesOfBytes(input: RawInput, msgs: seq<CosmosMessage>, n: nat)
    requires input.Matched() && n <= |input.info.txs|
  {
    MessageTags(msgs) == Flatten(RawMessages(input, n)) && forall m | m in msgs :: IsMessage(input, m)
  }

  lemma {:induction false} MoreMessages(input: RawInput, front: seq<CosmosMessage>, own: seq<CosmosMessage>, k: nat)
    requires input.Matched() && k < |input.info.txs| && MessagesOfBytes(input, front, k)
    requires MessageTags(own) == RawMessagesAt(input, k) && forall m | m in own :: IsMessage(input, m)
    ensures MessagesOfBytes(input, front + own, k + 1)
  {
    assert MessageTags(front + own) == MessageTags(front) + MessageTags(own);
    FlattenSnoc(RawMessages(input, k), RawMessagesAt(input, k));
    assert RawMessages(input, k + 1) == RawMessages(input, k) + [RawMessagesAt(input, k)];
  }

  lemma {:induction false} MessagesUpTo(input: RawInput, n: nat)
    requires input.Matched() && n <= |input.info.txs|
    requires Messages(input.codec, input.Block(), input.Transactions()[..n]).Some?
    ensures MessagesOfBytes(input, Messages(input.codec, input.Block(), input.Transactions()[..n]).value, n)
  {
    var codec, block, txs := input.codec, input.Block(), input.Transactions();
    if n == 0 {
    } else {
      var k: nat := n - 1;
      assert txs[..n][..k] == txs[..k];
      MessagesUpTo(input, k);
      MessagesGrow(codec, block, txs, k);
      var own := TxMessages(block, txs[k], codec.decodeTx(txs[k].raw).value);
      OwnMessagesTagged(input, k, own);
      MoreMessages(input, Messages(codec, block, txs[..k]).value, own, k);
    }
  }

  lemma OwnMessagesTagged(input: RawInput, k: nat, own: seq<CosmosMessage>)
    requires input.Matched() && k < |input.info.txs| && input.codec.decodeTx(input.info.txs[k]).Some?
    requires own == TxMessages(input.Block(), input.Transactions()[k], input.codec.decodeTx(input.info.txs[k]).value)
    ensures MessageTags(own) == RawMessagesAt(input, k)
    ensures forall m | m in own :: IsMessage(input, m)
  {
  }

  /**
   * The message list is the concatenation, over the fetched transactions, of the messages their
   * bytes decode to, and every message carries its own transaction and content.
   */
  lemma MessagesComeFromBytes(input: RawInput)
    requires input.Matched() && input.AllMessages().Some?
    ensures MessageTags(input.AllMessages().value) == Flatten(RawMessages(input, |input.info.txs|))
    ensures forall m | m in input.AllMessages().value :: IsMessage(input, m)
  {
    var n := |input.info.txs|;
    assert input.Transactions()[..n] == input.Transactions();
    MessagesUpTo(input, n);
  }

  // ----- transaction events

  /** What identifies a logged event: transaction, log entry, and content. */
  type EventTag = (nat, Log, Event)

  /** The events of one log entry, in order. */
  function RawLogEvents(i: nat, log: Log): seq<EventTag> {
    seq(|log.events|, k requires 0 <= k < |log.events| => (i, log, log.events[k]))
  }

  function RawLogs(i: nat, logs: seq<Log>, n: nat): seq<seq<EventTag>>
    requires n <= |logs|
  {
    seq(n, j requires 0 <= j < n => RawLogEvents(i, logs[j]))
  }

  /** The events in the log of transaction number `i`; none when it cannot be parsed. */
  function RawEventsAt(input: RawInput, i: nat): seq<EventTag>
    requires i < |input.results.results|
  {
    match input.codec.parseLog(input.results.results[i].log)
    case None => []
    case Some(logs) => Flatten(RawLogs(i, logs, |logs|))
  }

  function RawEvents(input: RawInput, n: nat): seq<seq<EventTag>>
    requires n <= |input.results.results|
  {
    seq(n, i requires 0 <= i < n => RawEventsAt(input, i))
  }

  function PendingTags(pending: seq<Pending>): seq<EventTag> {
    seq(|pending|, i requires 0 <= i < |pending| => (pending[i].tx.idx, pending[i].log, pending[i].event))
  }

  lemma PendingTagsAppend(a: seq<Pending>, b: seq<Pending>)
    ensures PendingTags(a + b) == PendingTags(a) + PendingTags(b)
  {
  }

  /** The pending event is what the log entry says. */
  predicate IsPending(input: RawInput, p: Pending)
    requires input.Matched()
  {
    && IsTx(input, p.tx)
    && p.event in p.log.events
    && NamesMessage(input, p.tx, p.log.msgIndex, p.msg)
    && match input.codec.parseLog(input.results.results[p.tx.idx].log)
       case None => false
       case Some(logs) => p.log in logs
  }

  lemma NamedMessage(input: RawInput, tx: CosmosTransaction, msgIndex: int)
    requires input.Matched() && IsTx(input, tx)
    ensures NamesMessage(input, tx, msgIndex, MessageAt(input.codec, input.Block(), tx, msgIndex))
  {
  }

  /** Event number `k` of a log entry is the entry's event number `k`, with the message the entry names. */
  lemma LogEventsTagged(input: RawInput, tx: CosmosTransaction, log: Log)
    requires input.Matched() && IsTx(input, tx)
    ensures PendingTags(LogEvents(input.codec, input.Block(), tx, log)) == RawLogEvents(tx.idx, log)
    ensures forall p | p in LogEvents(input.codec, input.Block(), tx, log) ::
              p.tx == tx && p.log == log && p.event in log.events && NamesMessage(input, tx, log.msgIndex, p.msg)
  {
    NamedMessage(input, tx, log.msgIndex);
  }

  /** The same after numbering, as the wrapped events of one entry. */
  lemma LogEventsInOrder(codec: Codec, block: CosmosBlock, tx: CosmosTransaction, log: Log, offset: nat)
    ensures var events := Numbered(block, LogEvents(codec, block, tx, log), offset);
            && |events| == |log.events|
            && forall k | 0 <= k < |log.events| ::
                 && events[k].idx == offset + k && events[k].event == log.events[k] && events[k].log == Some(log)
                 && events[k].tx == Some(tx) && events[k].block == block
  {
  }

  lemma {:induction false} LogsTagged(input: RawInput, tx: CosmosTransaction, logs: seq<Log>, n: nat)
    requires input.Matched() && IsTx(input, tx) && n <= |logs|
    ensures PendingTags(LogsEvents(input.codec, input.Block(), tx, logs[..n])) == Flatten(RawLogs(tx.idx, logs, n))
    ensures forall p | p in LogsEvents(input.codec, input.Block(), tx, logs[..n]) ::
              p.tx == tx && p.log in logs && p.event in p.log.events && NamesMessage(input, tx, p.log.msgIndex, p.msg)
  {
    if n == 0 {
    } else {
      var k: nat := n - 1;
      assert logs[..n][..k] == logs[..k];
      LogsTagged(input, tx, logs, k);
      LogEventsTagged(input, tx, logs[k]);
      PendingTagsAppend(LogsEvents(input.codec, input.Block(), tx, logs[..k]),
                        LogEvents(input.codec, input.Block(), tx, logs[k]));
      FlattenSnoc(RawLogs(tx.idx, logs, k), RawLogEvents(tx.idx, logs[k]));
      assert RawLogs(tx.idx, logs, n) == RawLogs(tx.idx, logs, k) + [RawLogEvents(tx.idx, logs[k])];
    }
  }

  lemma TxEventsTagged(input: RawInput, i: nat)
    requires input.Matched() && i < |input.info.txs|
    ensures var own := TxEvents(input.codec, input.Block(), input.Transactions()[i]);
            PendingTags(own) == RawEventsAt(input, i) && forall p | p in own :: IsPending(input, p)
  {
    var tx := input.Transactions()[i];
    match input.codec.parseLog(tx.tx.log)
    case None =>
    case Some(logs) =>
      LogsTagged(input, tx, logs, |logs|);
      assert logs[..|logs|] == logs;
  }

  /** The pending events are those in the logs of the first `n` transactions. */
  predicate EventsOfLogs(input: RawInput, pending: seq<Pending>, n: nat)
    requires input.Matched() && n <= |input.info.txs|
  {
    PendingTags(pending) == Flatten(RawEvents(input, n)) && forall p | p in pending :: IsPending(input, p)
  }

  lemma {:induction false} MoreEvents(input: RawInput, front: seq<Pending>, own: seq<Pending>, k: nat)
    requires input.Matched() && k < |input.info.txs| && EventsOfLogs(input, front, k)
    requires PendingTags(own) == RawEventsAt(input, k) && forall p | p in own :: IsPending(input, p)
    ensures EventsOfLogs(input, front + own, k + 1)
  {
    PendingTagsAppend(front, own);
    FlattenSnoc(RawEvents(input, k), RawEventsAt(input, k));
    assert RawEvents(input, k + 1) == RawEvents(input, k) + [RawEventsAt(input, k)];
  }

  lemma {:induction false} EventsUpTo(input: RawInput, n: nat)
    requires input.Matched() && n <= |input.info.txs|
    ensures EventsOfLogs(input, AllEvents(input.codec, input.Block(), input.Transactions()[..n]), n)
  {
    var codec, block, txs := input.codec, input.Block(), input.Transactions();
    if n == 0 {
    } else {
      var k: nat := n - 1;
      EventsUpTo(input, k);
      TxEventsTagged(input, k);
      AllEventsGrow(codec, block, txs, k);
      MoreEvents(input, AllEvents(codec, block, txs[..k]), TxEvents(codec, block, txs[k]), k);
    }
  }

  function EventTags(events: seq<CosmosEvent>): seq<EventTag>
    requires forall e | e in events :: e.tx.Some? && e.log.Some?
  {
    seq(|events|, i requires 0 <= i < |events| =>
      assert events[i] in events; (events[i].tx.value.idx, events[i].log.value, events[i].event))
  }

  /**
   * The transaction events, numbered from any offset, are the concatenation, over the fetched
   * results with a parsable log, of the events of all log entries; event number `k` has index
   * `offset + k`, and every event carries its own transaction, log entry and message.
   */
  lemma EventsComeFromLogs(input: RawInput, offset: nat)
    requires input.Matched()
    ensures var events := Numbered(input.Block(), input.PendingEvents(), offset);
            && (forall e | e in events :: IsTxEvent(input, e))
            && EventTags(events) == Flatten(RawEvents(input, |input.results.results|))
            && forall k | 0 <= k < |events| :: events[k].idx == offset + k
  {
    var n := |input.info.txs|;
    assert input.Transactions()[..n] == input.Transactions();
    EventsUpTo(input, n);
    NumberedTagged(input, input.PendingEvents(), offset);
  }

  lemma NumberedTagged(input: RawInput, pending: seq<Pending>, offset: nat)
    requires input.Matched() && forall p | p in pending :: IsPending(input, p)
    ensures var events := Numbered(input.Block(), pending, offset);
            && (forall e | e in events :: IsTxEvent(input, e))
            && EventTags(events) == PendingTags(pending)
  {
    var events := Numbered(input.Block(), pending, offset);
    forall e | e in events ensures IsTxEvent(input, e) {
      var i :| 0 <= i < |events| && events[i] == e;
      assert pending[i] in pending;
    }
  }

  // ----- begin-block and end-block events

  /** Wrapped event number `k` is raw event number `k` with index `offset + k`. */
  lemma BlockEventsInOrder(input: RawInput, raws: seq<Event>, offset: nat)
    ensures var events := BlockEvents(input.Block(), raws, offset);
            && |events| == |raws|
            && forall k | 0 <= k < |raws| ::
                 events[k] == CosmosEvent(offset + k, None, None, input.Block(), None, raws[k])
  {
  }

  // ----- what handlers are given

  /** The item says what the block says. */
  predicate IsItem(input: RawInput, item: Item)
    requires input.Matched()
  {
    match item
    case BlockItem(b) => IsBlock(input, b)
    case TxItem(tx) => IsTx(input, tx)
    case MessageItem(m) => IsMessage(input, m)
    case EventItem(e) => IsTxEvent(input, e) || IsBlockEvent(input, e)
  }

  lemma {:induction false} PhaseTxs(msgs: seq<CosmosMessage>, events: seq<CosmosEvent>, txs: seq<CosmosTransaction>,
                                    item: Item)
    requires item in TxPhase(msgs, events, txs)
    ensures item.TxItem? ==> item.tx in txs
    ensures !item.BlockItem?
  {
    var n := |txs| - 1;
    if item in TxPhase(msgs, events, txs[..n]) {
      PhaseTxs(msgs, events, txs[..n], item);
    } else if item != TxItem(txs[n]) {
      VisitsComeFrom(events, txs[n].hash, MessagesOf(msgs, txs[n].hash), item);
    }
  }

  lemma ItemOrigin(input: RawInput, m: Memo, item: Item)
    requires Traversable(input, m) && item in Items(input, m)
    ensures || item == BlockItem(input.Block())
            || item in TxPhase(input.AllMessages().value, EventsOrNone(m), input.Transactions())
            || (item.EventItem? && (item.event in m.beginEvents.value || item.event in m.endEvents.value))
  {
  }

  /** Every item a traversal hands to a handler is true to the fetched block. */
  lemma {:induction false} ItemsAreGenuine(input: RawInput, m: Memo, item: Item)
    requires Traversable(input, m) && item in Items(input, m)
    ensures IsItem(input, item)
  {
    TransactionsComeFromBytes(input);
    ItemOrigin(input, m, item);
    if item in TxPhase(input.AllMessages().value, EventsOrNone(m), input.Transactions()) {
      PhaseIsGenuine(input, m, item);
    } else if item.EventItem? {
      ListedEventsAreGenuine(input, m, item.event);
    }
  }

  lemma {:induction false} PhaseIsGenuine(input: RawInput, m: Memo, item: Item)
    requires Traversable(input, m)
    requires item in TxPhase(input.AllMessages().value, EventsOrNone(m), input.Transactions())
    ensures IsItem(input, item)
  {
    var msgs, txs, events := input.AllMessages().value, input.Transactions(), EventsOrNone(m);
    PhaseTxs(msgs, events, txs, item);
    PhaseComesFrom(msgs, events, txs, item);
    match item
    case TxItem(tx) =>
      TransactionsComeFromBytes(input);
      var i :| 0 <= i < |txs| && txs[i] == tx;
    case MessageItem(_) => MessagesComeFromBytes(input);
    case EventItem(e) => ListedEventsAreGenuine(input, m, e);
  }

  lemma ListedEventsAreGenuine(input: RawInput, m: Memo, e: CosmosEvent)
    requires Traversable(input, m)
    requires e in m.beginEvents.value || e in EventsOrNone(m) || e in m.endEvents.value
    ensures IsTxEvent(input, e) || IsBlockEvent(input, e)
  {
    TransactionsComeFromBytes(input);
    if e in EventsOrNone(m) {
      var k :| m.events.value == Numbered(input.Block(), input.PendingEvents(), k);
      EventsComeFromLogs(input, k);
    } else if e in m.beginEvents.value {
      var i :| 0 <= i < |m.beginEvents.value| && m.beginEvents.value[i] == e;
    } else {
      var i :| 0 <= i < |m.endEvents.value| && m.endEvents.value[i] == e;
    }
  }

  // ----- the phases of a traversal

  /** Block, begin-block events, transactions with messages and events, end-block events. */
  function PhaseOf(input: RawInput, item: Item): nat {
    match item
    case BlockItem(_) => 0
    case EventItem(e) => if e.tx.Some? then 2 else if e.idx < |input.results.beginBlockEvents| then 1 else 3
    case _ => 2
  }

  predicate AllInPhase(input: RawInput, items: seq<Item>, phase: nat) {
    forall i | 0 <= i < |items| :: PhaseOf(input, items[i]) == phase
  }

  lemma FourPhases(input: RawInput, a: seq<Item>, b: seq<Item>, c: seq<Item>, d: seq<Item>)
    requires AllInPhase(input, a, 0) && AllInPhase(input, b, 1) && AllInPhase(input, c, 2) && AllInPhase(input, d, 3)
    ensures var items := a + b + c + d;
            forall i, j | 0 <= i < j < |items| :: PhaseOf(input, items[i]) <= PhaseOf(input, items[j])
  {
    var items := a + b + c + d;
    forall i | 0 <= i < |items|
      ensures PhaseOf(input, items[i]) ==
              if i < |a| then 0 else if i < |a + b| then 1 else if i < |a + b + c| then 2 else 3
    {
      assert i < |a| ==> items[i] == a[i];
      assert |a| <= i < |a + b| ==> items[i] == b[i - |a|];
      assert |a + b| <= i < |a + b + c| ==> items[i] == c[i - |a + b|];
      assert |a + b + c| <= i ==> items[i] == d[i - |a + b + c|];
    }
  }

  lemma TxPhaseIsSecond(input: RawInput, m: Memo)
    requires Traversable(input, m)
    ensures AllInPhase(input, TxPhase(input.AllMessages().value, EventsOrNone(m), input.Transactions()), 2)
  {
    var msgs, events, txs := input.AllMessages().value, EventsOrNone(m), input.Transactions();
    var phase := TxPhase(msgs, events, txs);
    forall i | 0 <= i < |phase| ensures PhaseOf(input, phase[i]) == 2 {
      PhaseTxs(msgs, events, txs, phase[i]);
      PhaseComesFrom(msgs, events, txs, phase[i]);
      if phase[i].EventItem? {
        var k :| m.events.value == Numbered(input.Block(), input.PendingEvents(), k);
        EventsComeFromLogs(input, k);
      }
    }
  }

  /**
   * A traversal goes through the block, its begin-block events, its transactions with their
   * messages and events, and its end-block events in this order, and the block comes once.
   */
  lemma {:induction false} PhasesInOrder(input: RawInput)
    requires input.Matched() && input.AllMessages().Some?
    ensures var last := Run(input, FRESH, Schedule(input));
            && Traversable(input, last)
            && var items := Items(input, last);
               && items[0] == BlockItem(input.Block())
               && (forall i | 0 < i < |items| :: !items[i].BlockItem?)
               && (forall i, j | 0 <= i < j < |items| :: PhaseOf(input, items[i]) <= PhaseOf(input, items[j]))
  {
    var last := Run(input, FRESH, Schedule(input));
    TraversalIsTraversable(input);
    ScheduleOffsets(input, FRESH);
    TxPhaseIsSecond(input, last);
    var phase := TxPhase(input.AllMessages().value, EventsOrNone(last), input.Transactions());
    var b, e := EventItems(last.beginEvents.value), EventItems(last.endEvents.value);
    assert AllInPhase(input, b, 1) && AllInPhase(input, e, 3);
    FourPhases(input, [BlockItem(input.Block())], b, phase, e);
    BlockComesOnce(input, b, phase, e);
  }

  lemma BlockComesOnce(input: RawInput, b: seq<Item>, c: seq<Item>, d: seq<Item>)
    requires AllInPhase(input, b, 1) && AllInPhase(input, c, 2) && AllInPhase(input, d, 3)
    ensures var items := [BlockItem(input.Block())] + b + c + d;
            items[0] == BlockItem(input.Block()) && forall i | 0 < i < |items| :: !items[i].BlockItem?
  {
    var a := [BlockItem(input.Block())];
    var items := a + b + c + d;
    forall i | 0 < i < |items| ensures !items[i].BlockItem? {
      assert i < |a + b| ==> items[i] == b[i - 1];
      assert |a + b| <= i < |a + b + c| ==> items[i] == c[i - |a + b|];
      assert |a + b + c| <= i ==> items[i] == d[i - |a + b + c|];
    }
  }
}
