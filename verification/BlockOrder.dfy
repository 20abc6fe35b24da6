/** Delivery order and event indices over a whole block. */
module BlockOrder {
  import opened Wrappers
  import opened CosmosTypes
  import opened BlockContent
  import opened Indexer
  import opened DeliveryOrder
  import opened EventOrder

  // ----- all transactions

  predicate AllOrdered(parts: seq<Part>) {
    forall i | 0 <= i < |parts| :: Ordered(parts[i].events)
  }

  lemma SplitEqual<T>(a: seq<T>, b: seq<T>, x: seq<T>, y: seq<T>)
    requires |x| == |y|
    ensures a + x == b + y <==> a == b && x == y
  {
    if a + x == b + y {
      assert |a| == |b|;
      assert a == (a + x)[..|a|] && b == (b + y)[..|b|];
      assert x == (a + x)[|a|..] && y == (b + y)[|b|..];
    }
  }

  lemma SameElementsAppend(a: seq<CosmosEvent>, b: seq<CosmosEvent>, x: seq<CosmosEvent>, y: seq<CosmosEvent>)
    requires SameElements(a, b) && SameElements(x, y)
    ensures SameElements(a + x, b + y)
  {
  }

  lemma {:induction false} DeliveredInOrder(parts: seq<Part>)
    requires AllSound(parts)
    ensures EventsIn(LocalPhase(parts)) == WithMessage(PartEvents(parts)) <==> AllOrdered(parts)
    ensures SameElements(EventsIn(LocalPhase(parts)), WithMessage(PartEvents(parts)))
  {
    if parts == [] {
    } else {
      var n := |parts| - 1;
      var front, last := parts[..n], parts[n];
      DeliveredInOrder(front);
      PartInOrder(last);
      EventsInAppend(LocalPhase(front), last.Visit());
      WithMessageAppend(PartEvents(front), last.events);
      var a, b := EventsIn(LocalPhase(front)), WithMessage(PartEvents(front));
      var x, y := EventsIn(last.Visit()), WithMessage(last.events);
      SplitEqual(a, b, x, y);
      SameElementsAppend(a, b, x, y);
      AllOrderedSnoc(front, last);
      assert parts == front + [last];
    }
  }

  // ----- the condition on the logs

  /** The log entry has events, and its index names a message of the transaction. */
  predicate Effective(codec: Codec, block: CosmosBlock, tx: CosmosTransaction, log: Log) {
    log.events != [] && MessageAt(codec, block, tx, log.msgIndex).Some?
  }

  /** Message indices do not decrease along the effective log entries. */
  predicate LogsOrdered(codec: Codec, block: CosmosBlock, tx: CosmosTransaction, logs: seq<Log>) {
    if logs == [] then true
    else
      var n := |logs| - 1;
      && LogsOrdered(codec, block, tx, logs[..n])
      && (Effective(codec, block, tx, logs[n]) ==> LogsBelow(codec, block, tx, logs[..n], logs[n].msgIndex))
  }

  predicate LogsBelow(codec: Codec, block: CosmosBlock, tx: CosmosTransaction, logs: seq<Log>, v: int) {
    forall l | l in logs && Effective(codec, block, tx, l) :: l.msgIndex <= v
  }

  predicate TxInOrder(codec: Codec, block: CosmosBlock, tx: CosmosTransaction) {
    match codec.parseLog(tx.tx.log)
    case None => true
    case Some(logs) => LogsOrdered(codec, block, tx, logs)
  }

  lemma LogEventsShape(codec: Codec, block: CosmosBlock, tx: CosmosTransaction, log: Log, offset: nat)
    ensures var es := Numbered(block, LogEvents(codec, block, tx, log), offset);
            && |es| == |log.events|
            && forall e | e in es :: e.msg == MessageAt(codec, block, tx, log.msgIndex)
  {
  }

  lemma AllBelowAppend(a: seq<CosmosEvent>, b: seq<CosmosEvent>, v: int)
    ensures AllBelow(a + b, v) <==> AllBelow(a, v) && AllBelow(b, v)
  {
  }

  /** The events of one log entry stay below `v` exactly when the entry does. */
  lemma OwnBelow(codec: Codec, block: CosmosBlock, tx: CosmosTransaction, log: Log, offset: nat, v: int)
    ensures AllBelow(Numbered(block, LogEvents(codec, block, tx, log), offset), v) <==>
            (Effective(codec, block, tx, log) ==> log.msgIndex <= v)
  {
    var es := Numbered(block, LogEvents(codec, block, tx, log), offset);
    LogEventsShape(codec, block, tx, log, offset);
    if es != [] {
      assert es[0] in es;
    }
  }

  lemma LogsBelowSnoc(codec: Codec, block: CosmosBlock, tx: CosmosTransaction, logs: seq<Log>, v: int)
    requires logs != []
    ensures var n := |logs| - 1;
            LogsBelow(codec, block, tx, logs, v) <==>
            && LogsBelow(codec, block, tx, logs[..n], v)
            && (Effective(codec, block, tx, logs[n]) ==> logs[n].msgIndex <= v)
  {
    var n := |logs| - 1;
    assert forall l :: l in logs <==> l in logs[..n] || l == logs[n];
  }

  lemma {:induction false} BelowIsBelow(codec: Codec, block: CosmosBlock, tx: CosmosTransaction, logs: seq<Log>,
                                        offset: nat, v: int)
    ensures AllBelow(Numbered(block, LogsEvents(codec, block, tx, logs), offset), v) <==>
            LogsBelow(codec, block, tx, logs, v)
  {
    if logs == [] {
    } else {
      var n := |logs| - 1;
      var front := LogsEvents(codec, block, tx, logs[..n]);
      var own := LogEvents(codec, block, tx, logs[n]);
      BelowIsBelow(codec, block, tx, logs[..n], offset, v);
      NumberedAppend(block, front, own, offset);
      AllBelowAppend(Numbered(block, front, offset), Numbered(block, own, offset + |front|), v);
      OwnBelow(codec, block, tx, logs[n], offset + |front|, v);
      LogsBelowSnoc(codec, block, tx, logs, v);
    }
  }

  lemma {:induction false} OrderedWithout(a: seq<CosmosEvent>, b: seq<CosmosEvent>)
    requires forall e | e in b :: e.msg.None?
    ensures Ordered(a + b) <==> Ordered(a)
  {
    if b == [] {
      assert a + b == a;
    } else {
      var n := |b| - 1;
      OrderedWithout(a, b[..n]);
      assert (a + b)[..|a + b| - 1] == a + b[..n];
      assert b[n] in b;
    }
  }

  lemma {:induction false} LogsAreOrdered(codec: Codec, block: CosmosBlock, tx: CosmosTransaction, logs: seq<Log>,
                                          offset: nat)
    ensures Ordered(Numbered(block, LogsEvents(codec, block, tx, logs), offset)) <==>
            LogsOrdered(codec, block, tx, logs)
  {
    if logs == [] {
    } else {
      var n := |logs| - 1;
      var front := LogsEvents(codec, block, tx, logs[..n]);
      var own := LogEvents(codec, block, tx, logs[n]);
      LogsAreOrdered(codec, block, tx, logs[..n], offset);
      NumberedAppend(block, front, own, offset);
      LogEventsShape(codec, block, tx, logs[n], offset + |front|);
      var a, b := Numbered(block, front, offset), Numbered(block, own, offset + |front|);
      match MessageAt(codec, block, tx, logs[n].msgIndex)
      case None => OrderedWithout(a, b);
      case Some(m) =>
        OrderedAppend(a, b, m.idx);
        BelowIsBelow(codec, block, tx, logs[..n], offset, m.idx);
    }
  }

  lemma TxOrder(codec: Codec, block: CosmosBlock, tx: CosmosTransaction, offset: nat)
    ensures Ordered(PartOf(codec, block, tx, offset).events) <==> TxInOrder(codec, block, tx)
  {
    match codec.parseLog(tx.tx.log)
    case None => assert PartOf(codec, block, tx, offset).events == [];
    case Some(logs) => LogsAreOrdered(codec, block, tx, logs, offset);
  }

  predicate BlockInOrder(codec: Codec, block: CosmosBlock, txs: seq<CosmosTransaction>) {
    forall i | 0 <= i < |txs| :: TxInOrder(codec, block, txs[i])
  }

  lemma AllOrderedSnoc(front: seq<Part>, last: Part)
    ensures AllOrdered(front + [last]) <==> AllOrdered(front) && Ordered(last.events)
  {
    var parts := front + [last];
    assert parts[|front|] == last && forall i | 0 <= i < |front| :: parts[i] == front[i];
  }

  lemma BlockInOrderSnoc(codec: Codec, block: CosmosBlock, front: seq<CosmosTransaction>, tx: CosmosTransaction)
    ensures BlockInOrder(codec, block, front + [tx]) <==>
            BlockInOrder(codec, block, front) && TxInOrder(codec, block, tx)
  {
    var txs := front + [tx];
    assert txs[|front|] == tx && forall i | 0 <= i < |front| :: txs[i] == front[i];
  }

  // ----- a block as its parts

  predicate CarriesTxs(parts: seq<Part>, txs: seq<CosmosTransaction>) {
    PartTxs(parts) == txs
  }

  predicate CarriesEvents(parts: seq<Part>, codec: Codec, block: CosmosBlock, txs: seq<CosmosTransaction>,
                          offset: nat) {
    PartEvents(parts) == Numbered(block, AllEvents(codec, block, txs), offset)
  }

  predicate CarriesMessages(parts: seq<Part>, codec: Codec, block: CosmosBlock, txs: seq<CosmosTransaction>) {
    Messages(codec, block, txs) == Some(PartMsgs(parts))
  }

  predicate CarriesOrder(parts: seq<Part>, codec: Codec, block: CosmosBlock, txs: seq<CosmosTransaction>) {
    AllOrdered(parts) <==> BlockInOrder(codec, block, txs)
  }

  /** The parts carry exactly the transactions, events and messages of the block, and its order. */
  predicate Represents(parts: seq<Part>, codec: Codec, block: CosmosBlock, txs: seq<CosmosTransaction>, offset: nat) {
    && AllSound(parts)
    && CarriesTxs(parts, txs)
    && CarriesEvents(parts, codec, block, txs, offset)
    && CarriesMessages(parts, codec, block, txs)
    && CarriesOrder(parts, codec, block, txs)
  }

  lemma AllSoundSnoc(front: seq<Part>, last: Part)
    requires AllSound(front) && last.Sound()
    ensures AllSound(front + [last])
  {
  }

  lemma TxsSnoc(front: seq<Part>, txs: seq<CosmosTransaction>, last: Part)
    requires CarriesTxs(front, txs)
    ensures CarriesTxs(front + [last], txs + [last.tx])
  {
    PartsSnoc(front, last);
  }

  lemma {:induction false} EventsSnoc(front: seq<Part>, codec: Codec, block: CosmosBlock, txs: seq<CosmosTransaction>,
                                      tx: CosmosTransaction, offset: nat, last: Part, start: nat)
    requires CarriesEvents(front, codec, block, txs, offset) && start == offset + |PartEvents(front)|
    requires last.events == Numbered(block, TxEvents(codec, block, tx), start)
    ensures CarriesEvents(front + [last], codec, block, txs + [tx], offset)
  {
    assert (txs + [tx])[..|txs|] == txs;
    PartsSnoc(front, last);
    var events, own := AllEvents(codec, block, txs), TxEvents(codec, block, tx);
    NumberedGrow(block, events, own, offset, PartEvents(front), last.events);
  }

  lemma MessagesSnoc(front: seq<Part>, codec: Codec, block: CosmosBlock, txs: seq<CosmosTransaction>,
                     tx: CosmosTransaction, last: Part)
    requires CarriesMessages(front, codec, block, txs)
    requires codec.decodeTx(tx.raw).Some? && last.msgs == OwnMessages(codec, block, tx)
    ensures CarriesMessages(front + [last], codec, block, txs + [tx])
  {
    assert (txs + [tx])[..|txs|] == txs;
    PartsSnoc(front, last);
  }

  lemma OrderSnoc(front: seq<Part>, codec: Codec, block: CosmosBlock, txs: seq<CosmosTransaction>,
                  tx: CosmosTransaction, last: Part)
    requires CarriesOrder(front, codec, block, txs)
    requires Ordered(last.events) <==> TxInOrder(codec, block, tx)
    ensures CarriesOrder(front + [last], codec, block, txs + [tx])
  {
    AllOrderedSnoc(front, last);
    BlockInOrderSnoc(codec, block, txs, tx);
  }

  /** The part of one transaction, its events numbered from `start`. */
  lemma OnePart(codec: Codec, block: CosmosBlock, tx: CosmosTransaction, start: nat) returns (last: Part)
    ensures last.Sound() && last.tx == tx && last.msgs == OwnMessages(codec, block, tx)
    ensures last.events == Numbered(block, TxEvents(codec, block, tx), start)
    ensures Ordered(last.events) <==> TxInOrder(codec, block, tx)
  {
    last := PartOf(codec, block, tx, start);
    PartIsSound(codec, block, tx, start);
    TxOrder(codec, block, tx, start);
  }

  lemma SnocLast<T>(s: seq<T>)
    requires s != []
    ensures s[..|s| - 1] + [s[|s| - 1]] == s
  {
  }

  lemma OneMorePart(front: seq<Part>, codec: Codec, block: CosmosBlock, txs: seq<CosmosTransaction>,
                    tx: CosmosTransaction, offset: nat)
    returns (parts: seq<Part>)
    requires Represents(front, codec, block, txs, offset) && codec.decodeTx(tx.raw).Some?
    ensures Represents(parts, codec, block, txs + [tx], offset)
  {
    var start := offset + |PartEvents(front)|;
    var last := OnePart(codec, block, tx, start);
    parts := front + [last];
    AllSoundSnoc(front, last);
    TxsSnoc(front, txs, last);
    EventsSnoc(front, codec, block, txs, tx, offset, last, start);
    MessagesSnoc(front, codec, block, txs, tx, last);
    OrderSnoc(front, codec, block, txs, tx, last);
  }

  /** A block whose transactions decode falls into one part per transaction. */
  lemma {:induction false} BlockHasParts(codec: Codec, block: CosmosBlock, txs: seq<CosmosTransaction>, offset: nat)
    returns (parts: seq<Part>)
    requires AllDecodable(codec, txs)
    ensures Represents(parts, codec, block, txs, offset)
  {
    if txs == [] {
      parts := [];
    } else {
      var n := |txs| - 1;
      var front := BlockHasParts(codec, block, txs[..n], offset);
      parts := OneMorePart(front, codec, block, txs[..n], txs[n], offset);
      SnocLast(txs);
    }
  }

  lemma {:induction false} PartsAreDistinct(parts: seq<Part>)
    requires HashesDistinct(PartTxs(parts))
    ensures Distinct(parts)
  {
    PartTxsAt(parts);
  }

  /** The transaction phase of a block with distinct hashes, part by part. */
  lemma BlockIsLocal(codec: Codec, block: CosmosBlock, txs: seq<CosmosTransaction>, offset: nat)
    returns (parts: seq<Part>)
    requires Messages(codec, block, txs).Some? && HashesDistinct(txs)
    ensures Represents(parts, codec, block, txs, offset)
    ensures TxPhase(Messages(codec, block, txs).value, Numbered(block, AllEvents(codec, block, txs), offset), txs) ==
            LocalPhase(parts)
  {
    MessagesExist(codec, block, txs);
    parts := BlockHasParts(codec, block, txs, offset);
    PartsAreDistinct(parts);
    PhaseIsLocal(parts);
  }

  /** The events delivered in the transaction phase of a block whose events are numbered from `offset`. */
  function Delivered(codec: Codec, block: CosmosBlock, txs: seq<CosmosTransaction>, offset: nat): seq<CosmosEvent>
    requires Messages(codec, block, txs).Some?
  {
    EventsIn(TxPhase(Messages(codec, block, txs).value, Numbered(block, AllEvents(codec, block, txs), offset), txs))
  }

  /**
   * Delivery order.  With distinct transaction hashes, the delivered transaction events are the
   * block's event list without the events that have no message, in the same order, if and only
   * if in every transaction the message indices of the effective log entries do not decrease.
   */
  lemma {:induction false} DeliveryFollowsEventList(codec: Codec, block: CosmosBlock, txs: seq<CosmosTransaction>,
                                                    offset: nat)
    requires Messages(codec, block, txs).Some? && HashesDistinct(txs)
    ensures Delivered(codec, block, txs, offset) == WithMessage(Numbered(block, AllEvents(codec, block, txs), offset))
            <==> BlockInOrder(codec, block, txs)
  {
    DeliveryOfParts(codec, block, txs, offset);
  }

  /** Whatever the order of the logs, the delivered events are those that have a message. */
  lemma {:induction false} DeliveryKeepsAll(codec: Codec, block: CosmosBlock, txs: seq<CosmosTransaction>, offset: nat)
    requires Messages(codec, block, txs).Some? && HashesDistinct(txs)
    ensures SameElements(Delivered(codec, block, txs, offset),
                         WithMessage(Numbered(block, AllEvents(codec, block, txs), offset)))
  {
    DeliveryOfParts(codec, block, txs, offset);
  }

  lemma {:induction false} DeliveryOfParts(codec: Codec, block: CosmosBlock, txs: seq<CosmosTransaction>, offset: nat)
    requires Messages(codec, block, txs).Some? && HashesDistinct(txs)
    ensures var events := WithMessage(Numbered(block, AllEvents(codec, block, txs), offset));
            && (Delivered(codec, block, txs, offset) == events <==> BlockInOrder(codec, block, txs))
            && SameElements(Delivered(codec, block, txs, offset), events)
  {
    var parts := BlockIsLocal(codec, block, txs, offset);
    DeliveredInOrder(parts);
  }

  // ----- transactions and messages

  function TxsIn(items: seq<Item>): seq<CosmosTransaction> {
    if items == [] then []
    else
      var last := items[|items| - 1];
      TxsIn(items[..|items| - 1]) + if last.TxItem? then [last.tx] else []
  }

  function MessagesIn(items: seq<Item>): seq<CosmosMessage> {
    if items == [] then []
    else
      var last := items[|items| - 1];
      MessagesIn(items[..|items| - 1]) + if last.MessageItem? then [last.message] else []
  }

  lemma {:induction false} ItemsInAppend(a: seq<Item>, b: seq<Item>)
    ensures TxsIn(a + b) == TxsIn(a) + TxsIn(b)
    ensures MessagesIn(a + b) == MessagesIn(a) + MessagesIn(b)
  {
    if b == [] {
      assert a + b == a;
    } else {
      assert (a + b)[..|a + b| - 1] == a + b[..|b| - 1];
      ItemsInAppend(a, b[..|b| - 1]);
    }
  }

  lemma {:induction false} EventItemsHoldEvents(events: seq<CosmosEvent>)
    ensures TxsIn(EventItems(events)) == [] && MessagesIn(EventItems(events)) == []
  {
    if events == [] {
    } else {
      var n := |events| - 1;
      assert EventItems(events)[..n] == EventItems(events[..n]);
      EventItemsHoldEvents(events[..n]);
    }
  }

  lemma SingleItem(item: Item)
    ensures TxsIn([item]) == if item.TxItem? then [item.tx] else []
    ensures MessagesIn([item]) == if item.MessageItem? then [item.message] else []
  {
    assert [item][..0] == [];
  }

  lemma VisitHoldsMessage(events: seq<CosmosEvent>, hash: string, m: CosmosMessage)
    ensures TxsIn(MessageVisit(events, hash, m)) == []
    ensures MessagesIn(MessageVisit(events, hash, m)) == [m]
  {
    EventItemsHoldEvents(EventsFor(events, hash, m.idx));
    SingleItem(MessageItem(m));
    ItemsInAppend([MessageItem(m)], EventItems(EventsFor(events, hash, m.idx)));
  }

  lemma {:induction false} VisitsHoldMessages(events: seq<CosmosEvent>, hash: string, msgs: seq<CosmosMessage>)
    ensures TxsIn(MessageVisits(events, hash, msgs)) == []
    ensures MessagesIn(MessageVisits(events, hash, msgs)) == msgs
  {
    if msgs == [] {
    } else {
      var front, m := msgs[..|msgs| - 1], msgs[|msgs| - 1];
      var visits, visit := MessageVisits(events, hash, front), MessageVisit(events, hash, m);
      VisitsHoldMessages(events, hash, front);
      VisitHoldsMessage(events, hash, m);
      ItemsInAppend(visits, visit);
      SnocLast(msgs);
      assert MessageVisits(events, hash, msgs) == visits + visit;
    }
  }

  lemma PartHoldsAll(p: Part)
    ensures TxsIn(p.Visit()) == [p.tx] && MessagesIn(p.Visit()) == p.msgs
  {
    var visits := MessageVisits(p.events, p.tx.hash, p.msgs);
    VisitsHoldMessages(p.events, p.tx.hash, p.msgs);
    SingleItem(TxItem(p.tx));
    ItemsInAppend([TxItem(p.tx)], visits);
    assert [p.tx] + [] == [p.tx] && [] + p.msgs == p.msgs;
  }

  lemma {:induction false} PartsHoldAll(parts: seq<Part>)
    ensures TxsIn(LocalPhase(parts)) == PartTxs(parts)
    ensures MessagesIn(LocalPhase(parts)) == PartMsgs(parts)
  {
    if parts == [] {
    } else {
      var n := |parts| - 1;
      PartsHoldAll(parts[..n]);
      PartHoldsAll(parts[n]);
      ItemsInAppend(LocalPhase(parts[..n]), parts[n].Visit());
    }
  }

  /** With distinct hashes every transaction and every message is delivered exactly once, in order. */
  lemma {:induction false} TxsAndMessagesInOrder(codec: Codec, block: CosmosBlock, txs: seq<CosmosTransaction>,
                                                 offset: nat)
    requires AllDecodable(codec, txs) && HashesDistinct(txs)
    ensures Messages(codec, block, txs).Some?
    ensures var events := Numbered(block, AllEvents(codec, block, txs), offset);
            var phase := TxPhase(Messages(codec, block, txs).value, events, txs);
            TxsIn(phase) == txs && MessagesIn(phase) == Messages(codec, block, txs).value
  {
    MessagesExist(codec, block, txs);
    var parts := BlockIsLocal(codec, block, txs, offset);
    PartsHoldAll(parts);
  }
}
