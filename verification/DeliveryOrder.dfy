/**
 * The order in which transaction events are delivered, for blocks whose transactions have
 * distinct hashes and can be decoded.
 */
module DeliveryOrder {
  import opened Wrappers
  import opened CosmosTypes
  import opened BlockContent
  import opened Indexer

  predicate HashesDistinct(txs: seq<CosmosTransaction>) {
    forall i, j | 0 <= i < j < |txs| :: txs[i].hash != txs[j].hash
  }

  function EventsIn(items: seq<Item>): seq<CosmosEvent> {
    if items == [] then []
    else
      var last := items[|items| - 1];
      EventsIn(items[..|items| - 1]) + if last.EventItem? then [last.event] else []
  }

  function WithMessage(events: seq<CosmosEvent>): seq<CosmosEvent> {
    if events == [] then []
    else
      var last := events[|events| - 1];
      WithMessage(events[..|events| - 1]) + if last.msg.Some? then [last] else []
  }

  // ----- appending

  lemma {:induction false} EventsInAppend(a: seq<Item>, b: seq<Item>)
    ensures EventsIn(a + b) == EventsIn(a) + EventsIn(b)
  {
    if b == [] {
      assert a + b == a;
    } else {
      assert (a + b)[..|a + b| - 1] == a + b[..|b| - 1];
      EventsInAppend(a, b[..|b| - 1]);
    }
  }

  lemma {:induction false} EventsInItems(events: seq<CosmosEvent>)
    ensures EventsIn(EventItems(events)) == events
  {
    if events == [] {
    } else {
      var n := |events| - 1;
      assert EventItems(events)[..n] == EventItems(events[..n]);
      EventsInItems(events[..n]);
      assert events == events[..n] + [events[n]];
    }
  }

  lemma {:induction false} WithMessageAppend(a: seq<CosmosEvent>, b: seq<CosmosEvent>)
    ensures WithMessage(a + b) == WithMessage(a) + WithMessage(b)
  {
    if b == [] {
      assert a + b == a;
    } else {
      assert (a + b)[..|a + b| - 1] == a + b[..|b| - 1];
      WithMessageAppend(a, b[..|b| - 1]);
    }
  }

  lemma {:induction false} EventsForAppend(a: seq<CosmosEvent>, b: seq<CosmosEvent>, hash: string, idx: nat)
    ensures EventsFor(a + b, hash, idx) == EventsFor(a, hash, idx) + EventsFor(b, hash, idx)
  {
    if b == [] {
      assert a + b == a;
    } else {
      assert (a + b)[..|a + b| - 1] == a + b[..|b| - 1];
      EventsForAppend(a, b[..|b| - 1], hash, idx);
    }
  }

  lemma {:induction false} MessagesOfAppend(a: seq<CosmosMessage>, b: seq<CosmosMessage>, hash: string)
    ensures MessagesOf(a + b, hash) == MessagesOf(a, hash) + MessagesOf(b, hash)
  {
    if b == [] {
      assert a + b == a;
    } else {
      assert (a + b)[..|a + b| - 1] == a + b[..|b| - 1];
      MessagesOfAppend(a, b[..|b| - 1], hash);
    }
  }

  // ----- the join is local to a transaction when hashes are distinct

  predicate EventsOf(events: seq<CosmosEvent>, hash: string) {
    forall i | 0 <= i < |events| :: events[i].tx.Some? && events[i].tx.value.hash == hash
  }

  predicate NoneOf(events: seq<CosmosEvent>, hash: string) {
    forall i | 0 <= i < |events| :: events[i].tx.Some? && events[i].tx.value.hash != hash
  }

  predicate AllOf(msgs: seq<CosmosMessage>, hash: string) {
    forall i | 0 <= i < |msgs| :: msgs[i].tx.hash == hash
  }

  lemma {:induction false} EventsForOthers(events: seq<CosmosEvent>, own: string, hash: string, idx: nat)
    requires EventsOf(events, own) && own != hash
    ensures EventsFor(events, hash, idx) == []
  {
    if events == [] {
    } else {
      EventsForOthers(events[..|events| - 1], own, hash, idx);
    }
  }

  lemma {:induction false} MessagesOfOwn(msgs: seq<CosmosMessage>, own: string, hash: string)
    requires AllOf(msgs, own)
    ensures MessagesOf(msgs, hash) == if own == hash then msgs else []
  {
    if msgs == [] {
    } else {
      var n := |msgs| - 1;
      MessagesOfOwn(msgs[..n], own, hash);
      assert msgs == msgs[..n] + [msgs[n]];
    }
  }

  /** The events of a transaction with another hash do not show in a message's visit. */
  lemma VisitIgnoresLater(a: seq<CosmosEvent>, b: seq<CosmosEvent>, own: string, hash: string, m: CosmosMessage)
    requires EventsOf(b, own) && own != hash
    ensures MessageVisit(a + b, hash, m) == MessageVisit(a, hash, m)
  {
    EventsForAppend(a, b, hash, m.idx);
    EventsForOthers(b, own, hash, m.idx);
    assert EventsFor(a, hash, m.idx) + [] == EventsFor(a, hash, m.idx);
  }

  lemma {:induction false} VisitsIgnoreOthers(a: seq<CosmosEvent>, b: seq<CosmosEvent>, own: string, hash: string,
                                              msgs: seq<CosmosMessage>)
    requires EventsOf(b, own) && own != hash
    ensures MessageVisits(a + b, hash, msgs) == MessageVisits(a, hash, msgs)
  {
    if msgs == [] {
    } else {
      var front, m := msgs[..|msgs| - 1], msgs[|msgs| - 1];
      VisitsIgnoreOthers(a, b, own, hash, front);
      VisitIgnoresLater(a, b, own, hash, m);
    }
  }

  lemma VisitIgnoresOthers(ms: seq<CosmosMessage>, ms': seq<CosmosMessage>, es: seq<CosmosEvent>, es': seq<CosmosEvent>,
                           own: string, tx: CosmosTransaction)
    requires AllOf(ms', own) && EventsOf(es', own) && tx.hash != own
    ensures TxVisit(ms + ms', es + es', tx) == TxVisit(ms, es, tx)
  {
    MessagesOfAppend(ms, ms', tx.hash);
    MessagesOfOwn(ms', own, tx.hash);
    assert MessagesOf(ms, tx.hash) + [] == MessagesOf(ms, tx.hash);
    VisitsIgnoreOthers(es, es', own, tx.hash, MessagesOf(ms, tx.hash));
  }

  /** Messages and events of a transaction with another hash do not show. */
  lemma {:induction false} PhaseIgnoresOthers(ms: seq<CosmosMessage>, ms': seq<CosmosMessage>, es: seq<CosmosEvent>,
                                              es': seq<CosmosEvent>, own: string, txs: seq<CosmosTransaction>)
    requires AllOf(ms', own) && EventsOf(es', own)
    requires forall tx | tx in txs :: tx.hash != own
    ensures TxPhase(ms + ms', es + es', txs) == TxPhase(ms, es, txs)
  {
    if txs == [] {
    } else {
      var n := |txs| - 1;
      PhaseIgnoresOthers(ms, ms', es, es', own, txs[..n]);
      VisitIgnoresOthers(ms, ms', es, es', own, txs[n]);
    }
  }

  lemma {:induction false} NothingFor(events: seq<CosmosEvent>, hash: string, idx: nat)
    requires NoneOf(events, hash)
    ensures EventsFor(events, hash, idx) == []
  {
    if events == [] {
    } else {
      NothingFor(events[..|events| - 1], hash, idx);
    }
  }

  lemma {:induction false} NoMessagesOf(msgs: seq<CosmosMessage>, hash: string)
    requires forall m | m in msgs :: m.tx.hash != hash
    ensures MessagesOf(msgs, hash) == []
  {
    if msgs == [] {
    } else {
      NoMessagesOf(msgs[..|msgs| - 1], hash);
    }
  }

  lemma VisitSkipsEarlier(a: seq<CosmosEvent>, b: seq<CosmosEvent>, hash: string, m: CosmosMessage)
    requires NoneOf(a, hash)
    ensures MessageVisit(a + b, hash, m) == MessageVisit(b, hash, m)
  {
    EventsForAppend(a, b, hash, m.idx);
    NothingFor(a, hash, m.idx);
    assert [] + EventsFor(b, hash, m.idx) == EventsFor(b, hash, m.idx);
  }

  lemma {:induction false} VisitsSkipEarlier(a: seq<CosmosEvent>, b: seq<CosmosEvent>, hash: string,
                                             msgs: seq<CosmosMessage>)
    requires NoneOf(a, hash)
    ensures MessageVisits(a + b, hash, msgs) == MessageVisits(b, hash, msgs)
  {
    if msgs == [] {
    } else {
      var front, m := msgs[..|msgs| - 1], msgs[|msgs| - 1];
      VisitsSkipEarlier(a, b, hash, front);
      VisitSkipsEarlier(a, b, hash, m);
    }
  }

  lemma {:induction false} VisitIsLocal(ms: seq<CosmosMessage>, ms': seq<CosmosMessage>, es: seq<CosmosEvent>,
                                        es': seq<CosmosEvent>, tx: CosmosTransaction)
    requires AllOf(ms', tx.hash)
    requires forall m | m in ms :: m.tx.hash != tx.hash
    requires NoneOf(es, tx.hash)
    ensures TxVisit(ms + ms', es + es', tx) == [TxItem(tx)] + MessageVisits(es', tx.hash, ms')
  {
    MessagesOfAppend(ms, ms', tx.hash);
    NoMessagesOf(ms, tx.hash);
    MessagesOfOwn(ms', tx.hash, tx.hash);
    assert [] + ms' == ms';
    VisitsSkipEarlier(es, es', tx.hash, ms');
  }

  lemma {:induction false} PhaseStep(ms: seq<CosmosMessage>, ms': seq<CosmosMessage>, es: seq<CosmosEvent>,
                                     es': seq<CosmosEvent>, front: seq<CosmosTransaction>, tx: CosmosTransaction)
    requires forall t | t in front :: t.hash != tx.hash
    requires AllOf(ms', tx.hash) && EventsOf(es', tx.hash)
    requires NoneOf(es, tx.hash) && forall m | m in ms :: m.tx.hash != tx.hash
    ensures TxPhase(ms + ms', es + es', front + [tx]) ==
            TxPhase(ms, es, front) + ([TxItem(tx)] + MessageVisits(es', tx.hash, ms'))
  {
    PhaseIgnoresOthers(ms, ms', es, es', tx.hash, front);
    VisitIsLocal(ms, ms', es, es', tx);
    assert (front + [tx])[..|front|] == front;
  }

  // ----- a block as one part per transaction

  datatype Part = Part(tx: CosmosTransaction, msgs: seq<CosmosMessage>, events: seq<CosmosEvent>)
  {
    /** Messages and events are those of the transaction, and events know their messages. */
    predicate Sound() {
      && (forall i | 0 <= i < |msgs| :: msgs[i].tx == tx && msgs[i].idx == i)
      && (forall i | 0 <= i < |events| :: events[i].tx == Some(tx))
      && (forall i | 0 <= i < |events| && events[i].msg.Some? ::
            var m := events[i].msg.value; m.idx < |msgs| && m == msgs[m.idx])
    }

    function Visit(): seq<Item> {
      [TxItem(tx)] + MessageVisits(events, tx.hash, msgs)
    }
  }

  function PartTxs(parts: seq<Part>): seq<CosmosTransaction> {
    if parts == [] then [] else PartTxs(parts[..|parts| - 1]) + [parts[|parts| - 1].tx]
  }

  function PartMsgs(parts: seq<Part>): seq<CosmosMessage> {
    if parts == [] then [] else PartMsgs(parts[..|parts| - 1]) + parts[|parts| - 1].msgs
  }

  function PartEvents(parts: seq<Part>): seq<CosmosEvent> {
    if parts == [] then [] else PartEvents(parts[..|parts| - 1]) + parts[|parts| - 1].events
  }

  function LocalPhase(parts: seq<Part>): seq<Item> {
    if parts == [] then [] else LocalPhase(parts[..|parts| - 1]) + parts[|parts| - 1].Visit()
  }

  predicate AllSound(parts: seq<Part>) {
    forall i | 0 <= i < |parts| :: parts[i].Sound()
  }

  predicate Distinct(parts: seq<Part>) {
    forall i, j | 0 <= i < j < |parts| :: parts[i].tx.hash != parts[j].tx.hash
  }

  lemma {:induction false} PartsWithout(parts: seq<Part>, hash: string)
    requires AllSound(parts) && forall i | 0 <= i < |parts| :: parts[i].tx.hash != hash
    ensures NoneOf(PartEvents(parts), hash)
    ensures forall m | m in PartMsgs(parts) :: m.tx.hash != hash
    ensures forall tx | tx in PartTxs(parts) :: tx.hash != hash
  {
    if parts == [] {
    } else {
      PartsWithout(parts[..|parts| - 1], hash);
    }
  }

  /** With distinct hashes the join over the whole block is a join within each transaction. */
  lemma {:induction false} PhaseIsLocal(parts: seq<Part>)
    requires AllSound(parts) && Distinct(parts)
    ensures TxPhase(PartMsgs(parts), PartEvents(parts), PartTxs(parts)) == LocalPhase(parts)
  {
    if parts == [] {
    } else {
      var n := |parts| - 1;
      var front, last := parts[..n], parts[n];
      PhaseIsLocal(front);
      PartsWithout(front, last.tx.hash);
      PhaseStep(PartMsgs(front), last.msgs, PartEvents(front), last.events, PartTxs(front), last.tx);
    }
  }

  // ----- the parts of a block

  function OwnMessages(codec: Codec, block: CosmosBlock, tx: CosmosTransaction): seq<CosmosMessage> {
    match codec.decodeTx(tx.raw)
    case None => []
    case Some(raws) => TxMessages(block, tx, raws)
  }

  function PartOf(codec: Codec, block: CosmosBlock, tx: CosmosTransaction, offset: nat): Part {
    Part(tx, OwnMessages(codec, block, tx), Numbered(block, TxEvents(codec, block, tx), offset))
  }

  lemma {:induction false} LogsBelong(codec: Codec, block: CosmosBlock, tx: CosmosTransaction, logs: seq<Log>)
    ensures forall i | 0 <= i < |LogsEvents(codec, block, tx, logs)| ::
              var p := LogsEvents(codec, block, tx, logs)[i];
              p.tx == tx && p.msg == MessageAt(codec, block, tx, p.log.msgIndex)
  {
    if logs == [] {
    } else {
      LogsBelong(codec, block, tx, logs[..|logs| - 1]);
    }
  }

  lemma PartIsSound(codec: Codec, block: CosmosBlock, tx: CosmosTransaction, offset: nat)
    ensures PartOf(codec, block, tx, offset).Sound()
  {
    match codec.parseLog(tx.tx.log)
    case None =>
    case Some(logs) => LogsBelong(codec, block, tx, logs);
  }

  lemma {:induction false} PartsSnoc(front: seq<Part>, last: Part)
    ensures PartEvents(front + [last]) == PartEvents(front) + last.events
    ensures PartTxs(front + [last]) == PartTxs(front) + [last.tx]
    ensures PartMsgs(front + [last]) == PartMsgs(front) + last.msgs
  {
    assert (front + [last])[..|front|] == front;
  }

  lemma {:induction false} PartTxsAt(parts: seq<Part>)
    ensures |PartTxs(parts)| == |parts|
    ensures forall i | 0 <= i < |parts| :: PartTxs(parts)[i] == parts[i].tx
  {
    if parts == [] {
    } else {
      PartTxsAt(parts[..|parts| - 1]);
    }
  }
}
