/** What the traversal of a block delivers: how often, in which order, and to whom. */
module Delivery {
  import opened CosmosTypes
  import opened BlockContent
  import opened Indexer

  // ----- every datasource sees every item

  function ItemsTo(trace: seq<Call>, ds: nat): seq<Item> {
    if trace == [] then []
    else
      var last := trace[|trace| - 1];
      ItemsTo(trace[..|trace| - 1], ds) + if last.ds == ds then [last.item] else []
  }

  lemma {:induction false} ItemsToAppend(a: seq<Call>, b: seq<Call>, ds: nat)
    ensures ItemsTo(a + b, ds) == ItemsTo(a, ds) + ItemsTo(b, ds)
  {
    if b == [] {
      assert a + b == a;
    } else {
      var n := |b| - 1;
      assert (a + b)[..|a + b| - 1] == a + b[..n];
      ItemsToAppend(a, b[..n], ds);
    }
  }

  lemma {:induction false} CallsReachOnce(item: Item, n: nat, ds: nat)
    ensures ItemsTo(CallsFor(item, n), ds) == if ds < n then [item] else []
    decreases n
  {
    if n == 0 {
    } else {
      assert CallsFor(item, n)[..n - 1] == CallsFor(item, n - 1);
      CallsReachOnce(item, n - 1, ds);
    }
  }

  /** Whatever the number of datasources, each of them is handed exactly the items, in order. */
  lemma {:induction false} EachDatasourceSeesAll(items: seq<Item>, n: nat, ds: nat)
    requires ds < n
    ensures ItemsTo(FanOut(items, n), ds) == items
  {
    if items == [] {
    } else {
      var k := |items| - 1;
      EachDatasourceSeesAll(items[..k], n, ds);
      CallsReachOnce(items[k], n, ds);
      ItemsToAppend(FanOut(items[..k], n), CallsFor(items[k], n), ds);
      assert items == items[..k] + [items[k]];
    }
  }

  // ----- how often an event is delivered, for any block

  function Count<T(==)>(s: seq<T>, x: T): nat {
    if s == [] then 0 else Count(s[..|s| - 1], x) + if s[|s| - 1] == x then 1 else 0
  }

  lemma {:induction false} CountAppended<T>(a: seq<T>, b: seq<T>, x: T)
    ensures Count(a + b, x) == Count(a, x) + Count(b, x)
  {
    if b == [] {
      assert a + b == a;
    } else {
      assert (a + b)[..|a + b| - 1] == a + b[..|b| - 1];
      CountAppended(a, b[..|b| - 1], x);
    }
  }

  lemma CountOne<T>(y: T, x: T)
    ensures Count([y], x) == if y == x then 1 else 0
  {
    assert [y][..0] == [];
  }

  lemma {:induction false} CountZero<T>(s: seq<T>, x: T)
    ensures Count(s, x) == 0 <==> x !in s
  {
    if s == [] {
    } else {
      CountZero(s[..|s| - 1], x);
    }
  }

  function CountTxs(txs: seq<CosmosTransaction>, hash: string): nat {
    if txs == [] then 0
    else CountTxs(txs[..|txs| - 1], hash) + if txs[|txs| - 1].hash == hash then 1 else 0
  }

  function CountMessages(msgs: seq<CosmosMessage>, hash: string, idx: nat): nat {
    if msgs == [] then 0
    else
      var m := msgs[|msgs| - 1];
      CountMessages(msgs[..|msgs| - 1], hash, idx) + if m.tx.hash == hash && m.idx == idx then 1 else 0
  }

  lemma {:induction false} EventsForCount(events: seq<CosmosEvent>, hash: string, idx: nat, e: CosmosEvent)
    ensures Count(EventsFor(events, hash, idx), e) == if Belongs(e, hash, idx) then Count(events, e) else 0
  {
    if events == [] {
    } else {
      var n := |events| - 1;
      EventsForCount(events[..n], hash, idx, e);
      var front := EventsFor(events[..n], hash, idx);
      if Belongs(events[n], hash, idx) {
        assert EventsFor(events, hash, idx) == front + [events[n]];
        CountAppended(front, [events[n]], e);
        CountOne(events[n], e);
      } else {
        assert EventsFor(events, hash, idx) == front;
      }
    }
  }

  lemma {:induction false} EventItemsCount(events: seq<CosmosEvent>, e: CosmosEvent)
    ensures Count(EventItems(events), EventItem(e)) == Count(events, e)
  {
    if events == [] {
    } else {
      var n := |events| - 1;
      EventItemsCount(events[..n], e);
      assert EventItems(events)[..n] == EventItems(events[..n]);
    }
  }

  /** The messages of `msgs` whose index is that of the event's own message. */
  function CountIndex(msgs: seq<CosmosMessage>, idx: nat): nat {
    if msgs == [] then 0
    else CountIndex(msgs[..|msgs| - 1], idx) + if msgs[|msgs| - 1].idx == idx then 1 else 0
  }

  lemma {:induction false} CountIndexSnoc(msgs: seq<CosmosMessage>, m: CosmosMessage, idx: nat)
    ensures CountIndex(msgs + [m], idx) == CountIndex(msgs, idx) + if m.idx == idx then 1 else 0
  {
    assert (msgs + [m])[..|msgs|] == msgs;
  }

  lemma {:induction false} CountJoined(msgs: seq<CosmosMessage>, hash: string, idx: nat)
    ensures CountIndex(MessagesOf(msgs, hash), idx) == CountMessages(msgs, hash, idx)
  {
    if msgs == [] {
    } else {
      var front, m := msgs[..|msgs| - 1], msgs[|msgs| - 1];
      CountJoined(front, hash, idx);
      if m.tx.hash == hash {
        CountIndexSnoc(MessagesOf(front, hash), m, idx);
      } else {
        assert MessagesOf(msgs, hash) == MessagesOf(front, hash);
      }
    }
  }

  lemma OneMore(n: nat, c: nat)
    ensures (n + 1) * c == n * c + c
  {
  }

  /** One message contributes the event as often as it is listed, when it is the event's message. */
  lemma {:induction false} MessageVisitCount(events: seq<CosmosEvent>, hash: string, m: CosmosMessage, e: CosmosEvent)
    ensures Count(MessageVisit(events, hash, m), EventItem(e)) ==
            if Belongs(e, hash, m.idx) then Count(events, e) else 0
  {
    var mine := EventsFor(events, hash, m.idx);
    EventsForCount(events, hash, m.idx, e);
    EventItemsCount(mine, e);
    CountAppended([MessageItem(m)], EventItems(mine), EventItem(e));
    CountOne(MessageItem(m), EventItem(e));
  }

  lemma {:induction false} VisitsCount(events: seq<CosmosEvent>, hash: string, msgs: seq<CosmosMessage>, e: CosmosEvent)
    requires e.tx.Some? && e.msg.Some?
    ensures Count(MessageVisits(events, hash, msgs), EventItem(e)) ==
            if e.tx.value.hash == hash then CountIndex(msgs, e.msg.value.idx) * Count(events, e) else 0
  {
    if msgs == [] {
    } else {
      var front, m := msgs[..|msgs| - 1], msgs[|msgs| - 1];
      VisitsCount(events, hash, front, e);
      MessageVisitCount(events, hash, m, e);
      CountAppended(MessageVisits(events, hash, front), MessageVisit(events, hash, m), EventItem(e));
      OneMore(CountIndex(front, e.msg.value.idx), Count(events, e));
    }
  }

  lemma {:induction false} VisitCount(msgs: seq<CosmosMessage>, events: seq<CosmosEvent>, tx: CosmosTransaction,
                                      e: CosmosEvent)
    requires e.tx.Some? && e.msg.Some?
    ensures Count(TxVisit(msgs, events, tx), EventItem(e)) ==
            if tx.hash == e.tx.value.hash
            then CountMessages(msgs, e.tx.value.hash, e.msg.value.idx) * Count(events, e)
            else 0
  {
    var visits := MessageVisits(events, tx.hash, MessagesOf(msgs, tx.hash));
    VisitsCount(events, tx.hash, MessagesOf(msgs, tx.hash), e);
    CountJoined(msgs, tx.hash, e.msg.value.idx);
    CountAppended([TxItem(tx)], visits, EventItem(e));
    CountOne(TxItem(tx), EventItem(e));
  }

  /**
   * The multiplicity of an event in the transaction phase is the number of transactions with its
   * hash times the number of messages with that hash and its message index.
   */
  lemma {:induction false} PhaseCount(msgs: seq<CosmosMessage>, events: seq<CosmosEvent>, txs: seq<CosmosTransaction>,
                                      e: CosmosEvent)
    requires e.tx.Some? && e.msg.Some?
    ensures Count(TxPhase(msgs, events, txs), EventItem(e)) ==
            CountTxs(txs, e.tx.value.hash) *
            (CountMessages(msgs, e.tx.value.hash, e.msg.value.idx) * Count(events, e))
  {
    if txs == [] {
    } else {
      var n := |txs| - 1;
      var hash := e.tx.value.hash;
      var each := CountMessages(msgs, hash, e.msg.value.idx) * Count(events, e);
      PhaseCount(msgs, events, txs[..n], e);
      VisitCount(msgs, events, txs[n], e);
      CountAppended(TxPhase(msgs, events, txs[..n]), TxVisit(msgs, events, txs[n]), EventItem(e));
      if txs[n].hash == hash {
        assert CountTxs(txs, hash) == CountTxs(txs[..n], hash) + 1;
        OneMore(CountTxs(txs[..n], hash), each);
      } else {
        assert CountTxs(txs, hash) == CountTxs(txs[..n], hash);
      }
    }
  }

  /** Events without a message never reach a handler in the transaction phase. */
  lemma {:induction false} OrphansAreNotDelivered(msgs: seq<CosmosMessage>, events: seq<CosmosEvent>,
                                                  txs: seq<CosmosTransaction>, e: CosmosEvent)
    requires e.msg.None?
    ensures EventItem(e) !in TxPhase(msgs, events, txs)
  {
    if txs == [] {
    } else {
      var n := |txs| - 1;
      OrphansAreNotDelivered(msgs, events, txs[..n], e);
      OrphansAreNotVisited(events, txs[n].hash, MessagesOf(msgs, txs[n].hash), e);
    }
  }

  lemma {:induction false} OrphansAreNotVisited(events: seq<CosmosEvent>, hash: string, msgs: seq<CosmosMessage>,
                                                e: CosmosEvent)
    requires e.msg.None?
    ensures EventItem(e) !in MessageVisits(events, hash, msgs)
  {
    if msgs == [] {
    } else {
      var n := |msgs| - 1;
      OrphansAreNotVisited(events, hash, msgs[..n], e);
      EventsForCount(events, hash, msgs[n].idx, e);
      EventItemsCount(EventsFor(events, hash, msgs[n].idx), e);
      CountZero(EventItems(EventsFor(events, hash, msgs[n].idx)), EventItem(e));
    }
  }

  // ----- exactly once

  predicate Sole(txs: seq<CosmosTransaction>, hash: string) {
    forall i, j | 0 <= i < j < |txs| :: txs[i].hash == hash ==> txs[j].hash != hash
  }

  lemma {:induction false} CountTxsMeaning(txs: seq<CosmosTransaction>, hash: string)
    ensures CountTxs(txs, hash) > 0 <==> exists i | 0 <= i < |txs| :: txs[i].hash == hash
    ensures CountTxs(txs, hash) <= 1 <==> Sole(txs, hash)
  {
    if txs == [] {
    } else {
      var n := |txs| - 1;
      CountTxsMeaning(txs[..n], hash);
      if Sole(txs[..n], hash) && (txs[n].hash != hash || CountTxs(txs[..n], hash) == 0) {
        assert Sole(txs, hash);
      }
    }
  }

  lemma {:induction false} CountAppend(a: seq<CosmosMessage>, b: seq<CosmosMessage>, hash: string, idx: nat)
    ensures CountMessages(a + b, hash, idx) == CountMessages(a, hash, idx) + CountMessages(b, hash, idx)
  {
    if b == [] {
      assert a + b == a;
    } else {
      var n := |b| - 1;
      assert (a + b)[..|a + b| - 1] == a + b[..n];
      CountAppend(a, b[..n], hash, idx);
    }
  }

  lemma {:induction false} CountOfTx(block: CosmosBlock, tx: CosmosTransaction, raws: seq<RawMessage>, n: nat,
                                     hash: string, idx: nat)
    requires n <= |raws|
    ensures CountMessages(TxMessages(block, tx, raws)[..n], hash, idx) == if tx.hash == hash && idx < n then 1 else 0
  {
    if n == 0 {
    } else {
      assert TxMessages(block, tx, raws)[..n][..n - 1] == TxMessages(block, tx, raws)[..n - 1];
      CountOfTx(block, tx, raws, n - 1, hash, idx);
    }
  }

  /** What the last transaction adds to the count. */
  lemma CountLast(codec: Codec, block: CosmosBlock, txs: seq<CosmosTransaction>, hash: string, idx: nat)
    requires txs != [] && Messages(codec, block, txs).Some?
    ensures var n := |txs| - 1;
            var raws := codec.decodeTx(txs[n].raw);
            && Messages(codec, block, txs[..n]).Some? && raws.Some?
            && CountMessages(Messages(codec, block, txs).value, hash, idx) ==
               CountMessages(Messages(codec, block, txs[..n]).value, hash, idx)
               + if txs[n].hash == hash && idx < |raws.value| then 1 else 0
  {
    var n := |txs| - 1;
    var raws := codec.decodeTx(txs[n].raw).value;
    var mine := TxMessages(block, txs[n], raws);
    CountAppend(Messages(codec, block, txs[..n]).value, mine, hash, idx);
    CountOfTx(block, txs[n], raws, |raws|, hash, idx);
    assert mine[..|raws|] == mine;
  }

  /** There are at most as many messages with a hash and index as transactions with the hash. */
  lemma {:induction false} MessageCountBounds(codec: Codec, block: CosmosBlock, txs: seq<CosmosTransaction>,
                                              hash: string, idx: nat)
    requires Messages(codec, block, txs).Some?
    ensures CountMessages(Messages(codec, block, txs).value, hash, idx) <= CountTxs(txs, hash)
    ensures forall tx | tx in txs && tx.hash == hash && MessageAt(codec, block, tx, idx).Some? ::
              CountMessages(Messages(codec, block, txs).value, hash, idx) > 0
  {
    if txs == [] {
    } else {
      var n := |txs| - 1;
      CountLast(codec, block, txs, hash, idx);
      MessageCountBounds(codec, block, txs[..n], hash, idx);
    }
  }

  lemma {:induction false} PendingOrigin(codec: Codec, block: CosmosBlock, txs: seq<CosmosTransaction>, p: Pending)
    requires p in AllEvents(codec, block, txs)
    ensures p.tx in txs && p.msg == MessageAt(codec, block, p.tx, p.log.msgIndex)
  {
    var n := |txs| - 1;
    if p in AllEvents(codec, block, txs[..n]) {
      PendingOrigin(codec, block, txs[..n], p);
    } else {
      LogOrigin(codec, block, txs[n], codec.parseLog(txs[n].tx.log).value, p);
    }
  }

  lemma {:induction false} LogOrigin(codec: Codec, block: CosmosBlock, tx: CosmosTransaction, logs: seq<Log>,
                                     p: Pending)
    requires p in LogsEvents(codec, block, tx, logs)
    ensures p.tx == tx && p.msg == MessageAt(codec, block, tx, p.log.msgIndex)
  {
    var n := |logs| - 1;
    if p in LogsEvents(codec, block, tx, logs[..n]) {
      LogOrigin(codec, block, tx, logs[..n], p);
    }
  }

  lemma {:induction false} DistinctOccursOnce(events: seq<CosmosEvent>, offset: nat, q: nat)
    requires NumberedFrom(events, offset) && q < |events|
    ensures Count(events, events[q]) == 1
  {
    var a, b := events[..q], events[q + 1..];
    assert events == a + [events[q]] + b;
    assert events[q] !in a && events[q] !in b;
    CountZero(a, events[q]);
    CountZero(b, events[q]);
    CountOne(events[q], events[q]);
    CountAppended(a, [events[q]], events[q]);
    CountAppended(a + [events[q]], b, events[q]);
  }

  /**
   * Exactly once, for every block whose transactions can be decoded and whatever the order of
   * the logs: an event with a message is delivered exactly once if and only if no other
   * transaction of the block has the hash of its transaction, and never less than once; an event
   * without a message is not delivered.
   */
  lemma ExactlyOnceIffHashIsUnique(input: RawInput, offset: nat, q: nat)
    requires input.Matched() && input.AllMessages().Some? && q < |input.PendingEvents()|
    ensures var events := Numbered(input.Block(), input.PendingEvents(), offset);
            var e := events[q];
            var phase := TxPhase(input.AllMessages().value, events, input.Transactions());
            && (e.msg.None? ==> Count(phase, EventItem(e)) == 0)
            && (e.msg.Some? ==> Count(phase, EventItem(e)) >= 1)
            && (e.msg.Some? ==> (Count(phase, EventItem(e)) == 1 <==> Sole(input.Transactions(), e.tx.value.hash)))
  {
    var events := Numbered(input.Block(), input.PendingEvents(), offset);
    if events[q].msg.None? {
      OrphansAreNotDelivered(input.AllMessages().value, events, input.Transactions(), events[q]);
      CountZero(TxPhase(input.AllMessages().value, events, input.Transactions()), EventItem(events[q]));
    } else {
      var hash, idx := events[q].tx.value.hash, events[q].msg.value.idx;
      MultiplicityIsProduct(input, offset, q);
      OwnCounts(input, input.PendingEvents()[q]);
      ProductIsOne(CountTxs(input.Transactions(), hash), CountMessages(input.AllMessages().value, hash, idx));
    }
  }

  /** Transactions with the event's hash, times messages with its hash and message index. */
  lemma MultiplicityIsProduct(input: RawInput, offset: nat, q: nat)
    requires input.Matched() && input.AllMessages().Some? && q < |input.PendingEvents()|
    requires input.PendingEvents()[q].msg.Some?
    ensures var events := Numbered(input.Block(), input.PendingEvents(), offset);
            var p := input.PendingEvents()[q];
            Count(TxPhase(input.AllMessages().value, events, input.Transactions()), EventItem(events[q])) ==
            CountTxs(input.Transactions(), p.tx.hash) *
            CountMessages(input.AllMessages().value, p.tx.hash, p.msg.value.idx)
  {
    var events := Numbered(input.Block(), input.PendingEvents(), offset);
    var p := input.PendingEvents()[q];
    NumberedIsNumbered(input.Block(), input.PendingEvents(), offset);
    DistinctOccursOnce(events, offset, q);
    PhaseCount(input.AllMessages().value, events, input.Transactions(), events[q]);
  }

  /** An event's own transaction and message are among those counted. */
  lemma OwnCounts(input: RawInput, p: Pending)
    requires input.Matched() && input.AllMessages().Some? && p in input.PendingEvents() && p.msg.Some?
    ensures var a := CountTxs(input.Transactions(), p.tx.hash);
            var b := CountMessages(input.AllMessages().value, p.tx.hash, p.msg.value.idx);
            1 <= b <= a && (a == 1 <==> Sole(input.Transactions(), p.tx.hash))
  {
    var codec, block, txs := input.codec, input.Block(), input.Transactions();
    PendingOrigin(codec, block, txs, p);
    MessageCountBounds(codec, block, txs, p.tx.hash, p.msg.value.idx);
    CountTxsMeaning(txs, p.tx.hash);
  }

  /** When equal hashes come from equal bytes, each transaction with the hash has the message. */
  lemma {:induction false} EqualBytesCount(codec: Codec, block: CosmosBlock, txs: seq<CosmosTransaction>,
                                           tx: CosmosTransaction, idx: nat)
    requires Messages(codec, block, txs).Some? && MessageAt(codec, block, tx, idx).Some?
    requires forall t | t in txs && t.hash == tx.hash :: t.raw == tx.raw
    ensures CountMessages(Messages(codec, block, txs).value, tx.hash, idx) == CountTxs(txs, tx.hash)
  {
    if txs == [] {
    } else {
      var n := |txs| - 1;
      assert txs[n] in txs;
      CountLast(codec, block, txs, tx.hash, idx);
      EqualBytesCount(codec, block, txs[..n], tx, idx);
    }
  }

  /**
   * A transaction that occurs `n` times in a block: each of its events that has a message is
   * delivered `n * n` times.
   */
  lemma CopiesAreDeliveredSquared(input: RawInput, offset: nat, q: nat)
    requires input.Matched() && input.AllMessages().Some? && q < |input.PendingEvents()|
    requires input.PendingEvents()[q].msg.Some?
    requires forall t | t in input.Transactions() && t.hash == input.PendingEvents()[q].tx.hash ::
               t.raw == input.PendingEvents()[q].tx.raw
    ensures var events := Numbered(input.Block(), input.PendingEvents(), offset);
            var n := CountTxs(input.Transactions(), input.PendingEvents()[q].tx.hash);
            Count(TxPhase(input.AllMessages().value, events, input.Transactions()), EventItem(events[q])) == n * n
  {
    var p := input.PendingEvents()[q];
    MultiplicityIsProduct(input, offset, q);
    PendingOrigin(input.codec, input.Block(), input.Transactions(), p);
    EqualBytesCount(input.codec, input.Block(), input.Transactions(), p.tx, p.msg.value.idx);
  }

  lemma ProductIsOne(a: nat, b: nat)
    requires 1 <= b <= a
    ensures a * b >= 1 && (a * b == 1 <==> a == 1)
  {
    assert a * b >= a;
  }

  // ----- the order of the calls

  /** The calls of item number `k` come together, to datasources 0, 1, ..., n - 1 in this order. */
  lemma {:induction false} CallsInOrder(items: seq<Item>, n: nat, k: nat, d: nat)
    requires k < |items| && d < n
    ensures |FanOut(items, n)| == |items| * n
    ensures k * n + d < |items| * n && FanOut(items, n)[k * n + d] == Call(d, items[k])
  {
    FanOutLength(items, n);
    RowsFit(k, |items|, n, d);
    var last := |items| - 1;
    var front := items[..last];
    FanOutLength(front, n);
    if k < last {
      CallsInOrder(front, n, k, d);
    }
  }

  lemma {:induction false} FanOutLength(items: seq<Item>, n: nat)
    ensures |FanOut(items, n)| == |items| * n
  {
    if items == [] {
    } else {
      var front := items[..|items| - 1];
      FanOutLength(front, n);
      OneMore(|front|, n);
      assert |CallsFor(items[|items| - 1], n)| == n;
    }
  }

  lemma RowsFit(k: nat, rows: nat, n: nat, d: nat)
    requires k < rows && d < n
    ensures k * n + d < rows * n
  {
    OneMore(k, n);
    assert (k + 1) * n <= rows * n;
  }
}
