/** Event indices along the whole trace of a block, and what precedes an event. */
module TraceOrder {
  import opened Wrappers
  import opened CosmosTypes
  import opened BlockContent
  import opened Indexer
  import opened DeliveryOrder
  import opened EventOrder
  import opened BlockOrder

  predicate Increasing(events: seq<CosmosEvent>) {
    forall i, j | 0 <= i < j < |events| :: events[i].idx < events[j].idx
  }

  predicate Between(events: seq<CosmosEvent>, lo: nat, hi: nat) {
    forall i | 0 <= i < |events| :: lo <= events[i].idx < hi
  }

  // ----- offsets of the three lists

  /** No event list was forced yet. */
  predicate Quiet(m: Memo) {
    m.beginEvents.None? && m.events.None? && m.endEvents.None? && m.eventIdx == 0
  }

  /** The number of transaction events the traversal forces. */
  function ForcedCount(input: RawInput): nat
    requires input.Matched()
  {
    if input.AllMessages() == Some([]) then 0 else |input.PendingEvents()|
  }

  /**
   * The traversal numbers begin-block events from zero, then transaction events, then end-block
   * events, leaving no gap; also when the transaction events are never forced.
   */
  lemma {:induction false} ScheduleOffsets(input: RawInput, m: Memo)
    requires input.Matched() && input.AllMessages().Some? && Quiet(m)
    ensures var last := Run(input, m, Schedule(input));
            var b := |input.results.beginBlockEvents|;
            && last.beginEvents == Some(BlockEvents(input.Block(), input.results.beginBlockEvents, 0))
            && last.endEvents == Some(BlockEvents(input.Block(), input.results.endBlockEvents, b + ForcedCount(input)))
            && EventsOrNone(last) == (if input.AllMessages() == Some([]) then []
                                      else Numbered(input.Block(), input.PendingEvents(), b))
  {
    RunSchedule(input, m);
  }

  // ----- increasing sequences

  lemma {:induction false} IncreasingIsUnique(a: seq<CosmosEvent>, b: seq<CosmosEvent>)
    requires Increasing(a) && Increasing(b) && SameElements(a, b)
    ensures a == b
  {
    if a == [] {
    } else {
      var n := |a| - 1;
      LastIsGreatest(a, b);
      var x, y := a[..n], b[..n];
      assert a == x + [a[n]] && b == y + [b[n]];
      assert a[n] !in x && b[n] !in y;
      forall e | e in x ensures e in y {
        assert e in a && e in b && e != b[n];
      }
      forall e | e in y ensures e in x {
        assert e in b && e in a && e != a[n];
      }
      IncreasingIsUnique(x, y);
    }
  }

  lemma LastIsGreatest(a: seq<CosmosEvent>, b: seq<CosmosEvent>)
    requires Increasing(a) && Increasing(b) && SameElements(a, b) && a != []
    ensures a[|a| - 1] == b[|b| - 1]
  {
    var n := |a| - 1;
    assert a[n] in b && b[n] in a;
    var j :| 0 <= j < |b| && b[j] == a[n];
    var i :| 0 <= i < |a| && a[i] == b[n];
    assert b[j].idx <= b[n].idx && a[i].idx <= a[n].idx;
  }

  lemma IncreasingSnoc(events: seq<CosmosEvent>, e: CosmosEvent, lo: nat)
    requires Increasing(events) && Between(events, lo, e.idx) && lo <= e.idx
    ensures Increasing(events + [e]) && Between(events + [e], lo, e.idx + 1)
  {
  }

  lemma {:induction false} WithMessageIncreases(events: seq<CosmosEvent>, lo: nat)
    requires NumberedFrom(events, lo)
    ensures Increasing(WithMessage(events)) && Between(WithMessage(events), lo, lo + |events|)
  {
    if events == [] {
    } else {
      var front, e := events[..|events| - 1], events[|events| - 1];
      WithMessageIncreases(front, lo);
      IncreasingSnoc(WithMessage(front), e, lo);
      assert WithMessage(front) + [] == WithMessage(front);
    }
  }

  lemma ThreeLists(b: seq<CosmosEvent>, d: seq<CosmosEvent>, e: seq<CosmosEvent>, lo: nat, hi: nat)
    requires NumberedFrom(b, 0) && |b| == lo && Between(d, lo, hi) && NumberedFrom(e, hi) && lo <= hi
    ensures Increasing(b + d + e) <==> Increasing(d)
  {
    var all := b + d + e;
    assert forall i | 0 <= i < |d| :: all[lo + i] == d[i];
    if Increasing(all) {
      forall i, j | 0 <= i < j < |d| ensures d[i].idx < d[j].idx {
        assert all[lo + i].idx < all[lo + j].idx;
      }
    }
    if Increasing(d) {
      forall i, j | 0 <= i < j < |all| ensures all[i].idx < all[j].idx {
        assert i < lo ==> all[i] == b[i];
        assert lo <= i < lo + |d| ==> all[i] == d[i - lo];
        assert lo + |d| <= i ==> all[i] == e[i - lo - |d|];
        assert j < lo ==> all[j] == b[j];
        assert lo <= j < lo + |d| ==> all[j] == d[j - lo];
        assert lo + |d| <= j ==> all[j] == e[j - lo - |d|];
      }
    }
  }

  lemma SameElementsBetween(a: seq<CosmosEvent>, b: seq<CosmosEvent>, lo: nat, hi: nat)
    requires SameElements(a, b) && Between(b, lo, hi)
    ensures Between(a, lo, hi)
  {
    forall i | 0 <= i < |a| ensures lo <= a[i].idx < hi {
      assert a[i] in a && a[i] in b;
    }
  }

  /** Delivered events come with increasing indices exactly when they come in list order. */
  lemma {:induction false} IncreasingIffInOrder(delivered: seq<CosmosEvent>, events: seq<CosmosEvent>, lo: nat)
    requires NumberedFrom(events, lo) && SameElements(delivered, WithMessage(events))
    ensures Increasing(delivered) <==> delivered == WithMessage(events)
    ensures Between(delivered, lo, lo + |events|)
  {
    WithMessageIncreases(events, lo);
    SameElementsBetween(delivered, WithMessage(events), lo, lo + |events|);
    if Increasing(delivered) {
      IncreasingIsUnique(delivered, WithMessage(events));
    }
  }

  lemma {:induction false} NothingDelivered(events: seq<CosmosEvent>, txs: seq<CosmosTransaction>)
    ensures EventsIn(TxPhase([], events, txs)) == []
  {
    if txs == [] {
    } else {
      var n := |txs| - 1;
      NothingDelivered(events, txs[..n]);
      assert TxVisit([], events, txs[n]) == [TxItem(txs[n])];
      EventsInAppend(TxPhase([], events, txs[..n]), [TxItem(txs[n])]);
      assert EventsIn([TxItem(txs[n])]) == [];
    }
  }

  /** The events of a trace: begin-block, delivered transaction events, end-block. */
  lemma EventsOfTrace(input: RawInput, m: Memo)
    requires input.Matched() && input.AllMessages().Some? && m.beginEvents.Some? && m.endEvents.Some?
    ensures EventsIn(Items(input, m)) ==
            m.beginEvents.value
            + EventsIn(TxPhase(input.AllMessages().value, EventsOrNone(m), input.Transactions()))
            + m.endEvents.value
  {
    var phase := TxPhase(input.AllMessages().value, EventsOrNone(m), input.Transactions());
    var b, e := m.beginEvents.value, m.endEvents.value;
    EventsInItems(b);
    EventsInItems(e);
    EventsInAppend([BlockItem(input.Block())], EventItems(b));
    EventsInAppend([BlockItem(input.Block())] + EventItems(b), phase);
    EventsInAppend([BlockItem(input.Block())] + EventItems(b) + phase, EventItems(e));
    assert EventsIn([BlockItem(input.Block())]) == [];
    assert [] + b == b;
  }

  lemma {:induction false} FullListIncreases(codec: Codec, block: CosmosBlock, txs: seq<CosmosTransaction>, lo: nat)
    requires AllDecodable(codec, txs) && HashesDistinct(txs)
    ensures Messages(codec, block, txs).Some?
    ensures var delivered := Delivered(codec, block, txs, lo);
            && (Increasing(delivered) <==> BlockInOrder(codec, block, txs))
            && Between(delivered, lo, lo + |AllEvents(codec, block, txs)|)
  {
    MessagesExist(codec, block, txs);
    DeliveryFollowsEventList(codec, block, txs, lo);
    DeliveryKeepsAll(codec, block, txs, lo);
    NumberedIsNumbered(block, AllEvents(codec, block, txs), lo);
    IncreasingIffInOrder(Delivered(codec, block, txs, lo), Numbered(block, AllEvents(codec, block, txs), lo), lo);
  }

  lemma {:induction false} DeliveredIncrease(input: RawInput, events: seq<CosmosEvent>, lo: nat)
    requires input.Matched() && AllDecodable(input.codec, input.Transactions()) && HashesDistinct(input.Transactions())
    requires input.AllMessages().Some?
    requires input.AllMessages().value == [] || events == Numbered(input.Block(), input.PendingEvents(), lo)
    ensures var delivered := EventsIn(TxPhase(input.AllMessages().value, events, input.Transactions()));
            && (Increasing(delivered) <==> BlockInOrder(input.codec, input.Block(), input.Transactions()))
            && Between(delivered, lo, lo + ForcedCount(input))
  {
    FullListIncreases(input.codec, input.Block(), input.Transactions(), lo);
    if input.AllMessages().value == [] {
      NothingDelivered(Numbered(input.Block(), input.PendingEvents(), lo), input.Transactions());
      NothingDelivered(events, input.Transactions());
    }
  }

  /**
   * Over the whole trace of a block with distinct transaction hashes, event indices strictly
   * increase if and only if in every transaction the effective log entries name non-decreasing
   * message indices.
   */
  lemma {:induction false} TraceIndicesIncrease(input: RawInput, m: Memo)
    requires input.Matched() && AllDecodable(input.codec, input.Transactions()) && Quiet(m)
    requires HashesDistinct(input.Transactions())
    ensures input.AllMessages().Some?
    ensures var last := Run(input, m, Schedule(input));
            && last.beginEvents.Some? && last.endEvents.Some?
            && (Increasing(EventsIn(Items(input, last))) <==>
                BlockInOrder(input.codec, input.Block(), input.Transactions()))
  {
    var last := Run(input, m, Schedule(input));
    var lo := |input.results.beginBlockEvents|;
    MessagesExist(input.codec, input.Block(), input.Transactions());
    ScheduleOffsets(input, m);
    EventsOfTrace(input, last);
    var delivered := EventsIn(TxPhase(input.AllMessages().value, EventsOrNone(last), input.Transactions()));
    DeliveredIncrease(input, EventsOrNone(last), lo);
    ThreeLists(last.beginEvents.value, delivered, last.endEvents.value, lo, lo + ForcedCount(input));
  }

  // ----- owners come first

  lemma {:induction false} VisitOwner(p: Part, n: nat, at: nat) returns (r: nat)
    requires p.Sound() && n <= |p.msgs|
    requires at < |MessageVisits(p.events, p.tx.hash, p.msgs[..n])|
    requires MessageVisits(p.events, p.tx.hash, p.msgs[..n])[at].EventItem?
    ensures var items := MessageVisits(p.events, p.tx.hash, p.msgs[..n]);
            var e := items[at].event;
            r < at && e.tx == Some(p.tx) && e.msg.Some? && items[r] == MessageItem(e.msg.value)
  {
    assert n > 0;
    var m := p.msgs[n - 1];
    assert p.msgs[..n][..n - 1] == p.msgs[..n - 1];
    var front := MessageVisits(p.events, p.tx.hash, p.msgs[..n - 1]);
    var visit := MessageVisit(p.events, p.tx.hash, m);
    assert MessageVisits(p.events, p.tx.hash, p.msgs[..n]) == front + visit;
    if at < |front| {
      r := VisitOwner(p, n - 1, at);
    } else {
      r := |front|;
      var own := EventsFor(p.events, p.tx.hash, m.idx);
      var e := own[at - |front| - 1];
      assert visit[at - |front|] == EventItem(e);
      assert e in own;
      EventsForHas(p.events, p.tx.hash, m.idx, e);
    }
  }

  /** Before every delivered event come its own transaction and then its own message. */
  lemma {:induction false} OwnersComeFirst(parts: seq<Part>, at: nat) returns (q: nat, r: nat)
    requires AllSound(parts) && at < |LocalPhase(parts)| && LocalPhase(parts)[at].EventItem?
    ensures var items := LocalPhase(parts);
            var e := items[at].event;
            && q < r < at && e.tx.Some? && e.msg.Some?
            && items[q] == TxItem(e.tx.value) && items[r] == MessageItem(e.msg.value)
  {
    var n := |parts| - 1;
    var front, last := LocalPhase(parts[..n]), parts[n];
    if at < |front| {
      q, r := OwnersComeFirst(parts[..n], at);
    } else {
      var k := |last.msgs|;
      assert last.msgs[..k] == last.msgs;
      var i := VisitOwner(last, k, at - |front| - 1);
      q, r := |front|, |front| + 1 + i;
    }
  }

  /** The same for the traversal of a block. */
  lemma OwnersPrecedeEvents(input: RawInput, offset: nat, at: nat) returns (q: nat, r: nat)
    requires input.Matched() && AllDecodable(input.codec, input.Transactions()) && HashesDistinct(input.Transactions())
    requires input.AllMessages().Some?
    requires var events := Numbered(input.Block(), input.PendingEvents(), offset);
             var items := TxPhase(input.AllMessages().value, events, input.Transactions());
             at < |items| && items[at].EventItem?
    ensures var events := Numbered(input.Block(), input.PendingEvents(), offset);
            var items := TxPhase(input.AllMessages().value, events, input.Transactions());
            var e := items[at].event;
            && q < r < at && e.tx.Some? && e.msg.Some?
            && items[q] == TxItem(e.tx.value) && items[r] == MessageItem(e.msg.value)
  {
    var parts := BlockIsLocal(input.codec, input.Block(), input.Transactions(), offset);
    q, r := OwnersComeFirst(parts, at);
  }
}
