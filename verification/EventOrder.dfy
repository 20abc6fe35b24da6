/** When the delivered transaction events come in the order of the block's event list. */
module EventOrder {
  import opened CosmosTypes
  import opened Indexer
  import opened DeliveryOrder

  // ----- the events of one transaction, grouped by message

  /** The events of message 0, then of message 1, and so on. */
  function Buckets(events: seq<CosmosEvent>, hash: string, n: nat): seq<CosmosEvent> {
    if n == 0 then [] else Buckets(events, hash, n - 1) + EventsFor(events, hash, n - 1)
  }

  lemma {:induction false} VisitDelivers(events: seq<CosmosEvent>, hash: string, m: CosmosMessage)
    ensures EventsIn(MessageVisit(events, hash, m)) == EventsFor(events, hash, m.idx)
  {
    var own := EventsFor(events, hash, m.idx);
    EventsInItems(own);
    EventsInAppend([MessageItem(m)], EventItems(own));
    assert EventsIn([MessageItem(m)]) == [];
    assert [] + own == own;
  }

  lemma {:induction false} VisitsAreBuckets(p: Part, n: nat)
    requires p.Sound() && n <= |p.msgs|
    ensures EventsIn(MessageVisits(p.events, p.tx.hash, p.msgs[..n])) == Buckets(p.events, p.tx.hash, n)
  {
    if n == 0 {
    } else {
      var events, hash, m := p.events, p.tx.hash, p.msgs[n - 1];
      var visits, visit := MessageVisits(events, hash, p.msgs[..n - 1]), MessageVisit(events, hash, m);
      assert p.msgs[..n][..n - 1] == p.msgs[..n - 1];
      assert MessageVisits(events, hash, p.msgs[..n]) == visits + visit;
      VisitsAreBuckets(p, n - 1);
      VisitDelivers(events, hash, m);
      EventsInAppend(visits, visit);
    }
  }

  lemma PartDelivers(p: Part)
    requires p.Sound()
    ensures EventsIn(p.Visit()) == Buckets(p.events, p.tx.hash, |p.msgs|)
  {
    VisitsAreBuckets(p, |p.msgs|);
    assert p.msgs[..|p.msgs|] == p.msgs;
    EventsInAppend([TxItem(p.tx)], MessageVisits(p.events, p.tx.hash, p.msgs));
    assert EventsIn([TxItem(p.tx)]) == [];
    assert [] + Buckets(p.events, p.tx.hash, |p.msgs|) == Buckets(p.events, p.tx.hash, |p.msgs|);
  }

  /** All events belong to the hash and to one of the first `n` messages, if to any. */
  predicate Within(events: seq<CosmosEvent>, hash: string, n: nat) {
    forall e | e in events :: e.tx.Some? && e.tx.value.hash == hash && (e.msg.Some? ==> e.msg.value.idx < n)
  }

  /** No event with a message has a later message than number `v`. */
  predicate AllBelow(events: seq<CosmosEvent>, v: int) {
    forall e | e in events && e.msg.Some? :: e.msg.value.idx <= v
  }

  /** Message indices do not decrease along the list. */
  predicate Ordered(events: seq<CosmosEvent>) {
    if events == [] then true
    else
      var n := |events| - 1;
      Ordered(events[..n]) && (events[n].msg.Some? ==> AllBelow(events[..n], events[n].msg.value.idx))
  }

  /** The event is in one of the first `n` groups. */
  predicate Grouped(e: CosmosEvent, hash: string, n: nat) {
    e.msg.Some? && e.msg.value.idx < n && Belongs(e, hash, e.msg.value.idx)
  }

  lemma {:induction false} EventsForHas(events: seq<CosmosEvent>, hash: string, idx: nat, e: CosmosEvent)
    ensures e in EventsFor(events, hash, idx) <==> e in events && Belongs(e, hash, idx)
  {
    if events == [] {
    } else {
      EventsForHas(events[..|events| - 1], hash, idx, e);
    }
  }

  lemma GroupedStep(e: CosmosEvent, hash: string, n: nat)
    ensures Grouped(e, hash, n + 1) <==> Grouped(e, hash, n) || Belongs(e, hash, n)
  {
  }

  lemma InEither(a: seq<CosmosEvent>, b: seq<CosmosEvent>, e: CosmosEvent)
    ensures e in a + b <==> e in a || e in b
  {
  }

  lemma {:induction false} BucketsHave(events: seq<CosmosEvent>, hash: string, n: nat, e: CosmosEvent)
    ensures e in Buckets(events, hash, n) <==> e in events && Grouped(e, hash, n)
  {
    if n == 0 {
    } else {
      var k: nat := n - 1;
      BucketsHave(events, hash, k, e);
      EventsForHas(events, hash, k, e);
      InEither(Buckets(events, hash, k), EventsFor(events, hash, k), e);
      GroupedStep(e, hash, k);
    }
  }

  lemma {:induction false} EventsForSnoc(events: seq<CosmosEvent>, x: CosmosEvent, hash: string, idx: nat)
    ensures EventsFor(events + [x], hash, idx) == EventsFor(events, hash, idx) + Only(x, Belongs(x, hash, idx))
  {
    assert (events + [x])[..|events|] == events;
  }

  lemma {:induction false} EventsForGrow(events: seq<CosmosEvent>, x: CosmosEvent, hash: string, idx: nat)
    ensures |EventsFor(events + [x], hash, idx)| ==
            |EventsFor(events, hash, idx)| + if Belongs(x, hash, idx) then 1 else 0
  {
    EventsForSnoc(events, x, hash, idx);
  }

  /** The sizes of the first `n` groups together. */
  function Total(size: nat -> nat, n: nat): nat {
    if n == 0 then 0 else Total(size, n - 1) + size(n - 1)
  }

  lemma {:induction false} BucketsTotal(events: seq<CosmosEvent>, hash: string, size: nat -> nat, n: nat)
    requires forall idx: nat :: size(idx) == |EventsFor(events, hash, idx)|
    ensures |Buckets(events, hash, n)| == Total(size, n)
  {
    if n == 0 {
    } else {
      BucketsTotal(events, hash, size, n - 1);
      assert size(n - 1) == |EventsFor(events, hash, n - 1)|;
    }
  }

  lemma {:induction false} TotalGrows(before: nat -> nat, after: nat -> nat, x: CosmosEvent, hash: string, n: nat)
    requires forall idx: nat :: after(idx) == before(idx) + if Belongs(x, hash, idx) then 1 else 0
    ensures Total(after, n) == Total(before, n) + if Grouped(x, hash, n) then 1 else 0
  {
    if n == 0 {
    } else {
      TotalGrows(before, after, x, hash, n - 1);
      GroupedStep(x, hash, n - 1);
    }
  }

  lemma {:induction false} BucketsGrow(events: seq<CosmosEvent>, x: CosmosEvent, hash: string, n: nat)
    ensures |Buckets(events + [x], hash, n)| == |Buckets(events, hash, n)| + if Grouped(x, hash, n) then 1 else 0
  {
    var longer := events + [x];
    var before, after := (idx: nat) => |EventsFor(events, hash, idx)|, (idx: nat) => |EventsFor(longer, hash, idx)|;
    forall idx: nat ensures after(idx) == before(idx) + if Belongs(x, hash, idx) then 1 else 0 {
      EventsForGrow(events, x, hash, idx);
    }
    TotalGrows(before, after, x, hash, n);
    BucketsTotal(events, hash, before, n);
    BucketsTotal(longer, hash, after, n);
  }

  lemma {:induction false} BucketsLength(events: seq<CosmosEvent>, hash: string, n: nat)
    requires Within(events, hash, n)
    ensures |Buckets(events, hash, n)| == |WithMessage(events)|
  {
    if events == [] {
      EmptyBuckets(hash, n);
    } else {
      var front, x := events[..|events| - 1], events[|events| - 1];
      assert events == front + [x] && x in events;
      BucketsLength(front, hash, n);
      BucketsGrow(front, x, hash, n);
    }
  }

  lemma {:induction false} WithMessageHas(events: seq<CosmosEvent>, e: CosmosEvent)
    ensures e in WithMessage(events) <==> e in events && e.msg.Some?
  {
    if events == [] {
    } else {
      WithMessageHas(events[..|events| - 1], e);
    }
  }

  predicate SameElements(a: seq<CosmosEvent>, b: seq<CosmosEvent>) {
    |a| == |b| && (forall e | e in a :: e in b) && (forall e | e in b :: e in a)
  }

  /** Grouping by message loses and invents nothing. */
  lemma {:induction false} BucketsKeepAll(events: seq<CosmosEvent>, hash: string, n: nat)
    requires Within(events, hash, n)
    ensures SameElements(Buckets(events, hash, n), WithMessage(events))
  {
    BucketsLength(events, hash, n);
    forall e ensures e in Buckets(events, hash, n) <==> e in WithMessage(events) {
      BucketsHave(events, hash, n, e);
      WithMessageHas(events, e);
    }
  }

  lemma {:induction false} NothingAbove(events: seq<CosmosEvent>, hash: string, idx: nat)
    requires forall e | e in events && e.msg.Some? :: e.msg.value.idx < idx
    ensures EventsFor(events, hash, idx) == []
  {
    if events == [] {
    } else {
      NothingAbove(events[..|events| - 1], hash, idx);
    }
  }

  function Only(x: CosmosEvent, keep: bool): seq<CosmosEvent> {
    if keep then [x] else []
  }

  lemma Regroup(front: seq<CosmosEvent>, own: seq<CosmosEvent>, x: CosmosEvent, early: bool, late: bool)
    requires early ==> own == [] && !late
    ensures (front + Only(x, early)) + (own + Only(x, late)) == (front + own) + Only(x, early || late)
  {
  }

  /** A new last event lands at the end of the groups if no group after its own is in use. */
  lemma {:induction false} BucketsSnoc(events: seq<CosmosEvent>, x: CosmosEvent, hash: string, n: nat)
    requires x.msg.Some? ==> AllBelow(events, x.msg.value.idx)
    ensures Buckets(events + [x], hash, n) == Buckets(events, hash, n) + Only(x, Grouped(x, hash, n))
    decreases n
  {
    if n == 0 {
    } else {
      var k: nat := n - 1;
      BucketsSnoc(events, x, hash, k);
      EventsForSnoc(events, x, hash, k);
      GroupedStep(x, hash, k);
      var front, own := Buckets(events, hash, k), EventsFor(events, hash, k);
      var early, late := Grouped(x, hash, k), Belongs(x, hash, k);
      if early {
        NothingAbove(events, hash, k);
      }
      assert Buckets(events + [x], hash, n) == (front + Only(x, early)) + (own + Only(x, late));
      Regroup(front, own, x, early, late);
    }
  }

  lemma {:induction false} OrderedIsDelivered(events: seq<CosmosEvent>, hash: string, n: nat)
    requires Within(events, hash, n) && Ordered(events)
    ensures Buckets(events, hash, n) == WithMessage(events)
  {
    if events == [] {
      EmptyBuckets(hash, n);
    } else {
      var k := |events| - 1;
      var x := events[k];
      OrderedIsDelivered(events[..k], hash, n);
      assert events == events[..k] + [x];
      assert x in events;
      BucketsSnoc(events[..k], x, hash, n);
    }
  }

  lemma {:induction false} EmptyBuckets(hash: string, n: nat)
    ensures Buckets([], hash, n) == []
  {
    if n == 0 {
    } else {
      EmptyBuckets(hash, n - 1);
    }
  }

  lemma {:induction false} OrderedAppend(a: seq<CosmosEvent>, b: seq<CosmosEvent>, v: nat)
    requires forall e | e in b :: e.msg.Some? && e.msg.value.idx == v
    ensures Ordered(a + b) <==> Ordered(a) && (b == [] || AllBelow(a, v))
  {
    if b == [] {
      assert a + b == a;
    } else {
      var n := |b| - 1;
      OrderedAppend(a, b[..n], v);
      assert (a + b)[..|a + b| - 1] == a + b[..n];
      assert b[n] in b;
      assert AllBelow(a + b[..n], v) <==> AllBelow(a, v) by {
        assert forall e :: e in a + b[..n] <==> e in a || e in b[..n];
      }
    }
  }

  lemma {:induction false} EventsForHave(events: seq<CosmosEvent>, hash: string, idx: nat)
    ensures forall e | e in EventsFor(events, hash, idx) :: e.msg.Some? && e.msg.value.idx == idx
  {
    if events == [] {
    } else {
      EventsForHave(events[..|events| - 1], hash, idx);
    }
  }

  /** Grouped events are always in message order. */
  lemma {:induction false} BucketsAreOrdered(events: seq<CosmosEvent>, hash: string, n: nat)
    ensures Ordered(Buckets(events, hash, n)) && AllBelow(Buckets(events, hash, n), n - 1)
  {
    if n == 0 {
    } else {
      BucketsAreOrdered(events, hash, n - 1);
      EventsForHave(events, hash, n - 1);
      OrderedAppend(Buckets(events, hash, n - 1), EventsFor(events, hash, n - 1), n - 1);
    }
  }

  lemma {:induction false} WithMessageOrdered(events: seq<CosmosEvent>)
    ensures Ordered(WithMessage(events)) <==> Ordered(events)
  {
    if events == [] {
    } else {
      var n := |events| - 1;
      var front := WithMessage(events[..n]);
      WithMessageOrdered(events[..n]);
      forall e ensures e in front <==> e in events[..n] && e.msg.Some? {
        WithMessageHas(events[..n], e);
      }
      if events[n].msg.Some? {
        assert (front + [events[n]])[..|front|] == front;
      } else {
        assert front + [] == front;
      }
    }
  }

  /** One transaction's events are delivered in list order exactly when their messages do not go back. */
  lemma PartInOrder(p: Part)
    requires p.Sound()
    ensures EventsIn(p.Visit()) == WithMessage(p.events) <==> Ordered(p.events)
    ensures SameElements(EventsIn(p.Visit()), WithMessage(p.events))
  {
    var hash, n := p.tx.hash, |p.msgs|;
    PartDelivers(p);
    BucketsKeepAll(p.events, hash, n);
    if Ordered(p.events) {
      OrderedIsDelivered(p.events, hash, n);
    }
    BucketsAreOrdered(p.events, hash, n);
    WithMessageOrdered(p.events);
  }
}
