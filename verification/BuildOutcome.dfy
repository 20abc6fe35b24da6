/** How the outcomes of the single handlers make up the result for the whole project, by position. */
module BuildOutcome {
  import opened Text
  import opened Dictionary
  import opened FetchService
  import opened Coverage

  // ----- when the translation fails

  /** Exactly when a handler makes the translation fail. */
  lemma FailsIff(source: Source, h: Handler)
    ensures Translate(source, h).Fails? <==>
            && source.Custom?
            && (h.kind !in source.processors ||
                (KindOf(h.kind).None? && source.processors[h.kind].baseKind.None?))
  {
  }

  /**
   * Exactly the entries of a handler that emits: its own query alone, or one entry per filter, in
   * order, for messages and events, or none.
   */
  lemma EntriesPerFilter(source: Source, h: Handler)
    requires Translate(source, h).Emits?
    ensures var entries, fs := Translate(source, h).entries, HandlerFilters(source, h);
            match OwnQuery(source, h)
            case Some(q) => |entries| == 1 && entries[0] == q
            case None =>
              match GetBaseHandlerKind(source, h)
              case Found(Some(MessageKind)) =>
                |entries| == |fs| && forall i | 0 <= i < |fs| :: entries[i] == MessageEntry(fs[i])
              case Found(Some(EventKind)) =>
                |entries| == |fs| && forall i | 0 <= i < |fs| :: entries[i] == EventEntry(fs[i])
              case _ => entries == []
  {
  }

  // ----- positions

  /** The project declares handler number `j` of datasource number `i`. */
  predicate HasPosition(dataSources: seq<DataSource>, i: nat, j: nat) {
    i < |dataSources| && j < |dataSources[i].handlers|
  }

  function OutcomeAt(dataSources: seq<DataSource>, i: nat, j: nat): Outcome
    requires HasPosition(dataSources, i, j)
  {
    Translate(dataSources[i].source, dataSources[i].handlers[j])
  }

  /** The handler at this position has outcome `o`, and every handler declared before it emits. */
  ghost predicate DecidesAt(dataSources: seq<DataSource>, i: nat, j: nat, o: Outcome) {
    && HasPosition(dataSources, i, j) && OutcomeAt(dataSources, i, j) == o
    && forall k: nat, l: nat | HasPosition(dataSources, k, l) && (k < i || (k == i && l < j)) ::
         OutcomeAt(dataSources, k, l).Emits?
  }

  /** Handler number `j` has outcome `o`, and the ones before it emit. */
  predicate DecidesIn(source: Source, handlers: seq<Handler>, j: nat, o: Outcome) {
    && j < |handlers| && Translate(source, handlers[j]) == o
    && forall l | 0 <= l < j :: Translate(source, handlers[l]).Emits?
  }

  predicate AllEmit(source: Source, handlers: seq<Handler>) {
    forall l | 0 <= l < |handlers| :: Translate(source, handlers[l]).Emits?
  }

  lemma DecidesInCons(source: Source, handlers: seq<Handler>, o: Outcome)
    requires handlers != [] && !o.Emits?
    ensures (exists j: nat :: DecidesIn(source, handlers, j, o)) <==>
            || Translate(source, handlers[0]) == o
            || (Translate(source, handlers[0]).Emits? && exists j: nat :: DecidesIn(source, handlers[1..], j, o))
    ensures AllEmit(source, handlers) <==> Translate(source, handlers[0]).Emits? && AllEmit(source, handlers[1..])
  {
    var rest := handlers[1..];
    assert forall l | 0 <= l < |rest| :: rest[l] == handlers[l + 1];
    assert forall l | 1 <= l < |handlers| :: handlers[l] == rest[l - 1];
    if j: nat :| DecidesIn(source, handlers, j, o) && j > 0 {
      assert DecidesIn(source, rest, j - 1, o);
    }
    if j: nat :| DecidesIn(source, rest, j, o) && Translate(source, handlers[0]).Emits? {
      assert DecidesIn(source, handlers, j + 1, o);
    }
    if Translate(source, handlers[0]) == o {
      assert DecidesIn(source, handlers, 0, o);
    }
  }

  lemma {:induction false} HandlersDecide(source: Source, handlers: seq<Handler>, rest: seq<Task>, o: Outcome)
    requires !o.Emits?
    ensures Collect(TasksOf(source, handlers) + rest) == o <==>
            || (exists j: nat :: DecidesIn(source, handlers, j, o))
            || (AllEmit(source, handlers) && Collect(rest) == o)
  {
    if handlers == [] {
      assert TasksOf(source, handlers) + rest == rest;
    } else {
      CollectStep(source, handlers, rest);
      HandlersDecide(source, handlers[1..], rest, o);
      DecidesInCons(source, handlers, o);
    }
  }

  lemma DecidesAtCons(dataSources: seq<DataSource>, o: Outcome)
    requires dataSources != []
    ensures (exists i: nat, j: nat :: DecidesAt(dataSources, i, j, o)) <==>
            || (exists j: nat :: DecidesIn(dataSources[0].source, dataSources[0].handlers, j, o))
            || (AllEmit(dataSources[0].source, dataSources[0].handlers) &&
                exists i: nat, j: nat :: DecidesAt(dataSources[1..], i, j, o))
  {
    var first, rest := dataSources[0], dataSources[1..];
    if i: nat, j: nat :| DecidesAt(dataSources, i, j, o) {
      if i == 0 {
        DecidesInFirst(dataSources, j, o);
      } else {
        DecidesInRest(dataSources, i - 1, j, o);
      }
    }
    if j: nat :| DecidesIn(first.source, first.handlers, j, o) {
      DecidesInFirst(dataSources, j, o);
    }
    if i: nat, j: nat :| DecidesAt(rest, i, j, o) && AllEmit(first.source, first.handlers) {
      DecidesInRest(dataSources, i, j, o);
    }
  }

  lemma DecidesInFirst(dataSources: seq<DataSource>, j: nat, o: Outcome)
    requires dataSources != []
    ensures DecidesAt(dataSources, 0, j, o) <==> DecidesIn(dataSources[0].source, dataSources[0].handlers, j, o)
  {
    var first := dataSources[0];
    if DecidesAt(dataSources, 0, j, o) {
      forall l | 0 <= l < j ensures Translate(first.source, first.handlers[l]).Emits? {
        assert HasPosition(dataSources, 0, l) && OutcomeAt(dataSources, 0, l).Emits?;
      }
    }
  }

  lemma DecidesInRest(dataSources: seq<DataSource>, i: nat, j: nat, o: Outcome)
    requires dataSources != []
    ensures DecidesAt(dataSources, i + 1, j, o) <==>
            AllEmit(dataSources[0].source, dataSources[0].handlers) && DecidesAt(dataSources[1..], i, j, o)
  {
    var first, rest := dataSources[0], dataSources[1..];
    assert forall k: nat, l: nat :: HasPosition(rest, k, l) <==> HasPosition(dataSources, k + 1, l);
    if DecidesAt(dataSources, i + 1, j, o) {
      forall l | 0 <= l < |first.handlers| ensures Translate(first.source, first.handlers[l]).Emits? {
        assert HasPosition(dataSources, 0, l) && OutcomeAt(dataSources, 0, l).Emits?;
      }
      forall k: nat, l: nat | HasPosition(rest, k, l) && (k < i || (k == i && l < j))
        ensures OutcomeAt(rest, k, l).Emits?
      {
        assert HasPosition(dataSources, k + 1, l) && OutcomeAt(dataSources, k + 1, l).Emits?;
      }
    }
    if AllEmit(first.source, first.handlers) && DecidesAt(rest, i, j, o) {
      assert HasPosition(dataSources, i + 1, j);
      forall k: nat, l: nat | HasPosition(dataSources, k, l) && (k < i + 1 || (k == i + 1 && l < j))
        ensures OutcomeAt(dataSources, k, l).Emits?
      {
        if k > 0 {
          assert HasPosition(rest, k - 1, l) && OutcomeAt(rest, k - 1, l).Emits?;
        }
      }
    }
  }

  lemma {:induction false} SourcesDecide(dataSources: seq<DataSource>, o: Outcome)
    requires !o.Emits?
    ensures Collect(Tasks(dataSources)) == o <==> exists i: nat, j: nat :: DecidesAt(dataSources, i, j, o)
  {
    if dataSources == [] {
    } else {
      var first, rest := dataSources[0], dataSources[1..];
      SourcesDecide(rest, o);
      HandlersDecide(first.source, first.handlers, Tasks(rest), o);
      DecidesAtCons(dataSources, o);
    }
  }

  /** The entries of every handler of a datasource, in order. */
  function HandlerEntries(source: Source, handlers: seq<Handler>): seq<seq<QueryEntry>> {
    seq(|handlers|, j requires 0 <= j < |handlers| => Contribution((source, handlers[j])))
  }

  /** The entries of every datasource, in order. */
  function SourceEntries(dataSources: seq<DataSource>): seq<seq<QueryEntry>> {
    seq(|dataSources|, i requires 0 <= i < |dataSources| =>
      Flatten(HandlerEntries(dataSources[i].source, dataSources[i].handlers)))
  }

  lemma {:induction false} HandlersEmit(source: Source, handlers: seq<Handler>, rest: seq<Task>)
    requires Collect(TasksOf(source, handlers) + rest).Emits?
    ensures Collect(rest).Emits?
    ensures Collect(TasksOf(source, handlers) + rest).entries ==
            Flatten(HandlerEntries(source, handlers)) + Collect(rest).entries
  {
    if handlers == [] {
      assert TasksOf(source, handlers) + rest == rest;
    } else {
      CollectStep(source, handlers, rest);
      HandlersEmit(source, handlers[1..], rest);
      var all := HandlerEntries(source, handlers);
      assert all[1..] == HandlerEntries(source, handlers[1..]);
      Associate(all[0], Flatten(all[1..]), Collect(rest).entries);
    }
  }

  lemma {:induction false} SourcesEmit(dataSources: seq<DataSource>)
    requires Collect(Tasks(dataSources)).Emits?
    ensures Collect(Tasks(dataSources)).entries == Flatten(SourceEntries(dataSources))
  {
    if dataSources == [] {
    } else {
      var first, rest := dataSources[0], dataSources[1..];
      HandlersEmit(first.source, first.handlers, Tasks(rest));
      SourcesEmit(rest);
      assert SourceEntries(dataSources)[1..] == SourceEntries(rest);
    }
  }

  /**
   * The result of the translation: it throws exactly when the first handler, in order of
   * declaration, that does not emit fails; it is empty when that handler disables the dictionary;
   * and otherwise it holds the entries of all handlers in order, without repetitions.
   */
  lemma FirstHandlerDecides(dataSources: seq<DataSource>)
    ensures Build(dataSources).Threw? <==> exists i: nat, j: nat :: DecidesAt(dataSources, i, j, Fails)
    ensures (exists i: nat, j: nat :: DecidesAt(dataSources, i, j, Disables)) ==> Build(dataSources) == Entries([])
    ensures !(exists i: nat, j: nat :: DecidesAt(dataSources, i, j, Fails)) &&
            !(exists i: nat, j: nat :: DecidesAt(dataSources, i, j, Disables)) ==>
              Build(dataSources) == Entries(Deduplicate(Flatten(SourceEntries(dataSources))))
  {
    SourcesDecide(dataSources, Fails);
    SourcesDecide(dataSources, Disables);
    if Collect(Tasks(dataSources)).Emits? {
      SourcesEmit(dataSources);
    }
  }
}
