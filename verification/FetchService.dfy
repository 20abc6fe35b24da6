/**
 * Translation of a project's handlers into dictionary query entries.
 *
 * An empty result disables the dictionary: every block is then fetched.
 */
module FetchService {
  import opened Wrappers
  import opened JsonValues
  import opened QueryCompilation
  import opened JsonText
  import opened Dictionary
  import opened Filters

  datatype Kind = BlockKind | TransactionKind | MessageKind | EventKind

  datatype Handler = Handler(kind: string, filter: Option<Filter>)

  /** A plugin's processor for one handler kind, with its optional own dictionary query. */
  datatype Processor = Processor(
    baseKind: Option<Kind>,
    baseFilter: BaseFilter,
    dictionaryQuery: Handler -> Option<QueryEntry>)

  /** What a datasource's handlers are interpreted by. */
  datatype Source = Runtime | Custom(processors: map<string, Processor>) | Unknown

  datatype DataSource = DataSource(source: Source, handlers: seq<Handler>)

  // ----- one filter

  lemma {:induction false} UniqueIsPlain(fields: Fields)
    requires UniqueKeys(fields)
    ensures ArePlain(fields)
  {
    match fields
    case Empty =>
    case Field(_, v, rest) =>
      UniqueIsPlain(rest);
      if v.Obj? {
        UniqueIsPlain(v.fields);
      }
  }

  function NestedObject(values: Values): Plain {
    CompiledIsUnique(values);
    UniqueIsPlain(Compile(values));
    Obj(Compile(values))
  }

  function TypeCondition(f: Filter): Condition {
    Condition("type", match f.ty case None => None case Some(t) => Some(Atom(Str(t))), "equalTo")
  }

  function MessageEntry(f: Filter): QueryEntry {
    var data := match f.values
                case None => []
                case Some(vs) => [Condition("data", Some(NestedObject(vs)), "contains")];
    QueryEntry("messages", [TypeCondition(f)] + data)
  }

  function AsEventCondition(c: Condition): Condition {
    if c.field == "type" then c.(field := "msgType") else c
  }

  function AsEventConditions(cs: seq<Condition>): seq<Condition> {
    seq(|cs|, i requires 0 <= i < |cs| => AsEventCondition(cs[i]))
  }

  function EventEntry(f: Filter): QueryEntry {
    var message := match f.messageFilter
                   case None => []
                   case Some(mf) => AsEventConditions(MessageEntry(mf).conditions);
    QueryEntry("events", [TypeCondition(f)] + message)
  }

  method MessageFilterToQueryEntry(filter: Filter) returns (entry: QueryEntry)
    ensures entry == MessageEntry(filter)
  {
    var conditions := [TypeCondition(filter)];
    if filter.values.Some? {
      var values := filter.values.value;
      var nested := Empty;
      for i := 0 to |values|
        invariant nested == Compile(values[..i])
      {
        assert values[..i + 1][..i] == values[..i];
        nested := PutPath(nested, PathOf(values[i]), values[i].1);
      }
      assert values[..|values|] == values;
      ghost var _ := NestedObject(values);
      conditions := conditions + [Condition("data", Some(Obj(nested)), "contains")];
    }
    return QueryEntry("messages", conditions);
  }

  method EventFilterToQueryEntry(filter: Filter) returns (entry: QueryEntry)
    ensures entry == EventEntry(filter)
  {
    var conditions := [TypeCondition(filter)];
    if filter.messageFilter.Some? {
      var message := MessageFilterToQueryEntry(filter.messageFilter.value);
      conditions := conditions + AsEventConditions(message.conditions);
    }
    return QueryEntry("events", conditions);
  }

  // ----- one handler

  function KindOf(name: string): Option<Kind> {
    if name == "cosmos/BlockHandler" then Some(BlockKind)
    else if name == "cosmos/TransactionHandler" then Some(TransactionKind)
    else if name == "cosmos/MessageHandler" then Some(MessageKind)
    else if name == "cosmos/EventHandler" then Some(EventKind)
    else None
  }

  datatype KindLookup = NotFound | Found(kind: Option<Kind>)

  function GetBaseHandlerKind(source: Source, h: Handler): KindLookup {
    if source.Runtime? && KindOf(h.kind).Some? then Found(KindOf(h.kind))
    else if source.Custom? && KindOf(h.kind).None? then
      if h.kind in source.processors && source.processors[h.kind].baseKind.Some?
      then Found(source.processors[h.kind].baseKind)
      else NotFound
    else Found(None)
  }

  /** A handler makes the translation fail, disables the dictionary, or contributes entries. */
  datatype Outcome = Fails | Disables | Emits(entries: seq<QueryEntry>)

  function MessageEntries(fs: seq<Filter>): seq<QueryEntry> {
    seq(|fs|, i requires 0 <= i < |fs| => MessageEntry(fs[i]))
  }

  function EventEntries(fs: seq<Filter>): seq<QueryEntry> {
    seq(|fs|, i requires 0 <= i < |fs| => EventEntry(fs[i]))
  }

  function TranslateFilters(kind: Option<Kind>, fs: seq<Filter>): Outcome {
    if fs == [] then Disables
    else match kind
      case Some(BlockKind) => if forall f | f in fs :: f.modulo.Some? then Emits([]) else Disables
      case Some(MessageKind) => if forall f | f in fs :: f.ty.Some? then Emits(MessageEntries(fs)) else Disables
      case Some(EventKind) => if forall f | f in fs :: f.ty.Some? then Emits(EventEntries(fs)) else Disables
      case _ => Emits([])
  }

  /** The filters the translation reads for a handler. */
  function HandlerFilters(source: Source, h: Handler): seq<Filter> {
    if source.Custom? then
      if h.kind in source.processors then FilterList(source.processors[h.kind].baseFilter) else []
    else match h.filter case None => [] case Some(f) => [f]
  }

  /** The entry a plugin supplies for a handler itself. */
  function OwnQuery(source: Source, h: Handler): Option<QueryEntry> {
    if source.Custom? && h.kind in source.processors then source.processors[h.kind].dictionaryQuery(h) else None
  }

  function Translate(source: Source, h: Handler): Outcome {
    match GetBaseHandlerKind(source, h)
    case NotFound => Fails
    case Found(kind) =>
      if source.Custom? && h.kind !in source.processors then Fails
      else match OwnQuery(source, h)
        case Some(q) => Emits([q])
        case None => TranslateFilters(kind, HandlerFilters(source, h))
  }

  method TranslateFilterLoop(kind: Option<Kind>, fs: seq<Filter>) returns (outcome: Outcome)
    ensures outcome == TranslateFilters(kind, fs)
  {
    if |fs| == 0 {
      return Disables;
    }
    var entries: seq<QueryEntry> := [];
    match kind {
      case Some(BlockKind) =>
        for i := 0 to |fs|
          invariant forall f | f in fs[..i] :: f.modulo.Some?
        {
          if fs[i].modulo == None {
            return Disables;
          }
        }
      case Some(MessageKind) =>
        for i := 0 to |fs|
          invariant forall f | f in fs[..i] :: f.ty.Some?
          invariant entries == MessageEntries(fs)[..i]
        {
          if fs[i].ty == None {
            return Disables;
          }
          var entry := MessageFilterToQueryEntry(fs[i]);
          entries := entries + [entry];
        }
      case Some(EventKind) =>
        for i := 0 to |fs|
          invariant forall f | f in fs[..i] :: f.ty.Some?
          invariant entries == EventEntries(fs)[..i]
        {
          if fs[i].ty == None {
            return Disables;
          }
          var entry := EventFilterToQueryEntry(fs[i]);
          entries := entries + [entry];
        }
      case _ =>
    }
    return Emits(entries);
  }

  // ----- the whole project

  type Task = (Source, Handler)

  function TasksOf(source: Source, handlers: seq<Handler>): seq<Task> {
    if handlers == [] then [] else [(source, handlers[0])] + TasksOf(source, handlers[1..])
  }

  /** All handlers of a project with what interprets them, in order. */
  function Tasks(dataSources: seq<DataSource>): seq<Task> {
    if dataSources == [] then []
    else TasksOf(dataSources[0].source, dataSources[0].handlers) + Tasks(dataSources[1..])
  }

  function After(entries: seq<QueryEntry>, outcome: Outcome): Outcome {
    if outcome.Emits? then Emits(entries + outcome.entries) else outcome
  }

  /** The first handler that fails or disables decides; otherwise all entries are collected. */
  function Collect(tasks: seq<Task>): Outcome {
    if tasks == [] then Emits([])
    else match Translate(tasks[0].0, tasks[0].1)
      case Emits(entries) => After(entries, Collect(tasks[1..]))
      case o => o
  }

  datatype BuildResult = Threw | Entries(entries: seq<QueryEntry>)

  function Finish(outcome: Outcome): BuildResult {
    match outcome
    case Fails => Threw
    case Disables => Entries([])
    case Emits(entries) => Entries(Deduplicate(entries))
  }

  function Build(dataSources: seq<DataSource>): BuildResult {
    Finish(Collect(Tasks(dataSources)))
  }

  lemma AfterNothing(o: Outcome)
    ensures After([], o) == o
  {
    if o.Emits? {
      assert [] + o.entries == o.entries;
    }
  }

  lemma {:induction false} CollectCons(task: Task, rest: seq<Task>)
    ensures Collect([task] + rest) ==
            match Translate(task.0, task.1)
            case Emits(entries) => After(entries, Collect(rest))
            case o => o
  {
    assert ([task] + rest)[1..] == rest;
  }

  lemma AfterCompose(a: seq<QueryEntry>, b: seq<QueryEntry>, o: Outcome)
    ensures After(a, After(b, o)) == After(a + b, o)
  {
    if o.Emits? {
      assert a + (b + o.entries) == (a + b) + o.entries;
    }
  }

  lemma {:induction false} CollectStep(source: Source, handlers: seq<Handler>, rest: seq<Task>)
    requires handlers != []
    ensures Collect(TasksOf(source, handlers) + rest) ==
            match Translate(source, handlers[0])
            case Emits(entries) => After(entries, Collect(TasksOf(source, handlers[1..]) + rest))
            case o => o
  {
    var task, later := (source, handlers[0]), TasksOf(source, handlers[1..]);
    assert TasksOf(source, handlers) + rest == [task] + (later + rest);
    CollectCons(task, later + rest);
  }

  /** One handler: its kind, its own query, else its filters. */
  method TranslateHandler(source: Source, h: Handler) returns (outcome: Outcome)
    ensures outcome == Translate(source, h)
  {
    var base := GetBaseHandlerKind(source, h);
    if base.NotFound? {
      return Fails;
    }
    if source.Custom? {
      if h.kind !in source.processors {
        return Fails;
      }
      var own := source.processors[h.kind].dictionaryQuery(h);
      if own.Some? {
        return Emits([own.value]);
      }
    }
    outcome := TranslateFilterLoop(base.kind, HandlerFilters(source, h));
  }

  method BuildDictionaryQueryEntries(dataSources: seq<DataSource>) returns (result: BuildResult)
    ensures result == Build(dataSources)
  {
    ghost var whole := Collect(Tasks(dataSources));
    var queryEntries: seq<QueryEntry> := [];
    AfterNothing(whole);
    for i := 0 to |dataSources|
      invariant whole == After(queryEntries, Collect(Tasks(dataSources[i..])))
    {
      var ds := dataSources[i];
      ghost var rest := Tasks(dataSources[i + 1..]);
      assert dataSources[i..][1..] == dataSources[i + 1..];
      for j := 0 to |ds.handlers|
        invariant whole == After(queryEntries, Collect(TasksOf(ds.source, ds.handlers[j..]) + rest))
      {
        var h := ds.handlers[j];
        ghost var later := Collect(TasksOf(ds.source, ds.handlers[j + 1..]) + rest);
        assert ds.handlers[j..][1..] == ds.handlers[j + 1..];
        CollectStep(ds.source, ds.handlers[j..], rest);
        var outcome := TranslateHandler(ds.source, h);
        match outcome {
          case Fails => return Threw;
          case Disables => return Entries([]);
          case Emits(entries) =>
            AfterCompose(queryEntries, entries, later);
            queryEntries := queryEntries + entries;
        }
      }
      assert TasksOf(ds.source, ds.handlers[|ds.handlers|..]) + rest == rest;
    }
    assert whole == Emits(queryEntries + []);
    assert queryEntries + [] == queryEntries;
    return Entries(Deduplicate(queryEntries));
  }
}
