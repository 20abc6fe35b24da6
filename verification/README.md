# Verified model of the Cosmos indexer node

This project models the parts of the SubQuery Cosmos node that decide which blocks are fetched
and what handlers see of them, and proves properties of them in Dafny 4.11. Check everything
with `dafny verify dfyconfig.toml`.

## What is modelled

**The dictionary query.** A project's handlers carry filters. The node translates them into
dictionary query entries so that it can fetch only the blocks that matter. The model has the
filters as they run on a message or event (`Filters`, and `LazyDecoding` for the lazily decoded
form, on the self-replacing getters of `LazyCells`), the compilation of dotted-path equalities into one nested object (`QueryCompilation`), the
translation of all handlers with its early returns, failures and deduplication (`FetchService`,
`Dictionary`, `JsonText`, `BuildOutcome`), and what the resulting entries select (`Coverage`). An entry is a
conjunction of conditions, a list of entries a disjunction, and `contains` is object containment
as section 8.14.3 of the PostgreSQL documentation defines it.

**The block.** A fetched block is wrapped lazily: six memo fields, one event counter and a lazily
decoded cell per transaction, forced in any order (`BlockContent`). The traversal forces them while it hands the block, its
transactions, messages and events to every datasource, joining events to messages by transaction
hash and message index (`Indexer`). `Delivery` counts how often an event is delivered,
`DeliveryOrder`, `EventOrder` and `BlockOrder` establish the order, `TraceOrder` the event
indices over the whole trace, `Provenance` what every delivered item has to do with the fetched
bytes, results and logs. `EndToEnd` ties dictionary and traversal together, and
`Counterexamples` has the inputs on which the code does less than one might expect.

**Synthetic headers** (`Headers`, on `Decimal`) and **protobuf path naming** (`ProtoPaths`).

Hashing, transaction and message decoding and log parsing are library calls. They appear as a
record of arbitrary functions (`Codec`), where `None` stands for an exception. Fetching a block
is an arbitrary function too. A plugin is an arbitrary record of processors.

## Results in brief

- Compilation of `values` is exact if and only if no key path is a prefix of another
  (`CompileIsExactIffPrefixFree`); for all filters it loses no accepted message
  (`CompileOverApproximates`, `AcceptedMessageIsMatched`).
- For every item that the traversal of a block hands to a handler which accepts it, the block is
  fetched in every project that declares the handler and has the dictionary in use, if and only if
  the handler has none of three gaps at this item (`NoHandledBlockIsSkipped`). For a message or
  event this means that an entry selects its record if and only if the handler is visible
  (`HandlerIsCovered`, `DictionaryCovers`).
- Everything handlers are given is true to the fetched block: messages and events are, in order,
  what the transactions' bytes and logs hold (`MessagesComeFromBytes`, `EventsComeFromLogs`,
  `ItemsAreGenuine`).
- After any schedule of getter calls the event indices are exactly the numbers below the counter,
  each used once (`AnySchedule`), and each transaction was decoded once if the schedule needed it
  and otherwise not at all (`ForceAll`, `DecodedWhenNeeded`).
- An event with a message is delivered exactly once if and only if its transaction hash is unique
  in the block (`ExactlyOnceIffHashIsUnique`).
- Delivered events follow the event list, and indices strictly increase over the whole trace, if
  and only if no transaction's log entries step back to an earlier message
  (`DeliveryFollowsEventList`, `TraceIndicesIncrease`).

Five places where the code does less than one might expect came out of the proofs. Each has its
exact condition in the theorem named and an input on which it shows:

- A transaction handler with a filter contributes nothing to the query, and does not disable the
  dictionary either, so its blocks are skipped (`Gap`, `GapIsSkipped`;
  `TransactionBlockIsSkipped`).
- The same holds for a custom handler whose kind reuses the name of a runtime kind and that has no
  dictionary query of its own: its base kind is never looked up, although it is given what its base
  filter accepts (`DictionaryCovers`, `InvisibleHandlersAreCalled`; `RenamedHandlerIsSkipped`).
- A block handler with modulo zero, and a custom one with a list of base filters, is given every
  block although the dictionary stays in use (`BlockHandlersHaveModulos`; `ModuloZeroIsGivenAll`,
  `ListedModulosAreIgnored`).
- Two transactions with equal bytes in one block have the same hash, and an event of a transaction
  that occurs n times is delivered n * n times (`ExactlyOnceIffHashIsUnique`,
  `CopiesAreDeliveredSquared`; `DeliveredFourTimes`).
- Event indices step back when a log names a later message first (`TraceIndicesIncrease`;
  `IndicesStepBack`).

## Model

| member | source | states |
|---|---|---|
| QueryCompilation.CompilePreservesMeaning | packages/node/src/indexer/fetch.service.ts:91-105 | When no key path is a prefix of another, a document contains the nested object exactly when it is an object and every dotted path leads to its value |
| QueryCompilation.CompileIsExactIffPrefixFree | packages/node/src/indexer/fetch.service.ts:91-105 | For distinct keys, containment and the path equalities agree on all objects if and only if no key path is a prefix of another |
| QueryCompilation.CompileOverApproximates | packages/node/src/indexer/fetch.service.ts:80-110 | For every filter, overlapping paths included, an object on which all equalities hold contains the nested object |
| QueryCompilation.MatchableIsPrefixFree | packages/node/src/utils/cosmos.ts:72-90 | If some document has a leaf at every key path, no key path is a prefix of another: an overwritten branch loses nothing |
| QueryCompilation.LaterKeysWin | packages/node/src/indexer/fetch.service.ts:94-98 | The nested object has a key's value at its path if and only if no later key path continues it or is continued by it; otherwise there is an object or nothing |
| QueryCompilation.PathMeaning | packages/node/src/utils/cosmos.ts:74-76 | A key is its path segments joined by dots, and no segment has a dot |
| Filters.ValuesVerdictMeaning | packages/node/src/utils/cosmos.ts:72-90 | The loop over `values` accepts exactly when every path leads to the filter's value, or to a `Long` it names as a number or by its canonical decimal text, and throws exactly when the first unmet path has a missing or null value on the way |
| Filters.MessageAcceptedIff | packages/node/src/utils/cosmos.ts:61-103 | A message filter accepts exactly the messages of an admitted transaction with the exact type, every path leading to its value as written out above, and a `msg` that is, or has a property named, the contract call, decoding having succeeded where it was needed |
| Filters.MessageThrowsIff | packages/node/src/utils/cosmos.ts:61-103 | It throws exactly when transaction and type pass and the message cannot be decoded though needed, a path is cut off, or a null message is asked for a call |
| Filters.EventAcceptedIff | packages/node/src/utils/cosmos.ts:129-157 | An event filter accepts exactly the events of its type whose message its message filter accepts and that list every attribute with this key and value |
| Filters.EventThrowsIff | packages/node/src/utils/cosmos.ts:129-157 | It throws exactly when the type is right and the message filter throws on the event's message |
| Filters.ListVerdictIff | packages/node/src/utils/cosmos.ts:120-126 | A list lets an item through exactly when the first element that does not reject it is an actual filter that accepts it, and throws exactly when that element throws |
| Filters.PresentInOrder | packages/node/src/indexer/fetch.service.ts:181-183 | Removing holes from a list of base filters keeps the filters and their order |
| Filters.AcceptedByOne | packages/node/src/utils/cosmos.ts:105-127 | What a list of base filters lets through was accepted by one of its actual filters, also when the list has holes |
| LazyCells.DecodedAtMostOnce | packages/node/src/utils/cosmos.ts:239-242 | Over any number of reads the decoder runs at most once, even when it throws; later reads see the stored value, or undefined after a failure |
| LazyCells.LazyCell.Get | packages/node/src/utils/cosmos.ts:219-222 | One read of a self-replacing getter: new state, value or exception, and the number of decoder runs, which never exceeds one |
| LazyDecoding.FilterMessageData | packages/node/src/utils/cosmos.ts:61-103 | Same verdict as on the eagerly decoded message whatever was read before, and the message gets decoded exactly when transaction and type pass and the filter has values or asks for a contract call |
| LazyDecoding.FilterEvent | packages/node/src/utils/cosmos.ts:129-157 | Verdict on type, message filter and all attributes, and exactly when the event's message gets decoded |
| JsonText.TextDetermines | packages/node/src/indexer/fetch.service.ts:219-222 | The JSON text of a value, even with more text behind it, determines the value |
| JsonText.TextShapes | packages/node/src/indexer/fetch.service.ts:219-222 | The texts of leaves and of empty and two-element arrays and objects, written out |
| Dictionary.KeyDetermines | packages/node/src/indexer/fetch.service.ts:219-222 | Two deduplication keys are the same text exactly when entity and field-sorted conditions are the same |
| Dictionary.KeyIgnoresOrder | packages/node/src/indexer/fetch.service.ts:219-222 | Entries that list the same conditions on distinct fields in another order have the same key |
| Dictionary.ConditionProperties | packages/node/src/indexer/fetch.service.ts:219-222 | In the key text a condition has the properties field, value and matcher in this order, without an absent value |
| Dictionary.SortMeaning | packages/node/src/indexer/fetch.service.ts:221 | Sorting conditions by field gives a permutation in order of the fields that is stable on each field |
| Dictionary.BeforeMeaning | packages/node/src/indexer/fetch.service.ts:221 | Fields are ordered by the first character in which they differ, a prefix first |
| Dictionary.SameKeySameRecords | packages/node/src/indexer/fetch.service.ts:217-223 | Entries with the same key match the same records in every database |
| Dictionary.DeduplicatePreservesSelection | packages/node/src/indexer/fetch.service.ts:217-223 | Deduplication keeps a subsequence with pairwise distinct keys that selects exactly the same records and is empty only for an empty input |
| Dictionary.UniqKeepsFirst | packages/node/src/indexer/fetch.service.ts:217-223 | Exactly the first item of every key is kept, in order |
| FetchService.MessageFilterToQueryEntry | packages/node/src/indexer/fetch.service.ts:80-110 | The loop of path assignments builds the compiled object; the entry asks for the type and for containment of that object |
| FetchService.EventFilterToQueryEntry | packages/node/src/indexer/fetch.service.ts:52-78 | The event's type condition followed by the message filter's conditions with `type` renamed to `msgType` |
| FetchService.TranslateFilterLoop | packages/node/src/indexer/fetch.service.ts:181-213 | Per base kind: disabled without filters or when a filter lacks its modulo or type, otherwise one entry per filter, none for blocks and other kinds |
| FetchService.TranslateHandler | packages/node/src/indexer/fetch.service.ts:157-213 | One handler: a failed kind lookup throws, a plugin's own query replaces the filters, otherwise the filters decide |
| FetchService.BuildDictionaryQueryEntries | packages/node/src/indexer/fetch.service.ts:148-224 | The nested loops over datasources and handlers yield what the first failing or disabling handler decides, else all entries deduplicated |
| BuildOutcome.FailsIff | packages/node/src/indexer/fetch.service.ts:268-285 | A handler makes the translation fail exactly when its custom datasource has no processor for it, or one without a base kind and under no runtime name |
| BuildOutcome.EntriesPerFilter | packages/node/src/indexer/fetch.service.ts:160-213 | A handler that emits contributes its own query alone, or one entry per filter in order for messages and events, or nothing |
| BuildOutcome.FirstHandlerDecides | packages/node/src/indexer/fetch.service.ts:148-224 | The result throws exactly when the first declared handler that does not emit fails, is empty when it disables, and otherwise lists the entries of all handlers in order of declaration without repetitions |
| Coverage.MessageEntryMeaning | packages/node/src/indexer/fetch.service.ts:80-110 | For every message and filter, the entry matches the message's record exactly when the type is equal and the stored data contains the compiled object |
| Coverage.EventEntryMeaning | packages/node/src/indexer/fetch.service.ts:52-78 | For every event and filter, the entry matches the event's record exactly when the type is equal and the message filter's entry matches the event's message |
| Coverage.AcceptedMessageIsMatched | packages/node/src/utils/cosmos.ts:61-103 | An accepted message is matched by its filter's entry exactly when the dictionary stores each `Long` at a filtered path as the value the filter names, and the message as an object |
| Coverage.AcceptedEventIsMatched | packages/node/src/utils/cosmos.ts:129-157 | An accepted event is matched by its entry, for all message filters and all attribute filters, under the same storage condition on its message |
| Coverage.BlocksAndTransactionsGiven | packages/node/src/utils/cosmos.ts:34-59 | Exactly which blocks and transactions a runtime or custom handler is given, with one filter, a list, or none |
| Coverage.MessagesAndEventsGiven | packages/node/src/indexer/indexer.manager.ts:185-204 | Exactly which messages and events a handler is given, and when that throws: those of its kind when no filter applies or the first filter that does not reject accepts |
| Coverage.HandlerIsCovered | packages/node/src/indexer/indexer.manager.ts:185-204 | The entries a handler contributes select a message or event its filter or base filters let through, if and only if the handler is visible |
| Coverage.DictionaryCovers | packages/node/src/indexer/fetch.service.ts:148-224 | Every project that declares the handler and has a non-empty result selects the record of a message or event the handler accepts, if and only if the handler is visible |
| Coverage.TransactionsAreNotQueried | packages/node/src/indexer/fetch.service.ts:212-213 | With a non-empty result, a handler that is given a transaction is invisible or has a query of its own |
| Coverage.BlockHandlersHaveModulos | packages/node/src/indexer/fetch.service.ts:185-191 | With a non-empty result each block handler has a modulo and is given exactly the blocks whose height it divides; all blocks when it is zero or base filters are listed |
| Coverage.InvisibleHandlersLeaveNoTrace | packages/node/src/indexer/fetch.service.ts:184-213 | The query is the same without an invisible handler, wherever it is declared |
| Coverage.InvisibleHandlersAreCalled | packages/node/src/indexer/indexer.manager.ts:185-204 | An invisible transaction handler is given exactly the admitted transactions, an invisible custom handler what its one base filter accepts, and of a list nothing that no listed filter accepts |
| Coverage.DisablesIff | packages/node/src/indexer/fetch.service.ts:181-211 | A message or event handler without own query disables the dictionary exactly when it has no filter, only holes, or a filter without a type |
| Coverage.UnfilteredIffGivenAll | packages/node/src/utils/cosmos.ts:105-176 | A handler is given every message or event exactly when its filter is absent or an empty list; a list of holes only lets nothing through |
| Coverage.BuildMeaning | packages/node/src/indexer/fetch.service.ts:148-224 | The result is empty exactly when some handler disables the dictionary or none contributes; otherwise it selects exactly the records matched by an entry of some declared handler |
| Coverage.OrderDoesNotMatter | packages/node/src/indexer/fetch.service.ts:151-224 | Projects declaring the same handlers in any order and grouping are disabled together and select the same records, when no kind lookup fails |
| BlockContent.WrapCosmosMsg | packages/node/src/utils/cosmos.ts:226-245 | The message an index names, or a failure when the transaction does not decode or has no such message, reading the lazily decoded transaction |
| BlockContent.WrapMsg | packages/node/src/utils/cosmos.ts:247-259 | All messages of all transactions in order, or a failure exactly when a transaction cannot be decoded; transactions are decoded up to the first that fails, none twice |
| BlockContent.WrapLogEvents | packages/node/src/utils/cosmos.ts:296-315 | The events of one log entry, numbered consecutively, with the message its index names or none |
| BlockContent.WrapEvent | packages/node/src/utils/cosmos.ts:279-320 | The concatenation of all log events of transactions with parsable logs, numbered from the offset without gaps; exactly the transactions with log entries are decoded, none twice |
| BlockContent.WrapBlockBeginAndEndEvents | packages/node/src/utils/cosmos.ts:261-277 | The events in order, numbered consecutively from the offset, without transaction, message or log |
| BlockContent.LazyBlockContent.GetMessages | packages/node/src/utils/cosmos.ts:376-381 | Memoised messages; when decoding fails nothing is stored and the next call fails again, without running a decoder twice |
| BlockContent.LazyBlockContent.GetEvents | packages/node/src/utils/cosmos.ts:383-394 | Memoised events numbered from the shared counter, which advances by their number on the first call only |
| BlockContent.LazyBlockContent.GetBeginBlockEvents | packages/node/src/utils/cosmos.ts:396-407 | Memoised begin-block events numbered from the shared counter |
| BlockContent.LazyBlockContent.GetEndBlockEvents | packages/node/src/utils/cosmos.ts:409-420 | Memoised end-block events numbered from the shared counter |
| BlockContent.AnySchedule | packages/node/src/utils/cosmos.ts:345-421 | After any sequence of getter calls every index below the counter belongs to exactly one event of one forced list, lists are consecutive, and whatever was forced never changes under further calls |
| BlockContent.ForcedIffCalled | packages/node/src/utils/cosmos.ts:345-421 | A list is forced exactly when its getter was called before, and messages only when every transaction decodes |
| BlockContent.BlockAndTxsForced | packages/node/src/utils/cosmos.ts:360-420 | Every getter forces the block, and exactly the transaction, message and event getters force the transactions |
| BlockContent.ForceAll | packages/node/src/utils/cosmos.ts:345-421 | Over any schedule of getter calls the object follows the state machine, and each transaction's decoder runs once if the schedule needs it and never twice |
| BlockContent.DecodedWhenNeeded | packages/node/src/utils/cosmos.ts:247-320 | A schedule decodes a transaction exactly when it asks for the messages and all earlier ones decode, or for the events and there are log entries |
| BlockContent.HasIndexMeaning | packages/node/src/utils/cosmos.ts:345-421 | The index interval of a consecutive list is exactly the set of its events' indices, which are distinct |
| BlockContent.FetchBlocksBatches | packages/node/src/utils/cosmos.ts:322-343 | Succeeds exactly when every height can be fetched with as many results as transactions, and then gives one untouched content per height in request order, no two sharing state |
| Provenance.TransactionsComeFromBytes | packages/node/src/utils/cosmos.ts:201-224 | One transaction per fetched one, in order, each with the hash, the bytes and the result at its own position |
| Provenance.MessagesComeFromBytes | packages/node/src/utils/cosmos.ts:226-259 | The messages are the concatenation, over the fetched transactions, of what their bytes decode to, each with its own transaction, position and content |
| Provenance.LogEventsInOrder | packages/node/src/utils/cosmos.ts:296-315 | Wrapped event k of a log entry has the entry's event k and index offset + k |
| Provenance.EventsComeFromLogs | packages/node/src/utils/cosmos.ts:279-320 | The transaction events are the concatenation of the events of all entries of all parsable logs, each with its own transaction, log entry and the message the entry names in the transaction's bytes |
| Provenance.BlockEventsInOrder | packages/node/src/utils/cosmos.ts:261-277 | Wrapped begin-block or end-block event k is raw event k with index offset + k |
| Provenance.ItemsAreGenuine | packages/node/src/indexer/indexer.manager.ts:104-135 | Every block, transaction, message and event a traversal hands to a handler is true to the fetched block |
| Provenance.PhasesInOrder | packages/node/src/indexer/indexer.manager.ts:104-135 | The traversal goes through the block, once, then begin-block events, transactions with messages and events, and end-block events |
| Indexer.IndexMessages | packages/node/src/indexer/indexer.manager.ts:120-129 | Each message of a transaction followed by the events joined to it, forcing the event list only if there is a message |
| Indexer.IndexTransactions | packages/node/src/indexer/indexer.manager.ts:115-130 | The transaction phase of the join, or a stop after the first transaction when one cannot be decoded |
| Indexer.IndexBlockData | packages/node/src/indexer/indexer.manager.ts:104-135 | The whole trace over all datasources, which getters it forces, and how it ends when decoding fails |
| Delivery.EachDatasourceSeesAll | packages/node/src/indexer/indexer.manager.ts:137-175 | The calls to any one datasource are exactly the visited items, in order |
| Delivery.CallsInOrder | packages/node/src/indexer/indexer.manager.ts:137-175 | The calls for one item come together and name datasources 0, 1, ..., n - 1 in this order |
| Delivery.PhaseCount | packages/node/src/indexer/indexer.manager.ts:115-130 | For any block, an event occurs as often as transactions with its hash times messages with its hash and message index |
| Delivery.OrphansAreNotDelivered | packages/node/src/indexer/indexer.manager.ts:122-124 | An event without a message never occurs in the transaction phase |
| Delivery.ExactlyOnceIffHashIsUnique | packages/node/src/indexer/indexer.manager.ts:115-130 | For any log order, an event whose index names a real message is delivered at least once, and exactly once if and only if no other transaction has its hash |
| Delivery.CopiesAreDeliveredSquared | packages/node/src/indexer/indexer.manager.ts:115-130 | When equal hashes come from equal bytes, an event of a transaction that occurs n times in the block is delivered n * n times |
| DeliveryOrder.PhaseIsLocal | packages/node/src/indexer/indexer.manager.ts:115-130 | With distinct hashes the join over the block's flat lists equals a join within each transaction |
| BlockOrder.DeliveryFollowsEventList | packages/node/src/indexer/indexer.manager.ts:115-130 | With distinct hashes, delivered events are the event list restricted to events with a message, in its order, if and only if the effective log entries of each transaction have non-decreasing message indices |
| BlockOrder.DeliveryKeepsAll | packages/node/src/indexer/indexer.manager.ts:115-130 | With distinct hashes and any log order, the delivered events are as many as, and the same as, the events that have a message |
| BlockOrder.TxsAndMessagesInOrder | packages/node/src/indexer/indexer.manager.ts:115-121 | With distinct hashes every transaction and every message is delivered exactly once, in order |
| TraceOrder.ScheduleOffsets | packages/node/src/utils/cosmos.ts:383-420 | The traversal numbers begin-block events from zero, then transaction events, then end-block events without a gap, also when the transaction events are never forced |
| TraceOrder.TraceIndicesIncrease | packages/node/src/indexer/indexer.manager.ts:104-135 | With distinct hashes, event indices strictly increase over the whole trace if and only if the log entries of every transaction are in message order |
| TraceOrder.OwnersPrecedeEvents | packages/node/src/indexer/indexer.manager.ts:115-129 | With distinct hashes, before every delivered event come its own transaction and then its own message |
| EndToEnd.TraversalIsTraversable | packages/node/src/indexer/indexer.manager.ts:104-135 | The traversal of an untouched block whose transactions decode ends with all lists it delivers being the block's own events |
| EndToEnd.NoHandledBlockIsSkipped | packages/node/src/indexer/indexer.manager.ts:104-135 | For every item the traversal of a block delivers and a handler accepts, the block is fetched in every project with the handler and the dictionary in use, if and only if the handler has no gap at the item |
| EndToEnd.FetchedWithoutGap | packages/node/src/indexer/fetch.service.ts:148-224 | Without a gap, an entry selects a record of the block or the height is a multiple of the block handler's modulo |
| EndToEnd.GapIsSkipped | packages/node/src/indexer/fetch.service.ts:181-213 | For every handler with a gap and every block there is a project with the handler and the dictionary in use that does not fetch the block |
| Counterexamples.TransactionBlockIsSkipped | packages/node/src/indexer/fetch.service.ts:212-213 | A message handler and a filtered transaction handler: a block with a successful transaction without messages is skipped although the transaction handler accepts it |
| Counterexamples.RenamedHandlerIsSkipped | packages/node/src/indexer/fetch.service.ts:157-213 | A plugin's message handler under the name of a runtime kind accepts the message of a block that is skipped |
| Counterexamples.ModuloZeroIsGivenAll | packages/node/src/utils/cosmos.ts:34-45 | A block handler with modulo zero accepts every block, and the empty block at height 1 is not fetched |
| Counterexamples.ListedModulosAreIgnored | packages/node/src/indexer/indexer.manager.ts:190-192 | A custom block handler that lists a base filter with modulo two accepts every block, and the empty block at height 1 is not fetched |
| Counterexamples.DeliveredFourTimes | packages/node/src/indexer/indexer.manager.ts:115-130 | Two equal transactions with one event each: both events are delivered four times |
| Counterexamples.IndicesStepBack | packages/node/src/indexer/indexer.manager.ts:115-130 | A log that names message 1 before message 0: the trace has event 1 before event 0 |
| Counterexamples.CoverageApplies | packages/node/src/indexer/fetch.service.ts:148-224 | One event handler and a block with one begin-block event meet everything coverage asks for |
| Decimal.ParsePrint | packages/node/src/indexer/unfinalizedBlocks.service.ts:48-50 | Parsing the printed form of an integer gives it back, whatever non-digit text follows |
| Decimal.PrintParse | packages/node/src/indexer/unfinalizedBlocks.service.ts:48-50 | A text that parses is printed back unchanged exactly when it is canonical decimal |
| Decimal.ParseAfterSpaces | packages/node/src/indexer/unfinalizedBlocks.service.ts:48-50 | Leading white space is skipped |
| Decimal.ParseOther | packages/node/src/indexer/unfinalizedBlocks.service.ts:48-50 | A plus sign before digits changes nothing, and text without leading digits is not a number |
| Headers.HashFindsHeader | packages/node/src/indexer/unfinalizedBlocks.service.ts:47-55 | Looking a header up by its own hash gives the header, also for NaN |
| Headers.HeaderFields | packages/node/src/indexer/unfinalizedBlocks.service.ts:19-25 | A header carries its height, and its hashes are the canonical decimal texts of the height and its predecessor |
| Headers.AncestorIsSubtraction | packages/node/src/indexer/unfinalizedBlocks.service.ts:19-55 | Following the parent hash k times from height h gives the header of h - k |
| Headers.HashesIdentifyHeights | packages/node/src/indexer/unfinalizedBlocks.service.ts:19-25 | Hashes are equal exactly for equal heights, and headers link exactly for consecutive heights |
| Headers.LookupKeepsHash | packages/node/src/indexer/unfinalizedBlocks.service.ts:48-50 | A looked-up header carries the hash it was looked up by exactly when that hash is canonical decimal or NaN |
| ProtoPaths.ImportPathFollowsNamespace | packages/common-cosmos/src/codegen/codegen-controller.ts:52-63 | For every path the import path is the namespace with dots turned into slashes, below the interfaces directory |
| ProtoPaths.StripMeaning | packages/common-cosmos/src/codegen/codegen-controller.ts:55-60 | A leading `./proto/` and a trailing `.proto` are removed, each where there is one |
| ProtoPaths.NamespaceCharacters | packages/common-cosmos/src/codegen/codegen-controller.ts:58-63 | The namespace is the stripped path with a dot for every slash that follows no backslash or two |
| ProtoPaths.ImportCharacters | packages/common-cosmos/src/codegen/codegen-controller.ts:52-56 | The import path is `./proto-interfaces/` and the stripped path with a slash for every dot |
| ProtoPaths.NamespaceSplitsIntoSegments | packages/common-cosmos/src/codegen/codegen-controller.ts:58-63 | For dot-free and backslash-free files below the proto directory the namespace splits back into the path segments |
| ProtoPaths.NamespaceIsInjective | packages/common-cosmos/src/codegen/codegen-controller.ts:58-63 | Different dot-free files below the proto directory have different namespaces |

## Left out

- DictionaryCovers: a plugin's own dictionary query is taken to match what its handler accepts, since plugins are not part of the repository.
- DictionaryCovers: what the dictionary database stores is not part of the repository; one record per message and per event is taken as given, and how it stores a `Long` is a parameter with an exact condition.
- NoHandledBlockIsSkipped: covers traversals that run to their end; one that stops at a transaction which cannot be decoded is described by IndexBlockData only.
- NoHandledBlockIsSkipped: how heights that are multiples of a modulo are added to the fetched ones is decided in node-core; the model takes the modulos from the handler's filters.
- AncestorIsSubtraction: integers are unbounded; the JavaScript code prints and parses exactly only below 1e21 and subtracts exactly only for safe integers.
- JavaScript corners of property access: `low`, `high` and `unsigned` of a `Long`, `length` of a string or an array, prototype names, array indices and string indices as path segments or contract calls, bracket syntax and integer segments in lodash paths, integer-like object keys being reordered.
- Numbers are integers; fractions, NaN as a filter value and the rounding of a `Long` beyond 2^53 are not modelled.
- Entity names contain no bar, as GraphQL names do not, and query values contain no `Long`; a plugin's condition objects are taken to have the properties field, value and matcher in this order.
- Text is a sequence of Unicode scalar values, so lone surrogates and UTF-16 order of supplementary characters in `sortBy` are not modelled.
- `filterMessages` and `filterEvents` are modelled for the one-element lists the node passes to them.
- Messages of the message list and of the event list are separate objects that decode separately; the block model keeps messages as values, so which of them was decoded is modelled per cell only.
- The cells of the transactions exist from the construction of a block content on, not from the first use of its transactions; creating one runs no decoder.
- Block identifier and header fields other than the height, and the conversion `fromTendermintEvent`, add nothing to the properties.
- Concurrency of the two RPC calls of a block and of the blocks of a batch: only the order of results matters to the code.
- What handlers do, including datasources they create while a block is indexed, and the filters a plugin adds on top of the base filter.
- `pathToName`: capitalised concatenation, which different paths can share.
- The node-core base classes, the RPC clients and their error classification, configuration, command line, sandbox and manifest validation.
