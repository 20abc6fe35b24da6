/**
 * The lazily wrapped content of one block: transactions, messages and the three event lists,
 * each computed on first use, with event indices drawn from one shared counter.
 */
module BlockContent {
  import opened Wrappers
  import opened CosmosTypes
  import opened LazyCells

  // ----- wrapping

  function WrapBlock(info: BlockInfo, results: seq<TxData>): CosmosBlock {
    CosmosBlock(info.height, info.txs, results)
  }

  function WrapTx(codec: Codec, block: CosmosBlock, results: seq<TxData>): seq<CosmosTransaction>
    requires |results| <= |block.rawTxs|
  {
    seq(|results|, i requires 0 <= i < |results| =>
      CosmosTransaction(i, block, results[i], codec.hash(block.rawTxs[i]), block.rawTxs[i]))
  }

  /** Message number `idx` of a transaction, when the transaction decodes and has one. */
  function MessageAt(codec: Codec, block: CosmosBlock, tx: CosmosTransaction, idx: int): Option<CosmosMessage> {
    match codec.decodeTx(tx.raw)
    case None => None
    case Some(raws) => if 0 <= idx < |raws| then Some(CosmosMessage(idx, tx, block, raws[idx])) else None
  }

  function TxMessages(block: CosmosBlock, tx: CosmosTransaction, raws: seq<RawMessage>): seq<CosmosMessage> {
    seq(|raws|, i requires 0 <= i < |raws| => CosmosMessage(i, tx, block, raws[i]))
  }

  /** All messages of the transactions in order, or `None` when one of them cannot be decoded. */
  function Messages(codec: Codec, block: CosmosBlock, txs: seq<CosmosTransaction>): Option<seq<CosmosMessage>> {
    if txs == [] then Some([])
    else
      var n := |txs| - 1;
      match Messages(codec, block, txs[..n])
      case None => None
      case Some(front) =>
        match codec.decodeTx(txs[n].raw)
        case None => None
        case Some(raws) => Some(front + TxMessages(block, txs[n], raws))
  }

  predicate AllDecodable(codec: Codec, txs: seq<CosmosTransaction>) {
    forall i | 0 <= i < |txs| :: codec.decodeTx(txs[i].raw).Some?
  }

  lemma {:induction false} MessagesExist(codec: Codec, block: CosmosBlock, txs: seq<CosmosTransaction>)
    ensures Messages(codec, block, txs).Some? <==> AllDecodable(codec, txs)
  {
    if txs == [] {
    } else {
      MessagesExist(codec, block, txs[..|txs| - 1]);
    }
  }

  lemma {:induction false} MessagesPrefix(codec: Codec, block: CosmosBlock, txs: seq<CosmosTransaction>, i: nat)
    requires i <= |txs| && Messages(codec, block, txs[..i]) == None
    ensures Messages(codec, block, txs) == None
  {
    MessagesExist(codec, block, txs[..i]);
    MessagesExist(codec, block, txs);
  }

  lemma {:induction false} MessagesGrow(codec: Codec, block: CosmosBlock, txs: seq<CosmosTransaction>, i: nat)
    requires i < |txs| && Messages(codec, block, txs[..i]).Some?
    ensures Messages(codec, block, txs[..i + 1]) ==
            match codec.decodeTx(txs[i].raw)
            case None => None
            case Some(raws) => Some(Messages(codec, block, txs[..i]).value + TxMessages(block, txs[i], raws))
  {
    assert txs[..i + 1][..i] == txs[..i];
  }

  /** All transactions before number `i` can be decoded. */
  predicate DecodableBelow(codec: Codec, txs: seq<CosmosTransaction>, i: nat)
    requires i <= |txs|
  {
    forall k | 0 <= k < i :: codec.decodeTx(txs[k].raw).Some?
  }

  // ----- lazily decoded transactions

  /** The `decodedTx` of one transaction. */
  type TxCell = LazyCell<Bytes, seq<RawMessage>>

  /** The cell belongs to transaction `tx`. */
  ghost predicate TxCellOf(cell: TxCell, codec: Codec, tx: CosmosTransaction)
    reads cell
  {
    cell.Valid() && cell.raw == tx.raw && cell.decode == codec.decodeTx
  }

  /** One cell per transaction. */
  ghost predicate CellsOf(cells: seq<TxCell>, codec: Codec, txs: seq<CosmosTransaction>)
    reads cells
  {
    && |cells| == |txs|
    && (forall i, j | 0 <= i < j < |cells| :: cells[i] != cells[j])
    && (forall i | 0 <= i < |cells| :: TxCellOf(cells[i], codec, txs[i]))
  }

  /** Reading the messages of `decodedTx`; `None` when the read throws or gives `undefined`. */
  method ReadMessages(codec: Codec, tx: CosmosTransaction, cell: TxCell) returns (raws: Option<seq<RawMessage>>)
    requires TxCellOf(cell, codec, tx)
    modifies cell
    ensures TxCellOf(cell, codec, tx)
    ensures cell.calls == 1
    ensures raws == codec.decodeTx(tx.raw)
  {
    var read := cell.Get();
    raws := if read.Raised? then None else read.value;
  }

  /** Fails when the transaction cannot be decoded or has no message with this index. */
  method WrapCosmosMsg(codec: Codec, block: CosmosBlock, tx: CosmosTransaction, cell: TxCell, idx: int)
    returns (msg: Option<CosmosMessage>)
    requires TxCellOf(cell, codec, tx)
    modifies cell
    ensures TxCellOf(cell, codec, tx)
    ensures cell.calls == 1
    ensures msg == MessageAt(codec, block, tx, idx)
  {
    var raws := ReadMessages(codec, tx, cell);
    if raws.None? || !(0 <= idx < |raws.value|) {
      return None;
    }
    return Some(CosmosMessage(idx, tx, block, raws.value[idx]));
  }

  /** The inner loop of `WrapMsg`; the loop condition reads `decodedTx` anew each time. */
  method WrapTxMsg(codec: Codec, block: CosmosBlock, tx: CosmosTransaction, cell: TxCell)
    returns (result: Option<seq<CosmosMessage>>)
    requires TxCellOf(cell, codec, tx)
    modifies cell
    ensures TxCellOf(cell, codec, tx)
    ensures cell.calls == 1
    ensures result == match codec.decodeTx(tx.raw)
                      case None => None
                      case Some(raws) => Some(TxMessages(block, tx, raws))
  {
    var raws := ReadMessages(codec, tx, cell);
    if raws.None? {
      return None;
    }
    var msgs: seq<CosmosMessage> := [];
    while |msgs| < |raws.value|
      invariant TxCellOf(cell, codec, tx)
      invariant cell.calls == 1
      invariant raws == codec.decodeTx(tx.raw) && |msgs| <= |raws.value|
      invariant msgs == TxMessages(block, tx, raws.value)[..|msgs|]
    {
      var msg := WrapCosmosMsg(codec, block, tx, cell, |msgs|);
      msgs := msgs + [msg.value];
      raws := ReadMessages(codec, tx, cell);
    }
    assert msgs == TxMessages(block, tx, raws.value);
    return Some(msgs);
  }

  /** How often the decoders have run. */
  ghost function CallsOf(cells: seq<TxCell>): (calls: seq<nat>)
    reads cells
    ensures |calls| == |cells| && forall i | 0 <= i < |cells| :: calls[i] == cells[i].calls
  {
    if cells == [] then [] else CallsOf(cells[..|cells| - 1]) + [cells[|cells| - 1].calls]
  }

  /** The decoders of the first `i` transactions have run, the others as before. */
  ghost predicate ReadInTurn(cells: seq<TxCell>, was: seq<nat>, i: nat)
    reads cells
  {
    |was| == |cells| && forall k | 0 <= k < |cells| :: cells[k].calls == if k < i then 1 else was[k]
  }

  /** One round of the loop below. */
  method WrapNextMsg(codec: Codec, block: CosmosBlock, txs: seq<CosmosTransaction>, cells: seq<TxCell>, i: nat,
                     ghost was: seq<nat>)
    returns (result: Option<seq<CosmosMessage>>)
    requires CellsOf(cells, codec, txs) && i < |txs| && ReadInTurn(cells, was, i)
    modifies cells
    ensures CellsOf(cells, codec, txs) && ReadInTurn(cells, was, i + 1)
    ensures result == match codec.decodeTx(txs[i].raw)
                      case None => None
                      case Some(raws) => Some(TxMessages(block, txs[i], raws))
  {
    result := WrapTxMsg(codec, block, txs[i], cells[i]);
  }

  /** All messages in order; transactions are decoded up to the first that cannot be. */
  method WrapMsg(codec: Codec, block: CosmosBlock, txs: seq<CosmosTransaction>, cells: seq<TxCell>)
    returns (result: Option<seq<CosmosMessage>>)
    requires CellsOf(cells, codec, txs)
    modifies cells
    ensures CellsOf(cells, codec, txs)
    ensures result == Messages(codec, block, txs)
    ensures forall i | 0 <= i < |cells| ::
              cells[i].calls == if DecodableBelow(codec, txs, i) then 1 else old(cells[i].calls)
  {
    var msgs: seq<CosmosMessage> := [];
    ghost var was := CallsOf(cells);
    for i := 0 to |txs|
      invariant CellsOf(cells, codec, txs) && ReadInTurn(cells, was, i)
      invariant Messages(codec, block, txs[..i]) == Some(msgs) && DecodableBelow(codec, txs, i)
    {
      var more := WrapNextMsg(codec, block, txs, cells, i, was);
      MessagesGrow(codec, block, txs, i);
      if more.None? {
        MessagesPrefix(codec, block, txs, i + 1);
        return None;
      }
      msgs := msgs + more.value;
    }
    assert txs[..|txs|] == txs;
    return Some(msgs);
  }

  /** A transaction event before it gets its index. */
  datatype Pending = Pending(msg: Option<CosmosMessage>, tx: CosmosTransaction, log: Log, event: Event)

  function LogEvents(codec: Codec, block: CosmosBlock, tx: CosmosTransaction, log: Log): seq<Pending> {
    var msg := MessageAt(codec, block, tx, log.msgIndex);
    seq(|log.events|, i requires 0 <= i < |log.events| => Pending(msg, tx, log, log.events[i]))
  }

  function LogsEvents(codec: Codec, block: CosmosBlock, tx: CosmosTransaction, logs: seq<Log>): seq<Pending> {
    if logs == [] then []
    else LogsEvents(codec, block, tx, logs[..|logs| - 1]) + LogEvents(codec, block, tx, logs[|logs| - 1])
  }

  /** A transaction whose log cannot be parsed has no events. */
  function TxEvents(codec: Codec, block: CosmosBlock, tx: CosmosTransaction): seq<Pending> {
    match codec.parseLog(tx.tx.log)
    case None => []
    case Some(logs) => LogsEvents(codec, block, tx, logs)
  }

  /** All log events of all transactions, in order. */
  function AllEvents(codec: Codec, block: CosmosBlock, txs: seq<CosmosTransaction>): seq<Pending> {
    if txs == [] then []
    else AllEvents(codec, block, txs[..|txs| - 1]) + TxEvents(codec, block, txs[|txs| - 1])
  }

  function NumberedEvent(block: CosmosBlock, p: Pending, idx: nat): CosmosEvent {
    CosmosEvent(idx, p.msg, Some(p.tx), block, Some(p.log), p.event)
  }

  /** Events with consecutive indices from `offset`. */
  function Numbered(block: CosmosBlock, pending: seq<Pending>, offset: nat): seq<CosmosEvent> {
    seq(|pending|, i requires 0 <= i < |pending| => NumberedEvent(block, pending[i], offset + i))
  }

  lemma NumberedIsNumbered(block: CosmosBlock, pending: seq<Pending>, offset: nat)
    ensures NumberedFrom(Numbered(block, pending, offset), offset)
  {
  }

  lemma NumberedAppend(block: CosmosBlock, a: seq<Pending>, b: seq<Pending>, offset: nat)
    ensures Numbered(block, a + b, offset) == Numbered(block, a, offset) + Numbered(block, b, offset + |a|)
  {
  }

  lemma NumberedGrow(block: CosmosBlock, a: seq<Pending>, b: seq<Pending>, offset: nat, events: seq<CosmosEvent>,
                     more: seq<CosmosEvent>)
    requires events == Numbered(block, a, offset) && more == Numbered(block, b, offset + |events|)
    ensures events + more == Numbered(block, a + b, offset)
  {
    NumberedAppend(block, a, b, offset);
  }

  /** The innermost loop: the events of one log entry. */
  method WrapLogEvents(codec: Codec, block: CosmosBlock, tx: CosmosTransaction, cell: TxCell, log: Log, idxOffset: nat)
    returns (events: seq<CosmosEvent>)
    requires TxCellOf(cell, codec, tx)
    modifies cell
    ensures TxCellOf(cell, codec, tx)
    ensures cell.calls == 1
    ensures events == Numbered(block, LogEvents(codec, block, tx, log), idxOffset)
  {
    var msg := WrapCosmosMsg(codec, block, tx, cell, log.msgIndex);
    events := [];
    var idx := idxOffset;
    for i := 0 to |log.events|
      invariant events == Numbered(block, LogEvents(codec, block, tx, log), idxOffset)[..i] && idx == idxOffset + i
    {
      events := events + [CosmosEvent(idx, msg, Some(tx), block, Some(log), log.events[i])];
      idx := idx + 1;
    }
  }

  /** The loop over the log entries of one transaction. */
  method WrapLogs(codec: Codec, block: CosmosBlock, tx: CosmosTransaction, cell: TxCell, logs: seq<Log>, idxOffset: nat)
    returns (events: seq<CosmosEvent>)
    requires TxCellOf(cell, codec, tx)
    modifies cell
    ensures TxCellOf(cell, codec, tx)
    ensures cell.calls == if logs == [] then old(cell.calls) else 1
    ensures events == Numbered(block, LogsEvents(codec, block, tx, logs), idxOffset)
  {
    events := [];
    for j := 0 to |logs|
      invariant TxCellOf(cell, codec, tx)
      invariant cell.calls == if j == 0 then old(cell.calls) else 1
      invariant events == Numbered(block, LogsEvents(codec, block, tx, logs[..j]), idxOffset)
    {
      ghost var front := LogsEvents(codec, block, tx, logs[..j]);
      var more := WrapLogEvents(codec, block, tx, cell, logs[j], idxOffset + |events|);
      NumberedAppend(block, front, LogEvents(codec, block, tx, logs[j]), idxOffset);
      events := events + more;
      assert logs[..j + 1][..j] == logs[..j];
    }
    assert logs[..|logs|] == logs;
  }

  /** The log of the transaction can be parsed and has an entry. */
  predicate HasLogs(codec: Codec, tx: CosmosTransaction) {
    codec.parseLog(tx.tx.log).Some? && codec.parseLog(tx.tx.log).value != []
  }

  /** One transaction; nothing when its log cannot be parsed. */
  method WrapTxEvents(codec: Codec, block: CosmosBlock, tx: CosmosTransaction, cell: TxCell, idxOffset: nat)
    returns (events: seq<CosmosEvent>)
    requires TxCellOf(cell, codec, tx)
    modifies cell
    ensures TxCellOf(cell, codec, tx)
    ensures cell.calls == if HasLogs(codec, tx) then 1 else old(cell.calls)
    ensures events == Numbered(block, TxEvents(codec, block, tx), idxOffset)
  {
    var logs := codec.parseLog(tx.tx.log);
    if logs.None? {
      return [];
    }
    events := WrapLogs(codec, block, tx, cell, logs.value, idxOffset);
  }

  lemma {:induction false} AllEventsGrow(codec: Codec, block: CosmosBlock, txs: seq<CosmosTransaction>, i: nat)
    requires i < |txs|
    ensures AllEvents(codec, block, txs[..i + 1]) ==
            AllEvents(codec, block, txs[..i]) + TxEvents(codec, block, txs[i])
  {
    assert txs[..i + 1][..i] == txs[..i];
  }

  /** The decoders of the first `i` transactions have run where there are log entries, the others as before. */
  ghost predicate ReadForLogs(cells: seq<TxCell>, codec: Codec, txs: seq<CosmosTransaction>, was: seq<nat>, i: nat)
    reads cells
  {
    && |was| == |cells| == |txs|
    && forall k | 0 <= k < |cells| :: cells[k].calls == if k < i && HasLogs(codec, txs[k]) then 1 else was[k]
  }

  /** One round of the loop below. */
  method WrapNextEvents(codec: Codec, block: CosmosBlock, txs: seq<CosmosTransaction>, cells: seq<TxCell>, i: nat,
                        idxOffset: nat, ghost was: seq<nat>)
    returns (events: seq<CosmosEvent>)
    requires CellsOf(cells, codec, txs) && i < |txs| && ReadForLogs(cells, codec, txs, was, i)
    modifies cells
    ensures CellsOf(cells, codec, txs) && ReadForLogs(cells, codec, txs, was, i + 1)
    ensures events == Numbered(block, TxEvents(codec, block, txs[i]), idxOffset)
  {
    events := WrapTxEvents(codec, block, txs[i], cells[i], idxOffset);
  }

  /**
   * The events are the log events of all transactions with a parsable log, numbered without gaps.
   * Exactly the transactions with log entries are decoded.
   */
  method WrapEvent(codec: Codec, block: CosmosBlock, txs: seq<CosmosTransaction>, cells: seq<TxCell>, idxOffset: nat)
    returns (events: seq<CosmosEvent>)
    requires CellsOf(cells, codec, txs)
    modifies cells
    ensures CellsOf(cells, codec, txs)
    ensures events == Numbered(block, AllEvents(codec, block, txs), idxOffset)
    ensures forall i | 0 <= i < |cells| ::
              cells[i].calls == if HasLogs(codec, txs[i]) then 1 else old(cells[i].calls)
  {
    events := [];
    ghost var was, pending: seq<Pending> := CallsOf(cells), [];
    for i := 0 to |txs|
      invariant CellsOf(cells, codec, txs) && ReadForLogs(cells, codec, txs, was, i)
      invariant pending == AllEvents(codec, block, txs[..i])
      invariant events == Numbered(block, pending, idxOffset)
    {
      ghost var own := TxEvents(codec, block, txs[i]);
      var more := WrapNextEvents(codec, block, txs, cells, i, idxOffset + |events|, was);
      AllEventsGrow(codec, block, txs, i);
      NumberedGrow(block, pending, own, idxOffset, events, more);
      events, pending := events + more, pending + own;
    }
    assert txs[..|txs|] == txs;
  }

  function BlockEvents(block: CosmosBlock, events: seq<Event>, offset: nat): seq<CosmosEvent> {
    seq(|events|, i requires 0 <= i < |events| => CosmosEvent(offset + i, None, None, block, None, events[i]))
  }

  method WrapBlockBeginAndEndEvents(block: CosmosBlock, events: seq<Event>, idxOffset: nat)
    returns (wrapped: seq<CosmosEvent>)
    ensures wrapped == BlockEvents(block, events, idxOffset)
  {
    wrapped := [];
    var idx := idxOffset;
    for i := 0 to |events|
      invariant wrapped == BlockEvents(block, events, idxOffset)[..i] && idx == idxOffset + i
    {
      wrapped := wrapped + [CosmosEvent(idx, None, None, block, None, events[i])];
      idx := idx + 1;
    }
  }

  // ----- memoised getters as a state machine

  /** A fetched block: one result per transaction. */
  datatype RawInput = Input(codec: Codec, info: BlockInfo, results: BlockResults)
  {
    ghost predicate Matched() {
      |results.results| == |info.txs|
    }

    function Block(): CosmosBlock {
      WrapBlock(info, results.results)
    }

    function Transactions(): seq<CosmosTransaction>
      requires Matched()
    {
      WrapTx(codec, Block(), results.results)
    }

    function AllMessages(): Option<seq<CosmosMessage>>
      requires Matched()
    {
      Messages(codec, Block(), Transactions())
    }

    function PendingEvents(): seq<Pending>
      requires Matched()
    {
      AllEvents(codec, Block(), Transactions())
    }
  }

  datatype Getter = TheBlock | TheTransactions | TheMessages | TheEvents | TheBeginEvents | TheEndEvents

  datatype Memo = Memo(
    block: Option<CosmosBlock>,
    transactions: Option<seq<CosmosTransaction>>,
    messages: Option<seq<CosmosMessage>>,
    events: Option<seq<CosmosEvent>>,
    beginEvents: Option<seq<CosmosEvent>>,
    endEvents: Option<seq<CosmosEvent>>,
    eventIdx: nat)

  const FRESH := Memo(None, None, None, None, None, None, 0)

  function ForceTransactions(input: RawInput, m: Memo): Memo
    requires input.Matched()
  {
    if m.transactions.Some? then m
    else m.(block := Some(input.Block()), transactions := Some(input.Transactions()))
  }

  /** What one getter call does to the memo fields and the counter. */
  function Step(input: RawInput, m: Memo, g: Getter): Memo
    requires input.Matched()
  {
    match g
    case TheBlock => m.(block := Some(input.Block()))
    case TheTransactions => ForceTransactions(input, m)
    case TheMessages =>
      if m.messages.Some? then m
      else ForceTransactions(input, m).(block := Some(input.Block()), messages := input.AllMessages())
    case TheEvents =>
      if m.events.Some? then m
      else
        var events := Numbered(input.Block(), input.PendingEvents(), m.eventIdx);
        ForceTransactions(input, m).(
          block := Some(input.Block()), events := Some(events), eventIdx := m.eventIdx + |events|)
    case TheBeginEvents =>
      if m.beginEvents.Some? then m
      else
        var events := BlockEvents(input.Block(), input.results.beginBlockEvents, m.eventIdx);
        m.(block := Some(input.Block()), beginEvents := Some(events), eventIdx := m.eventIdx + |events|)
    case TheEndEvents =>
      if m.endEvents.Some? then m
      else
        var events := BlockEvents(input.Block(), input.results.endBlockEvents, m.eventIdx);
        m.(block := Some(input.Block()), endEvents := Some(events), eventIdx := m.eventIdx + |events|)
  }

  /** The memo after any schedule of getter calls. */
  function Run(input: RawInput, m: Memo, schedule: seq<Getter>): Memo
    requires input.Matched()
    decreases |schedule|
  {
    if schedule == [] then m else Run(input, Step(input, m, schedule[0]), schedule[1..])
  }

  // ----- what every schedule keeps

  /** The events are numbered from `idx` on. */
  predicate NumberedFrom(events: seq<CosmosEvent>, idx: nat) {
    forall i | 0 <= i < |events| :: events[i].idx == idx + i
  }

  predicate Consecutive(events: Option<seq<CosmosEvent>>) {
    events.Some? && events.value != [] ==> NumberedFrom(events.value, events.value[0].idx)
  }

  /** The list is forced and one of its events has index `k`. */
  predicate HasIndex(events: Option<seq<CosmosEvent>>, k: nat) {
    events.Some? && events.value != [] && events.value[0].idx <= k < events.value[0].idx + |events.value|
  }

  /** Every index below `n` belongs to exactly one event of one list, and no other is in use. */
  ghost predicate Tiles(a: Option<seq<CosmosEvent>>, b: Option<seq<CosmosEvent>>, c: Option<seq<CosmosEvent>>, n: nat) {
    && Consecutive(a) && Consecutive(b) && Consecutive(c)
    && (forall k: nat :: k < n <==> HasIndex(a, k) || HasIndex(b, k) || HasIndex(c, k))
    && (forall k: nat :: !(HasIndex(a, k) && HasIndex(b, k)))
    && (forall k: nat :: !(HasIndex(a, k) && HasIndex(c, k)))
    && (forall k: nat :: !(HasIndex(b, k) && HasIndex(c, k)))
  }

  /** The indices below the counter are those of the forced events, each once. */
  ghost predicate Partitioned(m: Memo) {
    Tiles(m.beginEvents, m.events, m.endEvents, m.eventIdx)
  }

  /** Everything forced in `a` is forced in `b` with the same value. */
  predicate Preserves(a: Memo, b: Memo) {
    && (a.block.Some? ==> b.block == a.block)
    && (a.transactions.Some? ==> b.transactions == a.transactions)
    && (a.messages.Some? ==> b.messages == a.messages)
    && (a.events.Some? ==> b.events == a.events)
    && (a.beginEvents.Some? ==> b.beginEvents == a.beginEvents)
    && (a.endEvents.Some? ==> b.endEvents == a.endEvents)
    && a.eventIdx <= b.eventIdx
  }

  /** Forced fields hold the wrapped block's data. */
  predicate Cached(input: RawInput, m: Memo)
    requires input.Matched()
  {
    && (m.block.Some? ==> m.block.value == input.Block())
    && (m.transactions.Some? ==> m.block.Some? && m.transactions.value == input.Transactions())
    && (m.messages.Some? ==> m.transactions.Some? && m.messages == input.AllMessages())
    && (m.events.Some? ==> m.transactions.Some?)
    && (m.beginEvents.Some? ==> m.block.Some?)
    && (m.endEvents.Some? ==> m.block.Some?)
  }

  /** Forced event lists are the block's events, numbered from some offset. */
  ghost predicate Listed(input: RawInput, m: Memo)
    requires input.Matched()
  {
    && (m.events.Some? ==> exists k :: m.events.value == Numbered(input.Block(), input.PendingEvents(), k))
    && (m.beginEvents.Some? ==>
          exists k :: m.beginEvents.value == BlockEvents(input.Block(), input.results.beginBlockEvents, k))
    && (m.endEvents.Some? ==>
          exists k :: m.endEvents.value == BlockEvents(input.Block(), input.results.endBlockEvents, k))
  }

  /** `HasIndex` says what its name promises. */
  lemma HasIndexMeaning(events: seq<CosmosEvent>, k: nat)
    requires Consecutive(Some(events))
    ensures HasIndex(Some(events), k) <==> exists i | 0 <= i < |events| :: events[i].idx == k
    ensures forall i, j | 0 <= i < j < |events| :: events[i].idx != events[j].idx
  {
    if HasIndex(Some(events), k) {
      assert events[k - events[0].idx].idx == k;
    }
  }

  lemma FreshIndices(events: seq<CosmosEvent>, idx: nat)
    requires NumberedFrom(events, idx)
    ensures Consecutive(Some(events))
    ensures forall k: nat :: HasIndex(Some(events), k) <==> idx <= k < idx + |events|
  {
  }

  /** A list numbered from the counter on can be put beside the other two. */
  lemma TilesGrow(a: Option<seq<CosmosEvent>>, b: Option<seq<CosmosEvent>>, events: seq<CosmosEvent>, n: nat)
    requires Tiles(a, b, None, n) && NumberedFrom(events, n)
    ensures Tiles(a, b, Some(events), n + |events|)
  {
    FreshIndices(events, n);
  }

  lemma TilesSwap(a: Option<seq<CosmosEvent>>, b: Option<seq<CosmosEvent>>, c: Option<seq<CosmosEvent>>, n: nat)
    ensures Tiles(a, b, c, n) <==> Tiles(a, c, b, n)
    ensures Tiles(a, b, c, n) <==> Tiles(b, c, a, n)
  {
  }

  lemma ForcingEventsPartitions(input: RawInput, m: Memo)
    requires input.Matched() && Partitioned(m) && m.events.None?
    ensures Partitioned(Step(input, m, TheEvents))
  {
    var events := Numbered(input.Block(), input.PendingEvents(), m.eventIdx);
    NumberedIsNumbered(input.Block(), input.PendingEvents(), m.eventIdx);
    TilesSwap(m.beginEvents, m.events, m.endEvents, m.eventIdx);
    TilesGrow(m.beginEvents, m.endEvents, events, m.eventIdx);
    TilesSwap(m.beginEvents, m.endEvents, Some(events), m.eventIdx + |events|);
  }

  lemma ForcingBeginPartitions(input: RawInput, m: Memo)
    requires input.Matched() && Partitioned(m) && m.beginEvents.None?
    ensures Partitioned(Step(input, m, TheBeginEvents))
  {
    var events := BlockEvents(input.Block(), input.results.beginBlockEvents, m.eventIdx);
    TilesSwap(m.beginEvents, m.events, m.endEvents, m.eventIdx);
    TilesGrow(m.events, m.endEvents, events, m.eventIdx);
    TilesSwap(Some(events), m.events, m.endEvents, m.eventIdx + |events|);
  }

  lemma ForcingEndPartitions(input: RawInput, m: Memo)
    requires input.Matched() && Partitioned(m) && m.endEvents.None?
    ensures Partitioned(Step(input, m, TheEndEvents))
  {
    var events := BlockEvents(input.Block(), input.results.endBlockEvents, m.eventIdx);
    TilesGrow(m.beginEvents, m.events, events, m.eventIdx);
  }

  lemma StepPartitions(input: RawInput, m: Memo, g: Getter)
    requires input.Matched() && Partitioned(m)
    ensures Partitioned(Step(input, m, g))
  {
    match g
    case TheEvents =>
      if m.events.None? {
        ForcingEventsPartitions(input, m);
      }
    case TheBeginEvents =>
      if m.beginEvents.None? {
        ForcingBeginPartitions(input, m);
      }
    case TheEndEvents =>
      if m.endEvents.None? {
        ForcingEndPartitions(input, m);
      }
    case _ =>
  }

  lemma StepCaches(input: RawInput, m: Memo, g: Getter)
    requires input.Matched() && Cached(input, m)
    ensures Cached(input, Step(input, m, g))
    ensures Preserves(m, Step(input, m, g))
    ensures Listed(input, m) ==> Listed(input, Step(input, m, g))
  {
  }

  lemma FreshIsSound(input: RawInput)
    requires input.Matched()
    ensures Partitioned(FRESH) && Cached(input, FRESH) && Listed(input, FRESH)
  {
  }

  lemma {:induction false} RunKeeps(input: RawInput, m: Memo, schedule: seq<Getter>)
    requires input.Matched() && Partitioned(m) && Cached(input, m) && Listed(input, m)
    ensures var last := Run(input, m, schedule);
            Partitioned(last) && Cached(input, last) && Listed(input, last) && Preserves(m, last)
    decreases |schedule|
  {
    if schedule == [] {
    } else {
      StepPartitions(input, m, schedule[0]);
      StepCaches(input, m, schedule[0]);
      RunKeeps(input, Step(input, m, schedule[0]), schedule[1..]);
    }
  }

  lemma {:induction false} RunAppend(input: RawInput, m: Memo, a: seq<Getter>, b: seq<Getter>)
    requires input.Matched()
    ensures Run(input, m, a + b) == Run(input, Run(input, m, a), b)
    decreases |a|
  {
    if a == [] {
      assert a + b == b;
    } else {
      assert (a + b)[1..] == a[1..] + b;
      RunAppend(input, Step(input, m, a[0]), a[1..], b);
    }
  }

  lemma {:induction false} RunOne(input: RawInput, m: Memo, schedule: seq<Getter>, g: Getter)
    requires input.Matched()
    ensures Run(input, m, schedule + [g]) == Step(input, Run(input, m, schedule), g)
  {
    RunAppend(input, m, schedule, [g]);
    assert [g][1..] == [];
  }

  /**
   * Index allocation under any schedule of getter calls: the indices of the forced event lists
   * are consecutive within each list and together exactly the numbers below the counter, each
   * once; and whatever was forced stays as it is under any further calls.
   */
  lemma {:induction false} AnySchedule(input: RawInput, schedule: seq<Getter>, more: seq<Getter>)
    requires input.Matched()
    ensures Partitioned(Run(input, FRESH, schedule))
    ensures Cached(input, Run(input, FRESH, schedule)) && Listed(input, Run(input, FRESH, schedule))
    ensures Preserves(Run(input, FRESH, schedule), Run(input, FRESH, schedule + more))
  {
    FreshIsSound(input);
    RunKeeps(input, FRESH, schedule);
    RunAppend(input, FRESH, schedule, more);
    RunKeeps(input, Run(input, FRESH, schedule), more);
  }

  lemma StepForces(input: RawInput, m: Memo, g: Getter)
    requires input.Matched()
    ensures var next := Step(input, m, g);
            && (next.beginEvents.Some? <==> m.beginEvents.Some? || g == TheBeginEvents)
            && (next.events.Some? <==> m.events.Some? || g == TheEvents)
            && (next.endEvents.Some? <==> m.endEvents.Some? || g == TheEndEvents)
            && (next.messages.Some? <==> m.messages.Some? || (g == TheMessages && input.AllMessages().Some?))
  {
  }

  /** A field is forced exactly when it was forced before or its getter is called; messages only if they decode. */
  lemma {:induction false} ForcedIffCalled(input: RawInput, m: Memo, schedule: seq<Getter>)
    requires input.Matched()
    ensures var last := Run(input, m, schedule);
            && (last.beginEvents.Some? <==> m.beginEvents.Some? || TheBeginEvents in schedule)
            && (last.events.Some? <==> m.events.Some? || TheEvents in schedule)
            && (last.endEvents.Some? <==> m.endEvents.Some? || TheEndEvents in schedule)
            && (last.messages.Some? <==> m.messages.Some? || (TheMessages in schedule && input.AllMessages().Some?))
    decreases |schedule|
  {
    if schedule == [] {
    } else {
      var g, rest := schedule[0], schedule[1..];
      assert schedule == [g] + rest;
      StepForces(input, m, g);
      ForcedIffCalled(input, Step(input, m, g), rest);
    }
  }

  /** Every getter forces the block, and all but the block and the block events force the transactions. */
  lemma {:induction false} BlockAndTxsForced(input: RawInput, m: Memo, schedule: seq<Getter>)
    requires input.Matched() && Cached(input, m)
    ensures var last := Run(input, m, schedule);
            && (last.block.Some? <==> m.block.Some? || schedule != [])
            && (last.transactions.Some? <==>
                m.transactions.Some? || TheTransactions in schedule || TheMessages in schedule || TheEvents in schedule)
    decreases |schedule|
  {
    if schedule == [] {
    } else {
      var g, rest := schedule[0], schedule[1..];
      assert schedule == [g] + rest;
      StepCaches(input, m, g);
      BlockAndTxsForced(input, Step(input, m, g), rest);
    }
  }

  // ----- which transactions a getter decodes

  /** The getter reads `decodedTx` of transaction number `i`. */
  predicate Touches(input: RawInput, m: Memo, g: Getter, i: nat)
    requires input.Matched() && i < |input.Transactions()|
  {
    match g
    case TheMessages => m.messages.None? && DecodableBelow(input.codec, input.Transactions(), i)
    case TheEvents => m.events.None? && HasLogs(input.codec, input.Transactions()[i])
    case _ => false
  }

  /** Some call of the schedule reads `decodedTx` of transaction number `i`. */
  predicate Decodes(input: RawInput, m: Memo, schedule: seq<Getter>, i: nat)
    requires input.Matched() && i < |input.Transactions()|
    decreases |schedule|
  {
    schedule != [] &&
    (Touches(input, m, schedule[0], i) || Decodes(input, Step(input, m, schedule[0]), schedule[1..], i))
  }

  /**
   * A schedule decodes a transaction exactly when it asks for the messages and all earlier
   * transactions decode, or asks for the events and the transaction has log entries.
   */
  lemma {:induction false} DecodedWhenNeeded(input: RawInput, m: Memo, schedule: seq<Getter>, i: nat)
    requires input.Matched() && i < |input.Transactions()|
    ensures Decodes(input, m, schedule, i) <==>
            || (m.messages.None? && TheMessages in schedule && DecodableBelow(input.codec, input.Transactions(), i))
            || (m.events.None? && TheEvents in schedule && HasLogs(input.codec, input.Transactions()[i]))
    decreases |schedule|
  {
    if schedule == [] {
    } else {
      var g, rest := schedule[0], schedule[1..];
      assert schedule == [g] + rest;
      StepForces(input, m, g);
      DecodedWhenNeeded(input, Step(input, m, g), rest, i);
    }
  }

  lemma {:induction false} DecodesSnoc(input: RawInput, m: Memo, schedule: seq<Getter>, g: Getter, i: nat)
    requires input.Matched() && i < |input.Transactions()|
    ensures Decodes(input, m, schedule + [g], i) <==>
            Decodes(input, m, schedule, i) || Touches(input, Run(input, m, schedule), g, i)
    decreases |schedule|
  {
    if schedule == [] {
      assert [] + [g] == [g] && [g][1..] == [];
    } else {
      assert (schedule + [g])[1..] == schedule[1..] + [g];
      DecodesSnoc(input, Step(input, m, schedule[0]), schedule[1..], g, i);
    }
  }

  // ----- the object itself

  lemma EventsFromTxs(input: RawInput, m: Memo)
    requires input.Matched() && Cached(input, m) && m.events.None?
    ensures var forced := Step(input, Step(input, m, TheBlock), TheTransactions);
            var events := Numbered(input.Block(), input.PendingEvents(), m.eventIdx);
            && forced.eventIdx == m.eventIdx && forced.events.None?
            && Step(input, m, TheEvents) == forced.(events := Some(events), eventIdx := m.eventIdx + |events|)
  {
  }

  method NewCells(codec: Codec, txs: seq<CosmosTransaction>) returns (cells: seq<TxCell>)
    ensures CellsOf(cells, codec, txs)
    ensures forall c | c in cells :: fresh(c) && c.state.Undecoded?
  {
    cells := [];
    for i := 0 to |txs|
      invariant CellsOf(cells, codec, txs[..i])
      invariant forall c | c in cells :: fresh(c) && c.state.Undecoded?
    {
      var cell := new LazyCell(txs[i].raw, codec.decodeTx);
      cells := cells + [cell];
    }
    assert txs[..|txs|] == txs;
  }

  class LazyBlockContent {
    const input: RawInput
    /** The `decodedTx` getters of the transactions; creating them decodes nothing. */
    const cells: seq<TxCell>
    var wrappedBlock: Option<CosmosBlock>
    var wrappedTransaction: Option<seq<CosmosTransaction>>
    var wrappedMessage: Option<seq<CosmosMessage>>
    var wrappedEvent: Option<seq<CosmosEvent>>
    var wrappedBeginBlockEvents: Option<seq<CosmosEvent>>
    var wrappedEndBlockEvents: Option<seq<CosmosEvent>>
    var eventIdx: nat

    ghost function View(): Memo
      reads this
    {
      Memo(wrappedBlock, wrappedTransaction, wrappedMessage, wrappedEvent,
           wrappedBeginBlockEvents, wrappedEndBlockEvents, eventIdx)
    }

    ghost predicate Valid()
      reads this, cells
    {
      input.Matched() && Cached(input, View()) && CellsOf(cells, input.codec, input.Transactions())
    }

    constructor (input: RawInput)
      requires input.Matched()
      ensures Valid() && View() == FRESH && this.input == input
      ensures forall c | c in cells :: fresh(c) && c.state.Undecoded?
    {
      this.input := input;
      var getters := NewCells(input.codec, input.Transactions());
      cells := getters;
      wrappedBlock, wrappedTransaction, wrappedMessage := None, None, None;
      wrappedEvent, wrappedBeginBlockEvents, wrappedEndBlockEvents := None, None, None;
      eventIdx := 0;
    }

    method GetBlock() returns (block: CosmosBlock)
      requires Valid()
      modifies this
      ensures Valid() && View() == Step(input, old(View()), TheBlock)
      ensures block == input.Block()
    {
      if wrappedBlock.None? {
        wrappedBlock := Some(WrapBlock(input.info, input.results.results));
      }
      return wrappedBlock.value;
    }

    method GetTransactions() returns (txs: seq<CosmosTransaction>)
      requires Valid()
      modifies this
      ensures Valid() && View() == Step(input, old(View()), TheTransactions)
      ensures txs == input.Transactions()
    {
      if wrappedTransaction.None? {
        var block := GetBlock();
        wrappedTransaction := Some(WrapTx(input.codec, block, input.results.results));
      }
      return wrappedTransaction.value;
    }

    /** `None` when a transaction cannot be decoded; nothing is stored then. */
    method GetMessages() returns (msgs: Option<seq<CosmosMessage>>)
      requires Valid()
      modifies this, cells
      ensures Valid() && View() == Step(input, old(View()), TheMessages)
      ensures msgs == input.AllMessages()
      ensures forall i | 0 <= i < |cells| ::
                cells[i].calls == if Touches(input, old(View()), TheMessages, i) then 1 else old(cells[i].calls)
    {
      if wrappedMessage.None? {
        var block := GetBlock();
        var txs := GetTransactions();
        msgs := WrapMsg(input.codec, block, txs, cells);
        if msgs.Some? {
          wrappedMessage := msgs;
        }
      } else {
        msgs := wrappedMessage;
      }
    }

    method GetEvents() returns (events: seq<CosmosEvent>)
      requires Valid()
      modifies this, cells
      ensures Valid() && View() == Step(input, old(View()), TheEvents)
      ensures wrappedEvent == Some(events)
      ensures forall i | 0 <= i < |cells| ::
                cells[i].calls == if Touches(input, old(View()), TheEvents, i) then 1 else old(cells[i].calls)
    {
      if wrappedEvent.None? {
        StepCaches(input, View(), TheEvents);
        EventsFromTxs(input, View());
        var block := GetBlock();
        var txs := GetTransactions();
        events := WrapEvent(input.codec, block, txs, cells, eventIdx);
        wrappedEvent, eventIdx := Some(events), eventIdx + |events|;
      } else {
        events := wrappedEvent.value;
      }
    }

    method GetBeginBlockEvents() returns (events: seq<CosmosEvent>)
      requires Valid()
      modifies this
      ensures Valid() && View() == Step(input, old(View()), TheBeginEvents)
      ensures wrappedBeginBlockEvents == Some(events)
    {
      if wrappedBeginBlockEvents.None? {
        var block := GetBlock();
        events := WrapBlockBeginAndEndEvents(block, input.results.beginBlockEvents, eventIdx);
        wrappedBeginBlockEvents, eventIdx := Some(events), eventIdx + |events|;
      } else {
        events := wrappedBeginBlockEvents.value;
      }
    }

    method GetEndBlockEvents() returns (events: seq<CosmosEvent>)
      requires Valid()
      modifies this
      ensures Valid() && View() == Step(input, old(View()), TheEndEvents)
      ensures wrappedEndBlockEvents == Some(events)
    {
      if wrappedEndBlockEvents.None? {
        var block := GetBlock();
        events := WrapBlockBeginAndEndEvents(block, input.results.endBlockEvents, eventIdx);
        wrappedEndBlockEvents, eventIdx := Some(events), eventIdx + |events|;
      } else {
        events := wrappedEndBlockEvents.value;
      }
    }
  }

  /** One getter call. */
  method Force(content: LazyBlockContent, g: Getter)
    requires content.Valid()
    modifies content, content.cells
    ensures content.Valid() && content.View() == Step(content.input, old(content.View()), g)
    ensures forall i | 0 <= i < |content.cells| ::
              content.cells[i].calls ==
              if Touches(content.input, old(content.View()), g, i) then 1 else old(content.cells[i].calls)
  {
    match g {
      case TheBlock => var _ := content.GetBlock();
      case TheTransactions => var _ := content.GetTransactions();
      case TheMessages => var _ := content.GetMessages();
      case TheEvents => var _ := content.GetEvents();
      case TheBeginEvents => var _ := content.GetBeginBlockEvents();
      case TheEndEvents => var _ := content.GetEndBlockEvents();
    }
  }

  /**
   * Any schedule of getter calls on the object: its fields follow `Run`, and the decoder of each
   * transaction has run once if the schedule or an earlier one needed it, and otherwise not.
   */
  method ForceAll(content: LazyBlockContent, schedule: seq<Getter>)
    requires content.Valid()
    modifies content, content.cells
    ensures content.Valid() && content.View() == Run(content.input, old(content.View()), schedule)
    ensures forall i | 0 <= i < |content.cells| ::
              content.cells[i].calls ==
              if Decodes(content.input, old(content.View()), schedule, i) then 1 else old(content.cells[i].calls)
  {
    ghost var input, m := content.input, content.View();
    for k := 0 to |schedule|
      invariant content.Valid() && content.View() == Run(input, m, schedule[..k])
      invariant forall i | 0 <= i < |content.cells| ::
                  content.cells[i].calls ==
                  if Decodes(input, m, schedule[..k], i) then 1 else old(content.cells[i].calls)
    {
      assert schedule[..k + 1] == schedule[..k] + [schedule[k]];
      RunOne(input, m, schedule[..k], schedule[k]);
      forall i | 0 <= i < |content.cells|
        ensures Decodes(input, m, schedule[..k + 1], i) <==>
                Decodes(input, m, schedule[..k], i) || Touches(input, Run(input, m, schedule[..k]), schedule[k], i)
      {
        DecodesSnoc(input, m, schedule[..k], schedule[k], i);
      }
      Force(content, schedule[k]);
    }
    assert schedule[..|schedule|] == schedule;
  }

  // ----- batches

  type Fetch = nat -> Option<(BlockInfo, BlockResults)>

  /** Both RPC calls for the height succeed and agree on the number of transactions. */
  ghost predicate Fetchable(codec: Codec, fetch: Fetch, height: nat) {
    fetch(height).Some? && Input(codec, fetch(height).value.0, fetch(height).value.1).Matched()
  }

  /** The two contents share no state. */
  ghost predicate Apart(a: LazyBlockContent, b: LazyBlockContent) {
    a != b && forall c | c in a.cells :: c !in b.cells
  }

  /** Block and results of every height, or a failure when a call fails. */
  method FetchCosmosBlocksArray(fetch: Fetch, heights: seq<nat>)
    returns (result: Option<seq<(BlockInfo, BlockResults)>>)
    ensures result.Some? <==> forall i | 0 <= i < |heights| :: fetch(heights[i]).Some?
    ensures result.Some? ==> |result.value| == |heights|
    ensures result.Some? ==> forall i | 0 <= i < |heights| :: fetch(heights[i]) == Some(result.value[i])
  {
    var blocks: seq<(BlockInfo, BlockResults)> := [];
    for i := 0 to |heights|
      invariant |blocks| == i
      invariant forall k | 0 <= k < i :: fetch(heights[k]) == Some(blocks[k])
    {
      var fetched := fetch(heights[i]);
      if fetched.None? {
        return None;
      }
      blocks := blocks + [fetched.value];
    }
    return Some(blocks);
  }

  /** A content nobody has looked into yet. */
  ghost predicate Untouched(content: LazyBlockContent, input: RawInput)
    reads content, content.cells
  {
    content.Valid() && content.View() == FRESH && content.input == input
  }

  /** Checks that every transaction has a result and wraps the block. */
  method WrapContent(codec: Codec, fetched: (BlockInfo, BlockResults)) returns (content: Option<LazyBlockContent>)
    ensures content.Some? <==> Input(codec, fetched.0, fetched.1).Matched()
    ensures content.Some? ==>
              && fresh(content.value) && fresh(content.value.cells)
              && Untouched(content.value, Input(codec, fetched.0, fetched.1))
  {
    var (info, results) := fetched;
    if |results.results| != |info.txs| {
      return None;
    }
    var wrapped := new LazyBlockContent(Input(codec, info, results));
    return Some(wrapped);
  }

  /** All blocks in request order, or a failure when one of them cannot be used. */
  method FetchBlocksBatches(codec: Codec, fetch: Fetch, heights: seq<nat>)
    returns (result: Option<seq<LazyBlockContent>>)
    ensures result.Some? <==> forall i | 0 <= i < |heights| :: Fetchable(codec, fetch, heights[i])
    ensures result.Some? ==> |result.value| == |heights|
    ensures result.Some? ==> forall i | 0 <= i < |heights| ::
              |result.value[i].input.results.results| == |result.value[i].input.info.txs|
    ensures result.Some? ==> forall i | 0 <= i < |heights| ::
              && fresh(result.value[i]) && fresh(result.value[i].cells)
              && Untouched(result.value[i], Input(codec, fetch(heights[i]).value.0, fetch(heights[i]).value.1))
    ensures result.Some? ==> forall i, j | 0 <= i < j < |heights| :: Apart(result.value[i], result.value[j])
  {
    var blocks := FetchCosmosBlocksArray(fetch, heights);
    if blocks.None? {
      return None;
    }
    var contents: seq<LazyBlockContent> := [];
    for i := 0 to |heights|
      invariant |contents| == i
      invariant forall k | 0 <= k < i :: Fetchable(codec, fetch, heights[k])
      invariant forall k | 0 <= k < i ::
                  && fresh(contents[k]) && fresh(contents[k].cells)
                  && Untouched(contents[k], Input(codec, blocks.value[k].0, blocks.value[k].1))
      invariant forall j, k | 0 <= j < k < i :: Apart(contents[j], contents[k])
    {
      var content := WrapContent(codec, blocks.value[i]);
      if content.None? {
        assert !Fetchable(codec, fetch, heights[i]);
        return None;
      }
      contents := contents + [content.value];
    }
    return Some(contents);
  }
}
