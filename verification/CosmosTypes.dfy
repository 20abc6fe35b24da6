/** Blocks, transactions, messages and events as the indexer hands them to handlers. */
module CosmosTypes {
  import opened Wrappers
  import opened JsonValues

  newtype Byte = b: int | 0 <= b < 256
  type Bytes = seq<Byte>

  datatype Attribute = Attribute(key: string, value: string)
  datatype Event = Event(ty: string, attributes: seq<Attribute>)
  datatype Log = Log(msgIndex: int, events: seq<Event>)
  datatype RawMessage = RawMessage(typeUrl: string, value: Bytes)

  /** The outcome of one transaction; `log` is its unparsed log. */
  datatype TxData = TxData(code: int, log: string)

  // What the two RPC calls for a height return.
  datatype BlockInfo = BlockInfo(height: nat, txs: seq<Bytes>)
  datatype BlockResults = BlockResults(results: seq<TxData>, beginBlockEvents: seq<Event>, endBlockEvents: seq<Event>)

  datatype CosmosBlock = CosmosBlock(height: nat, rawTxs: seq<Bytes>, txs: seq<TxData>)

  /** `raw` is what the lazy `decodedTx` decodes. */
  datatype CosmosTransaction = CosmosTransaction(idx: nat, block: CosmosBlock, tx: TxData, hash: string, raw: Bytes)

  /** `raw` is what the lazy `decodedMsg` decodes. */
  datatype CosmosMessage = CosmosMessage(idx: nat, tx: CosmosTransaction, block: CosmosBlock, raw: RawMessage)

  datatype CosmosEvent = CosmosEvent(
    idx: nat,
    msg: Option<CosmosMessage>,
    tx: Option<CosmosTransaction>,
    block: CosmosBlock,
    log: Option<Log>,
    event: Event)

  /** What handlers are called with. */
  datatype Item =
    | BlockItem(block: CosmosBlock)
    | TxItem(tx: CosmosTransaction)
    | MessageItem(message: CosmosMessage)
    | EventItem(event: CosmosEvent)

  /** Hashing and decoding, done by libraries.  `None` stands for an exception. */
  datatype Codec = Codec(
    hash: Bytes -> string,
    decodeTx: Bytes -> Option<seq<RawMessage>>,
    parseLog: string -> Option<seq<Log>>,
    decodeMsg: RawMessage -> Option<Json>)
}
