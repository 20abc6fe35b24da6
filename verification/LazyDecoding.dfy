/** The message and event filters on messages that are decoded when first looked into. */
module LazyDecoding {
  import opened Wrappers
  import opened JsonValues
  import opened QueryCompilation
  import opened CosmosTypes
  import opened Filters
  import opened LazyCells

  type MessageCell = LazyCell<RawMessage, Json>

  /** The filter has to look inside the message. */
  predicate LooksInside(m: CosmosMessage, filter: Option<Filter>) {
    && filter.Some?
    && FilterTx(m.tx, filter)
    && filter.value.ty == Some(m.raw.typeUrl)
    && (ValuesOf(filter.value) != [] || AsksForCall(filter.value))
  }

  /** The cell belongs to message `m`. */
  ghost predicate CellOf(cell: MessageCell, codec: Codec, m: CosmosMessage)
    reads cell
  {
    cell.Valid() && cell.raw == m.raw && cell.decode == codec.decodeMsg
  }

  /**
   * The filter on a lazily decoded message: the same verdict as on the eagerly decoded one, and
   * the message is decoded exactly when the filter has to look inside it.
   */
  method FilterMessageData(codec: Codec, data: CosmosMessage, cell: MessageCell, filter: Option<Filter>)
    returns (verdict: Verdict)
    requires CellOf(cell, codec, data)
    modifies cell
    ensures CellOf(cell, codec, data)
    ensures verdict == MessageVerdict(codec, data, filter)
    ensures cell.state == if LooksInside(data, filter) then AfterRead(codec.decodeMsg(data.raw), old(cell.state))
                          else old(cell.state)
  {
    if filter.None? {
      return Accept;
    }
    var f := filter.value;
    if !FilterTx(data.tx, filter) {
      return Reject;
    }
    if f.ty != Some(data.raw.typeUrl) {
      return Reject;
    }
    ghost var decoded := codec.decodeMsg(data.raw);
    if f.values.Some? {
      var values := f.values.value;
      for i := 0 to |values|
        invariant CellOf(cell, codec, data)
        invariant cell.state == if i == 0 then old(cell.state) else AfterRead(decoded, old(cell.state))
        invariant ValuesVerdict(decoded, values) == ValuesVerdict(decoded, values[i..])
      {
        assert values[i..][0] == values[i] && values[i..][1..] == values[i + 1..];
        var read := cell.Get();
        if read.Raised? {
          return Throw;
        }
        var found := Resolve(read.value, PathOf(values[i]));
        if found.Throws? {
          return Throw;
        }
        if !LeafEquals(found.v, values[i].1) {
          return Reject;
        }
      }
      assert values[|values|..] == [];
    }
    if AsksForCall(f) {
      var read := cell.Get();
      if read.Raised? {
        return Throw;
      }
      var msg := Resolve(read.value, ["msg"]);
      if msg.Throws? {
        return Throw;
      }
      if !NamesCall(msg.v, f.contractCall.value) {
        return Reject;
      }
    }
    return Accept;
  }

  /** Filtering an event looks inside its message. */
  predicate EventLooksInside(e: CosmosEvent, filter: Option<Filter>) {
    && filter.Some?
    && filter.value.ty == Some(e.event.ty)
    && e.msg.Some?
    && LooksInside(e.msg.value, filter.value.messageFilter)
  }

  /** The event filter, with the cell of the event's message when it has one. */
  method FilterEvent(codec: Codec, e: CosmosEvent, cell: LazyCell?<RawMessage, Json>, filter: Option<Filter>)
    returns (verdict: Verdict)
    requires if e.msg.Some? then cell != null && CellOf(cell, codec, e.msg.value) else cell == null
    modifies cell
    ensures e.msg.Some? ==> CellOf(cell, codec, e.msg.value)
    ensures verdict == EventVerdict(codec, e, filter)
    ensures e.msg.Some? ==>
              cell.state ==
              if EventLooksInside(e, filter) then AfterRead(codec.decodeMsg(e.msg.value.raw), old(cell.state))
              else old(cell.state)
  {
    if filter.None? {
      return Accept;
    }
    var f := filter.value;
    if f.ty != Some(e.event.ty) {
      return Reject;
    }
    if f.messageFilter.Some? {
      if e.msg.None? {
        return Reject;
      }
      var v := FilterMessageData(codec, e.msg.value, cell, f.messageFilter);
      if v != Accept {
        return v;
      }
    }
    for i := 0 to |f.attributes|
      invariant forall k | 0 <= k < i :: HasAttribute(e.event, f.attributes[k].0, f.attributes[k].1)
    {
      if !HasAttribute(e.event, f.attributes[i].0, f.attributes[i].1) {
        return Reject;
      }
    }
    return Accept;
  }
}
