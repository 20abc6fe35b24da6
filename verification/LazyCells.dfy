/**
 * Self-replacing getters: the first read deletes the getter, runs the decoder and stores its
 * value in the getter's place.  When the decoder throws, nothing is stored and the property
 * stays deleted.
 */
module LazyCells {
  import opened Wrappers

  datatype Cell<+T> = Undecoded | Decoded(value: T) | Deleted

  /** A read raises the decoder's exception or gives a value, possibly `undefined`. */
  datatype Read<+T> = Raised | Got(value: Option<T>)

  // ----- one cell as a state machine; `result` is what its decoder gives

  function AfterRead<T>(result: Option<T>, cell: Cell<T>): Cell<T> {
    if !cell.Undecoded? then cell
    else match result
      case Some(v) => Decoded(v)
      case None => Deleted
  }

  function ReadOf<T>(result: Option<T>, cell: Cell<T>): Read<T> {
    match cell
    case Undecoded => (match result case Some(v) => Got(Some(v)) case None => Raised)
    case Decoded(v) => Got(Some(v))
    case Deleted => Got(None)
  }

  function DecoderCalls<T>(cell: Cell<T>): nat {
    if cell.Undecoded? then 1 else 0
  }

  /** What `n` reads in a row see, and how often they run the decoder. */
  function Reads<T>(result: Option<T>, cell: Cell<T>, n: nat): (seq<Read<T>>, nat)
    decreases n
  {
    if n == 0 then ([], 0)
    else
      var rest := Reads(result, AfterRead(result, cell), n - 1);
      ([ReadOf(result, cell)] + rest.0, DecoderCalls(cell) + rest.1)
  }

  lemma {:induction false} SettledReads<T>(result: Option<T>, cell: Cell<T>, n: nat)
    requires cell == AfterRead(result, Undecoded)
    ensures Reads(result, cell, n).1 == 0 && |Reads(result, cell, n).0| == n
    ensures forall i | 0 <= i < n :: Reads(result, cell, n).0[i] == Got(result)
    decreases n
  {
    if n == 0 {
    } else {
      SettledReads(result, cell, n - 1);
    }
  }

  /**
   * Over any number of reads the decoder runs at most once, also when it throws: the first read
   * sees its outcome and every later one the stored value, or `undefined` after a failure.
   */
  lemma {:induction false} DecodedAtMostOnce<T>(result: Option<T>, n: nat)
    ensures Reads(result, Undecoded, n).1 == (if n == 0 then 0 else 1)
    ensures |Reads(result, Undecoded, n).0| == n
    ensures forall i | 0 <= i < n :: Reads(result, Undecoded, n).0[i] ==
              if i == 0 && result.None? then Raised else Got(result)
  {
    if n > 0 {
      SettledReads(result, AfterRead(result, Undecoded), n - 1);
    }
  }

  class LazyCell<R(!new), T> {
    const raw: R
    const decode: R -> Option<T>
    var state: Cell<T>
    /** How often `decode` was run. */
    ghost var calls: nat

    ghost predicate Valid()
      reads this
    {
      && (state == Undecoded || state == AfterRead(decode(raw), Undecoded))
      && calls == (if state.Undecoded? then 0 else 1)
    }

    constructor (raw: R, decode: R -> Option<T>)
      ensures Valid() && state == Undecoded
      ensures this.raw == raw && this.decode == decode
    {
      this.raw := raw;
      this.decode := decode;
      state := Undecoded;
      calls := 0;
    }

    method Get() returns (read: Read<T>)
      requires Valid()
      modifies this
      ensures Valid()
      ensures state == AfterRead(decode(raw), old(state))
      ensures read == ReadOf(decode(raw), old(state))
      ensures calls == 1 && calls == old(calls) + DecoderCalls(old(state))
    {
      match state {
        case Undecoded =>
          state := Deleted;
          var result := decode(raw);
          calls := calls + 1;
          match result {
            case None => read := Raised;
            case Some(v) =>
              state := Decoded(v);
              read := Got(Some(v));
          }
        case Decoded(v) => read := Got(Some(v));
        case Deleted => read := Got(None);
      }
    }
  }
}
