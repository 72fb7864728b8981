/** What both event codecs share: the answer of a reader, and the lists a writer takes. */
module Decoding {
  import opened MarketTypes

  /** A value, or the first error met. */
  datatype Decoded<+T, +E> = Ok(value: T) | Err(error: E) {
    predicate IsFailure() {
      Err?
    }

    function PropagateFailure<U>(): Decoded<U, E>
      requires Err?
    {
      Err(error)
    }

    function Extract(): T
      requires Ok?
    {
      value
    }
  }

  predicate AllValid(es: seq<MarketEvent>) {
    forall k | 0 <= k < |es| :: ValidateEvent(es[k]) == Valid
  }
}
