/** Failure outcomes shared by the encoder and the decoder. Every exception the
    codec can raise becomes an `Error` value: the codec's own `AmfException`
    (malformed input, unsupported feature, capacity) and the runtime exceptions
    its code can trip over (array bounds, a bad table index, a failed cast,
    a duplicate dictionary key, invalid UTF-8). */
module Wrappers {

  datatype Option<+T> = None | Some(value: T)

  datatype Error =
    | Malformed          // AmfException while decoding: bad tag, length past the end
    | Unsupported        // AmfException: externalizable trait
    | CapacityExceeded   // AmfException from Expand: growth disabled or past the ceiling
    | OutOfBounds        // IndexOutOfRangeException / ArgumentException of a byte copy
    | BadReference       // ArgumentOutOfRangeException of a reference-table lookup
    | InvalidCast        // InvalidCastException of an unboxing cast
    | DuplicateKey       // ArgumentException of IDictionary.Add
    | InvalidUtf8        // DecoderFallbackException of the strict UTF-8 decoder
    | Overflow           // OverflowException: array allocated with a negative size

  datatype Result<+T> = Ok(value: T) | Fail(error: Error) {
    predicate IsFailure() { Fail? }
    function PropagateFailure<U>(): Result<U>
      requires Fail?
    {
      Fail(error)
    }
    function Extract(): T
      requires Ok?
    {
      value
    }
  }

  /** The outcome of an operation that returns nothing; a failure propagates
      into the caller's `Result`. */
  datatype Outcome = Pass | Raise(error: Error) {
    predicate IsFailure() { Raise? }
    function PropagateFailure<U>(): Result<U>
      requires Raise?
    {
      Fail(error)
    }
  }
}
