/** Option and Result types shared by the decoder, and the ways a load can fail. */
module Results {

  datatype Option<+T> = None | Some(value: T)

  /** Why a cache load produced no usable result. */
  datatype LoadError =
    /** The version word could not be peeked, or is neither 102 nor 103: no header object exists. */
    | UnsupportedVersion
    /** A 4-byte word or a record was cut short by the end of the stream. */
    | Truncated
    /** No accessor is registered for the attribute's (data type, structure type) pair. */
    | NoAccessor
    /** The decoder's own code raised (an unbound name, `None` used as a byte count). */
    | ProgramError

  datatype Result<+T> = Ok(value: T) | Err(error: LoadError) {
    predicate IsFailure() { Err? }

    function PropagateFailure<U>(): Result<U>
      requires Err?
    {
      Err(error)
    }

    function Extract(): T
      requires Ok?
    {
      value
    }
  }

  /** `r` succeeded with the value `v`, and the read it stands for stopped at `end`. */
  predicate Yields<T(==)>(r: Result<(T, nat)>, v: T, end: nat) {
    r.Ok? && r.value.0 == v && r.value.1 == end
  }
}
