/** Failure-compatible wrappers shared by every module of the model. */
module Common {

  /** A value that may be absent (a null pointer or a "not found" answer in the C code). */
  datatype Option<+T> = None | Some(value: T)

  /** The value of an operation, or the errno-style error it failed with. */
  datatype Result<+T, +E> = Ok(value: T) | Err(error: E)

  /** Concatenation regroups; stated once so that long proofs can cite it. */
  lemma ConcatAssoc<T>(a: seq<T>, b: seq<T>, c: seq<T>)
    ensures a + b + c == a + (b + c)
  {
  }

  /** The same for four pieces. */
  lemma ConcatAssoc4<T>(a: seq<T>, b: seq<T>, c: seq<T>, d: seq<T>)
    ensures a + b + c + d == a + (b + c + d)
  {
  }
}
