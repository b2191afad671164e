/** Shared vocabulary of the model: Go's nil-able values, its `error` returns
    and its zero-value map reads. */
module Base {

  /** A Go pointer, slice or map that may be nil. */
  datatype Option<+T> = None | Some(value: T)

  /** Why `strconv.Atoi` rejected its input (the `Err` field of Go's `*strconv.NumError`). */
  datatype NumCause = InvalidSyntax | OutOfRange

  /** The errors the modelled code returns. */
  datatype Error =
    | Msg(text: string)                        // fmt.Errorf with a fixed message
    | NumError(num: string, cause: NumCause)   // strconv.Atoi's *NumError for input `num`
    | Wrapped(text: string, inner: Error)      // fmt.Errorf("... '%v'", err)
    | IndexOutOfRange(index: int, length: int) // Go's runtime panic on a slice index
    | NilDereference                           // Go's runtime panic on a nil pointer

  /** A `(value, error)` pair of Go where exactly one side is meaningful. */
  datatype Result<+T> = Ok(value: T) | Err(error: Error)

  /** A bare Go `error` return: nil (Pass) or an error. */
  datatype Outcome = Pass | Fail(error: Error)

  /** Go's `m[k]` on a `map[string]string`: the empty string when `k` is absent. */
  function Get(m: map<string, string>, k: string): (v: string)
    ensures k in m ==> v == m[k]
    ensures k !in m ==> v == ""
  {
    if k in m then m[k] else ""
  }
}
