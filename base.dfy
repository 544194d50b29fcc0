/** Small shared vocabulary: optional values, results, and Python's list indexing. */
module Base {

  /** `None` is Python's `None` return (an address a bounded topology cannot normalize,
      a search that finds nothing). */
  datatype Option<+T> = None | Some(value: T)

  /** The outcome of an operation that the Python code aborts with an exception. */
  datatype Result<+T, +E> = Ok(value: T) | Err(error: E)

  /** Python's `s[i]`: a negative index counts from the end, anything outside
      `[-len(s), len(s))` raises `IndexError` (excluded by the precondition). */
  function PyIndex<T>(s: seq<T>, i: int): (r: T)
    requires -|s| <= i < |s|
    ensures r == s[i % |s|]
  {
    if i >= 0 then s[i] else s[|s| + i]
  }
}
