/** Vocabulary shared by every component: optional values, the clock unit and small arithmetic. */
module Common {

  /** A value that may be absent: SQL NULL, Go's zero time, a missing map entry. */
  datatype Option<+T> = None | Some(value: T)
  {
    function GetOr(default: T): T {
      match this
      case Some(v) => v
      case None => default
    }
  }

  /** Every instant and duration is a whole number of nanoseconds. */
  const SECOND: int := 1_000_000_000

  const HOUR: int := 3600 * SECOND

  const INT4_MAX: int := 2147483647

  function Max(a: int, b: int): int {
    if a < b then b else a
  }
}
