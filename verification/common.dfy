/** Shared vocabulary: an optional value and the millisecond clock of a
    JavaScript Date, with its UTC calendar day. */
module Common {

  /** A value that may be absent: JavaScript's `null`/`undefined` results. */
  datatype Option<+T> = None | Some(value: T)

  /** Milliseconds since the Unix epoch, the time value a Date holds. */
  type Timestamp = int

  const MsPerDay: int := 86_400_000

  /** The UTC calendar day of a time value, i.e. the part of
      `toISOString()` before the `T`, numbered from 1970-01-01. Two time
      values print the same date part exactly when their days are equal.
      Dafny's division rounds down for a positive divisor, so times before
      1970 land on the right day as well. */
  function Day(t: Timestamp): (d: int)
    ensures d * MsPerDay <= t < (d + 1) * MsPerDay
  {
    t / MsPerDay
  }
}
