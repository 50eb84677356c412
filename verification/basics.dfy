/** What every other module shares. */
module Basics {
  datatype Option<+T> = None | Some(value: T)

  /** Seconds on the one clock all workers read. */
  type Time = int

  const SECONDS_PER_DAY: nat := 24 * 60 * 60
}
