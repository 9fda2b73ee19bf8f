/** How calls into the kernel end. */
module Outcomes {
  /** A call returns a value, returns its failure value (NULL or -1), or trips an ASSERT and never returns. */
  datatype Outcome<+T> = Done(value: T) | Null | Halted
}
