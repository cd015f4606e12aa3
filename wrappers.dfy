/** Option type shared by the ledger and the partition-table decoder. */
module Wrappers {

  /** `None` stands for Python's `None` or for a lookup that finds nothing. */
  datatype Option<+T> = None | Some(value: T)
}
