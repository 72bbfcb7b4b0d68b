/** Small vocabulary shared by every module. */
module Wrappers {
  /** The value that may be absent: a null column, a missing dataset, a skipped step. */
  datatype Option<+T> = None | Some(value: T)

  lemma Pick<T>(s: set<T>) returns (x: T)
    requires s != {}
    ensures x in s
  {
    x :| x in s;
  }
}
