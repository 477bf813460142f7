/** What several parts of the model share. */
module Common {
  datatype Option<T> = None | Some(value: T)

  /** CLUSTER_SLOTS. */
  const SLOTS := 16384
}
