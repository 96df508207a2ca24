/** Small value types shared by the vault components. */
module Common {

  /** A value that may be absent (`undefined` / `null` in the dashboard's state). */
  datatype Option<+T> = None | Some(value: T)

  /** The two event streams the vault contract emits: `Deposit(user, amount)` and `Withdrawal(user, amount)`. */
  datatype EventKind = Deposit | Withdrawal

  /**
   * The outcome of the chain reads a fetch performs before any local computation:
   * either every awaited read returned (the value gathers what they returned), or one of
   * them threw and the fetch's `catch` block runs.
   */
  datatype ChainRead<+T> = ReadOk(value: T) | ReadFailed

  /** A JavaScript string is truthy when it is not empty; `undefined` is falsy. */
  predicate Truthy(s: Option<string>) {
    s.Some? && s.value != ""
  }
}
