/** The optional value returned by the store's lookups (Rust's `Option`). */
module Options {

  datatype Option<+T> = None | Some(value: T) {

    /** True if this is `None`; lets `:-` propagate a missing value as `?` does in Rust. */
    predicate IsFailure() {
      None?
    }

    function PropagateFailure<U>(): Option<U>
      requires None?
    {
      None
    }

    function Extract(): T
      requires Some?
    {
      value
    }
  }
}
