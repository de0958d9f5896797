/** Option and Result, the two sum types the ledger's Rust code returns. */
module Wrappers {

  /** Rust's `Option<T>`. */
  datatype Option<T> = None | Some(value: T) {

    /** `unwrap_or(default)`: the carried value, or `default` for None. */
    function UnwrapOr(default: T): T {
      match this
      case Some(v) => v
      case None => default
    }
  }

  /** Rust's `Result<T, E>`; the constructors are named Success and Failure so that
      the domain's `TransactionStatus::Ok` can keep its own name. */
  datatype Result<T, E> = Success(value: T) | Failure(error: E)
}
