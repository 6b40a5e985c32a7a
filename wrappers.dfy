/** Option and Result, the two failure-carrying shapes the scraper's Rust code uses. */
module Wrappers {

  datatype Option<T> = None | Some(value: T) {

    /** `unwrap_or(default)`: the carried value, or `default` when there is none. */
    function GetOr(default: T): T {
      match this
      case Some(v) => v
      case None => default
    }
  }

  datatype Result<R, E> = Success(value: R) | Failure(error: E)
}
