/** Failure-carrying values shared by every module of the model. */
module Wrappers {

  /** Rust's `Option<T>`. */
  datatype Option<T> = None | Some(value: T)

  /** Rust's `Result<T, E>`; a panic of the source is an `Err` carrying its message. */
  datatype Result<T, E> = Ok(value: T) | Err(error: E)

  /** The values an option holds, as a set (`opt.map(|v| vec![v]).unwrap_or_default()`). */
  function OptionToSet<T>(o: Option<T>): (r: set<T>)
    ensures o.None? <==> r == {}
    ensures o.Some? ==> r == {o.value}
  {
    match o
    case None => {}
    case Some(v) => {v}
  }
}
