/** Option and Result, the two failure-carrying shapes the program uses
    (Rust's `Option<T>` and `Result<T, E>`). */
module Results {

  datatype Option<+T> = None | Some(value: T)

  datatype Result<+T, +E> = Ok(value: T) | Err(error: E)
}
