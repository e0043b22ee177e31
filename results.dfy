/** Failure-carrying values shared by every module: Rust's `Option` and
    `Result<T, failure::Error>`, where an error is its display message. */
module Results {

  datatype Option<+T> = None | Some(value: T)

  datatype Result<+T> = Ok(value: T) | Err(error: string)
}
