/** Failure-carrying values: the `Option` and `Result` shapes the program
    uses for "maybe a value" and "a value or an error". */
module Results {

  datatype Option<+T> = None | Some(value: T)

  datatype Result<+T, +E> = Ok(value: T) | Err(error: E)
}
