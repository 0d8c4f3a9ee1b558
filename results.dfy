/** Option and Result values, standing for JavaScript's `null` and for a
    promise that either resolves or rejects with an error. */
module Results {

  datatype Option<+T> = None | Some(value: T)

  datatype Result<+T, +E> = Ok(value: T) | Err(error: E)
}
