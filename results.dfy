/** Failure-compatible wrappers used throughout the model: Java's null references become
    Option, and thrown exceptions become the Err alternative of Result. */
module Results {

  datatype Option<+T> = None | Some(value: T)

  datatype Result<+T, +E> = Ok(value: T) | Err(error: E)
}
