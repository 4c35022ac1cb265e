// The outcome of an operation that can raise: a value, or the error the
// source raises, with its message.
module Results {

  datatype Result<T> = Ok(value: T) | Error(message: string)

  datatype Option<T> = None | Some(value: T)
}
