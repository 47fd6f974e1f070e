/** The exceptions of the source as failure results. */
module Results {
  datatype Error = DomainError | LengthError | InvalidArgument | DataTooLong

  datatype Result<+T> = Ok(value: T) | Err(error: Error)

  datatype Option<+T> = None | Some(value: T)
}
