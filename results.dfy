/** Success and failure values shared by the chart and aggregation models. */
module Results {

  /** The outcome of an operation that can throw: its value, or the error it throws. */
  datatype Result<+T, +E> = Ok(value: T) | Err(error: E)

  /** An optional value (JavaScript `undefined`, a missing pandas value). */
  datatype Option<+T> = None | Some(value: T)
}
