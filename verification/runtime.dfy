/** Outcomes of Go calls as values: a call either returns (together with the
    diagnostic lines it wrote through `log.Println`) or panics. Stack dumps
    written with `debug.PrintStack` are not modelled. */
module Runtime {

  /** What a Go call does: returns a value and the lines it logged, or panics
      with a message. */
  datatype Outcome<+T> = Returned(value: T, log: seq<string>) | Panicked(message: string)

  /** Go's optional values: a nil pointer or error is `None`. */
  datatype Option<+T> = None | Some(value: T)

  /** A Go `(value, error)` pair where exactly one side is meaningful. */
  datatype Result<+T> = Ok(value: T) | Err(message: string)
}
