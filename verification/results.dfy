/** Failure-carrying wrappers shared by the whole model: Go's `(value, error)`
    return pairs become `Result`, optional pointers become `Option`. */
module Results {

  datatype Option<+T> = None | Some(value: T)

  /** The errors the modelled code can produce or pass on. */
  datatype Error =
    /** A nested write met a value that is not a map; `path` is the offending prefix. */
    | NotAMap(path: seq<string>)
    /** An error returned by a collaborator whose source is not modelled
        (the env-var builder or the mappings template parser). */
    | Collaborator(reason: string)

  /** A Go `(T, error)` pair: exactly one side is meaningful. */
  datatype Result<+T> = Ok(value: T) | Err(error: Error) {

    predicate IsFailure() {
      Err?
    }

    function PropagateFailure<U>(): Result<U>
      requires Err?
    {
      Err(error)
    }

    function Extract(): T
      requires Ok?
    {
      value
    }
  }
}
