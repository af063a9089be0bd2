/** Failure-compatible result types shared by the whole project. */
module Wrappers {

  datatype Option<+T> = None | Some(value: T)

  /** The reasons the program gives when it rejects a definition or an operation. */
  datatype Reason =
    | NegativeArgument
    | InvalidName
    | DuplicatePath
    | NestingDepth
    | RepeatRange
    | UnknownPath
    | BadTarget
    | MissingVariable
    | ShortVariable
    | NegativeSize
    | SizeOverflow
    | DependencyDepth
    | DependencyCycle
    | IndirectSelf
    | DuplicateRequest
    | UnknownRequest
    | DuplicateEdge
    | GraphCycle
    | BadLiteral
    | PrecisionSupport

  /** `Invalid` is a rejected definition; `Limit` is an exceeded byte or count budget. */
  datatype ModelError = Invalid(reason: Reason) | Limit

  datatype Result<+T> = Ok(value: T) | Err(error: ModelError) {
    predicate IsFailure() {
      Err?
    }

    function PropagateFailure<U>(): Result<U>
      requires Err?
    {
      Err(error)
    }

    function Extract(): T
      requires Ok?
    {
      value
    }
  }
}
