/** The exceptions the engine raises, as values. */
module Failures {
  import opened Values

  datatype Failure =
    /** has_scope was given option keys it does not know (ArgumentError). */
    | InvalidOptions(keys: set<string>)
    /** An :if/:unless callable or a Proc default raised. */
    | Raised(callable: Value)
    /** The scope's :type has no entry in ALLOWED_TYPES (NoMethodError on nil). */
    | UnknownType(kind: Value)
    /** The value is of none of the classes its :type allows (RuntimeError). */
    | TypeMismatch(kind: Value, key: Value, got: Value)

  datatype Result<+T> = Ok(value: T) | Err(failure: Failure)

  datatype Outcome = Done | Failed(failure: Failure)
}
