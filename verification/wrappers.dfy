/** The option and result types the model uses for the program's Option and Result. */
module Wrappers {

  datatype Option<+T> = None | Some(value: T)

  /** The error classes the model tells apart; message texts are not modelled. */
  datatype Error =
    | CorruptWal
    | CorruptSnapshot
    | StorageIo
    | LimitExceeded
    | UniqueViolation(column: string)
    | NullViolation(column: string)
    | TypeMismatch
    | DimensionMismatch
    | ColumnNotFound
    | DuplicateColumn
    | InvalidVectorDimension
    | ZeroNorm
    | Unsupported
    | InvalidQuery(reason: QueryError)

  /** What an InvalidQuery error is about. */
  datatype QueryError =
    | IntegerOverflow
    | DivisionByZero
    | NonFiniteNumber
    | NullVectorElement
    | NotANumber
    | BadLiteral
    | WrongArgumentCount
    | NotGrouped
    | RepeatedRow
    | OtherQuery

  datatype Result<+T> = Success(value: T) | Failure(error: Error) {

    predicate IsFailure() {
      Failure?
    }

    function PropagateFailure<U>(): Result<U>
      requires Failure?
    {
      Failure(error)
    }

    function Extract(): T
      requires Success?
    {
      value
    }
  }
}
