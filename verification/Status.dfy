/** The status codes of the class file half of the library. */
module Status {
  datatype Status =
    | OK
    | TRUNCATED
    | MAGIC
    | VERSION
    | CONSTANT_TAG
    | CONSTANT_INDEX
    | TRAILING_BYTES
    | LIMIT_EXCEEDED
    | OUT_OF_MEMORY
    | OPCODE
    | BAD_OFFSET
    | BRANCH_RANGE
    | CODE_TOO_LARGE
    | UNSUPPORTED

  datatype Option<+T> = None | Some(value: T)

  datatype Result<+T> = Success(value: T) | Failure(status: Status) {
    predicate IsFailure() { Failure? }
    function PropagateFailure<U>(): Result<U>
      requires Failure?
    {
      Failure(status)
    }
    function Extract(): T
      requires Success?
    {
      value
    }
  }

  /** Every count in a class file is a u2. */
  const MAX_COUNT := 0xFFFF
}
