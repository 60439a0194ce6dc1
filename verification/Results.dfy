/** Optional values, and results that carry either a value or the reason there is none. */
module Results {
  datatype Option<+T> = None | Some(value: T)

  datatype Error =
    | PackingSizeMismatch
    | TruncatedRecord
    | TruncatedSeed
    | PaddingOverflow
    | BadRecord
    | UnconsumedInput
    | SizeMismatch
    | NotRvz
    | BadHeader
    | FileSizeMismatch
    | UnsupportedCompression
    | Zstd
    | BadPartitionTable
    | MissingGroup
    // Stands for a checked-arithmetic or slice-bounds panic of the program.
    | Panic

  datatype Result<+T> = Ok(value: T) | Err(error: Error) {
    predicate IsFailure() {
      Err?
    }

    function PropagateFailure<U>(): Result<U>
      requires Err?
    {
      Err(error)
    }

    function Extract(): T
      requires Ok?
    {
      value
    }
  }
}
