/** Return codes and small wrappers shared by the whole model. */
module ObCommon {

  /** The OceanBase `int ret` codes that the modelled code produces or tests for.
      Codes produced only by calls outside the model are carried by `Other`. */
  datatype RetCode =
    | Success                 // OB_SUCCESS
    | InvalidArgument         // OB_INVALID_ARGUMENT
    | ErrUnexpected           // OB_ERR_UNEXPECTED, also what a failing CK(...) sets
    | ReadNothing             // OB_READ_NOTHING
    | AllocateMemoryFailed    // OB_ALLOCATE_MEMORY_FAILED
    | SizeOverflow            // OB_SIZE_OVERFLOW
    | NumericOrValueError     // OB_ERR_NUMERIC_OR_VALUE_ERROR
    | DeserializeError        // OB_DESERIALIZE_ERROR
    | Other(code: int)
  {
    predicate IsSuccess() { Success? }
  }

  datatype Option<+T> = None | Some(value: T)

  /** OB_INVALID_INDEX */
  const INVALID_INDEX: int := -1

  /** An allocation (or a container operation that allocates): whether it
      succeeds is the allocator's choice, and it fails with
      OB_ALLOCATE_MEMORY_FAILED. */
  method Allocate() returns (ret: RetCode)
    ensures ret == Success || ret == AllocateMemoryFailed
  {
    ret := *;
    if ret != Success {
      ret := AllocateMemoryFailed;
    }
  }
}
