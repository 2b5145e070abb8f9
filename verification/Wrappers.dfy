/** Outcomes of the filesystem's operations.  The messages carried by the program's
    error values are not modelled, only which error it is. */
module Wrappers {

  datatype Option<+T> = None | Some(value: T)

  datatype CodecError = PayloadTooLarge | NotACarrier | HeaderCrc | Jpeg | InvalidMode

  datatype FsError =
    | BlockCrc(lba: nat)
    | BadBlock(index: nat)
    | BadMagic
    | SuperblockCrc
    | Manifest
    | Auth
    | Codec(cause: CodecError)
    | EmptyPool
    | NoSpace
    | NotFound
    | Exists
    | NotEmpty
    | NotDir
    | IsDir

  datatype Result<+T> = Ok(value: T) | Err(error: FsError) {
    predicate IsFailure() {
      Err?
    }

    function PropagateFailure<U>(): Result<U>
      requires Err?
    {
      Err(error)
    }

    function Extract(): T
      requires Ok?
    {
      value
    }
  }
}
