/** Definitions the components share. */
module Common {

  datatype Option<+T> = None | Some(value: T)

  /** The error codes of the remote adapter. */
  const SUCCESS: int := 0
  const FAILED: int := -1
  const WRITE_FAILURE: int := -3
  const NO_CONNECTION: int := -7
  const ALREADY_EXISTS: int := -10

  /** The answer of a remote call: a text and a code. */
  datatype Reply = Reply(msg: string, code: int)
}
