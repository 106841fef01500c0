/** The exceptions the dictionary raises, with the messages it raises them with. */
module Errors {
  import opened Lmdb

  datatype Error =
    | KeyError(key: Key)
    | RuntimeError(msg: string)
      /** An error raised by the engine itself and passed through unchanged. */
    | EngineError(fault: Fault)

  const NOT_OPEN: string := "Environment is not open"
  const NOT_WRITER: string := "Database not opened for writing"
}
