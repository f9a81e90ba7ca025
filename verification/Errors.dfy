/** The outcomes reported by checksum and socket operations. */
module Errors {
  datatype Error = OK | INVALID | WOULD_BLOCK | END_OF_FILE
}
