/** Byte streams that end, cleanly or not, and what a reader over one owes its caller. */
module Streams {
  import opened Bytes

  /** Why a stream ends: a clean end of file, or an error of the stream itself. */
  datatype Ending = Eof | Broken

  /** A reader hands out bytes and then one error: end of file (Finished) or a failure. */
  datatype Fate = Finished | Failed
  datatype Play = Play(out: bytes, fate: Fate)

  /** The result of one Read. */
  datatype Step = Bytes(data: bytes) | Error(fate: Fate)
}
