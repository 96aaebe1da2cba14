/** Where gzseek64 goes, for reading and for writing. */
module GzSeek {

  datatype Whence = SeekSet | SeekCur | SeekEnd

  /** The position that a seek from `at` asks for. */
  function Target(offset: int, whence: Whence, at: int): int {
    if whence.SeekSet? then offset else at + offset
  }

  /** Seeks from the end are refused, and so are those to before the lowest position allowed. */
  predicate Refuses(offset: int, whence: Whence, at: int, lowest: int) {
    whence.SeekEnd? || Target(offset, whence, at) < lowest
  }
}
