/** Optional values, results and the error values that the store, the cache and
    the cluster facade hand back to their callers. */
module Wrappers {

  datatype Option<+T> = None | Some(value: T)

  datatype Result<+T, +E> = Success(value: T) | Failure(error: E)

  /** Go error values that the core distinguishes.  `KeyNotFound` is the
      store's own sentinel, `LogNotFound` the consensus library's sentinel
      for a missing log index; every other error (I/O, encoding, decoding,
      replication) is an opaque value compared by identity. */
  datatype Error =
    | KeyNotFound
    | LogNotFound
    | Failed(msg: string)
}
