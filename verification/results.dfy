/**
 Outcome types shared by the decoders and the command layer of the Bebop bus
 driver.
 */
module Results {

  /** A value that may be absent. */
  datatype Option<+T> = None | Some(value: T)

  /** The outcome of a driver operation: a decoded value, or why there is none. */
  datatype Result<+T, +E> = Success(value: T) | Failure(error: E) {

    /** The driver's integer return convention: 0 on success, -1 on any failure. */
    function Status(): (code: int)
      ensures code == 0 <==> Success?
      ensures code == -1 <==> Failure?
    {
      if Success? then 0 else -1
    }
  }
}
