/** Failures surfaced by the semaphore core and by the proving backend it delegates to. */
module Errors {
  datatype Error =
    | InvalidSetSize      // the leaf count of an access set is not a power of two
    | IndexOutOfRange     // a leaf index outside the access set
    | ProofConstruction   // the backend found no satisfying assignment
    | Verification        // the backend rejected a proof

  datatype Result<+T> = Ok(value: T) | Err(error: Error)
}
