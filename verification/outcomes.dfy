/** Failure-carrying wrappers shared by the detector and the page scan.
    `Option` stands for JavaScript values that may be `null` or `undefined`;
    `Result` stands for a call that either returns or throws. */
module Outcomes {

  datatype Option<+T> = None | Some(value: T)

  datatype Result<+T, +E> = Success(value: T) | Failure(error: E)
}
