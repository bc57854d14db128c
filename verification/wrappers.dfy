/** Option and Result values used for the analyser's error returns and exceptions. */
module Wrappers {
  datatype Option<T> = None | Some(value: T) {
    predicate IsFailure() { None? }
    function PropagateFailure<U>(): Option<U> requires None? { None }
    function Extract(): T requires Some? { value }
  }

  /** The analyser's failure modes that the model keeps. */
  datatype Error =
    | DomainError       // vector2d bound check (std::domain_error)
    | ResamplerError    // a speex resampler call returned a non-zero status

  datatype Result<T> = Success(value: T) | Failure(error: Error)
}
