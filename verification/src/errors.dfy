/** The exceptions the modelled code can throw, as values. */
module MathErrors {

  /** The C++ exception classes raised by the modelled functions. */
  datatype Error =
    | InvalidArgument  // std::invalid_argument, e.g. from check_matching_dims
    | DomainError      // std::domain_error, e.g. from check_nonnegative
    | EvaluationError  // boost::math::evaluation_error, from the Newton solver

  /** Either a returned value or a thrown exception. */
  datatype Result<+T> = Ok(value: T) | Err(error: Error)
}
