/** Option and Result values, and the errors the topology engine raises. */
module Results {

  datatype Option<+T> = None | Some(value: T)

  /** The exception classes the modelled operations raise. */
  datatype Error =
    | TypeError        // an argument of a kind the operation does not handle
    | ValueError       // a member that is not part of the topology
    | GMSOError        // a configuration value outside its enumeration
    | ValidationError  // a field value rejected when a record is built

  datatype Result<+T> = Success(value: T) | Failure(error: Error)

  datatype Outcome = Pass | Fail(error: Error)
}
