/** Failure values shared by the profile-curve engine and the serialisers. */
module Errors {

  /** The ways an operation of the model can fail. */
  datatype Error =
    | InvalidArgument     // a node table the curve constructor rejects
    | DegenerateSegment   // a segment whose length is not positive
    | ConstraintError     // a constraint map with a missing key or a zero radius
    | DomainError         // an arc length outside the curve
    | JsonTypeError       // a JSON value of the wrong kind
    | JsonMissingKey      // a JSON object without a key that is read

  /** Either a value or the reason there is none. */
  datatype Result<+T> = Success(value: T) | Failure(error: Error) {

    predicate IsFailure() {
      Failure?
    }

    function PropagateFailure<U>(): Result<U>
      requires Failure?
    {
      Failure(error)
    }

    function Extract(): T
      requires Success?
    {
      value
    }
  }
}
