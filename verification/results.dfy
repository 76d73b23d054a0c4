/** The failure-compatible result type shared by every operation of the model.
    Each error stands for an exception the Python code raises, or for the
    non-finite value numpy silently produces when it divides by zero. */
module Results {

  datatype Error =
    | ShapeMismatch      // an array does not have the shape the operation needs
    | OutOfRange         // weights outside [0, 1]
    | NotNormalized      // weights that do not sum to 1 along the component axis
    | NonFinite          // a division by zero: numpy yields inf or nan instead of raising
    | IndexError         // an index beyond the end of an axis
    | EmptyReduction     // argmin or argmax over an empty axis
    | UnknownInitMethod  // an init_params value other than "kmeans" or "random"
    | NoTrial            // fit ran no iteration, so no parameters were ever recorded
    | AssertionFailed    // a failed Python `assert`
    | ColumnMismatch     // two point sets with different numbers of columns
    | NegativeDimension  // an array length below zero
    | ZeroWeightSum      // np.average with weights that sum to zero

  datatype Result<T> = Ok(value: T) | Err(error: Error) {

    predicate IsFailure() {
      Err?
    }

    function PropagateFailure<U>(): Result<U>
      requires Err?
    {
      Err(error)
    }

    function Extract(): T
      requires Ok?
    {
      value
    }
  }
}
