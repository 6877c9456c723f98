/** The outcome of an operation that either produces a value or stops with an error
    (a thrown exception in the modelled C++ code). */
module Results {

  datatype Result<+T, +E> = Success(value: T) | Failure(error: E)

}
