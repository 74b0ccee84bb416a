/** Option and Result wrappers, and the errors the deletion spectrum raises. */
module Types {

  datatype Option<T> = None | Some(value: T)

  datatype Result<T, E> = Success(value: T) | Failure(error: E)

  /** Each constructor stands for one `ValueError` (or `IndexError`) raised in DelSpectrum.py. */
  datatype Error =
    | NotPositive(attribute: string)   // "<attribute> must be greater than zero"
    | Negative(attribute: string)      // "<attribute> must be non-negative"
    | NotFinite(attribute: string)     // "<attribute> must be finite"
    | NoDataOrSize                     // neither a data array nor a sample size
    | InvalidLength                    // the data length is not a triangular number
    | LengthMismatch(sampleSize: int)  // the data length does not fit the given sample size
    | ProjectionNotInteger             // project called with a non-integer
    | ProjectionNotPositive            // project called with a size <= 0
    | ProjectionTooLarge               // project called with a size above the current one
    | IndexOutOfRange                  // an index outside the (n+1) x (n+1) square
}
