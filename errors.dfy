/** The exceptions the demodulation pipeline can raise, one constructor per cause. */
module Errors {

  datatype Error =
    | LogOfZero                   // math.log(0, 2): the signal is empty
    | UnknownMode(mode: string)   // the mode matched no branch, so the kept range is never bound
    | MissingKey(key: string)     // a stage reads a dataset that no earlier stage wrote
    | KeyExists(key: string)      // a stage writes a dataset name that is already taken
    | NegativeDimension           // np.ones(n - 2*ww) with 2*ww > n
    | IndexOutOfRange             // reading element 1 of an axis with fewer than two points
    | ShapeMismatch               // arrays whose lengths cannot be combined
    | EmptyTransform              // a Fourier transform of zero points
    | ZeroBandwidth               // a bandpass filter of width zero
    | DivisionByZero              // the integer division by a chunk size of zero
}
