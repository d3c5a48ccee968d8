/** Optional values and results with an error branch, used for the map's Fourier
    cache and for the assertions the shear-map operations raise. */
module Results {

  /** A value that may be absent. */
  datatype Option<+T> = None | Some(value: T)

  /** The outcome of an operation that can fail with an error of type E. */
  datatype Result<+T, +E> = Ok(value: T) | Err(error: E)
}
