/** Two-dimensional numpy arrays: an element type tag, a shape and the rows of cells. */
module Arrays {

  /** The numpy element types the model distinguishes. */
  datatype DType = Int64 | Float64 | Complex64 | Complex128

  /** A 2-D array of shape (rows, cols). The shape is kept explicitly so that
      shapes with an empty axis, such as (0, 1), are representable. */
  datatype Array2<T> = Array2(dtype: DType, rows: nat, cols: nat, at: seq<seq<T>>) {

    /** The cells really form a rows x cols rectangle, as every numpy array does. */
    predicate Valid() {
      |at| == rows && forall i | 0 <= i < rows :: |at[i]| == cols
    }

    /** numpy's `a.shape == b.shape`. */
    predicate SameShape<U>(other: Array2<U>) {
      rows == other.rows && cols == other.cols
    }
  }

  /** Cell (i, j) of `a` exists and holds v. */
  predicate CellIs<T(==)>(a: Array2<T>, i: int, j: int, v: T) {
    0 <= i < |a.at| && 0 <= j < |a.at[i]| && a.at[i][j] == v
  }
}
