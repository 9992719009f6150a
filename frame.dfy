/**
 * The tabular data the encoders work on: a pandas DataFrame reduced to its
 * named columns, each a sequence of cells.
 */
module Frame {

  /** One cell of a column. `Missing` is pandas' NaN / None. */
  datatype Cell = Text(s: string) | Int(n: int) | Real(x: real) | Missing

  type Column = seq<Cell>

  /** The exceptions the encoders raise. */
  datatype Error =
    | NotFitted                 // the `is_fitted` assertion of an unfitted encoder
    | KeyError(key: string)     // a column or an encoder looked up by a name it does not have
    | LengthMismatch            // a feature and the target have different lengths
    | ClassNotFound(target: int) // the target has no row of this class to count

  /** A table whose columns the encoders read and overwrite in place. */
  class DataFrame {
    var columns: map<string, Column>

    constructor (columns: map<string, Column>)
      ensures this.columns == columns
    {
      this.columns := columns;
    }
  }
}
