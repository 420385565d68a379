/** Two-dimensional pixel grids as numpy holds them: a shape `(rows, cols)`
    and row-major contents. The shape is explicit so that an array with no
    rows still has a width, as a numpy array does. */
module Rasters {

  datatype Raster<P> = Raster(rows: nat, cols: nat, px: seq<seq<P>>)
  {
    /** The contents agree with the shape. */
    predicate Wf()
    {
      |px| == rows && forall r :: 0 <= r < |px| ==> |px[r]| == cols
    }
  }

  /** A `rows` x `cols` array filled with `bg` (`np.repeat(bg, rows * cols).reshape(rows, cols)`). */
  function Blank<P>(rows: nat, cols: nat, bg: P): (b: Raster<P>)
    ensures b.Wf() && b.rows == rows && b.cols == cols
    ensures forall r, c :: 0 <= r < rows && 0 <= c < cols ==> b.px[r][c] == bg
  {
    Raster(rows, cols, seq(rows, _ => seq(cols, _ => bg)))
  }

  /** `np.hstack((a, b))`: side by side, `a` on the left; both must have the same number of rows. */
  function HStack<P>(a: Raster<P>, b: Raster<P>): (s: Raster<P>)
    requires a.Wf() && b.Wf() && a.rows == b.rows
    ensures s.Wf() && s.rows == a.rows && s.cols == a.cols + b.cols
  {
    Raster(a.rows, a.cols + b.cols, seq(a.rows, r requires 0 <= r < a.rows => a.px[r] + b.px[r]))
  }

  /** Where a pixel of a side-by-side pair comes from. */
  lemma HStackAt<P>(a: Raster<P>, b: Raster<P>, r: nat, c: nat)
    requires a.Wf() && b.Wf() && a.rows == b.rows
    requires r < a.rows && c < a.cols + b.cols
    ensures HStack(a, b).px[r][c] == if c < a.cols then a.px[r][c] else b.px[r][c - a.cols]
  {
  }
}
