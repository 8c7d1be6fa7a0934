/** Dense real matrices: the score matrices of the recommenders and the
    interaction / content matrices of the experiment driver. */
module Matrices {

  /** A matrix as a sequence of rows. */
  type Matrix = seq<seq<real>>

  /** `a` and `b` have the same number of rows and row i of both has the same length. */
  predicate SameShape(a: Matrix, b: Matrix) {
    |a| == |b| && forall i :: 0 <= i < |a| ==> |a[i]| == |b[i]|
  }

  /** Every row of `m` holds exactly `cols` entries. */
  predicate Rectangular(m: Matrix, cols: nat) {
    forall i :: 0 <= i < |m| ==> |m[i]| == cols
  }

  /** A matrix that carries its shape explicitly, as scipy's sparse matrices do
      (a matrix with no rows still has a column count). */
  datatype Grid = Grid(rows: nat, cols: nat, cells: Matrix) {
    predicate Valid() {
      |cells| == rows && Rectangular(cells, cols)
    }
  }

  /** The transpose of a valid grid. */
  function Transpose(g: Grid): (t: Grid)
    requires g.Valid()
    ensures t.Valid() && t.rows == g.cols && t.cols == g.rows
    ensures forall i, j :: 0 <= i < g.cols && 0 <= j < g.rows ==> t.cells[i][j] == g.cells[j][i]
  {
    Grid(g.cols, g.rows,
         seq(g.cols, i requires 0 <= i < g.cols =>
           seq(g.rows, j requires 0 <= j < g.rows => g.cells[j][i])))
  }

  /** Transposing twice gives back the grid. */
  lemma TransposeInvolution(g: Grid)
    requires g.Valid()
    ensures Transpose(Transpose(g)) == g
  {
    var t := Transpose(Transpose(g));
    assert |t.cells| == |g.cells|;
    forall j | 0 <= j < g.rows
      ensures t.cells[j] == g.cells[j]
    {
      assert |t.cells[j]| == |g.cells[j]|;
    }
  }
}
