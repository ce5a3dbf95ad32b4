/** Two-dimensional numpy arrays as rectangular sequences of rows.  The shape
    is carried explicitly so that arrays with zero rows keep their column
    count, as numpy shapes do. */
module Grid {

  datatype Array2<T> = Array2(rows: nat, cols: nat, cells: seq<seq<T>>) {
    predicate Valid() {
      |cells| == rows && forall i :: 0 <= i < |cells| ==> |cells[i]| == cols
    }
  }

  /** `a.T` */
  function Transpose<T>(a: Array2<T>): (t: Array2<T>)
    requires a.Valid()
    ensures t.Valid()
    ensures t.rows == a.cols && t.cols == a.rows
    ensures forall i, j :: 0 <= i < a.rows && 0 <= j < a.cols ==> t.cells[j][i] == a.cells[i][j]
  {
    Array2(a.cols, a.rows, seq(a.cols, j requires 0 <= j < a.cols =>
                                 seq(a.rows, i requires 0 <= i < a.rows => a.cells[i][j])))
  }

  lemma TransposeInvolution<T>(a: Array2<T>)
    requires a.Valid()
    ensures Transpose(Transpose(a)) == a
  {
    var t := Transpose(Transpose(a));
    assert |t.cells| == |a.cells|;
    forall i | 0 <= i < a.rows
      ensures t.cells[i] == a.cells[i]
    {
    }
  }

  /** `a[indices, :]`: rows picked (and possibly repeated) by index. */
  function SelectRows<T>(a: Array2<T>, indices: seq<nat>): (r: Array2<T>)
    requires a.Valid()
    requires forall k :: 0 <= k < |indices| ==> indices[k] < a.rows
    ensures r.Valid() && r.rows == |indices| && r.cols == a.cols
    ensures forall k :: 0 <= k < |indices| ==> r.cells[k] == a.cells[indices[k]]
  {
    Array2(|indices|, a.cols, seq(|indices|, k requires 0 <= k < |indices| => a.cells[indices[k]]))
  }
}
