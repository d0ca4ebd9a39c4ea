/** Dense real matrices: the values every node of the graph holds.
    They stand in for Eigen's dynamically sized matrices; entries are reals,
    so floating-point rounding is not modelled. A matrix keeps its row and
    column counts explicitly, so a 0x5 matrix and a 0x0 matrix differ, as
    they do in Eigen. */
module Matrices {

  datatype Option<+T> = None | Some(value: T)

  /** The outcome of a computation that the numeric kernels may refuse:
      `Fail` stands for an Eigen assertion (mismatched shapes, an index out
      of range) or for a result that is not a real number (the mean of an
      empty row or column). In the engine each of these ends the program. */
  datatype Result<+T> = Ok(value: T) | Fail

  datatype Matrix = Matrix(rows: nat, cols: nat, data: seq<seq<real>>)

  predicate Rectangular(m: Matrix) {
    |m.data| == m.rows && forall i :: 0 <= i < m.rows ==> |m.data[i]| == m.cols
  }

  type Mat = m: Matrix | Rectangular(m) witness Matrix(0, 0, [])

  /** What a default-constructed Eigen matrix is: no rows, no columns. */
  const Empty: Mat := Matrix(0, 0, [])

  predicate SameShape(a: Mat, b: Mat) {
    a.rows == b.rows && a.cols == b.cols
  }

  /** Two matrices with the same shape and the same entries are equal. */
  lemma Extensionality(a: Mat, b: Mat)
    requires SameShape(a, b)
    requires forall i, j :: 0 <= i < a.rows && 0 <= j < a.cols ==> a.data[i][j] == b.data[i][j]
    ensures a == b
  {
    forall i | 0 <= i < a.rows
      ensures a.data[i] == b.data[i]
    {
      assert forall j :: 0 <= j < a.cols ==> a.data[i][j] == b.data[i][j];
    }
  }

  /** `Matrix::Constant(rows, cols, x)`; `Zero` and `Ones` are its instances. */
  function Fill(rows: nat, cols: nat, x: real): (r: Mat)
    ensures r.rows == rows && r.cols == cols
    ensures forall i, j :: 0 <= i < rows && 0 <= j < cols ==> r.data[i][j] == x
  {
    Matrix(rows, cols, seq(rows, i requires 0 <= i < rows => seq(cols, j requires 0 <= j < cols => x)))
  }

  function Zero(rows: nat, cols: nat): (r: Mat)
    ensures r == Fill(rows, cols, 0.0)
  {
    Fill(rows, cols, 0.0)
  }

  function Ones(rows: nat, cols: nat): (r: Mat)
    ensures r == Fill(rows, cols, 1.0)
  {
    Fill(rows, cols, 1.0)
  }

  function Add(a: Mat, b: Mat): (r: Mat)
    requires SameShape(a, b)
    ensures SameShape(r, a)
    ensures forall i, j :: 0 <= i < a.rows && 0 <= j < a.cols ==> r.data[i][j] == a.data[i][j] + b.data[i][j]
  {
    Matrix(a.rows, a.cols,
      seq(a.rows, i requires 0 <= i < a.rows =>
        seq(a.cols, j requires 0 <= j < a.cols => a.data[i][j] + b.data[i][j])))
  }

  /** `m * x` for a scalar `x`. */
  function Scale(a: Mat, x: real): (r: Mat)
    ensures SameShape(r, a)
    ensures forall i, j :: 0 <= i < a.rows && 0 <= j < a.cols ==> r.data[i][j] == a.data[i][j] * x
  {
    Matrix(a.rows, a.cols,
      seq(a.rows, i requires 0 <= i < a.rows =>
        seq(a.cols, j requires 0 <= j < a.cols => a.data[i][j] * x)))
  }

  /** `m.unaryExpr(f)`. */
  function MapEntries(a: Mat, f: real -> real): (r: Mat)
    ensures SameShape(r, a)
    ensures forall i, j :: 0 <= i < a.rows && 0 <= j < a.cols ==> r.data[i][j] == f(a.data[i][j])
  {
    Matrix(a.rows, a.cols,
      seq(a.rows, i requires 0 <= i < a.rows =>
        seq(a.cols, j requires 0 <= j < a.cols => f(a.data[i][j]))))
  }

  /** `m.cwiseProduct(n)`. */
  function Hadamard(a: Mat, b: Mat): (r: Mat)
    requires SameShape(a, b)
    ensures SameShape(r, a)
    ensures forall i, j :: 0 <= i < a.rows && 0 <= j < a.cols ==> r.data[i][j] == a.data[i][j] * b.data[i][j]
  {
    Matrix(a.rows, a.cols,
      seq(a.rows, i requires 0 <= i < a.rows =>
        seq(a.cols, j requires 0 <= j < a.cols => a.data[i][j] * b.data[i][j])))
  }

  function Transpose(a: Mat): (r: Mat)
    ensures r.rows == a.cols && r.cols == a.rows
    ensures forall i, j :: 0 <= i < a.cols && 0 <= j < a.rows ==> r.data[i][j] == a.data[j][i]
  {
    Matrix(a.cols, a.rows,
      seq(a.cols, i requires 0 <= i < a.cols =>
        seq(a.rows, j requires 0 <= j < a.rows => a.data[j][i])))
  }

  function Sum(s: seq<real>): real
  {
    if |s| == 0 then 0.0 else Sum(s[..|s| - 1]) + s[|s| - 1]
  }

  function Column(a: Mat, j: nat): (c: seq<real>)
    requires j < a.cols
    ensures |c| == a.rows
    ensures forall k :: 0 <= k < a.rows ==> c[k] == a.data[k][j]
  {
    seq(a.rows, k requires 0 <= k < a.rows => a.data[k][j])
  }

  function InnerProduct(u: seq<real>, v: seq<real>): real
    requires |u| == |v|
  {
    if |u| == 0 then 0.0
    else InnerProduct(u[..|u| - 1], v[..|v| - 1]) + u[|u| - 1] * v[|v| - 1]
  }

  /** The matrix product `a * b`. */
  function Mul(a: Mat, b: Mat): (r: Mat)
    requires a.cols == b.rows
    ensures r.rows == a.rows && r.cols == b.cols
    ensures forall i, j :: 0 <= i < a.rows && 0 <= j < b.cols ==> r.data[i][j] == InnerProduct(a.data[i], Column(b, j))
  {
    Matrix(a.rows, b.cols,
      seq(a.rows, i requires 0 <= i < a.rows =>
        seq(b.cols, j requires 0 <= j < b.cols => InnerProduct(a.data[i], Column(b, j)))))
  }

  /** `m.rowwise().sum()`: one entry per row, a rows x 1 column. */
  function RowSums(a: Mat): (r: Mat)
    ensures r.rows == a.rows && r.cols == 1
    ensures forall i :: 0 <= i < a.rows ==> r.data[i][0] == Sum(a.data[i])
  {
    Matrix(a.rows, 1, seq(a.rows, i requires 0 <= i < a.rows => [Sum(a.data[i])]))
  }

  /** `m.colwise().sum()`: one entry per column, a 1 x cols row. */
  function ColSums(a: Mat): (r: Mat)
    ensures r.rows == 1 && r.cols == a.cols
    ensures forall j :: 0 <= j < a.cols ==> r.data[0][j] == Sum(Column(a, j))
  {
    Matrix(1, a.cols, [seq(a.cols, j requires 0 <= j < a.cols => Sum(Column(a, j)))])
  }

  /** `m.sum()`: the sum of every entry. */
  function TotalSum(a: Mat): real
  {
    Sum(seq(a.rows, i requires 0 <= i < a.rows => Sum(a.data[i])))
  }

  /** `m.rowwise().mean()`; a row without entries has no real mean. */
  function RowMeans(a: Mat): (r: Mat)
    requires a.rows == 0 || a.cols > 0
    ensures r.rows == a.rows && r.cols == 1
    ensures forall i :: 0 <= i < a.rows ==> r.data[i][0] == Sum(a.data[i]) / a.cols as real
  {
    Matrix(a.rows, 1, seq(a.rows, i requires 0 <= i < a.rows => [Sum(a.data[i]) / a.cols as real]))
  }

  /** `m.colwise().mean()`; a column without entries has no real mean. */
  function ColMeans(a: Mat): (r: Mat)
    requires a.cols == 0 || a.rows > 0
    ensures r.rows == 1 && r.cols == a.cols
    ensures forall j :: 0 <= j < a.cols ==> r.data[0][j] == Sum(Column(a, j)) / a.rows as real
  {
    Matrix(1, a.cols, [seq(a.cols, j requires 0 <= j < a.cols => Sum(Column(a, j)) / a.rows as real)])
  }

  /** `t.colwise() + vec.col(0)`: the first column of `v` added to every column of `a`. */
  function BroadcastColAdd(a: Mat, v: Mat): (r: Mat)
    requires v.rows == a.rows && v.cols >= 1
    ensures SameShape(r, a)
    ensures forall i, j :: 0 <= i < a.rows && 0 <= j < a.cols ==> r.data[i][j] == a.data[i][j] + v.data[i][0]
  {
    Matrix(a.rows, a.cols,
      seq(a.rows, i requires 0 <= i < a.rows =>
        seq(a.cols, j requires 0 <= j < a.cols => a.data[i][j] + v.data[i][0])))
  }

  /** `t.rowwise() + vec.row(0)`: the first row of `v` added to every row of `a`. */
  function BroadcastRowAdd(a: Mat, v: Mat): (r: Mat)
    requires v.cols == a.cols && v.rows >= 1
    ensures SameShape(r, a)
    ensures forall i, j :: 0 <= i < a.rows && 0 <= j < a.cols ==> r.data[i][j] == a.data[i][j] + v.data[0][j]
  {
    Matrix(a.rows, a.cols,
      seq(a.rows, i requires 0 <= i < a.rows =>
        seq(a.cols, j requires 0 <= j < a.cols => a.data[i][j] + v.data[0][j])))
  }

  /** A 1 x 1 matrix. */
  function Single(x: real): (r: Mat)
    ensures r.rows == 1 && r.cols == 1 && r.data[0][0] == x
  {
    Matrix(1, 1, [[x]])
  }

  lemma InnerProductOfSingletons(u: seq<real>, v: seq<real>)
    requires |u| == 1 && |v| == 1
    ensures InnerProduct(u, v) == u[0] * v[0]
  {
    assert InnerProduct(u[..0], v[..0]) == 0.0;
  }

  /** Multiplying a column by a constant row repeats the column, scaled. */
  lemma {:induction false} MulByFilledRow(g: Mat, cols: nat, x: real)
    requires g.cols == 1
    ensures Mul(g, Fill(1, cols, x)).rows == g.rows
    ensures Mul(g, Fill(1, cols, x)).cols == cols
    ensures forall i, j :: 0 <= i < g.rows && 0 <= j < cols ==> Mul(g, Fill(1, cols, x)).data[i][j] == g.data[i][0] * x
  {
    var f := Fill(1, cols, x);
    forall i, j | 0 <= i < g.rows && 0 <= j < cols
      ensures Mul(g, f).data[i][j] == g.data[i][0] * x
    {
      InnerProductOfSingletons(g.data[i], Column(f, j));
    }
  }

  /** Multiplying a constant column by a row repeats the row, scaled. */
  lemma {:induction false} FilledColumnMul(rows: nat, x: real, g: Mat)
    requires g.rows == 1
    ensures Mul(Fill(rows, 1, x), g).rows == rows
    ensures Mul(Fill(rows, 1, x), g).cols == g.cols
    ensures forall i, j :: 0 <= i < rows && 0 <= j < g.cols ==> Mul(Fill(rows, 1, x), g).data[i][j] == x * g.data[0][j]
  {
    var f := Fill(rows, 1, x);
    forall i, j | 0 <= i < rows && 0 <= j < g.cols
      ensures Mul(f, g).data[i][j] == x * g.data[0][j]
    {
      InnerProductOfSingletons(f.data[i], Column(g, j));
    }
  }
}
