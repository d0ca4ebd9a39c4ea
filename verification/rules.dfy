/** The forward rules and the vector-Jacobian products that the operator
    constructors of lazy/ops/Operator.hpp register. In the engine they are
    closures capturing node pointers; here a rule names the nodes it reads
    by arena index and is interpreted on the values of those nodes. */
module Rules {
  import opened Matrices

  /** `reduce_to`: what a reduction collapses its operand to. */
  datatype Axis = ToColumn | ToRow | ToScalar

  /** The forward function `m_f` of a node. `Default` is the function a
      bare operand is built with: it returns a default-constructed, empty
      matrix. Every other rule reads input `a`, and the binary ones `b`. */
  datatype Forward =
    | Default
    | Map(a: nat, f: real -> real)
    | ColwisePlus(a: nat, b: nat)
    | RowwisePlus(a: nat, b: nat)
    | DotProduct(a: nat, b: nat)
    | HadamardProduct(a: nat, b: nat)
    | ReduceSum(a: nat, axis: Axis)
    | ReduceMean(a: nat, axis: Axis)
  {
    predicate Binary() {
      ColwisePlus? || RowwisePlus? || DotProduct? || HadamardProduct?
    }

    /** The nodes the forward function evaluates. */
    function Inputs(): (s: set<nat>)
      ensures Default? <==> s == {}
    {
      if Default? then {} else if Binary() then {a, b} else {a}
    }

    /** The second input; a unary rule reads its one input twice. */
    function Second(): nat
      requires !Default?
    {
      if Binary() then b else a
    }
  }

  /** The closure an input keeps in its post map for one successor. Given
      the successor's gradient `G`, it yields this input's contribution.
      `other` names the second operand of a product, whose value the rule
      reads; the rules of `unaryExpr` and the reductions read the value of
      the input itself. */
  datatype Rule =
    | Unary(df: real -> real)       // G ⊙ df(t)
    | PassThrough                   // G, for the matrix operand of a broadcast add
    | SumRows                       // G.rowwise().sum(), for the vector of colwise_plus
    | SumCols                       // G.colwise().sum(), for the vector of rowwise_plus
    | DotLeft(other: nat)           // G * otherᵀ
    | DotRight(other: nat)          // otherᵀ * G
    | HadamardWith(other: nat)      // G ⊙ other
    | SumBack(axis: Axis)
    | MeanBack(axis: Axis)
  {
    predicate ReadsOther() {
      DotLeft? || DotRight? || HadamardWith?
    }
  }

  /** `v / n` as the engine computes it. The engine only divides by a zero
      count to fill a matrix that then has no entries, so the value chosen
      for that case is never read. */
  function Quotient(v: real, n: nat): real
  {
    if n == 0 then 0.0 else v / n as real
  }

  /** The forward function applied to the values `x` of input `a` and `y`
      of the second input. */
  function Apply(fwd: Forward, x: Mat, y: Mat): Result<Mat>
  {
    match fwd
    case Default => Ok(Empty)
    case Map(_, f) => Ok(MapEntries(x, f))
    case ColwisePlus(_, _) =>
      if y.rows == x.rows && y.cols >= 1 then Ok(BroadcastColAdd(x, y)) else Fail
    case RowwisePlus(_, _) =>
      if y.cols == x.cols && y.rows >= 1 then Ok(BroadcastRowAdd(x, y)) else Fail
    case DotProduct(_, _) =>
      if x.cols == y.rows then Ok(Mul(x, y)) else Fail
    case HadamardProduct(_, _) =>
      if SameShape(x, y) then Ok(Hadamard(x, y)) else Fail
    case ReduceSum(_, axis) =>
      (match axis
       case ToColumn => Ok(RowSums(x))
       case ToRow => Ok(ColSums(x))
       case ToScalar => Ok(Single(TotalSum(x))))
    case ReduceMean(_, axis) =>
      (match axis
      case ToColumn => if x.rows == 0 || x.cols > 0 then Ok(RowMeans(x)) else Fail
      case ToRow => if x.cols == 0 || x.rows > 0 then Ok(ColMeans(x)) else Fail
      case ToScalar =>
        if x.rows > 0 && x.cols > 0 then Ok(Single(TotalSum(x) / (x.rows * x.cols) as real)) else Fail)
  }

  /** The closure of `rule` applied to the successor's gradient `G`, where
      `x` is the value of the input holding the rule and `y` the value of
      the rule's other operand. */
  function Backward(rule: Rule, G: Mat, x: Mat, y: Mat): Result<Mat>
  {
    match rule
    case Unary(df) => if SameShape(G, x) then Ok(Hadamard(G, MapEntries(x, df))) else Fail
    case PassThrough => Ok(G)
    case SumRows => Ok(RowSums(G))
    case SumCols => Ok(ColSums(G))
    case DotLeft(_) => if G.cols == y.cols then Ok(Mul(G, Transpose(y))) else Fail
    case DotRight(_) => if y.rows == G.rows then Ok(Mul(Transpose(y), G)) else Fail
    case HadamardWith(_) => if SameShape(G, y) then Ok(Hadamard(G, y)) else Fail
    case SumBack(axis) =>
      (match axis
       case ToColumn => if G.cols == 1 then Ok(Mul(G, Ones(1, x.cols))) else Fail
       case ToRow => if G.rows == 1 then Ok(Mul(Ones(x.rows, 1), G)) else Fail
       case ToScalar => if G.rows > 0 && G.cols > 0 then Ok(Fill(x.rows, x.cols, G.data[0][0])) else Fail)
    case MeanBack(axis) =>
      (match axis
      case ToColumn => if G.cols == 1 then Ok(Mul(G, Fill(1, x.cols, Quotient(1.0, x.cols)))) else Fail
      case ToRow => if G.rows == 1 then Ok(Mul(Fill(x.rows, 1, Quotient(1.0, x.rows)), G)) else Fail
      case ToScalar =>
        if G.rows > 0 && G.cols > 0 then Ok(Fill(x.rows, x.cols, Quotient(G.data[0][0], x.rows * x.cols))) else Fail)
  }

  /** The VJP of `unaryExpr` is the incoming gradient times `df` of the
      INPUT's value, entry by entry, and has the input's shape. */
  lemma UnaryVjp(x: Mat, f: real -> real, df: real -> real, G: Mat)
    requires Apply(Map(0, f), x, x).Ok?
    requires SameShape(G, Apply(Map(0, f), x, x).value)
    ensures Backward(Unary(df), G, x, x).Ok?
    ensures SameShape(Backward(Unary(df), G, x, x).value, x)
    ensures forall i, j :: 0 <= i < x.rows && 0 <= j < x.cols ==>
      Backward(Unary(df), G, x, x).value.data[i][j] == G.data[i][j] * df(x.data[i][j])
  {
  }

  /** colwise_plus: the matrix operand receives the gradient unchanged, the
      vector its row sums, a rows x 1 column. That is the vector's own shape
      exactly when the vector has a single column, although the forward rule
      accepts any number of columns and reads only the first. */
  lemma ColwisePlusVjp(x: Mat, v: Mat, G: Mat)
    requires Apply(ColwisePlus(0, 1), x, v).Ok?
    requires SameShape(G, Apply(ColwisePlus(0, 1), x, v).value)
    ensures Backward(PassThrough, G, x, x) == Ok(G) && SameShape(G, x)
    ensures Backward(SumRows, G, v, v).Ok?
    ensures SameShape(Backward(SumRows, G, v, v).value, v) <==> v.cols == 1
    ensures forall i :: 0 <= i < x.rows ==> Backward(SumRows, G, v, v).value.data[i][0] == Sum(G.data[i])
  {
  }

  /** rowwise_plus: the matrix operand receives the gradient unchanged, the
      vector its column sums, a 1 x cols row; that is the vector's shape
      exactly when the vector has a single row. */
  lemma RowwisePlusVjp(x: Mat, v: Mat, G: Mat)
    requires Apply(RowwisePlus(0, 1), x, v).Ok?
    requires SameShape(G, Apply(RowwisePlus(0, 1), x, v).value)
    ensures Backward(PassThrough, G, x, x) == Ok(G) && SameShape(G, x)
    ensures Backward(SumCols, G, v, v).Ok?
    ensures SameShape(Backward(SumCols, G, v, v).value, v) <==> v.rows == 1
    ensures forall j :: 0 <= j < x.cols ==> Backward(SumCols, G, v, v).value.data[0][j] == Sum(Column(G, j))
  {
  }

  /** dot_product: `G * t2ᵀ` for the left operand and `t1ᵀ * G` for the right
      one, each defined and shaped like its own operand. */
  lemma DotProductVjp(x: Mat, y: Mat, G: Mat)
    requires Apply(DotProduct(0, 1), x, y).Ok?
    requires SameShape(G, Apply(DotProduct(0, 1), x, y).value)
    ensures Backward(DotLeft(1), G, x, y) == Ok(Mul(G, Transpose(y)))
    ensures Backward(DotRight(0), G, y, x) == Ok(Mul(Transpose(x), G))
    ensures SameShape(Backward(DotLeft(1), G, x, y).value, x)
    ensures SameShape(Backward(DotRight(0), G, y, x).value, y)
  {
  }

  /** hadamard_product: each operand receives `G` times the other operand. */
  lemma HadamardProductVjp(x: Mat, y: Mat, G: Mat)
    requires Apply(HadamardProduct(0, 1), x, y).Ok?
    requires SameShape(G, Apply(HadamardProduct(0, 1), x, y).value)
    ensures Backward(HadamardWith(1), G, x, y) == Ok(Hadamard(G, y))
    ensures Backward(HadamardWith(0), G, y, x) == Ok(Hadamard(G, x))
    ensures SameShape(Backward(HadamardWith(1), G, x, y).value, x)
    ensures SameShape(Backward(HadamardWith(0), G, y, x).value, y)
  {
  }

  /** reduce_sum: the forward value is a rows x 1 column, a 1 x cols row or
      a 1 x 1 scalar; the VJP broadcasts the gradient back to the input's
      full shape, so every entry of row i (column j, the whole matrix)
      receives the gradient of that row (column, of the scalar). */
  lemma {:induction false} ReduceSumVjp(x: Mat, axis: Axis, G: Mat)
    requires SameShape(G, Apply(ReduceSum(0, axis), x, x).value)
    ensures var out := Apply(ReduceSum(0, axis), x, x).value;
      match axis
      case ToColumn => out.rows == x.rows && out.cols == 1
      case ToRow => out.rows == 1 && out.cols == x.cols
      case ToScalar => out.rows == 1 && out.cols == 1
    ensures Backward(SumBack(axis), G, x, x).Ok?
    ensures SameShape(Backward(SumBack(axis), G, x, x).value, x)
    ensures forall i, j :: 0 <= i < x.rows && 0 <= j < x.cols ==>
      Backward(SumBack(axis), G, x, x).value.data[i][j] ==
        match axis
        case ToColumn => G.data[i][0]
        case ToRow => G.data[0][j]
        case ToScalar => G.data[0][0]
  {
    match axis
    case ToColumn => MulByFilledRow(G, x.cols, 1.0);
    case ToRow => FilledColumnMul(x.rows, 1.0, G);
    case ToScalar =>
  }

  /** reduce_mean: the forward value has the shapes of reduce_sum, or fails
      where a mean over no entries is not a real number; the VJP is the
      broadcast of reduce_sum scaled by 1/cols, 1/rows or 1/(rows*cols). */
  lemma {:induction false} ReduceMeanVjp(x: Mat, axis: Axis, G: Mat)
    requires Apply(ReduceMean(0, axis), x, x).Ok?
    requires SameShape(G, Apply(ReduceMean(0, axis), x, x).value)
    ensures var out := Apply(ReduceMean(0, axis), x, x).value;
      match axis
      case ToColumn => out.rows == x.rows && out.cols == 1
      case ToRow => out.rows == 1 && out.cols == x.cols
      case ToScalar => out.rows == 1 && out.cols == 1
    ensures Backward(MeanBack(axis), G, x, x).Ok?
    ensures SameShape(Backward(MeanBack(axis), G, x, x).value, x)
    ensures forall i, j :: 0 <= i < x.rows && 0 <= j < x.cols ==>
      Backward(MeanBack(axis), G, x, x).value.data[i][j] ==
        match axis
        case ToColumn => G.data[i][0] / x.cols as real
        case ToRow => G.data[0][j] / x.rows as real
        case ToScalar => G.data[0][0] / (x.rows * x.cols) as real
  {
    match axis
    case ToColumn => RowMeanVjp(x, G);
    case ToRow => ColMeanVjp(x, G);
    case ToScalar =>
  }

  lemma {:induction false} RowMeanVjp(x: Mat, G: Mat)
    requires G.rows == x.rows && G.cols == 1
    ensures Backward(MeanBack(ToColumn), G, x, x).Ok?
    ensures SameShape(Backward(MeanBack(ToColumn), G, x, x).value, x)
    ensures forall i, j :: 0 <= i < x.rows && 0 <= j < x.cols ==>
      Backward(MeanBack(ToColumn), G, x, x).value.data[i][j] == G.data[i][0] / x.cols as real
  {
    var q := Quotient(1.0, x.cols);
    MulByFilledRow(G, x.cols, q);
    var B := Mul(G, Fill(1, x.cols, q));
    forall i, j | 0 <= i < x.rows && 0 <= j < x.cols
      ensures B.data[i][j] == G.data[i][0] / x.cols as real
    {
      DivideAsProduct(G.data[i][0], x.cols);
    }
  }

  lemma {:induction false} ColMeanVjp(x: Mat, G: Mat)
    requires G.rows == 1 && G.cols == x.cols
    ensures Backward(MeanBack(ToRow), G, x, x).Ok?
    ensures SameShape(Backward(MeanBack(ToRow), G, x, x).value, x)
    ensures forall i, j :: 0 <= i < x.rows && 0 <= j < x.cols ==>
      Backward(MeanBack(ToRow), G, x, x).value.data[i][j] == G.data[0][j] / x.rows as real
  {
    var q := Quotient(1.0, x.rows);
    FilledColumnMul(x.rows, q, G);
    var B := Mul(Fill(x.rows, 1, q), G);
    forall i, j | 0 <= i < x.rows && 0 <= j < x.cols
      ensures B.data[i][j] == G.data[0][j] / x.rows as real
    {
      DivideAsProduct(G.data[0][j], x.rows);
    }
  }

  lemma DivideAsProduct(v: real, n: nat)
    requires n > 0
    ensures v * Quotient(1.0, n) == v / n as real
    ensures Quotient(1.0, n) * v == v / n as real
  {
  }

  /** The forward reductions fail exactly on the empty operands whose mean
      is not a real number; the sums never fail. */
  lemma ReductionsDefined(x: Mat, axis: Axis)
    ensures Apply(ReduceSum(0, axis), x, x).Ok?
    ensures Apply(ReduceMean(0, axis), x, x).Fail? <==>
      match axis
      case ToColumn => x.rows > 0 && x.cols == 0
      case ToRow => x.cols > 0 && x.rows == 0
      case ToScalar => x.rows == 0 || x.cols == 0
  {
  }
}
