/** The operand graph of lazy/Operand.hpp as a value.

    Every operand object of the engine becomes one entry of a sequence of
    nodes; an operand's index is the order in which it was created. An
    operator constructor only ever creates a fresh operand whose inputs
    already exist, so every input has a smaller index than its successor.
    That order is the acyclicity the engine relies on and the measure every
    recursion below decreases.

    Two readings of the graph are defined here. `Computed` and `Delta` are
    what `eval` and `diff` return on the graph as it stands, caches
    included; `Fresh` and `Grad` are what they would return with every
    cached result dropped, i.e. the values and gradients the graph denotes. */
module Dag {
  import opened Matrices
  import opened Rules

  /** The class an operand was created as: a bare `Operand` (every operator
      result is one), a `Constant`, a `Placeholder` or a `Variable`. */
  datatype Kind = Plain | Constant | Placeholder | Variable

  /** One operand: its forward function `m_f`, its inputs `m_pre`, the
      gradient rule it keeps for each successor `m_post`, the cached value
      `m_value` and the cached gradients `m_delta`, keyed by the node the
      gradient is taken of. */
  datatype Node = Node(
    kind: Kind,
    fwd: Forward,
    pre: set<nat>,
    post: map<nat, Rule>,
    value: Option<Mat>,
    delta: map<nat, Mat>)

  /** `isOptimizable`: only a `Variable` is moved by an optimizer. */
  predicate Optimizable(x: Node) {
    x.kind == Variable
  }

  /** The members of `S` in `[lo, hi)`, in increasing order. */
  function Ascending(S: set<nat>, lo: nat, hi: nat): (r: seq<nat>)
    decreases hi - lo
    ensures forall i :: 0 <= i < |r| ==> lo <= r[i] < hi && r[i] in S
    ensures forall x :: x in S && lo <= x < hi ==> x in r
    ensures forall i, j :: 0 <= i < j < |r| ==> r[i] < r[j]
  {
    if lo >= hi then []
    else
      var rest := Ascending(S, lo + 1, hi);
      if lo in S then [lo] + rest else rest
  }

  /** The successors of node `n`, the order in which its post map is visited. */
  function Successors(g: seq<Node>, n: nat): (r: seq<nat>)
    requires n < |g|
    ensures forall i :: 0 <= i < |r| ==> n < r[i] < |g| && r[i] in g[n].post
    ensures forall i, j :: 0 <= i < j < |r| ==> r[i] < r[j]
  {
    Ascending(g[n].post.Keys, n + 1, |g|)
  }

  /** The links a node keeps with the rest of the graph are consistent:
      inputs are older and list the node as a successor, successors are
      younger and list it as an input, the forward function reads exactly
      the inputs, and a product rule reads an operand of its successor.
      Only bare operands have inputs; a constant always holds its value. */
  ghost predicate NodeOk(g: seq<Node>, n: nat)
    requires n < |g|
  {
    var x := g[n];
    (x.kind != Plain ==> x.fwd == Default) &&
    x.fwd.Inputs() == x.pre &&
    (forall p :: p in x.pre ==> p < n && n in g[p].post) &&
    (forall s :: s in x.post ==> n < s < |g| && n in g[s].pre) &&
    (forall s :: s in x.post && x.post[s].ReadsOther() ==> x.post[s].other in g[s].pre) &&
    (x.kind == Constant ==> x.value.Some?)
  }

  ghost predicate Wf(g: seq<Node>) {
    forall n :: 0 <= n < |g| ==> NodeOk(g, n)
  }

  /** The node `n` computes from inputs: it has one, so it is a bare operand. */
  lemma SuccessorIsPlain(g: seq<Node>, n: nat, s: nat)
    requires Wf(g) && n < |g| && s in g[n].post
    ensures s < |g| && n < s && g[s].kind == Plain
  {
    assert NodeOk(g, n);
    assert NodeOk(g, s);
  }

  /** What `eval` returns on node `n`: the cached value if there is one;
      otherwise a constant or variable without a value has nothing to return
      (`std::optional::value` throws), and any other node applies its
      forward function to the values of its inputs. A bare operand or an
      unbound placeholder has the default forward function and yields an
      empty matrix. The branch on an input that is not older is never taken
      on a well-formed graph. */
  function Computed(g: seq<Node>, n: nat): Result<Mat>
    requires n < |g|
    decreases n
  {
    var x := g[n];
    if x.value.Some? then Ok(x.value.value)
    else if x.kind == Constant || x.kind == Variable then Fail
    else if x.fwd.Default? then Ok(Empty)
    else if x.fwd.a >= n || x.fwd.Second() >= n then Fail
    else
      match Computed(g, x.fwd.a)
      case Fail => Fail
      case Ok(u) =>
        if !x.fwd.Binary() then Apply(x.fwd, u, u)
        else
          match Computed(g, x.fwd.Second())
          case Fail => Fail
          case Ok(v) => Apply(x.fwd, u, v)
  }

  /** What `diff(E)` returns on node `n`. A placeholder always answers zeros
      of its value's shape. Otherwise a cached gradient for `E` is returned
      as it is. Otherwise the value of the node is computed; a node without
      successors is a sink and answers ones if it is `E` itself and zeros
      if not; any other node sums, starting from zeros, the contributions
      its successors' rules yield from their own gradients. */
  function Delta(g: seq<Node>, n: nat, E: nat): Result<Mat>
    requires n < |g|
    decreases |g| - n, 2, 0
  {
    var x := g[n];
    if x.kind == Placeholder then
      (match Computed(g, n)
       case Fail => Fail
       case Ok(v) => Ok(Zero(v.rows, v.cols)))
    else if E in x.delta then Ok(x.delta[E])
    else
      match Computed(g, n)
      case Fail => Fail
      case Ok(v) =>
        if |x.post| == 0 then Ok(if n == E then Ones(v.rows, v.cols) else Zero(v.rows, v.cols))
        else DeltaSum(g, n, E, Successors(g, n), Zero(v.rows, v.cols))
  }

  /** `zero` plus the contributions of the successors `ss` of `n`, added
      in order; a contribution of another shape fails like Eigen's sum. */
  function DeltaSum(g: seq<Node>, n: nat, E: nat, ss: seq<nat>, zero: Mat): Result<Mat>
    requires n < |g|
    decreases |g| - n, 1, |ss|
  {
    if |ss| == 0 then Ok(zero)
    else
      match DeltaSum(g, n, E, ss[..|ss| - 1], zero)
      case Fail => Fail
      case Ok(acc) =>
        match Contribution(g, n, ss[|ss| - 1], E)
        case Fail => Fail
        case Ok(c) => if SameShape(acc, c) then Ok(Add(acc, c)) else Fail
  }

  /** The closure node `n` keeps for successor `s`, run for `E`: the
      successor's gradient, passed through the rule together with the
      value of `n` and, for a product, the value of the other operand. */
  function Contribution(g: seq<Node>, n: nat, s: nat, E: nat): Result<Mat>
    requires n < |g|
    decreases |g| - n, 0, 0
  {
    if !(n < s < |g| && s in g[n].post) then Fail
    else
      var rule := g[n].post[s];
      match Delta(g, s, E)
      case Fail => Fail
      case Ok(G) =>
        match Computed(g, n)
        case Fail => Fail
        case Ok(u) =>
          if !rule.ReadsOther() then Backward(rule, G, u, u)
          else if rule.other >= |g| then Fail
          else
            match Computed(g, rule.other)
            case Fail => Fail
            case Ok(w) => Backward(rule, G, u, w)
  }

  /** The graph with every result the engine caches dropped: operator
      values and all gradients. The values of constants, variables and
      placeholders are inputs, not caches, and stay. */
  function Strip(g: seq<Node>): (r: seq<Node>)
    ensures |r| == |g|
    ensures forall i :: 0 <= i < |g| ==>
      r[i] == g[i].(value := if g[i].kind == Plain then None else g[i].value, delta := map[])
  {
    seq(|g|, i requires 0 <= i < |g| =>
      g[i].(value := if g[i].kind == Plain then None else g[i].value, delta := map[]))
  }

  /** The value node `n` denotes. */
  function Fresh(g: seq<Node>, n: nat): Result<Mat>
    requires n < |g|
  {
    Computed(Strip(g), n)
  }

  /** The gradient of `E` with respect to node `n` that the graph denotes. */
  function Grad(g: seq<Node>, n: nat, E: nat): Result<Mat>
    requires n < |g|
  {
    Delta(Strip(g), n, E)
  }

  /** Node `x` depends on node `n`: it is `n` or one of its inputs does. */
  ghost predicate DependsOn(g: seq<Node>, x: nat, n: nat)
    requires x < |g|
    decreases x
  {
    x == n || exists p :: p in g[x].pre && p < x && DependsOn(g, p, n)
  }
}
