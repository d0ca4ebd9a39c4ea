/** lazy/train: the optimizers, as methods that drive a `Graph`.

    A step binds the placeholders, asks every variable the target depends
    on for its gradient, evaluates the target, and writes each variable
    back moved along its gradient (or, for Adam and momentum, along a
    direction built from the gradients seen so far). Each step is proved
    against `Steppable` and `Stepped` of `Training`: it succeeds exactly
    when every gradient and the loss can be computed, and then moves every
    variable it found by the rate times its direction and no other. */
module Optimizers {
  import opened Matrices
  import opened Dag
  import opened Agreement
  import opened Coherence
  import opened Assignment
  import opened Engine
  import opened Training
  import opened Moments

  /** The loop of `computeGradients` over the variables: `diff(target)` on
      each, in increasing order. It fails as soon as one gradient does. */
  method DiffAll(g: Graph, target: nat, vars: set<nat>) returns (r: Result<map<nat, Mat>>)
    requires g.Valid() && target < |g.nodes| && forall v :: v in vars ==> v < |g.nodes|
    modifies g
    ensures g.Valid() && Memoised(old(g.nodes), g.nodes)
    ensures Coherent(old(g.nodes)) ==> Coherent(g.nodes)
    ensures r.Ok? <==> forall v :: v in vars ==> Delta(old(g.nodes), v, target).Ok?
    ensures r.Ok? ==> r.value.Keys == vars && forall v :: v in vars ==> Delta(old(g.nodes), v, target) == Ok(r.value[v])
  {
    ghost var g0 := g.nodes;
    var ks := Ascending(vars, 0, |g.nodes|);
    var out: map<nat, Mat> := map[];
    MemoisedReflexive(g0);
    var i := 0;
    assert ks[..0] == [];
    while i < |ks|
      invariant 0 <= i <= |ks|
      invariant g.Valid() && Wf(g0) && Memoised(g0, g.nodes)
      invariant Coherent(g0) ==> Coherent(g.nodes)
      invariant out.Keys <= vars && Gathered(g0, target, ks[..i], out)
    {
      var d := DiffFrom(g, ks[i], target, g0);
      if d.Fail? {
        return Fail;
      }
      GatheredNext(g0, target, ks, i, out, d.value);
      out := out[ks[i] := d.value];
      i := i + 1;
    }
    assert ks[..i] == ks;
    forall v | v in vars
      ensures v in out
    {
      var j :| 0 <= j < |ks| && ks[j] == v;
    }
    return Ok(out);
  }

  /** `out` holds the gradient of `target` for each of `ks`, and only
      gradients of `target`. */
  ghost predicate Gathered(g: seq<Node>, target: nat, ks: seq<nat>, out: map<nat, Mat>) {
    (forall j :: 0 <= j < |ks| ==> ks[j] in out) &&
    forall v :: v in out ==> v < |g| && Delta(g, v, target) == Ok(out[v])
  }

  lemma GatheredNext(g: seq<Node>, target: nat, ks: seq<nat>, i: nat, out: map<nat, Mat>, d: Mat)
    requires i < |ks| && ks[i] < |g| && Gathered(g, target, ks[..i], out) && Delta(g, ks[i], target) == Ok(d)
    ensures Gathered(g, target, ks[..i + 1], out[ks[i] := d])
  {
    var next := ks[..i + 1];
    forall j | 0 <= j < |next|
      ensures next[j] in out[ks[i] := d]
    {
      if j < i {
        assert next[j] == ks[..i][j];
      }
    }
  }

  /** One `diff(target)` of that loop, on a graph that has only filled
      caches of `g0`: the gradient `g0` gives. */
  method DiffFrom(g: Graph, v: nat, target: nat, ghost g0: seq<Node>) returns (d: Result<Mat>)
    requires g.Valid() && Wf(g0) && Memoised(g0, g.nodes) && v < |g0|
    modifies g
    ensures g.Valid() && Memoised(g0, g.nodes)
    ensures Coherent(old(g.nodes)) ==> Coherent(g.nodes)
    ensures d == Delta(g0, v, target)
  {
    ghost var gi := g.nodes;
    FilledRefines(g0, gi);
    d := g.Diff(v, target);
    MemoisedTransitive(g0, gi, g.nodes);
  }

  /** `applyPlaceholders(ph)` of the optimizer: the graph's own, which
      leaves every kind and every input as it was. */
  method BindPlaceholders(g: Graph, ph: map<nat, Mat>)
    requires g.Valid() && Binding(g.nodes, ph)
    modifies g
    ensures g.Valid() && g.nodes == Bound(old(g.nodes), ph)
    ensures SameLinks(old(g.nodes), g.nodes)
    ensures Coherent(old(g.nodes)) ==> Coherent(g.nodes)
  {
    ghost var g0 := g.nodes;
    g.ApplyPlaceholders(ph);
    BoundLinks(g0, ph);
  }

  /** `computeGradients(target, ph, var_list)`: bind the placeholders, then
      take the gradient of `target` for each variable of `vars`. The
      gradients are those of the bound graph; on a coherent graph they are
      the gradients the graph with the placeholders' values denotes. */
  method ComputeGradientsOver(g: Graph, target: nat, ph: map<nat, Mat>, vars: set<nat>)
    returns (r: Result<map<nat, Mat>>)
    requires g.Valid() && target < |g.nodes| && Binding(g.nodes, ph) && VariablesOf(g.nodes, vars)
    modifies g
    ensures g.Valid() && |g.nodes| == |old(g.nodes)|
    ensures Memoised(Bound(old(g.nodes), ph), g.nodes)
    ensures Coherent(old(g.nodes)) ==> Coherent(g.nodes)
    ensures r.Ok? <==> Gradients(old(g.nodes), ph, target, vars).Keys == vars
    ensures r.Ok? ==> r.value == Gradients(old(g.nodes), ph, target, vars)
    ensures Coherent(old(g.nodes)) && r.Ok? ==>
      forall v :: v in vars ==> Ok(r.value[v]) == Grad(BoundValues(old(g.nodes), ph), v, target)
  {
    ghost var g0 := g.nodes;
    BindPlaceholders(g, ph);
    r := DiffAll(g, target, vars);
    if Coherent(g0) && r.Ok? {
      GradientsDenote(g0, ph, target, vars);
    }
  }

  /** `computeGradients(target, ph)`: the same, for the variables
      `searchVariables` finds from `target`. */
  method ComputeGradients(g: Graph, target: nat, ph: map<nat, Mat>) returns (r: Result<map<nat, Mat>>)
    requires g.Valid() && target < |g.nodes| && Binding(g.nodes, ph)
    modifies g
    ensures g.Valid() && |g.nodes| == |old(g.nodes)|
    ensures Memoised(Bound(old(g.nodes), ph), g.nodes)
    ensures Coherent(old(g.nodes)) ==> Coherent(g.nodes)
    ensures var V := SearchVariables(old(g.nodes), target);
      (r.Ok? <==> Gradients(old(g.nodes), ph, target, V).Keys == V) &&
      (r.Ok? ==> r.value == Gradients(old(g.nodes), ph, target, V))
  {
    ghost var g0 := g.nodes;
    var V := SearchVariables(g.nodes, target);
    forall v | v in V
      ensures v < |g0| && g0[v].kind == Variable
    {
      SearchVariablesExact(g0, target, v);
    }
    r := ComputeGradientsOver(g, target, ph, V);
  }

  /** `negateGradients`: every slot times -1. */
  method NegateGradients(grad: map<nat, Mat>) returns (r: map<nat, Mat>)
    ensures r == NegatedAll(grad)
  {
    r := map[];
    var rest := grad.Keys;
    while rest != {}
      invariant rest <= grad.Keys
      invariant r.Keys == grad.Keys - rest
      invariant forall k :: k in r ==> r[k] == Negated(grad[k])
      decreases rest
    {
      var k :| k in rest;
      r := r[k := Negated(grad[k])];
      rest := rest - {k};
    }
  }

  /** One write of `applyGradients`: `*ptr = ptr->eval() + value * c`.
      Reading a variable without a value fails, and so does adding a slot
      of another shape; nothing is written then. */
  method MoveSlot(g: Graph, k: nat, d: Mat, c: real) returns (ok: bool)
    requires g.Valid() && k < |g.nodes| && g.nodes[k].kind == Variable
    modifies g
    ensures g.Valid()
    ensures ok == Move(old(g.nodes)[k].value, d, c).Ok?
    ensures ok ==> g.nodes == AssignOf(old(g.nodes), k, Move(old(g.nodes)[k].value, d, c).value)
    ensures !ok ==> g.nodes == old(g.nodes)
    ensures Coherent(old(g.nodes)) ==> Coherent(g.nodes)
  {
    var x := g.Eval(k);
    if x.Fail? || !SameShape(x.value, d) {
      return false;
    }
    g.Assign(k, Add(x.value, Scale(d, c)));
    return true;
  }

  /** One turn of the loop of `applyGradients`: the write to the `i`-th
      variable of `ks`, on the graph the earlier writes left. */
  method MoveNext(g: Graph, grad: map<nat, Mat>, c: real, ks: seq<nat>, i: nat, ghost g0: seq<Node>)
    returns (ok: bool)
    requires Wf(g0) && Slots(g0, grad) && ks == Ascending(grad.Keys, 0, |g0|) && i < |ks|
    requires Bindable(g0, ks[..i], Moves(g0, grad, c))
    requires g.Valid() && g.nodes == AssignAll(g0, ks[..i], Moves(g0, grad, c))
    modifies g
    ensures g.Valid()
    ensures ok == Move(g0[ks[i]].value, grad[ks[i]], c).Ok?
    ensures ok ==> Bindable(g0, ks[..i + 1], Moves(g0, grad, c))
    ensures ok ==> g.nodes == AssignAll(g0, ks[..i + 1], Moves(g0, grad, c))
    ensures !ok ==> g.nodes == old(g.nodes)
    ensures Coherent(old(g.nodes)) ==> Coherent(g.nodes)
  {
    ghost var M := Moves(g0, grad, c);
    var k := ks[i];
    AssignAllKeepsLeaf(g0, ks[..i], M, k);
    ok := MoveSlot(g, k, grad[k], c);
    if ok {
      AssignAllExtend(g0, ks, M, i);
    }
  }

  /** A slot whose write fails makes the whole update fail. */
  lemma StuckMove(g: seq<Node>, grad: map<nat, Mat>, c: real, k: nat)
    requires Slots(g, grad) && k in grad && !Move(g[k].value, grad[k], c).Ok?
    ensures !Movable(g, grad, c)
  {
  }

  /** Once every slot has been written, the update succeeded. */
  lemma BoundMovable(g: seq<Node>, grad: map<nat, Mat>, c: real)
    requires Slots(g, grad) && Bindable(g, Ascending(grad.Keys, 0, |g|), Moves(g, grad, c))
    ensures Movable(g, grad, c)
  {
    var ks := Ascending(grad.Keys, 0, |g|);
    forall k | k in grad
      ensures Move(g[k].value, grad[k], c).Ok?
    {
      assert k in ks;
    }
  }

  /** The loop of `applyGradients`: the writes of the first `n` variables
      of `grad` in increasing order, all but the last of which succeeded;
      it stops at the first that fails. */
  method MoveEach(g: Graph, grad: map<nat, Mat>, c: real) returns (ok: bool, ghost n: nat)
    requires g.Valid() && Slots(g.nodes, grad)
    modifies g
    ensures g.Valid()
    ensures Coherent(old(g.nodes)) ==> Coherent(g.nodes)
    ensures var ks := Ascending(grad.Keys, 0, |old(g.nodes)|);
      n <= |ks| && Bindable(old(g.nodes), ks[..n], Moves(old(g.nodes), grad, c)) &&
      g.nodes == AssignAll(old(g.nodes), ks[..n], Moves(old(g.nodes), grad, c)) &&
      (ok ==> n == |ks|) && (!ok ==> n < |ks| && !Move(old(g.nodes)[ks[n]].value, grad[ks[n]], c).Ok?)
  {
    ghost var g0 := g.nodes;
    ghost var M := Moves(g0, grad, c);
    var ks := Ascending(grad.Keys, 0, |g.nodes|);
    var i := 0;
    while i < |ks|
      invariant 0 <= i <= |ks|
      invariant Bindable(g0, ks[..i], M)
      invariant g.Valid() && g.nodes == AssignAll(g0, ks[..i], M)
      invariant Coherent(g0) ==> Coherent(g.nodes)
    {
      ok := MoveNext(g, grad, c, ks, i, g0);
      if !ok {
        return false, i;
      }
      i := i + 1;
    }
    return true, i;
  }

  /** `applyGradients`: each variable of `grad`, in increasing order, is
      assigned its value plus `c` times its slot. It fails on the first
      variable without a value or with a slot of another shape. */
  method ApplyGradients(g: Graph, grad: map<nat, Mat>, c: real) returns (ok: bool)
    requires g.Valid() && Slots(g.nodes, grad)
    modifies g
    ensures g.Valid() && Framed(old(g.nodes), g.nodes, map[])
    ensures Coherent(old(g.nodes)) ==> Coherent(g.nodes)
    ensures ok == Movable(old(g.nodes), grad, c)
    ensures ok ==> Stepped(old(g.nodes), g.nodes, grad, c)
  {
    ghost var g0 := g.nodes;
    ghost var M := Moves(g0, grad, c);
    ghost var ks := Ascending(grad.Keys, 0, |g.nodes|);
    ghost var n;
    ok, n := MoveEach(g, grad, c);
    MovesFramed(g0, ks[..n], M);
    if ok {
      assert ks[..n] == ks;
      BoundMovable(g0, grad, c);
      MovesStepped(g0, grad, c);
    } else {
      StuckMove(g0, grad, c, ks[n]);
    }
  }

  /** The first two lines of every step: `computeGradients(target, ph)`
      over `vars`, then `target->eval()`. Both read the bound graph, and
      neither touches a variable. */
  method GradientsAndLoss(g: Graph, target: nat, ph: map<nat, Mat>, vars: set<nat>)
    returns (r: Result<(map<nat, Mat>, Mat)>)
    requires g.Valid() && target < |g.nodes| && Binding(g.nodes, ph) && VariablesOf(g.nodes, vars)
    modifies g
    ensures g.Valid() && KeepsVariables(old(g.nodes), g.nodes) && Framed(old(g.nodes), g.nodes, ph)
    ensures Memoised(Bound(old(g.nodes), ph), g.nodes)
    ensures Coherent(old(g.nodes)) ==> Coherent(g.nodes)
    ensures r.Ok? <==>
      Gradients(old(g.nodes), ph, target, vars).Keys == vars && Computed(Bound(old(g.nodes), ph), target).Ok?
    ensures r.Ok? ==>
      r.value.0 == Gradients(old(g.nodes), ph, target, vars) &&
      Ok(r.value.1) == Computed(Bound(old(g.nodes), ph), target)
  {
    ghost var g0 := g.nodes;
    BoundLinks(g0, ph);
    ghost var B := Bound(g0, ph);
    var grad := ComputeGradientsOver(g, target, ph, vars);
    ghost var g1 := g.nodes;
    BoundLeaves(g0, ph, g1);
    if grad.Fail? {
      return Fail;
    }
    var loss := g.Eval(target);
    FilledComputed(B, g1);
    MemoisedTransitive(B, g1, g.nodes);
    BoundLeaves(g0, ph, g.nodes);
    if loss.Fail? {
      return Fail;
    }
    return Ok((grad.value, loss.value));
  }

  /** The last two lines of `minimize`: `negateGradients(grad)`, then
      `applyGradients(grad)` with rate `lr`. From a graph holding the
      variables of `g0`, it is a step from `g0` by `-lr` along `grad`, and
      it succeeds when every variable has a value of its slot's shape,
      which is the shape of the same slot of `like`. */
  method Descend(g: Graph, grad: map<nat, Mat>, lr: real, ghost g0: seq<Node>, ghost like: map<nat, Mat>)
    returns (ok: bool)
    requires g.Valid() && KeepsVariables(g0, g.nodes) && VariablesOf(g0, like.Keys)
    requires grad.Keys == like.Keys && forall k :: k in like ==> SameShape(grad[k], like[k])
    modifies g
    ensures g.Valid() && Framed(old(g.nodes), g.nodes, map[])
    ensures Coherent(old(g.nodes)) ==> Coherent(g.nodes)
    ensures ok <==> forall k :: k in like ==> g0[k].value.Some? && SameShape(g0[k].value.value, like[k])
    ensures ok ==> Stepped(g0, g.nodes, NegatedAll(grad), lr)
  {
    var neg := NegateGradients(grad);
    NegatedStep(g0, g.nodes, grad, like, lr);
    ok := ApplyGradients(g, neg, lr);
  }

  /** The last line of `maximize`: `applyGradients(grad)` with rate `lr`.
      From a graph holding the variables of `g0`, it is a step from `g0` by
      `lr` along `grad`, and it succeeds when every variable has a value of
      its slot's shape, which is the shape of the same slot of `like`. */
  method Ascend(g: Graph, grad: map<nat, Mat>, lr: real, ghost g0: seq<Node>, ghost like: map<nat, Mat>)
    returns (ok: bool)
    requires g.Valid() && KeepsVariables(g0, g.nodes) && VariablesOf(g0, like.Keys)
    requires grad.Keys == like.Keys && forall k :: k in like ==> SameShape(grad[k], like[k])
    modifies g
    ensures g.Valid() && Framed(old(g.nodes), g.nodes, map[])
    ensures Coherent(old(g.nodes)) ==> Coherent(g.nodes)
    ensures ok <==> forall k :: k in like ==> g0[k].value.Some? && SameShape(g0[k].value.value, like[k])
    ensures ok ==> Stepped(g0, g.nodes, grad, lr)
  {
    ghost var g2 := g.nodes;
    MovableShapes(g0, g2, like, grad, lr);
    ok := ApplyGradients(g, grad, lr);
    if ok {
      SteppedFrom(g0, g2, g.nodes, grad, lr);
    }
  }

  /** The last line of a step: `applyGradients(slots)`, after a
      `negateGradients(slots)` when `descend`. */
  method Follow(g: Graph, slots: map<nat, Mat>, lr: real, descend: bool, ghost g0: seq<Node>, ghost like: map<nat, Mat>)
    returns (ok: bool)
    requires g.Valid() && KeepsVariables(g0, g.nodes) && VariablesOf(g0, like.Keys)
    requires slots.Keys == like.Keys && forall k :: k in like ==> SameShape(slots[k], like[k])
    modifies g
    ensures g.Valid() && Framed(old(g.nodes), g.nodes, map[])
    ensures Coherent(old(g.nodes)) ==> Coherent(g.nodes)
    ensures ok <==> forall k :: k in like ==> g0[k].value.Some? && SameShape(g0[k].value.value, like[k])
    ensures ok ==> Stepped(g0, g.nodes, if descend then NegatedAll(slots) else slots, lr)
  {
    if descend {
      ok := Descend(g, slots, lr, g0, like);
    } else {
      ok := Ascend(g, slots, lr, g0, like);
    }
  }

  /** `Optimizer`: gradient descent (or ascent) with learning rate `lr`. */
  class Optimizer {
    const lr: real

    constructor (learningRate: real)
      ensures lr == learningRate
    {
      lr := learningRate;
    }

    /** One call of the function `minimize(target)` returns: the loss
        before the step, and every variable the target depends on moved
        against its gradient by `lr`. */
    method Minimize(g: Graph, target: nat, ph: map<nat, Mat>) returns (r: Result<Mat>)
      requires g.Valid() && target < |g.nodes| && Binding(g.nodes, ph)
      modifies g
      ensures g.Valid() && Framed(old(g.nodes), g.nodes, ph)
      ensures Coherent(old(g.nodes)) ==> Coherent(g.nodes)
      ensures r.Ok? <==> Steppable(old(g.nodes), ph, target, SearchVariables(old(g.nodes), target))
      ensures r.Ok? ==> r == Computed(Bound(old(g.nodes), ph), target)
      ensures r.Ok? ==>
        Stepped(old(g.nodes), g.nodes, NegatedAll(Gradients(old(g.nodes), ph, target, SearchVariables(old(g.nodes), target))), lr)
    {
      ghost var g0 := g.nodes;
      var V := SearchVariables(g.nodes, target);
      SearchFindsVariables(g0, target);
      var p := GradientsAndLoss(g, target, ph, V);
      if p.Fail? {
        return Fail;
      }
      var (grad, loss) := p.value;
      ghost var g1 := g.nodes;
      var ok := Descend(g, grad, lr, g0, grad);
      FramedTwice(g0, g1, g.nodes, ph, map[]);
      if !ok {
        return Fail;
      }
      return Ok(loss);
    }

    /** One call of the function `maximize(target)` returns: the same, with
        every variable moved along its gradient. */
    method Maximize(g: Graph, target: nat, ph: map<nat, Mat>) returns (r: Result<Mat>)
      requires g.Valid() && target < |g.nodes| && Binding(g.nodes, ph)
      modifies g
      ensures g.Valid() && Framed(old(g.nodes), g.nodes, ph)
      ensures Coherent(old(g.nodes)) ==> Coherent(g.nodes)
      ensures r.Ok? <==> Steppable(old(g.nodes), ph, target, SearchVariables(old(g.nodes), target))
      ensures r.Ok? ==> r == Computed(Bound(old(g.nodes), ph), target)
      ensures r.Ok? ==>
        Stepped(old(g.nodes), g.nodes, Gradients(old(g.nodes), ph, target, SearchVariables(old(g.nodes), target)), lr)
    {
      ghost var g0 := g.nodes;
      var V := SearchVariables(g.nodes, target);
      SearchFindsVariables(g0, target);
      var p := GradientsAndLoss(g, target, ph, V);
      if p.Fail? {
        return Fail;
      }
      var (grad, loss) := p.value;
      ghost var g1 := g.nodes;
      var ok := Ascend(g, grad, lr, g0, grad);
      FramedTwice(g0, g1, g.nodes, ph, map[]);
      if !ok {
        return Fail;
      }
      return Ok(loss);
    }
  }

  /** What one call of the function Adam's `minimize(target)` (`descend`)
      or `maximize(target)` returns does, from the graph `g` and the moments
      `first` and `second` with rates `c`: it succeeds exactly when a plain
      step would and the moments take in the gradients; the loss is the one
      before the step, the new moments are `first'` and `second'`, and `h`
      is `g` with every variable moved by `lr` against or along its new slot. */
  ghost predicate AdamStepped(g: seq<Node>, h: seq<Node>, ph: map<nat, Mat>, target: nat,
                              first: map<nat, Mat>, second: map<nat, Mat>, c: Rates, root: real -> real,
                              lr: real, descend: bool, r: Result<Mat>, first': map<nat, Mat>, second': map<nat, Mat>)
    requires Wf(g) && Binding(g, ph) && target < |g|
  {
    var V := SearchVariables(g, target);
    var a := AdamAdjusted(first, second, Gradients(g, ph, target, V), c, root);
    (r.Ok? <==> Steppable(g, ph, target, V) && a.Ok?) &&
    (r.Ok? ==> r == Computed(Bound(g, ph), target) && first' == a.value.first && second' == a.value.second &&
               Stepped(g, h, if descend then NegatedAll(a.value.slots) else a.value.slots, lr))
  }

  /** `AdamStepped` from the outcome of each part of the step: reading the
      slots and the loss, then moving the variables. */
  lemma AdamSteppedFrom(g: seq<Node>, h: seq<Node>, ph: map<nat, Mat>, target: nat,
                        first: map<nat, Mat>, second: map<nat, Mat>, c: Rates, root: real -> real,
                        lr: real, descend: bool, r: Result<Mat>, first': map<nat, Mat>, second': map<nat, Mat>)
    requires Wf(g) && Binding(g, ph) && target < |g| && VariablesOf(g, SearchVariables(g, target))
    requires
      var V := SearchVariables(g, target);
      var G := Gradients(g, ph, target, V);
      var a := AdamAdjusted(first, second, G, c, root);
      var ready := G.Keys == V && Computed(Bound(g, ph), target).Ok? && a.Ok?;
      (!ready ==> r.Fail?) &&
      (ready ==> (r.Ok? <==> forall k :: k in G ==> g[k].value.Some? && SameShape(g[k].value.value, G[k]))) &&
      (ready && r.Ok? ==>
         r == Computed(Bound(g, ph), target) && first' == a.value.first && second' == a.value.second &&
         Stepped(g, h, if descend then NegatedAll(a.value.slots) else a.value.slots, lr))
    ensures AdamStepped(g, h, ph, target, first, second, c, root, lr, descend, r, first', second')
  {
    SteppableShapes(g, ph, target, SearchVariables(g, target));
  }

  /** `AdamOptimizer`: each step moves the variables along the bias-corrected
      first moment of their gradients, divided entry by entry by the root of
      the bias-corrected second moment plus `eps`. */
  class AdamOptimizer {
    const lr: real
    const beta1: real
    const beta2: real
    const eps: real
    /** `std::sqrt`, which the reals do not provide. */
    const root: real -> real
    var b1: real
    var b2: real
    var first: map<nat, Mat>
    var second: map<nat, Mat>
    /** The number of completed calls of `adjustGradients`. */
    ghost var steps: nat

    /** `b1` and `b2` are the decay rates to the power of the step being
        taken, and with a convex `beta2` no second moment is negative. */
    ghost predicate Valid()
      reads this
    {
      b1 == Power(beta1, steps + 1) && b2 == Power(beta2, steps + 1) &&
      (0.0 <= beta2 <= 1.0 ==> AllNonNegative(second))
    }

    /** One more step has been taken since `b1`, `b2` and `steps` were
        `b1'`, `b2'` and `steps'`: each rate has decayed once more. */
    ghost predicate Decayed(b1': real, b2': real, steps': nat)
      reads this
    {
      b1 == b1' * beta1 && b2 == b2' * beta2 && steps == steps' + 1
    }

    constructor (learningRate: real, decay1: real, decay2: real, epsilon: real, sqrt: real -> real)
      ensures lr == learningRate && beta1 == decay1 && beta2 == decay2 && eps == epsilon && root == sqrt
      ensures first == map[] && second == map[] && steps == 0
      ensures Valid()
    {
      lr, beta1, beta2, eps, root := learningRate, decay1, decay2, epsilon, sqrt;
      b1, b2 := decay1, decay2;
      first, second := map[], map[];
      steps := 0;
    }

    /** `adjustGradients(grad)`: the new moments and the new slots, as
        `AdamAdjusted` gives them; `b1` and `b2` advance one power. */
    method AdjustGradients(grad: map<nat, Mat>) returns (r: Result<map<nat, Mat>>)
      requires Valid()
      modifies this
      ensures Valid()
      ensures
        var a := AdamAdjusted(old(first), old(second), grad, Rates(beta1, beta2, eps, old(b1), old(b2)), root);
        (r.Ok? <==> a.Ok?) && (r.Ok? ==> r.value == a.value.slots && first == a.value.first && second == a.value.second)
      ensures r.Ok? ==> Decayed(old(b1), old(b2), old(steps))
      ensures r.Fail? ==> unchanged(this)
    {
      var c := Rates(beta1, beta2, eps, b1, b2);
      var a := AdamStep(first, second, grad, c, root);
      if a.Fail? {
        return Fail;
      }
      if 0.0 <= beta2 <= 1.0 {
        AdjustedNonNegative(first, second, grad, c, root);
      }
      first, second := a.value.first, a.value.second;
      b1, b2 := b1 * beta1, b2 * beta2;
      steps := steps + 1;
      return Ok(a.value.slots);
    }

    /** The first three lines of `minimize` and `maximize`:
        `computeGradients(target, ph)`, `target->eval()` and
        `adjustGradients(grad)`. No variable changes. */
    method SlotsAndLoss(g: Graph, target: nat, ph: map<nat, Mat>) returns (r: Result<(map<nat, Mat>, Mat)>)
      requires Valid() && g.Valid() && target < |g.nodes| && Binding(g.nodes, ph)
      modifies g, this
      ensures Valid() && g.Valid() && KeepsVariables(old(g.nodes), g.nodes) && Framed(old(g.nodes), g.nodes, ph)
      ensures Coherent(old(g.nodes)) ==> Coherent(g.nodes)
      ensures r.Ok? ==> Decayed(old(b1), old(b2), old(steps))
      ensures
        var V := SearchVariables(old(g.nodes), target);
        var G := Gradients(old(g.nodes), ph, target, V);
        var a := AdamAdjusted(old(first), old(second), G, Rates(beta1, beta2, eps, old(b1), old(b2)), root);
        (r.Ok? <==> G.Keys == V && Computed(Bound(old(g.nodes), ph), target).Ok? && a.Ok?) &&
        (r.Ok? ==> Ok(r.value.1) == Computed(Bound(old(g.nodes), ph), target) &&
                   r.value.0 == a.value.slots && first == a.value.first && second == a.value.second)
    {
      var V := SearchVariables(g.nodes, target);
      SearchFindsVariables(g.nodes, target);
      var p := GradientsAndLoss(g, target, ph, V);
      if p.Fail? {
        return Fail;
      }
      var slots := AdjustGradients(p.value.0);
      if slots.Fail? {
        return Fail;
      }
      return Ok((slots.value, p.value.1));
    }

    /** The last lines of `minimize` (`descend`) and `maximize`: the
        variables move by `lr` against or along their slots. The
        optimizer's own state stays as it is. */
    method ApplySlots(g: Graph, slots: map<nat, Mat>, descend: bool, ghost g0: seq<Node>, ghost like: map<nat, Mat>)
      returns (ok: bool)
      requires Valid()
      requires g.Valid() && KeepsVariables(g0, g.nodes) && VariablesOf(g0, like.Keys)
      requires slots.Keys == like.Keys && forall k :: k in like ==> SameShape(slots[k], like[k])
      modifies g
      ensures Valid() && g.Valid() && Framed(old(g.nodes), g.nodes, map[])
      ensures Coherent(old(g.nodes)) ==> Coherent(g.nodes)
      ensures ok <==> forall k :: k in like ==> g0[k].value.Some? && SameShape(g0[k].value.value, like[k])
      ensures ok ==> Stepped(g0, g.nodes, if descend then NegatedAll(slots) else slots, lr)
    {
      ok := Follow(g, slots, lr, descend, g0, like);
    }

    /** The body of the functions `minimize(target)` (`descend`) and
        `maximize(target)` return. */
    method Step(g: Graph, target: nat, ph: map<nat, Mat>, descend: bool) returns (r: Result<Mat>)
      requires Valid() && g.Valid() && target < |g.nodes| && Binding(g.nodes, ph)
      modifies g, this
      ensures Valid() && g.Valid() && Framed(old(g.nodes), g.nodes, ph)
      ensures Coherent(old(g.nodes)) ==> Coherent(g.nodes)
      ensures r.Ok? ==> Decayed(old(b1), old(b2), old(steps))
      ensures AdamStepped(old(g.nodes), g.nodes, ph, target, old(first), old(second),
                          Rates(beta1, beta2, eps, old(b1), old(b2)), root, lr, descend, r, first, second)
    {
      ghost var g0, f0, s0 := g.nodes, first, second;
      ghost var c := Rates(beta1, beta2, eps, b1, b2);
      ghost var G := Gradients(g0, ph, target, SearchVariables(g0, target));
      SearchFindsVariables(g0, target);
      r := Fail;
      var p := SlotsAndLoss(g, target, ph);
      if p.Ok? {
        var slots, loss := p.value.0, p.value.1;
        ghost var g1 := g.nodes;
        var ok := ApplySlots(g, slots, descend, g0, G);
        FramedTwice(g0, g1, g.nodes, ph, map[]);
        if ok {
          r := Ok(loss);
        }
      }
      AdamSteppedFrom(g0, g.nodes, ph, target, f0, s0, c, root, lr, descend, r, first, second);
    }

    /** One call of the function `minimize(target)` returns: the loss
        before the step; the moments take in the gradients, and every
        variable the target depends on moves against its new slot by `lr`. */
    method Minimize(g: Graph, target: nat, ph: map<nat, Mat>) returns (r: Result<Mat>)
      requires Valid() && g.Valid() && target < |g.nodes| && Binding(g.nodes, ph)
      modifies g, this
      ensures Valid() && g.Valid() && Framed(old(g.nodes), g.nodes, ph)
      ensures Coherent(old(g.nodes)) ==> Coherent(g.nodes)
      ensures r.Ok? ==> Decayed(old(b1), old(b2), old(steps))
      ensures AdamStepped(old(g.nodes), g.nodes, ph, target, old(first), old(second),
                          Rates(beta1, beta2, eps, old(b1), old(b2)), root, lr, true, r, first, second)
    {
      r := Step(g, target, ph, true);
    }

    /** One call of the function `maximize(target)` returns: the same, with
        every variable moved along its new slot. */
    method Maximize(g: Graph, target: nat, ph: map<nat, Mat>) returns (r: Result<Mat>)
      requires Valid() && g.Valid() && target < |g.nodes| && Binding(g.nodes, ph)
      modifies g, this
      ensures Valid() && g.Valid() && Framed(old(g.nodes), g.nodes, ph)
      ensures Coherent(old(g.nodes)) ==> Coherent(g.nodes)
      ensures r.Ok? ==> Decayed(old(b1), old(b2), old(steps))
      ensures AdamStepped(old(g.nodes), g.nodes, ph, target, old(first), old(second),
                          Rates(beta1, beta2, eps, old(b1), old(b2)), root, lr, false, r, first, second)
    {
      r := Step(g, target, ph, false);
    }
  }

  /** What one call of the function the momentum optimizer's
      `minimize(target, var_list)` returns does without Nesterov momentum,
      from the graph `g` and the accumulation `acc`: it succeeds exactly
      when a plain step over `vars` would and the accumulation takes in the
      gradients; the loss is the one before the step, the new accumulation
      is `acc'`, and `h` is `g` with every variable of `vars` moved by `lr`
      along its new velocity (`descend`: against it). */
  ghost predicate MomentumStepped(g: seq<Node>, h: seq<Node>, ph: map<nat, Mat>, target: nat, vars: set<nat>,
                                  acc: map<nat, Mat>, mu: real, lr: real, descend: bool,
                                  r: Result<Mat>, acc': map<nat, Mat>)
    requires Wf(g) && Binding(g, ph) && target < |g|
  {
    var a := Adjusted(acc, Gradients(g, ph, target, vars), mu);
    (r.Ok? <==> Steppable(g, ph, target, vars) && a.Ok?) &&
    (r.Ok? ==> r == Computed(Bound(g, ph), target) && acc' == a.value.0 &&
               Stepped(g, h, if descend then NegatedAll(a.value.1) else a.value.1, lr))
  }

  /** `MomentumStepped` from the outcome of each part of the step. */
  lemma MomentumSteppedFrom(g: seq<Node>, h: seq<Node>, ph: map<nat, Mat>, target: nat, vars: set<nat>,
                            acc: map<nat, Mat>, mu: real, lr: real, descend: bool,
                            r: Result<Mat>, acc': map<nat, Mat>)
    requires Wf(g) && Binding(g, ph) && target < |g| && VariablesOf(g, vars)
    requires
      var G := Gradients(g, ph, target, vars);
      var a := Adjusted(acc, G, mu);
      var ready := G.Keys == vars && Computed(Bound(g, ph), target).Ok? && a.Ok?;
      (!ready ==> r.Fail?) &&
      (ready ==> (r.Ok? <==> forall k :: k in G ==> g[k].value.Some? && SameShape(g[k].value.value, G[k]))) &&
      (ready && r.Ok? ==>
         r == Computed(Bound(g, ph), target) && acc' == a.value.0 &&
         Stepped(g, h, if descend then NegatedAll(a.value.1) else a.value.1, lr))
    ensures MomentumStepped(g, h, ph, target, vars, acc, mu, lr, descend, r, acc')
  {
    SteppableShapes(g, ph, target, vars);
  }

  /** Each variable of `grad` has an entry in the accumulation `p` and a
      value of that entry's shape: `applyMomentum(grad)` succeeds. */
  ghost predicate Fits(g: seq<Node>, grad: map<nat, Mat>, p: map<nat, Mat>) {
    grad.Keys <= p.Keys &&
    forall k :: k in grad ==> k < |g| && g[k].value.Some? && SameShape(g[k].value.value, p[k])
  }

  /** `h` is `g` after the look-ahead of `applyMomentum(grad)` from the
      accumulation `p`: every variable of `grad` moved by `c` times its
      entry of `p`, and no other. */
  ghost predicate LookedAhead(g: seq<Node>, h: seq<Node>, grad: map<nat, Mat>, p: map<nat, Mat>, c: real) {
    grad.Keys <= p.Keys && Stepped(g, h, Entries(p, grad), c)
  }

  /** Whether the look-ahead succeeds, and where it leads, depend only on
      the variables. */
  lemma LookAheadFrom(g: seq<Node>, g1: seq<Node>, h: seq<Node>, grad: map<nat, Mat>, p: map<nat, Mat>, c: real)
    requires KeepsVariables(g, g1) && VariablesOf(g, grad.Keys)
    ensures Fits(g1, grad, p) <==> Fits(g, grad, p)
    ensures LookedAhead(g1, h, grad, p, c) ==> LookedAhead(g, h, grad, p, c)
  {
    if LookedAhead(g1, h, grad, p, c) {
      SteppedFrom(g, g1, h, Entries(p, grad), c);
    }
  }

  /** The loop of `applyMomentum(grad)` from the accumulation `p`: the
      variables of `grad` move by `c` times their entries. From a graph
      holding the variables of `g0`, it succeeds exactly when each of them
      has an entry and a value of the entry's shape. */
  method MoveAhead(g: Graph, p: map<nat, Mat>, grad: map<nat, Mat>, c: real, ghost g0: seq<Node>) returns (ok: bool)
    requires g.Valid() && KeepsVariables(g0, g.nodes) && VariablesOf(g0, grad.Keys)
    modifies g
    ensures g.Valid() && Framed(old(g.nodes), g.nodes, map[])
    ensures Coherent(old(g.nodes)) ==> Coherent(g.nodes)
    ensures ok <==> Fits(g0, grad, p)
    ensures ok ==> LookedAhead(g0, g.nodes, grad, p, c)
  {
    ghost var g1 := g.nodes;
    LookAheadFrom(g0, g1, g1, grad, p, c);
    if !(grad.Keys <= p.Keys) {
      FramedReflexive(g1);
      return false;
    }
    ok := ApplyGradients(g, Entries(p, grad), c);
    LookAheadFrom(g0, g1, g.nodes, grad, p, c);
  }

  /** The last lines of a step with Nesterov momentum, from the graph `g`
      after the look-ahead and the accumulation `acc`: the gradients are
      taken again and the accumulation takes them in; `ok` exactly when
      that succeeds and every variable has a value of its gradient's shape,
      and then the new accumulation is `acc'` and `h` is `g` with every
      variable moved by `lr` along its new velocity (`descend`: against it). */
  ghost predicate Resumed(g: seq<Node>, h: seq<Node>, ph: map<nat, Mat>, target: nat, vars: set<nat>,
                          acc: map<nat, Mat>, mu: real, lr: real, descend: bool, ok: bool, acc': map<nat, Mat>)
    requires Wf(g) && Binding(g, ph) && target < |g|
  {
    var G := Gradients(g, ph, target, vars);
    var a := Adjusted(acc, G, mu);
    (ok <==> G.Keys == vars && a.Ok? &&
             forall k :: k in G ==> k < |g| && g[k].value.Some? && SameShape(g[k].value.value, G[k])) &&
    (ok ==> acc' == a.value.0 && Stepped(g, h, if descend then NegatedAll(a.value.1) else a.value.1, lr))
  }

  /** The same with Nesterov momentum: after the gradients `G` of `g` and
      the loss, every variable looks ahead by `-lr * mu` times its entry of
      the accumulation `p` (primed with `G`), which gives the graph `mid`;
      from there the step goes on as `Resumed` says. It succeeds exactly
      when every part does. */
  ghost predicate NesterovStepped(g: seq<Node>, mid: seq<Node>, h: seq<Node>, ph: map<nat, Mat>, target: nat,
                                  vars: set<nat>, acc: map<nat, Mat>, mu: real, lr: real, descend: bool,
                                  r: Result<Mat>, acc': map<nat, Mat>)
    requires Wf(g) && Binding(g, ph) && target < |g|
  {
    var G := Gradients(g, ph, target, vars);
    var p := Primed(acc, G);
    var ahead := G.Keys == vars && Computed(Bound(g, ph), target).Ok? && Fits(g, G, p);
    (r.Ok? ==> ahead) &&
    (ahead ==>
       Wf(mid) && Binding(mid, ph) && |mid| == |g| && LookedAhead(g, mid, G, p, -lr * mu) &&
       Resumed(mid, h, ph, target, vars, p, mu, lr, descend, r.Ok?, acc') &&
       (r.Ok? ==> r == Computed(Bound(g, ph), target)))
  }

  /** `MomentumOptimizer`: each step moves the variables along their
      velocity, the accumulation of the gradients seen so far, each
      earlier one damped by `momentum` per step. */
  class MomentumOptimizer {
    const lr: real
    const momentum: real
    /** `use_nesterov`. */
    const nag: bool
    var accumulation: map<nat, Mat>

    /** The source's defaults are `momentum = 0.9` and no Nesterov momentum. */
    constructor (learningRate: real, mu: real, useNesterov: bool)
      ensures lr == learningRate && momentum == mu && nag == useNesterov && accumulation == map[]
    {
      lr, momentum, nag := learningRate, mu, useNesterov;
      accumulation := map[];
    }

    /** `initMomentum(grad)`: a zero matrix of its slot's shape for each
        slot without an entry. */
    method InitMomentum(grad: map<nat, Mat>)
      modifies this
      ensures accumulation == Emplaced(old(accumulation), grad)
    {
      accumulation := EmplaceZeros(accumulation, grad);
    }

    /** The opening of `adjustMomentumWith` and `applyMomentum`: an empty
        accumulation is first filled by `initMomentum(grad)`. */
    method Prime(grad: map<nat, Mat>)
      modifies this
      ensures accumulation == Primed(old(accumulation), grad)
    {
      if accumulation == map[] {
        InitMomentum(grad);
      }
    }

    /** `adjustMomentumWith(grad)`: the new accumulation and the new slots,
        as `Adjusted` gives them. The priming happens even when the update
        then fails. */
    method AdjustMomentumWith(grad: map<nat, Mat>) returns (r: Result<map<nat, Mat>>)
      modifies this
      ensures
        var a := Adjusted(old(accumulation), grad, momentum);
        (r.Ok? <==> a.Ok?) && (r.Ok? ==> r.value == a.value.1 && accumulation == a.value.0)
      ensures r.Fail? ==> accumulation == Primed(old(accumulation), grad)
    {
      Prime(grad);
      // `at` throws on a missing entry and Eigen rejects a shape mismatch;
      // both end the program, so the check is made before any slot changes.
      if !Tracks(accumulation, grad) {
        return Fail;
      }
      var slots := Advance(accumulation, grad, momentum);
      accumulation := accumulation + slots;
      return Ok(slots);
    }

    /** `applyMomentum(grad)`: after the priming, each variable of `grad`
        is moved by `-lr * momentum` times its entry of the accumulation.
        From a graph holding the variables of `g0`, it fails on a variable
        without an entry, without a value, or with one of another shape. */
    method ApplyMomentum(g: Graph, grad: map<nat, Mat>, ghost g0: seq<Node>) returns (ok: bool)
      requires g.Valid() && KeepsVariables(g0, g.nodes) && VariablesOf(g0, grad.Keys)
      modifies this, g
      ensures g.Valid() && Framed(old(g.nodes), g.nodes, map[])
      ensures Coherent(old(g.nodes)) ==> Coherent(g.nodes)
      ensures accumulation == Primed(old(accumulation), grad)
      ensures ok <==> Fits(g0, grad, accumulation)
      ensures ok ==> LookedAhead(g0, g.nodes, grad, accumulation, -lr * momentum)
    {
      Prime(grad);
      ok := LookAhead(g, grad, g0);
    }

    /** The loop of `applyMomentum(grad)` from the current accumulation,
        at the rate `-lr * momentum`. */
    method LookAhead(g: Graph, grad: map<nat, Mat>, ghost g0: seq<Node>) returns (ok: bool)
      requires g.Valid() && KeepsVariables(g0, g.nodes) && VariablesOf(g0, grad.Keys)
      modifies g
      ensures g.Valid() && Framed(old(g.nodes), g.nodes, map[])
      ensures Coherent(old(g.nodes)) ==> Coherent(g.nodes)
      ensures ok <==> Fits(g0, grad, accumulation)
      ensures ok ==> LookedAhead(g0, g.nodes, grad, accumulation, -lr * momentum)
    {
      ok := MoveAhead(g, accumulation, grad, -lr * momentum, g0);
    }

    /** The step without Nesterov momentum. */
    method PlainStep(g: Graph, target: nat, ph: map<nat, Mat>, vars: set<nat>, descend: bool) returns (r: Result<Mat>)
      requires g.Valid() && target < |g.nodes| && Binding(g.nodes, ph) && VariablesOf(g.nodes, vars)
      modifies g, this
      ensures g.Valid() && Framed(old(g.nodes), g.nodes, ph)
      ensures Coherent(old(g.nodes)) ==> Coherent(g.nodes)
      ensures MomentumStepped(old(g.nodes), g.nodes, ph, target, vars, old(accumulation), momentum, lr, descend, r, accumulation)
    {
      ghost var g0, acc0 := g.nodes, accumulation;
      ghost var G := Gradients(g0, ph, target, vars);
      r := Fail;
      var p := GradientsAndLoss(g, target, ph, vars);
      if p.Ok? {
        var grad, loss := p.value.0, p.value.1;
        var slots := AdjustMomentumWith(grad);
        if slots.Ok? {
          ghost var g1 := g.nodes;
          var ok := Follow(g, slots.value, lr, descend, g0, G);
          FramedTwice(g0, g1, g.nodes, ph, map[]);
          if ok {
            r := Ok(loss);
          }
        }
      }
      MomentumSteppedFrom(g0, g.nodes, ph, target, vars, acc0, momentum, lr, descend, r, accumulation);
    }

    /** The last lines of a step with Nesterov momentum, after the
        look-ahead: `computeGradients(target, ph, var_list)` again,
        `adjustMomentumWith` on those gradients and `applyGradients`. */
    method Resume(g: Graph, target: nat, ph: map<nat, Mat>, vars: set<nat>, descend: bool) returns (ok: bool)
      requires g.Valid() && target < |g.nodes| && Binding(g.nodes, ph) && VariablesOf(g.nodes, vars)
      modifies g, this
      ensures g.Valid() && Framed(old(g.nodes), g.nodes, ph)
      ensures Coherent(old(g.nodes)) ==> Coherent(g.nodes)
      ensures Resumed(old(g.nodes), g.nodes, ph, target, vars, old(accumulation), momentum, lr, descend, ok, accumulation)
    {
      ghost var g0 := g.nodes;
      ok := false;
      var grad := ComputeGradientsOver(g, target, ph, vars);
      BoundLeaves(g0, ph, g.nodes);
      if grad.Ok? {
        var slots := AdjustMomentumWith(grad.value);
        if slots.Ok? {
          ghost var g1 := g.nodes;
          ok := Follow(g, slots.value, lr, descend, g0, grad.value);
          FramedTwice(g0, g1, g.nodes, ph, map[]);
        }
      }
    }

    /** The step with Nesterov momentum; `mid` is the graph after the look-ahead. */
    method NesterovStep(g: Graph, target: nat, ph: map<nat, Mat>, vars: set<nat>, descend: bool)
      returns (r: Result<Mat>, ghost mid: seq<Node>)
      requires g.Valid() && target < |g.nodes| && Binding(g.nodes, ph) && VariablesOf(g.nodes, vars)
      modifies g, this
      ensures g.Valid() && Framed(old(g.nodes), g.nodes, ph)
      ensures Coherent(old(g.nodes)) ==> Coherent(g.nodes)
      ensures NesterovStepped(old(g.nodes), mid, g.nodes, ph, target, vars, old(accumulation), momentum, lr, descend,
                              r, accumulation)
    {
      ghost var g0 := g.nodes;
      r, mid := Fail, g0;
      var p := GradientsAndLoss(g, target, ph, vars);
      if p.Ok? {
        var grad, loss := p.value.0, p.value.1;
        ghost var g1 := g.nodes;
        var ok := ApplyMomentum(g, grad, g0);
        FramedTwice(g0, g1, g.nodes, ph, map[]);
        if ok {
          mid := g.nodes;
          StepAgain(g0, mid, ph, target, vars);
          var moved := Resume(g, target, ph, vars, descend);
          FramedTwice(g0, mid, g.nodes, ph, ph);
          if moved {
            r := Ok(loss);
          }
        }
      }
    }

    /** The body of the function `minimize(target, var_list)` returns,
        moving the variables along their velocity (`descend`: against it). */
    method Step(g: Graph, target: nat, ph: map<nat, Mat>, vars: set<nat>, descend: bool)
      returns (r: Result<Mat>, ghost mid: seq<Node>)
      requires g.Valid() && target < |g.nodes| && Binding(g.nodes, ph) && VariablesOf(g.nodes, vars)
      modifies g, this
      ensures g.Valid() && Framed(old(g.nodes), g.nodes, ph)
      ensures Coherent(old(g.nodes)) ==> Coherent(g.nodes)
      ensures !nag ==>
        MomentumStepped(old(g.nodes), g.nodes, ph, target, vars, old(accumulation), momentum, lr, descend, r, accumulation)
      ensures nag ==>
        NesterovStepped(old(g.nodes), mid, g.nodes, ph, target, vars, old(accumulation), momentum, lr, descend,
                        r, accumulation)
    {
      if nag {
        r, mid := NesterovStep(g, target, ph, vars, descend);
      } else {
        mid := g.nodes;
        r := PlainStep(g, target, ph, vars, descend);
      }
    }

    /** The function `minimize(target, var_list)` returns, as written: it
        applies the new velocities with `+lr`, so every variable moves up
        its gradient. */
    method MinimizeAsWritten(g: Graph, target: nat, ph: map<nat, Mat>, vars: set<nat>)
      returns (r: Result<Mat>, ghost mid: seq<Node>)
      requires g.Valid() && target < |g.nodes| && Binding(g.nodes, ph) && VariablesOf(g.nodes, vars)
      modifies g, this
      ensures g.Valid() && Framed(old(g.nodes), g.nodes, ph)
      ensures Coherent(old(g.nodes)) ==> Coherent(g.nodes)
      ensures !nag ==>
        MomentumStepped(old(g.nodes), g.nodes, ph, target, vars, old(accumulation), momentum, lr, false, r, accumulation)
      ensures nag ==>
        NesterovStepped(old(g.nodes), mid, g.nodes, ph, target, vars, old(accumulation), momentum, lr, false,
                        r, accumulation)
    {
      r, mid := Step(g, target, ph, vars, false);
    }

    /** The function `minimize(target, var_list)` returns, with the
        velocities negated before they are applied, as in the other
        optimizers' `minimize`: every variable moves down its velocity. */
    method Minimize(g: Graph, target: nat, ph: map<nat, Mat>, vars: set<nat>)
      returns (r: Result<Mat>, ghost mid: seq<Node>)
      requires g.Valid() && target < |g.nodes| && Binding(g.nodes, ph) && VariablesOf(g.nodes, vars)
      modifies g, this
      ensures g.Valid() && Framed(old(g.nodes), g.nodes, ph)
      ensures Coherent(old(g.nodes)) ==> Coherent(g.nodes)
      ensures !nag ==>
        MomentumStepped(old(g.nodes), g.nodes, ph, target, vars, old(accumulation), momentum, lr, true, r, accumulation)
      ensures nag ==>
        NesterovStepped(old(g.nodes), mid, g.nodes, ph, target, vars, old(accumulation), momentum, lr, true,
                        r, accumulation)
    {
      r, mid := Step(g, target, ph, vars, true);
    }
  }

  /** The first step of `minimize` as written, on a fresh optimizer without
      Nesterov momentum, is the step of `Optimizer`'s `maximize`: every
      variable moves by `lr` along its gradient, so the loss goes up. */
  lemma FirstStepAscends(g: seq<Node>, h: seq<Node>, ph: map<nat, Mat>, target: nat, vars: set<nat>,
                         mu: real, lr: real, r: Result<Mat>, acc': map<nat, Mat>)
    requires Wf(g) && Binding(g, ph) && target < |g|
    requires MomentumStepped(g, h, ph, target, vars, map[], mu, lr, false, r, acc') && r.Ok?
    ensures Stepped(g, h, Gradients(g, ph, target, vars), lr)
  {
    FirstVelocity(Gradients(g, ph, target, vars), mu);
  }

  /** With the velocities negated, the first step is the step of
      `Optimizer`'s `minimize`: every variable moves against its gradient. */
  lemma FirstStepDescends(g: seq<Node>, h: seq<Node>, ph: map<nat, Mat>, target: nat, vars: set<nat>,
                          mu: real, lr: real, r: Result<Mat>, acc': map<nat, Mat>)
    requires Wf(g) && Binding(g, ph) && target < |g|
    requires MomentumStepped(g, h, ph, target, vars, map[], mu, lr, true, r, acc') && r.Ok?
    ensures Stepped(g, h, NegatedAll(Gradients(g, ph, target, vars)), lr)
  {
    FirstVelocity(Gradients(g, ph, target, vars), mu);
  }
}
