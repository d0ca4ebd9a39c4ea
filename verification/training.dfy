/** The value-level side of lazy/train: which variables an optimizer
    finds, and how a step moves them.

    `searchVariables` is a pure walk over the inputs of the target; the
    lemmas show it finds exactly the variables the target depends on.
    The update rules of the optimizers are stated here as functions on
    matrices, so that the methods in `Optimizers` can be proved against
    them and their properties can be proved once. */
module Training {
  import opened Matrices
  import opened Rules
  import opened Dag
  import opened Agreement
  import opened Coherence
  import opened Resets
  import opened Assignment

  /** `searchVariables`: the variables found by walking the inputs of `n`,
      and `n` itself if it is one. (The source returns them as the keys of
      a map whose values are all empty.) */
  function SearchVariables(g: seq<Node>, n: nat): (r: set<nat>)
    requires n < |g|
    decreases n, 1
  {
    SearchAll(g, n, Ascending(g[n].pre, 0, n)) + (if Optimizable(g[n]) then {n} else {})
  }

  /** The union of `SearchVariables` over the inputs `ps` of `n`. */
  function SearchAll(g: seq<Node>, n: nat, ps: seq<nat>): set<nat>
    requires n < |g| && forall i :: 0 <= i < |ps| ==> ps[i] < n
    decreases n, 0, |ps|
  {
    if ps == [] then {}
    else SearchAll(g, n, ps[..|ps| - 1]) + SearchVariables(g, ps[|ps| - 1])
  }

  lemma {:induction false} SearchAllMembers(g: seq<Node>, n: nat, ps: seq<nat>, v: nat)
    requires n < |g| && forall i :: 0 <= i < |ps| ==> ps[i] < n
    ensures v in SearchAll(g, n, ps) <==> exists i :: 0 <= i < |ps| && v in SearchVariables(g, ps[i])
    decreases |ps|
  {
    if ps != [] {
      var init := ps[..|ps| - 1];
      SearchAllMembers(g, n, init, v);
      if v in SearchAll(g, n, init) {
        var i :| 0 <= i < |init| && v in SearchVariables(g, init[i]);
        assert ps[i] == init[i];
      }
      if exists i :: 0 <= i < |ps| && v in SearchVariables(g, ps[i]) {
        var i :| 0 <= i < |ps| && v in SearchVariables(g, ps[i]);
        if i < |ps| - 1 {
          assert init[i] == ps[i];
        }
      }
    }
  }

  /** `searchVariables` finds only variables that `n` depends on. */
  lemma {:induction false} SearchVariablesSound(g: seq<Node>, n: nat, v: nat)
    requires n < |g| && v in SearchVariables(g, n)
    ensures v < |g| && Optimizable(g[v]) && DependsOn(g, n, v)
    decreases n
  {
    var ps := Ascending(g[n].pre, 0, n);
    SearchAllMembers(g, n, ps, v);
    if v in SearchAll(g, n, ps) {
      var i :| 0 <= i < |ps| && v in SearchVariables(g, ps[i]);
      SearchVariablesSound(g, ps[i], v);
      assert ps[i] in g[n].pre && ps[i] < n;
    }
  }

  /** `searchVariables` finds every variable that `n` depends on. */
  lemma {:induction false} SearchVariablesComplete(g: seq<Node>, n: nat, v: nat)
    requires n < |g| && v < |g| && Optimizable(g[v]) && DependsOn(g, n, v)
    ensures v in SearchVariables(g, n)
    decreases n
  {
    if v != n {
      var ps := Ascending(g[n].pre, 0, n);
      var p :| p in g[n].pre && p < n && DependsOn(g, p, v);
      SearchVariablesComplete(g, p, v);
      assert p in ps;
      var i :| 0 <= i < |ps| && ps[i] == p;
      SearchAllMembers(g, n, ps, v);
    }
  }

  /** `searchVariables` finds exactly the variables that `n` depends on,
      `n` included. */
  lemma SearchVariablesExact(g: seq<Node>, n: nat, v: nat)
    requires n < |g|
    ensures v in SearchVariables(g, n) <==> v < |g| && Optimizable(g[v]) && DependsOn(g, n, v)
  {
    if v in SearchVariables(g, n) {
      SearchVariablesSound(g, n, v);
    }
    if v < |g| && Optimizable(g[v]) && DependsOn(g, n, v) {
      SearchVariablesComplete(g, n, v);
    }
  }

  /** Everything `searchVariables` finds is a variable of `g`. */
  lemma SearchFindsVariables(g: seq<Node>, n: nat)
    requires Wf(g) && n < |g|
    ensures VariablesOf(g, SearchVariables(g, n))
  {
    forall v | v in SearchVariables(g, n)
      ensures v < |g| && g[v].kind == Variable
    {
      SearchVariablesExact(g, n, v);
    }
  }

  /** `searchVariables` reads nothing but kinds and inputs, so filling or
      dropping caches does not change what it finds. */
  lemma {:induction false} SearchVariablesLinks(g1: seq<Node>, g2: seq<Node>, n: nat)
    requires |g1| == |g2| && n < |g1|
    requires forall i :: 0 <= i < |g1| ==> g1[i].kind == g2[i].kind && g1[i].pre == g2[i].pre
    ensures SearchVariables(g1, n) == SearchVariables(g2, n)
    decreases n, 1
  {
    SearchAllLinks(g1, g2, n, Ascending(g1[n].pre, 0, n));
  }

  lemma {:induction false} SearchAllLinks(g1: seq<Node>, g2: seq<Node>, n: nat, ps: seq<nat>)
    requires |g1| == |g2| && n < |g1| && forall i :: 0 <= i < |ps| ==> ps[i] < n
    requires forall i :: 0 <= i < |g1| ==> g1[i].kind == g2[i].kind && g1[i].pre == g2[i].pre
    ensures SearchAll(g1, n, ps) == SearchAll(g2, n, ps)
    decreases n, 0, |ps|
  {
    if ps != [] {
      SearchAllLinks(g1, g2, n, ps[..|ps| - 1]);
      SearchVariablesLinks(g1, g2, ps[|ps| - 1]);
    }
  }

  /** The placeholders of a binding, each a placeholder of `g`. */
  ghost predicate Binding(g: seq<Node>, ph: map<nat, Mat>) {
    forall k :: k in ph ==> k < |g| && g[k].kind == Placeholder
  }

  /** The graph after `applyPlaceholders(ph)`: each placeholder assigned in
      increasing order. */
  ghost function Bound(g: seq<Node>, ph: map<nat, Mat>): (r: seq<Node>)
    requires Wf(g) && Binding(g, ph)
    ensures |r| == |g|
  {
    var ks := Ascending(ph.Keys, 0, |g|);
    assert Bindable(g, ks, ph);
    AssignAllStrip(g, ks, ph);
    AssignAll(g, ks, ph)
  }

  /** The graph `Bound` denotes: `g` with the placeholders' values set. */
  ghost function BoundValues(g: seq<Node>, ph: map<nat, Mat>): seq<Node>
    requires Binding(g, ph)
  {
    var ks := Ascending(ph.Keys, 0, |g|);
    assert Bindable(g, ks, ph);
    RebindAll(g, ks, ph)
  }

  /** On a coherent graph, the gradients read after binding are those of
      the graph with the placeholders' values set, and so is the loss. */
  lemma BoundDenotes(g: seq<Node>, ph: map<nat, Mat>, target: nat)
    requires Coherent(g) && Binding(g, ph) && target < |g|
    ensures |Bound(g, ph)| == |g| && Coherent(Bound(g, ph))
    ensures Computed(Bound(g, ph), target) == Fresh(BoundValues(g, ph), target)
    ensures forall v :: 0 <= v < |g| && g[v].kind != Constant ==>
      Delta(Bound(g, ph), v, target) == Grad(BoundValues(g, ph), v, target)
  {
    var ks := Ascending(ph.Keys, 0, |g|);
    AssignAllSettles(g, ks, ph);
    var B := Bound(g, ph);
    CoherentComputed(B, target);
    forall v | 0 <= v < |g| && g[v].kind != Constant
      ensures Delta(B, v, target) == Grad(BoundValues(g, ph), v, target)
    {
      assert Strip(B)[v].kind == g[v].kind;
      CoherentDelta(B, v, target);
    }
  }

  /** On a coherent graph, the gradients `computeGradients` reads, when it
      reads one for every variable of `vars`, are the gradients of the
      graph with the placeholders' values set. */
  lemma GradientsDenote(g: seq<Node>, ph: map<nat, Mat>, target: nat, vars: set<nat>)
    requires Coherent(g) && Binding(g, ph) && target < |g| && VariablesOf(g, vars)
    requires Gradients(g, ph, target, vars).Keys == vars
    ensures forall v :: v in vars ==> Ok(Gradients(g, ph, target, vars)[v]) == Grad(BoundValues(g, ph), v, target)
  {
    BoundDenotes(g, ph, target);
  }

  /** Binding placeholders keeps every link of every node. */
  lemma BoundLinks(g: seq<Node>, ph: map<nat, Mat>)
    requires Wf(g) && Binding(g, ph)
    ensures |Bound(g, ph)| == |g| && Wf(Bound(g, ph))
    ensures SameLinks(g, Bound(g, ph))
  {
    var ks := Ascending(ph.Keys, 0, |g|);
    assert Bindable(g, ks, ph);
    AssignAllStrip(g, ks, ph);
    var B := Bound(g, ph);
    forall i | 0 <= i < |g|
      ensures B[i].kind == g[i].kind && B[i].fwd == g[i].fwd && B[i].pre == g[i].pre && B[i].post == g[i].post
    {
      assert Strip(B)[i] == Strip(RebindAll(g, ks, ph))[i];
    }
  }

  // ---------------------------------------------------------------------
  // Moving variables
  // ---------------------------------------------------------------------

  /** `x1` is `x0` moved by `c` times `d`, entry by entry. */
  ghost predicate MovedBy(x1: Mat, x0: Mat, d: Mat, c: real) {
    SameShape(x1, x0) && SameShape(d, x0) &&
    forall i, j :: 0 <= i < x0.rows && 0 <= j < x0.cols ==> x1.data[i][j] == x0.data[i][j] + c * d.data[i][j]
  }

  /** The write of `applyGradients` for one variable: its value plus its
      slot times `c`. A variable without a value (its `eval` reads an empty
      optional) or a slot of another shape makes it fail. */
  function Move(x: Option<Mat>, d: Mat, c: real): (r: Result<Mat>)
    ensures r.Ok? <==> x.Some? && SameShape(x.value, d)
  {
    match x
    case None => Fail
    case Some(v) => if SameShape(v, d) then Ok(Add(v, Scale(d, c))) else Fail
  }

  /** A write that succeeds moves the value by `c` times the slot, entry
      by entry. */
  lemma MoveMoves(x: Mat, d: Mat, c: real)
    requires SameShape(x, d)
    ensures MovedBy(Move(Some(x), d, c).value, x, d, c)
  {
  }

  /** Every slot of `grad` names a variable of `g`. */
  ghost predicate Slots(g: seq<Node>, grad: map<nat, Mat>) {
    forall k :: k in grad ==> k < |g| && g[k].kind == Variable
  }

  /** `applyGradients` succeeds on every slot. */
  ghost predicate Movable(g: seq<Node>, grad: map<nat, Mat>, c: real)
    requires Slots(g, grad)
  {
    forall k :: k in grad ==> Move(g[k].value, grad[k], c).Ok?
  }

  /** The new value of each slot whose write succeeds. */
  ghost function Moves(g: seq<Node>, grad: map<nat, Mat>, c: real): (r: map<nat, Mat>)
    requires Slots(g, grad)
    ensures r.Keys <= grad.Keys
    ensures forall k :: k in grad && Move(g[k].value, grad[k], c).Ok? ==> k in r
  {
    map k | k in grad && Move(g[k].value, grad[k], c).Ok? :: Move(g[k].value, grad[k], c).value
  }

  /** `negateGradients`, slot by slot: every entry negated. */
  function Negated(d: Mat): (r: Mat)
    ensures SameShape(r, d)
    ensures forall i, j :: 0 <= i < d.rows && 0 <= j < d.cols ==> r.data[i][j] == -d.data[i][j]
  {
    Scale(d, -1.0)
  }

  /** `h` holds the variables of `g`, with the same values. */
  ghost predicate KeepsVariables(g: seq<Node>, h: seq<Node>) {
    |h| == |g| &&
    forall k :: 0 <= k < |g| && g[k].kind == Variable ==> h[k].kind == Variable && h[k].value == g[k].value
  }

  /** `h` has the nodes of `g`, each of the same kind, with the same
      forward function, the same inputs and the same rules for its
      successors. */
  ghost predicate SameLinks(g: seq<Node>, h: seq<Node>) {
    |h| == |g| &&
    forall i :: 0 <= i < |g| ==>
      h[i].kind == g[i].kind && h[i].fwd == g[i].fwd && h[i].pre == g[i].pre && h[i].post == g[i].post
  }

  /** `h` is `g` with the placeholders of `ph` bound and nothing else
      changed but variables and caches: every node keeps its links, each
      placeholder of `ph` holds its matrix, and every other constant and
      placeholder holds the value it held; a placeholder without one may
      have cached the empty matrix `eval` reads it as. */
  ghost predicate Framed(g: seq<Node>, h: seq<Node>, ph: map<nat, Mat>) {
    SameLinks(g, h) &&
    forall k :: 0 <= k < |g| && (g[k].kind == Constant || g[k].kind == Placeholder) ==>
      if k in ph then h[k].value == Some(ph[k])
      else h[k].value == g[k].value || (g[k].value.None? && h[k].value == Some(Empty))
  }

  lemma FramedReflexive(g: seq<Node>)
    ensures Framed(g, g, map[])
  {
  }

  /** A change framed by `ph` followed by one that binds nothing new is
      framed by `ph`. */
  lemma FramedTwice(g: seq<Node>, h1: seq<Node>, h2: seq<Node>, ph: map<nat, Mat>, ph2: map<nat, Mat>)
    requires Framed(g, h1, ph) && Framed(h1, h2, ph2) && (ph2 == map[] || ph2 == ph)
    ensures Framed(g, h2, ph)
  {
  }

  /** Filling caches changes no link, and gives a placeholder without a
      value only the empty matrix. */
  lemma FilledFramed(g: seq<Node>, h: seq<Node>)
    requires Wf(g) && Filled(g, h)
    ensures Framed(g, h, map[])
  {
    forall k | 0 <= k < |g|
      ensures h[k].kind == g[k].kind && h[k].fwd == g[k].fwd && h[k].pre == g[k].pre && h[k].post == g[k].post
    {
      assert FilledAt(g, h, k);
    }
    forall k | 0 <= k < |g| && (g[k].kind == Constant || g[k].kind == Placeholder)
      ensures h[k].value == g[k].value || (g[k].value.None? && h[k].value == Some(Empty))
    {
      assert FilledAt(g, h, k) && NodeOk(g, k);
    }
  }

  /** Binding `ph` is framed by `ph`. */
  lemma BoundFramed(g: seq<Node>, ph: map<nat, Mat>)
    requires Wf(g) && Binding(g, ph)
    ensures Framed(g, Bound(g, ph), ph)
  {
    BoundLinks(g, ph);
    var ks := Ascending(ph.Keys, 0, |g|);
    assert Bindable(g, ks, ph);
    AssignAllStrip(g, ks, ph);
    var B := Bound(g, ph);
    forall k | 0 <= k < |g| && (g[k].kind == Constant || g[k].kind == Placeholder)
      ensures if k in ph then B[k].value == Some(ph[k]) else B[k].value == g[k].value
    {
      if k in ph {
        var j :| 0 <= j < |ks| && ks[j] == k;
        RebindAllFresh(g, ks, ph, j);
        assert Strip(B)[k] == Strip(RebindAll(g, ks, ph))[k];
      } else {
        AssignAllKeepsLeaf(g, ks, ph, k);
      }
    }
  }

  /** Assigning variables only is framed by nothing. */
  lemma MovesFramed(g: seq<Node>, ks: seq<nat>, mp: map<nat, Mat>)
    requires Wf(g) && Bindable(g, ks, mp) && forall i :: 0 <= i < |ks| ==> g[ks[i]].kind == Variable
    ensures Framed(g, AssignAll(g, ks, mp), map[])
  {
    AssignAllLinks(g, ks, mp);
    forall k | 0 <= k < |g| && (g[k].kind == Constant || g[k].kind == Placeholder)
      ensures AssignAll(g, ks, mp)[k].value == g[k].value
    {
      AssignAllKeepsLeaf(g, ks, mp, k);
    }
  }

  /** After a step framed by `ph`, the same binding and the same variable
      list can be given to the next one, and `searchVariables` finds the
      same variables: the list `minimize(target, var_list)` fixes stays the
      variables the target depends on. */
  lemma StepAgain(g: seq<Node>, h: seq<Node>, ph: map<nat, Mat>, target: nat, vars: set<nat>)
    requires Framed(g, h, ph) && Binding(g, ph) && VariablesOf(g, vars) && target < |g|
    ensures Binding(h, ph) && VariablesOf(h, vars)
    ensures SearchVariables(h, target) == SearchVariables(g, target)
  {
    SearchVariablesLinks(g, h, target);
  }

  lemma SameLinksReflexive(g: seq<Node>)
    ensures SameLinks(g, g)
  {
  }

  /** Links kept twice are kept, and so are a binding and a variable set. */
  lemma SameLinksTwice(g: seq<Node>, g1: seq<Node>, h: seq<Node>, ph: map<nat, Mat>, vars: set<nat>)
    requires SameLinks(g, g1) && SameLinks(g1, h) && Binding(g, ph) && VariablesOf(g, vars)
    ensures SameLinks(g, h) && Binding(h, ph) && VariablesOf(h, vars)
  {
  }

  /** A run of assignments changes no kind and no input. */
  lemma AssignAllLinks(g: seq<Node>, ks: seq<nat>, mp: map<nat, Mat>)
    requires Wf(g) && Bindable(g, ks, mp)
    ensures SameLinks(g, AssignAll(g, ks, mp))
  {
    AssignAllStrip(g, ks, mp);
    var h := AssignAll(g, ks, mp);
    forall i | 0 <= i < |g|
      ensures h[i].kind == g[i].kind && h[i].fwd == g[i].fwd && h[i].pre == g[i].pre && h[i].post == g[i].post
    {
      assert Strip(h)[i] == Strip(RebindAll(g, ks, mp))[i];
    }
  }

  /** Binding placeholders and then filling caches leaves every variable
      with the value it had, and is framed by the binding. */
  lemma BoundLeaves(g: seq<Node>, ph: map<nat, Mat>, h: seq<Node>)
    requires Wf(g) && Binding(g, ph) && Memoised(Bound(g, ph), h)
    ensures KeepsVariables(g, h) && Framed(g, h, ph)
  {
    BoundLinks(g, ph);
    BoundFramed(g, ph);
    FilledFramed(Bound(g, ph), h);
    FramedTwice(g, Bound(g, ph), h, ph, map[]);
    var ks := Ascending(ph.Keys, 0, |g|);
    assert Bindable(g, ks, ph);
    forall k | 0 <= k < |g| && g[k].kind == Variable
      ensures h[k].kind == Variable && h[k].value == g[k].value
    {
      AssignAllKeepsLeaf(g, ks, ph, k);
      MemoisedLeaf(Bound(g, ph), h, k);
    }
  }

  // ---------------------------------------------------------------------
  // One optimizer step
  // ---------------------------------------------------------------------

  /** Each member of `vars` names a variable of `g` (a `VariableSet`). */
  ghost predicate VariablesOf(g: seq<Node>, vars: set<nat>) {
    forall v :: v in vars ==> v < |g| && g[v].kind == Variable
  }

  /** The gradients `computeGradients` reads for `vars` once `ph` is bound;
      a gradient that cannot be computed is missing. */
  ghost function Gradients(g: seq<Node>, ph: map<nat, Mat>, target: nat, vars: set<nat>): (r: map<nat, Mat>)
    requires Wf(g) && Binding(g, ph) && target < |g|
    ensures r.Keys <= vars
  {
    var B := Bound(g, ph);
    map v | v in vars && v < |g| && Delta(B, v, target).Ok? :: Delta(B, v, target).value
  }

  /** A step succeeds: the loss is computed, so is every gradient, and each
      variable has a value of its gradient's shape. */
  ghost predicate Steppable(g: seq<Node>, ph: map<nat, Mat>, target: nat, vars: set<nat>)
    requires Wf(g) && Binding(g, ph) && target < |g|
  {
    var d := Gradients(g, ph, target, vars);
    Computed(Bound(g, ph), target).Ok? && d.Keys == vars &&
    forall v :: v in d ==> v < |g| && g[v].value.Some? && SameShape(g[v].value.value, d[v])
  }

  /** For variables of `g`, `Steppable` without the bound on the slots. */
  lemma SteppableShapes(g: seq<Node>, ph: map<nat, Mat>, target: nat, vars: set<nat>)
    requires Wf(g) && Binding(g, ph) && target < |g| && VariablesOf(g, vars)
    ensures var d := Gradients(g, ph, target, vars);
      Steppable(g, ph, target, vars) <==>
        Computed(Bound(g, ph), target).Ok? && d.Keys == vars &&
        forall v :: v in d ==> g[v].value.Some? && SameShape(g[v].value.value, d[v])
  {
  }

  /** `h` is `g` with each variable `v` named in `dir` moved by `c` times
      `dir[v]`, and every other variable as it was. */
  ghost predicate Stepped(g: seq<Node>, h: seq<Node>, dir: map<nat, Mat>, c: real) {
    |h| == |g| &&
    (forall v :: v in dir ==> v < |g| && g[v].kind == Variable && Move(g[v].value, dir[v], c).Ok?) &&
    forall k :: 0 <= k < |g| && g[k].kind == Variable ==>
      h[k].kind == Variable &&
      h[k].value == if k in dir then Some(Move(g[k].value, dir[k], c).value) else g[k].value
  }

  /** A step from `g2` is a step from `g` when the two hold the same
      variables with the same values. */
  lemma SteppedFrom(g: seq<Node>, g2: seq<Node>, h: seq<Node>, dir: map<nat, Mat>, c: real)
    requires KeepsVariables(g, g2) && VariablesOf(g, dir.Keys)
    requires Stepped(g2, h, dir, c)
    ensures Stepped(g, h, dir, c)
  {
  }

  /** Whether `applyGradients` succeeds on slots shaped like the directions
      `d`, from a graph holding the variables of `g`: exactly when each of
      those variables has a value of its direction's shape. */
  lemma MovableShapes(g: seq<Node>, g2: seq<Node>, d: map<nat, Mat>, s: map<nat, Mat>, c: real)
    requires KeepsVariables(g, g2) && VariablesOf(g, d.Keys)
    requires s.Keys == d.Keys && forall k :: k in d ==> SameShape(s[k], d[k])
    ensures Slots(g2, s)
    ensures Movable(g2, s, c) <==> forall k :: k in d ==> g[k].value.Some? && SameShape(g[k].value.value, d[k])
  {
  }

  /** `negateGradients`, on every slot. */
  function NegatedAll(dir: map<nat, Mat>): (r: map<nat, Mat>)
    ensures r.Keys == dir.Keys
  {
    map k | k in dir :: Negated(dir[k])
  }

  /** Moving by `c` times a negated direction is moving by `-c` times the
      direction. */
  lemma MoveNegated(x: Option<Mat>, d: Mat, c: real)
    ensures Move(x, Negated(d), c) == Move(x, d, -c)
  {
    if x.Some? && SameShape(x.value, d) {
      var a, b := Add(x.value, Scale(Negated(d), c)), Add(x.value, Scale(d, -c));
      forall i, j | 0 <= i < d.rows && 0 <= j < d.cols
        ensures a.data[i][j] == b.data[i][j]
      {
        assert Scale(Negated(d), c).data[i][j] == -d.data[i][j] * c;
      }
      Extensionality(a, b);
    }
  }

  /** Stepping by `c` times the negated directions is stepping by `-c`
      times the directions: `minimize` moves each variable against its
      gradient. */
  lemma SteppedNegated(g: seq<Node>, h: seq<Node>, dir: map<nat, Mat>, c: real)
    ensures Stepped(g, h, NegatedAll(dir), c) <==> Stepped(g, h, dir, -c)
  {
    forall v | v in dir && v < |g|
      ensures Move(g[v].value, NegatedAll(dir)[v], c) == Move(g[v].value, dir[v], -c)
    {
      MoveNegated(g[v].value, dir[v], c);
    }
  }

  /** Assigning every slot its move, in increasing order, is a step by `c`
      along the slots. */
  lemma MovesStepped(g: seq<Node>, grad: map<nat, Mat>, c: real)
    requires Wf(g) && Slots(g, grad) && Movable(g, grad, c)
    ensures var ks := Ascending(grad.Keys, 0, |g|);
      Bindable(g, ks, Moves(g, grad, c)) &&
      Stepped(g, AssignAll(g, ks, Moves(g, grad, c)), grad, c) &&
      (Coherent(g) ==> Coherent(AssignAll(g, ks, Moves(g, grad, c))))
  {
    var ks := Ascending(grad.Keys, 0, |g|);
    var M := Moves(g, grad, c);
    assert Bindable(g, ks, M);
    AssignAllSettles(g, ks, M);
    var h := AssignAll(g, ks, M);
    forall k | 0 <= k < |g| && g[k].kind == Variable
      ensures h[k].kind == Variable
      ensures h[k].value == if k in grad then Some(M[k]) else g[k].value
    {
      if k in grad {
        var j :| 0 <= j < |ks| && ks[j] == k;
        RebindAllFresh(g, ks, M, j);
        assert Strip(h)[k] == Strip(RebindAll(g, ks, M))[k];
      } else {
        AssignAllKeepsLeaf(g, ks, M, k);
      }
    }
  }

  /** `negateGradients` then `applyGradients` with rate `lr`, from a graph
      holding the variables of `g`, on slots shaped like `like`: it succeeds
      exactly when each variable has a value of its slot's shape, and a
      step from `g2` is then a step from `g`. */
  lemma NegatedStep(g: seq<Node>, g2: seq<Node>, d: map<nat, Mat>, like: map<nat, Mat>, lr: real)
    requires KeepsVariables(g, g2) && VariablesOf(g, like.Keys)
    requires d.Keys == like.Keys && forall k :: k in like ==> SameShape(d[k], like[k])
    ensures Slots(g2, NegatedAll(d))
    ensures Movable(g2, NegatedAll(d), lr) <==>
      forall k :: k in like ==> g[k].value.Some? && SameShape(g[k].value.value, like[k])
    ensures forall h :: Stepped(g2, h, NegatedAll(d), lr) ==> Stepped(g, h, NegatedAll(d), lr)
  {
    MovableShapes(g, g2, like, NegatedAll(d), lr);
    forall h | Stepped(g2, h, NegatedAll(d), lr)
      ensures Stepped(g, h, NegatedAll(d), lr)
    {
      SteppedFrom(g, g2, h, NegatedAll(d), lr);
    }
  }
}
