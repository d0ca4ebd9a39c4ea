/** The engine itself: every operand of a program, in the order it was
    created, and the operations of lazy/Operand.hpp and its three leaf
    classes as methods that update the nodes in place.

    Each method is specified against the value-level functions of `Dag`
    and `Resets`: `Eval` returns `Computed`, `Diff` returns `Delta`, and the
    resets leave exactly the graph `ResetValueOf` and `ResetDeltaOf`
    describe. Every method also keeps `Coherent`, so on a graph that
    starts coherent (the empty one does) `eval` and `diff` keep answering
    with the values and gradients the graph denotes. */
module Engine {
  import opened Matrices
  import opened Rules
  import opened Dag
  import opened Agreement
  import opened Coherence
  import opened Resets
  import opened Assignment
  import opened Construction

  /** A failing contribution makes the whole sum fail. */
  lemma {:induction false} DeltaSumPrefixFail(g: seq<Node>, n: nat, E: nat, ss: seq<nat>, k: nat, zero: Mat)
    requires n < |g| && k <= |ss| && DeltaSum(g, n, E, ss[..k], zero).Fail?
    ensures DeltaSum(g, n, E, ss, zero).Fail?
    decreases |ss| - k
  {
    if k < |ss| {
      assert ss[..k + 1][..k] == ss[..k];
      DeltaSumPrefixFail(g, n, E, ss, k + 1, zero);
    } else {
      assert ss[..k] == ss;
    }
  }

  /** One more successor's contribution added to the running sum. */
  lemma DeltaSumStep(g: seq<Node>, n: nat, E: nat, ss: seq<nat>, i: nat, zero: Mat, acc: Mat)
    requires n < |g| && i < |ss| && DeltaSum(g, n, E, ss[..i], zero) == Ok(acc)
    ensures DeltaSum(g, n, E, ss[..i + 1], zero) ==
      match Contribution(g, n, ss[i], E)
      case Fail => Fail
      case Ok(c) => if SameShape(acc, c) then Ok(Add(acc, c)) else Fail
  {
    assert ss[..i + 1][..i] == ss[..i];
  }

  /** What one turn of the loop of `diff` over the post map adds: the
      contribution of the next successor, computed on the graph as it
      stands, is the one the graph had before the loop started. */
  lemma SumLoopStep(g0: seq<Node>, gi: seq<Node>, h: seq<Node>, n: nat, E: nat, ss: seq<nat>,
                    i: nat, zero: Mat, acc: Mat, c: Result<Mat>)
    requires Wf(g0) && n < |g0| && ss == Successors(g0, n) && i < |ss|
    requires Memoised(g0, gi) && Memoised(gi, h)
    requires forall j :: 0 <= j < i ==> E in gi[ss[j]].delta
    requires c == Contribution(gi, n, ss[i], E)
    requires DeltaSum(g0, n, E, ss[..i], zero) == Ok(acc)
    ensures Memoised(g0, h)
    ensures forall j :: 0 <= j < i ==> E in h[ss[j]].delta
    ensures c.Fail? || !SameShape(acc, c.value) ==> DeltaSum(g0, n, E, ss, zero) == Fail
    ensures c.Ok? && SameShape(acc, c.value) ==> DeltaSum(g0, n, E, ss[..i + 1], zero) == Ok(Add(acc, c.value))
  {
    MemoisedTransitive(g0, gi, h);
    forall j | 0 <= j < i
      ensures E in h[ss[j]].delta
    {
      assert FilledAt(gi, h, ss[j]);
    }
    FilledContribution(g0, gi, n, ss[i], E);
    DeltaSumStep(g0, n, E, ss, i, zero, acc);
    if c.Fail? || !SameShape(acc, c.value) {
      DeltaSumPrefixFail(g0, n, E, ss, i + 1, zero);
    }
  }

  /** Once every successor visited by the loop holds a gradient for `E`,
      every successor does. */
  lemma SuccessorsCovered(g0: seq<Node>, h: seq<Node>, n: nat, E: nat)
    requires Wf(g0) && n < |g0| && Filled(g0, h)
    requires forall j :: 0 <= j < |Successors(g0, n)| ==> E in h[Successors(g0, n)[j]].delta
    ensures forall s :: s in h[n].post && s < |h| ==> E in h[s].delta
  {
    var ss := Successors(g0, n);
    assert NodeOk(g0, n) && FilledAt(g0, h, n);
    forall s | s in h[n].post && s < |h|
      ensures E in h[s].delta
    {
      assert s in ss;
      var j :| 0 <= j < |ss| && ss[j] == s;
    }
  }

  /** `MemoisedCoherent`, for a graph that may or may not be coherent. */
  lemma KeepCoherent(g: seq<Node>, h: seq<Node>)
    requires Memoised(g, h)
    ensures Coherent(g) ==> Coherent(h)
  {
    if Coherent(g) {
      MemoisedCoherent(g, h);
    }
  }

  class Graph {
    /** The operands, indexed by creation order. */
    var nodes: seq<Node>

    ghost predicate Valid()
      reads this
    {
      Wf(nodes)
    }

    constructor ()
      ensures Valid() && nodes == [] && Coherent(nodes)
    {
      nodes := [];
    }

    /** `eval`: the cached value if there is one; otherwise the forward
        function is run and its result cached. A constant or a variable
        never runs a forward function. Only values change, only of `n` and
        the nodes it reads, and only by filling them. */
    method Eval(n: nat) returns (r: Result<Mat>)
      requires Valid() && n < |nodes|
      modifies this
      ensures Valid()
      ensures Memoised(old(nodes), nodes)
      ensures Coherent(old(nodes)) ==> Coherent(nodes)
      ensures r == Computed(old(nodes), n)
      ensures r.Ok? ==> nodes[n].value == Some(r.value)
      ensures forall m :: 0 <= m < |nodes| ==> nodes[m].delta == old(nodes)[m].delta
      ensures forall m :: n < m < |nodes| ==> nodes[m] == old(nodes)[m]
      ensures old(nodes)[n].kind == Constant || old(nodes)[n].kind == Variable ==> nodes == old(nodes)
      decreases n, 1
    {
      var x := nodes[n];
      if x.value.Some? {
        MemoisedReflexive(nodes);
        return Ok(x.value.value);
      }
      if x.kind == Constant || x.kind == Variable {
        MemoisedReflexive(nodes);
        return Fail;
      }
      ghost var g0 := nodes;
      var out := Run(n);
      if out.Fail? {
        KeepCoherent(g0, nodes);
        return Fail;
      }
      ghost var g1 := nodes;
      FilledComputed(g0, g1);
      CacheValue(g1, n, out.value);
      nodes := nodes[n := nodes[n].(value := Some(out.value))];
      MemoisedTransitive(g0, g1, nodes);
      r := out;
      KeepCoherent(g0, nodes);
    }

    /** The forward function `m_f` of a bare operand or a placeholder: the
        value of its inputs, combined; with no inputs, an empty matrix. It
        caches nothing at `n` itself, but leaves every input cached. */
    method Run(n: nat) returns (r: Result<Mat>)
      requires Valid() && n < |nodes|
      requires nodes[n].value.None? && (nodes[n].kind == Plain || nodes[n].kind == Placeholder)
      modifies this
      ensures Valid()
      ensures Memoised(old(nodes), nodes)
      ensures r == Computed(old(nodes), n)
      ensures r.Ok? ==> forall p :: p in nodes[n].pre && p < |nodes| ==> nodes[p].value.Some?
      ensures forall m :: 0 <= m < |nodes| ==> nodes[m].delta == old(nodes)[m].delta
      ensures forall m :: n <= m < |nodes| ==> nodes[m] == old(nodes)[m]
      decreases n, 0
    {
      var f := nodes[n].fwd;
      assert NodeOk(nodes, n);
      if f.Default? {
        MemoisedReflexive(nodes);
        return Ok(Empty);
      }
      ghost var g0 := nodes;
      var a := Eval(f.a);
      if a.Fail? {
        return Fail;
      }
      if !f.Binary() {
        return Apply(f, a.value, a.value);
      }
      ghost var g1 := nodes;
      var b := Eval(f.b);
      FilledComputed(g0, g1);
      MemoisedTransitive(g0, g1, nodes);
      if b.Fail? {
        return Fail;
      }
      assert FilledAt(g1, nodes, f.a);
      r := Apply(f, a.value, b.value);
    }

    /** `diff(E)`, the gradient of `E` with respect to `n`. A placeholder
        always answers zeros of its value's shape and overwrites its entry
        for `E`; any other node returns its entry for `E` if it has one
        and otherwise computes and stores it. Entries for other seeds are
        left alone. */
    method Diff(n: nat, E: nat) returns (r: Result<Mat>)
      requires Valid() && n < |nodes|
      modifies this
      ensures Valid()
      ensures Memoised(old(nodes), nodes)
      ensures Coherent(old(nodes)) ==> Coherent(nodes)
      ensures r == Delta(old(nodes), n, E)
      ensures r.Ok? ==> E in nodes[n].delta && nodes[n].delta[E] == r.value
      ensures old(nodes)[n].kind != Placeholder && E in old(nodes)[n].delta ==> nodes == old(nodes)
      ensures forall m :: 0 <= m < |nodes| ==> nodes[m].delta - {E} == old(nodes)[m].delta - {E}
      decreases |nodes| - n, 3
    {
      var x := nodes[n];
      if x.kind != Placeholder && E in x.delta {
        MemoisedReflexive(nodes);
        return Ok(x.delta[E]);
      }
      ghost var g0 := nodes;
      var v := Eval(n);
      if v.Fail? {
        KeepCoherent(g0, nodes);
        return Fail;
      }
      ghost var g1 := nodes;
      FilledRefines(g0, g1);
      assert nodes[n].delta == x.delta && FilledAt(g0, g1, n);
      if x.kind == Placeholder {
        r := Ok(Zero(v.value.rows, v.value.cols));
        CachePlaceholderDelta(g1, n, E, r.value);
        nodes := nodes[n := nodes[n].(delta := nodes[n].delta[E := r.value])];
        MemoisedTransitive(g0, g1, nodes);
        KeepCoherent(g0, nodes);
        return;
      }
      r := Accumulate(n, E, v.value);
      ghost var g2 := nodes;
      MemoisedTransitive(g0, g1, g2);
      if r.Ok? {
        nodes := nodes[n := nodes[n].(delta := nodes[n].delta[E := r.value])];
        MemoisedTransitive(g0, g2, nodes);
      }
      KeepCoherent(g0, nodes);
    }

    /** The gradient of an evaluated node that is not a placeholder and
        holds no entry for `E`: at a sink, ones if it is `E` and zeros if
        not; elsewhere, zeros plus the contributions of its successors. When
        it succeeds, the graph is left ready to cache it. */
    method Accumulate(n: nat, E: nat, val: Mat) returns (r: Result<Mat>)
      requires Valid() && n < |nodes| && nodes[n].value == Some(val)
      requires nodes[n].kind != Placeholder && E !in nodes[n].delta
      modifies this
      ensures Valid()
      ensures Memoised(old(nodes), nodes)
      ensures r == Delta(old(nodes), n, E)
      ensures r.Ok? ==> Memoised(nodes, nodes[n := nodes[n].(delta := nodes[n].delta[E := r.value])])
      ensures r.Ok? ==> Wf(nodes[n := nodes[n].(delta := nodes[n].delta[E := r.value])])
      ensures forall m :: 0 <= m < |nodes| ==> nodes[m].delta - {E} == old(nodes)[m].delta - {E}
      decreases |nodes| - n, 2
    {
      ghost var g0 := nodes;
      var zero := Zero(val.rows, val.cols);
      assert NodeOk(g0, n);
      if |nodes[n].post| == 0 {
        r := Ok(if n == E then Ones(val.rows, val.cols) else zero);
        MemoisedReflexive(nodes);
      } else {
        r := SumSuccessors(n, E, zero);
        FilledRefines(g0, nodes);
        assert FilledAt(g0, nodes, n);
      }
      if r.Ok? {
        CacheDelta(nodes, n, E, r.value);
      }
    }

    /** The loop of `diff` over the post map: `zero` plus every successor's
        contribution, in order. Every successor is left holding its
        gradient for `E`. */
    method SumSuccessors(n: nat, E: nat, zero: Mat) returns (r: Result<Mat>)
      requires Valid() && n < |nodes| && nodes[n].value.Some?
      modifies this
      ensures Valid()
      ensures Memoised(old(nodes), nodes)
      ensures r == DeltaSum(old(nodes), n, E, Successors(old(nodes), n), zero)
      ensures r.Ok? ==> forall s :: s in nodes[n].post && s < |nodes| ==> E in nodes[s].delta
      ensures forall m :: 0 <= m < |nodes| ==> nodes[m].delta - {E} == old(nodes)[m].delta - {E}
      decreases |nodes| - n, 1, 0
    {
      ghost var g0 := nodes;
      var ss := Successors(nodes, n);
      var acc := zero;
      var i := 0;
      assert NodeOk(g0, n);
      MemoisedReflexive(nodes);
      assert DeltaSum(g0, n, E, ss[..0], zero) == Ok(zero);
      while i < |ss|
        invariant 0 <= i <= |ss|
        invariant Wf(nodes) && |nodes| == |g0|
        invariant Memoised(g0, nodes)
        invariant DeltaSum(g0, n, E, ss[..i], zero) == Ok(acc)
        invariant forall j :: 0 <= j < i ==> E in nodes[ss[j]].delta
        invariant forall m :: 0 <= m < |nodes| ==> nodes[m].delta - {E} == g0[m].delta - {E}
      {
        var c := Next(n, E, ss, i, zero, acc, g0);
        if c.Fail? || !SameShape(acc, c.value) {
          return Fail;
        }
        acc := Add(acc, c.value);
        i := i + 1;
      }
      assert ss[..|ss|] == ss;
      SuccessorsCovered(g0, nodes, n, E);
      r := Ok(acc);
    }

    /** One turn of that loop: the contribution of successor `ss[i]`. */
    method Next(n: nat, E: nat, ss: seq<nat>, i: nat, zero: Mat, acc: Mat, ghost g0: seq<Node>)
      returns (c: Result<Mat>)
      requires Valid() && Wf(g0) && n < |g0| && ss == Successors(g0, n) && i < |ss|
      requires Memoised(g0, nodes) && g0[n].value.Some?
      requires forall j :: 0 <= j < i ==> E in nodes[ss[j]].delta
      requires DeltaSum(g0, n, E, ss[..i], zero) == Ok(acc)
      modifies this
      ensures Valid()
      ensures Memoised(g0, nodes)
      ensures c.Fail? || !SameShape(acc, c.value) ==> DeltaSum(g0, n, E, ss, zero) == Fail
      ensures c.Ok? && SameShape(acc, c.value) ==>
        DeltaSum(g0, n, E, ss[..i + 1], zero) == Ok(Add(acc, c.value)) &&
        forall j :: 0 <= j < i + 1 ==> E in nodes[ss[j]].delta
      ensures forall m :: 0 <= m < |nodes| ==> nodes[m].delta - {E} == old(nodes)[m].delta - {E}
      decreases |nodes| - n, 0, 1
    {
      ghost var gi := nodes;
      var s := ss[i];
      assert n < s < |nodes| && s in nodes[n].post && nodes[n].value.Some? by {
        assert FilledAt(g0, gi, n);
      }
      c := Contribute(n, s, E);
      SumLoopStep(g0, gi, nodes, n, E, ss, i, zero, acc, c);
    }

    /** One closure of `n`'s post map, run for `E`: the successor's
        gradient, passed through the rule together with the value of `n`
        and, for a product, the value of the other operand. */
    method Contribute(n: nat, s: nat, E: nat) returns (c: Result<Mat>)
      requires Valid() && n < s < |nodes| && s in nodes[n].post && nodes[n].value.Some?
      modifies this
      ensures Valid()
      ensures Memoised(old(nodes), nodes)
      ensures c == Contribution(old(nodes), n, s, E)
      ensures c.Ok? ==> E in nodes[s].delta
      ensures forall m :: 0 <= m < |nodes| ==> nodes[m].delta - {E} == old(nodes)[m].delta - {E}
      decreases |nodes| - n, 0, 0
    {
      ghost var g0 := nodes;
      assert NodeOk(g0, n) && NodeOk(g0, s);
      var u := nodes[n].value.value;
      assert Computed(g0, n) == Ok(u);
      var rule := nodes[n].post[s];
      var G := Diff(s, E);
      ghost var g1 := nodes;
      FilledRefines(g0, g1);
      if G.Fail? {
        return Fail;
      }
      if !rule.ReadsOther() {
        c := Backward(rule, G.value, u, u);
      } else {
        assert rule.other < |g0|;
        var w := Eval(rule.other);
        assert w == Computed(g0, rule.other);
        MemoisedTransitive(g0, g1, nodes);
        if w.Fail? {
          return Fail;
        }
        c := Backward(rule, G.value, u, w.value);
        assert FilledAt(g1, nodes, s);
      }
    }

    /** `reset_delta`: a node that is not a constant and holds gradients
        drops them all and passes the reset to its inputs. */
    method ResetDelta(n: nat)
      requires Valid() && n < |nodes|
      modifies this
      ensures Valid()
      ensures nodes == ResetDeltaOf(old(nodes), n)
      decreases n
    {
      ghost var g0 := nodes;
      if nodes[n].kind == Constant || |nodes[n].delta| == 0 {
        ClearNothing(g0);
        return;
      }
      ClearDeltaAt(g0, n);
      ClearSetsWf(g0, {}, {n});
      nodes := nodes[n := nodes[n].(delta := map[])];
      var ps := Ascending(nodes[n].pre, 0, n);
      var i := 0;
      assert ps[..0] == [];
      while i < |ps|
        invariant 0 <= i <= |ps|
        invariant nodes == ClearSets(g0, {}, {n} + BackReachOf(g0, n, ps[..i]))
        invariant Wf(nodes)
      {
        ResetDeltaStep(g0, n, ps, i);
        ResetDelta(ps[i]);
        i := i + 1;
      }
      assert ps[..|ps|] == ps;
    }

    /** `reset_value`: a node that is not a constant and holds a value drops
        it, and then resets the gradients if it is a sink, or the values of
        its successors if not. */
    method ResetValue(n: nat)
      requires Valid() && n < |nodes|
      modifies this
      ensures Valid()
      ensures nodes == ResetValueOf(old(nodes), n)
      decreases |nodes| - n
    {
      ghost var g0 := nodes;
      if nodes[n].kind == Constant || nodes[n].value.None? {
        ClearNothing(g0);
        assert Sinks(g0, {}) == {};
        return;
      }
      ClearValueAt(g0, n);
      ClearSetsWf(g0, {n}, {});
      nodes := nodes[n := nodes[n].(value := None)];
      if |nodes[n].post| == 0 {
        ResetValueSink(g0, n);
        ResetDelta(n);
        return;
      }
      var ss := Successors(nodes, n);
      assert ss == Successors(g0, n);
      var i := 0;
      assert ss[..0] == [];
      WalkStart(g0, n);
      while i < |ss|
        invariant 0 <= i <= |ss| && |nodes| == |g0|
        invariant Wf(nodes)
        invariant nodes == Walk(g0, {n} + FwdReachOf(g0, n, ss[..i]))
      {
        ResetValueLoopStep(g0, n, ss, i);
        ResetValue(ss[i]);
        i := i + 1;
      }
      assert ss[..|ss|] == ss;
    }

    /** `Variable::operator=` and the step of `applyPlaceholders`: the
        operand runs `reset_value` and then stores `m`. On a coherent graph
        the result is coherent and denotes the old graph with `n` holding
        `m`; whatever does not depend on `n` keeps its value. */
    method Assign(n: nat, m: Mat)
      requires Valid() && n < |nodes| && (nodes[n].kind == Variable || nodes[n].kind == Placeholder)
      modifies this
      ensures Valid()
      ensures nodes == AssignOf(old(nodes), n, m)
      ensures Strip(nodes) == Strip(Rebind(old(nodes), n, m))
      ensures Fresh(nodes, n) == Ok(m)
      ensures forall y :: 0 <= y < |nodes| && !DependsOn(old(nodes), y, n) ==> Fresh(nodes, y) == Fresh(old(nodes), y)
      ensures Coherent(old(nodes)) ==> Coherent(nodes)
    {
      ghost var g0 := nodes;
      ResetValue(n);
      nodes := nodes[n := nodes[n].(value := Some(m))];
      AssignWf(g0, n, m);
      StripAssign(g0, n, m);
      AssignFreshAt(g0, n, m);
      forall y | 0 <= y < |nodes| && !DependsOn(g0, y, n)
        ensures Fresh(nodes, y) == Fresh(g0, y)
      {
        ComputedIndependent(g0, n, m, y);
      }
      if Coherent(g0) {
        AssignCoherent(g0, n, m);
      }
    }

    /** `applyPlaceholders`: every placeholder in `mp` is assigned its
        value, in increasing order of the operands. */
    method ApplyPlaceholders(mp: map<nat, Mat>)
      requires Valid()
      requires forall k :: k in mp ==> k < |nodes| && nodes[k].kind == Placeholder
      modifies this
      ensures Valid()
      ensures nodes == AssignAll(old(nodes), Ascending(mp.Keys, 0, |old(nodes)|), mp)
      ensures Strip(nodes) == Strip(RebindAll(old(nodes), Ascending(mp.Keys, 0, |old(nodes)|), mp))
      ensures forall k :: k in mp ==> Fresh(nodes, k) == Ok(mp[k])
      ensures Coherent(old(nodes)) ==> Coherent(nodes)
    {
      ghost var g0 := nodes;
      var ks := Ascending(mp.Keys, 0, |nodes|);
      assert Bindable(g0, ks, mp);
      AssignEach(ks, mp);
      AssignAllSettles(g0, ks, mp);
    }

    /** The loop of `applyPlaceholders`: the keys `ks` are assigned in
        turn. */
    method AssignEach(ks: seq<nat>, mp: map<nat, Mat>)
      requires Valid() && Bindable(nodes, ks, mp)
      modifies this
      ensures Valid() && nodes == AssignAll(old(nodes), ks, mp)
    {
      ghost var g0 := nodes;
      var i := 0;
      assert ks[..0] == [];
      while i < |ks|
        invariant 0 <= i <= |ks|
        invariant Bindable(g0, ks[..i], mp)
        invariant nodes == AssignAll(g0, ks[..i], mp)
        invariant Wf(nodes)
      {
        var k := ks[i];
        assert k < |g0| && k in mp && (g0[k].kind == Variable || g0[k].kind == Placeholder);
        AssignAllExtend(g0, ks, mp, i);
        Assign(k, mp[k]);
        i := i + 1;
      }
      assert ks[..|ks|] == ks;
    }

    /** Appends a node of the given kind, forward function and value, with
        no successors and no caches; no input knows of it yet. */
    method Push(kind: Kind, fwd: Forward, value: Option<Mat>) returns (ret: nat)
      modifies this
      ensures ret == |old(nodes)|
      ensures nodes == Attach(old(nodes), kind, fwd, value, map[])
    {
      ret := |nodes|;
      nodes := nodes + [Node(kind, fwd, fwd.Inputs(), map[], value, map[])];
      assert nodes == Attach(old(nodes), kind, fwd, value, map[]);
    }

    /** `t->getPostOperand()[s] = rule`. */
    method Connect(t: nat, s: nat, rule: Rule)
      requires t < |nodes|
      modifies this
      ensures nodes == Link(old(nodes), t, s, rule)
    {
      nodes := nodes[t := nodes[t].(post := nodes[t].post[s := rule])];
    }

    /** `make_operand`: a bare operand whose forward function yields an
        empty matrix. */
    method MakeOperand() returns (ret: nat)
      requires Valid()
      modifies this
      ensures ret == |old(nodes)| && nodes == Attach(old(nodes), Plain, Default, None, map[])
      ensures Valid()
      ensures Fresh(nodes, ret) == Ok(Empty)
      ensures forall y :: 0 <= y < ret ==> Fresh(nodes, y) == Fresh(old(nodes), y)
      ensures Coherent(old(nodes)) ==> Coherent(nodes)
    {
      ghost var g := nodes;
      ret := Push(Plain, Default, None);
      AttachSettles(g, Plain, Default, None, map[]);
    }

    /** A `Constant` holding `v`: it never changes. */
    method MakeConstant(v: Mat) returns (ret: nat)
      requires Valid()
      modifies this
      ensures ret == |old(nodes)| && nodes == Attach(old(nodes), Constant, Default, Some(v), map[])
      ensures Valid()
      ensures Fresh(nodes, ret) == Ok(v)
      ensures forall y :: 0 <= y < ret ==> Fresh(nodes, y) == Fresh(old(nodes), y)
      ensures Coherent(old(nodes)) ==> Coherent(nodes)
    {
      ghost var g := nodes;
      ret := Push(Constant, Default, Some(v));
      AttachSettles(g, Constant, Default, Some(v), map[]);
    }

    /** `make_placeholder`: a leaf without a value; until one is applied
        its forward function yields an empty matrix. */
    method MakePlaceholder() returns (ret: nat)
      requires Valid()
      modifies this
      ensures ret == |old(nodes)| && nodes == Attach(old(nodes), Placeholder, Default, None, map[])
      ensures Valid()
      ensures Fresh(nodes, ret) == Ok(Empty)
      ensures forall y :: 0 <= y < ret ==> Fresh(nodes, y) == Fresh(old(nodes), y)
      ensures Coherent(old(nodes)) ==> Coherent(nodes)
    {
      ghost var g := nodes;
      ret := Push(Placeholder, Default, None);
      AttachSettles(g, Placeholder, Default, None, map[]);
    }

    /** `make_variable`: an optimizable leaf holding `v`. */
    method MakeVariable(v: Mat) returns (ret: nat)
      requires Valid()
      modifies this
      ensures ret == |old(nodes)| && nodes == Attach(old(nodes), Variable, Default, Some(v), map[])
      ensures Valid()
      ensures Optimizable(nodes[ret]) && Fresh(nodes, ret) == Ok(v)
      ensures forall y :: 0 <= y < ret ==> Fresh(nodes, y) == Fresh(old(nodes), y)
      ensures Coherent(old(nodes)) ==> Coherent(nodes)
    {
      ghost var g := nodes;
      ret := Push(Variable, Default, Some(v));
      AttachSettles(g, Variable, Default, Some(v), map[]);
    }

    /** `zero_matrix_variable`: an empty variable, then assigned the zero
        matrix of the given shape. */
    method ZeroMatrixVariable(rows: nat, cols: nat) returns (ret: nat)
      requires Valid()
      modifies this
      ensures ret == |old(nodes)| && |nodes| == ret + 1
      ensures Valid()
      ensures Optimizable(nodes[ret]) && Fresh(nodes, ret) == Ok(Zero(rows, cols))
      ensures forall y :: 0 <= y < ret ==> Fresh(nodes, y) == Fresh(old(nodes), y)
      ensures Coherent(old(nodes)) ==> Coherent(nodes)
    {
      ghost var g := nodes;
      ret := MakeVariable(Empty);
      ghost var g1 := nodes;
      Assign(ret, Zero(rows, cols));
      forall y | 0 <= y < ret
        ensures Fresh(nodes, y) == Fresh(g, y)
      {
        if DependsOn(g1, y, ret) {
          DependsOnEarlier(g1, y, ret);
        }
      }
    }

    /** `unaryExpr`: `f` applied to every entry of `t`. Input `t` registers
        the rule that multiplies the new node's gradient entrywise by `df`
        of its own value. */
    method UnaryExpr(t: nat, f: real -> real, df: real -> real) returns (ret: nat)
      requires Valid() && t < |nodes|
      modifies this
      ensures ret == |old(nodes)|
      ensures nodes == Attach(old(nodes), Plain, Forward.Map(t, f), None, map[t := Unary(df)])
      ensures Valid()
      ensures Fresh(nodes, ret) ==
        match Fresh(old(nodes), t)
        case Ok(x) => Ok(MapEntries(x, f))
        case Fail => Fail
      ensures forall y :: 0 <= y < ret ==> Fresh(nodes, y) == Fresh(old(nodes), y)
      ensures Coherent(old(nodes)) && InputsUndifferentiated(old(nodes), map[t := Unary(df)]) ==> Coherent(nodes)
    {
      ghost var g := nodes;
      ret := Push(Plain, Forward.Map(t, f), None);
      Connect(t, ret, Unary(df));
      AttachLink(g, Plain, Forward.Map(t, f), None, map[], t, Unary(df));
      AttachSettles(g, Plain, Forward.Map(t, f), None, map[t := Unary(df)]);
    }

    /** `scalar_plus`: `c` added to every entry; the derivative of each
        entry is 1. */
    method ScalarPlus(t: nat, c: real) returns (ret: nat)
      requires Valid() && t < |nodes|
      modifies this
      ensures ret == |old(nodes)| && Valid()
      ensures |nodes| == ret + 1 && nodes[ret].fwd.Map? && nodes[ret].fwd.a == t
      ensures ret in nodes[t].post && nodes[t].post[ret].Unary?
      ensures forall v :: nodes[t].post[ret].df(v) == 1.0
      ensures Fresh(nodes, ret).Ok? <==> Fresh(old(nodes), t).Ok?
      ensures Fresh(nodes, ret).Ok? ==>
        var x, r := Fresh(old(nodes), t).value, Fresh(nodes, ret).value;
        SameShape(r, x) && forall i, j :: 0 <= i < x.rows && 0 <= j < x.cols ==> r.data[i][j] == x.data[i][j] + c
      ensures forall y :: 0 <= y < ret ==> Fresh(nodes, y) == Fresh(old(nodes), y)
      ensures Coherent(old(nodes)) && Undifferentiated(old(nodes), t) ==> Coherent(nodes)
    {
      ret := UnaryExpr(t, v => v + c, v => 1.0);
    }

    /** `scalar_product`: every entry multiplied by `c`; the derivative of
        each entry is `c`. */
    method ScalarProduct(t: nat, c: real) returns (ret: nat)
      requires Valid() && t < |nodes|
      modifies this
      ensures ret == |old(nodes)| && Valid()
      ensures |nodes| == ret + 1 && nodes[ret].fwd.Map? && nodes[ret].fwd.a == t
      ensures ret in nodes[t].post && nodes[t].post[ret].Unary?
      ensures forall v :: nodes[t].post[ret].df(v) == c
      ensures Fresh(nodes, ret).Ok? <==> Fresh(old(nodes), t).Ok?
      ensures Fresh(nodes, ret).Ok? ==>
        var x, r := Fresh(old(nodes), t).value, Fresh(nodes, ret).value;
        SameShape(r, x) && forall i, j :: 0 <= i < x.rows && 0 <= j < x.cols ==> r.data[i][j] == x.data[i][j] * c
      ensures forall y :: 0 <= y < ret ==> Fresh(nodes, y) == Fresh(old(nodes), y)
      ensures Coherent(old(nodes)) && Undifferentiated(old(nodes), t) ==> Coherent(nodes)
    {
      ret := UnaryExpr(t, v => v * c, v => c);
    }

    /** What the binary operators share: a bare operand computing `fwd`
        from `a` and `b`, with `ra` registered at `a` and then `rb` at `b`;
        when `a` and `b` are the same operand, `rb` replaces `ra`. */
    method Binary(fwd: Forward, a: nat, b: nat, ra: Rule, rb: Rule) returns (ret: nat)
      requires Valid() && a < |nodes| && b < |nodes|
      requires fwd.Binary() && fwd.a == a && fwd.b == b
      requires ra.ReadsOther() ==> ra.other == b
      requires rb.ReadsOther() ==> rb.other == a
      modifies this
      ensures ret == |old(nodes)|
      ensures nodes == Attach(old(nodes), Plain, fwd, None, map[a := ra][b := rb])
      ensures Valid()
      ensures Fresh(nodes, ret) == Lift(fwd, Fresh(old(nodes), a), Fresh(old(nodes), b))
      ensures forall y :: 0 <= y < ret ==> Fresh(nodes, y) == Fresh(old(nodes), y)
      ensures Coherent(old(nodes)) && InputsUndifferentiated(old(nodes), map[a := ra][b := rb]) ==> Coherent(nodes)
    {
      ghost var g := nodes;
      ghost var rules := map[a := ra][b := rb];
      ret := Push(Plain, fwd, None);
      Connect(a, ret, ra);
      Connect(b, ret, rb);
      AttachLink(g, Plain, fwd, None, map[], a, ra);
      AttachLink(g, Plain, fwd, None, map[a := ra], b, rb);
      assert nodes == Attach(g, Plain, fwd, None, rules);
      AttachSettles(g, Plain, fwd, None, rules);
    }

    /** `colwise_plus`: the first column of `vec` added to every column of `t1`. The matrix passes the gradient through; the vector takes its row sums. */
    method ColwisePlus(t1: nat, vec: nat) returns (ret: nat)
      requires Valid() && t1 < |nodes| && vec < |nodes|
      modifies this
      ensures ret == |old(nodes)|
      ensures nodes == Attach(old(nodes), Plain, Forward.ColwisePlus(t1, vec), None, map[t1 := PassThrough][vec := SumRows])
      ensures Valid()
      ensures Fresh(nodes, ret) == Lift(Forward.ColwisePlus(t1, vec), Fresh(old(nodes), t1), Fresh(old(nodes), vec))
      ensures forall y :: 0 <= y < ret ==> Fresh(nodes, y) == Fresh(old(nodes), y)
      ensures Coherent(old(nodes)) && InputsUndifferentiated(old(nodes), map[t1 := PassThrough][vec := SumRows]) ==>
        Coherent(nodes)
    {
      ret := Binary(Forward.ColwisePlus(t1, vec), t1, vec, PassThrough, SumRows);
    }

    /** `rowwise_plus`: the first row of `vec` added to every row of `t1`. The matrix passes the gradient through; the vector takes its column sums. */
    method RowwisePlus(t1: nat, vec: nat) returns (ret: nat)
      requires Valid() && t1 < |nodes| && vec < |nodes|
      modifies this
      ensures ret == |old(nodes)|
      ensures nodes == Attach(old(nodes), Plain, Forward.RowwisePlus(t1, vec), None, map[t1 := PassThrough][vec := SumCols])
      ensures Valid()
      ensures Fresh(nodes, ret) == Lift(Forward.RowwisePlus(t1, vec), Fresh(old(nodes), t1), Fresh(old(nodes), vec))
      ensures forall y :: 0 <= y < ret ==> Fresh(nodes, y) == Fresh(old(nodes), y)
      ensures Coherent(old(nodes)) && InputsUndifferentiated(old(nodes), map[t1 := PassThrough][vec := SumCols]) ==>
        Coherent(nodes)
    {
      ret := Binary(Forward.RowwisePlus(t1, vec), t1, vec, PassThrough, SumCols);
    }

    /** `dot_product`: the matrix product. The left factor takes `G * t2ᵀ`, the right one `t1ᵀ * G`; when both are the same operand the second rule replaces the first. */
    method DotProduct(t1: nat, t2: nat) returns (ret: nat)
      requires Valid() && t1 < |nodes| && t2 < |nodes|
      modifies this
      ensures ret == |old(nodes)|
      ensures nodes == Attach(old(nodes), Plain, Forward.DotProduct(t1, t2), None, map[t1 := DotLeft(t2)][t2 := DotRight(t1)])
      ensures Valid()
      ensures Fresh(nodes, ret) == Lift(Forward.DotProduct(t1, t2), Fresh(old(nodes), t1), Fresh(old(nodes), t2))
      ensures forall y :: 0 <= y < ret ==> Fresh(nodes, y) == Fresh(old(nodes), y)
      ensures Coherent(old(nodes)) && InputsUndifferentiated(old(nodes), map[t1 := DotLeft(t2)][t2 := DotRight(t1)]) ==>
        Coherent(nodes)
    {
      ret := Binary(Forward.DotProduct(t1, t2), t1, t2, DotLeft(t2), DotRight(t1));
    }

    /** `hadamard_product`: the entrywise product. Each factor takes the gradient times the other factor; when both are the same operand the second rule replaces the first. */
    method HadamardProduct(t1: nat, t2: nat) returns (ret: nat)
      requires Valid() && t1 < |nodes| && t2 < |nodes|
      modifies this
      ensures ret == |old(nodes)|
      ensures nodes == Attach(old(nodes), Plain, Forward.HadamardProduct(t1, t2), None, map[t1 := HadamardWith(t2)][t2 := HadamardWith(t1)])
      ensures Valid()
      ensures Fresh(nodes, ret) == Lift(Forward.HadamardProduct(t1, t2), Fresh(old(nodes), t1), Fresh(old(nodes), t2))
      ensures forall y :: 0 <= y < ret ==> Fresh(nodes, y) == Fresh(old(nodes), y)
      ensures Coherent(old(nodes)) && InputsUndifferentiated(old(nodes), map[t1 := HadamardWith(t2)][t2 := HadamardWith(t1)]) ==>
        Coherent(nodes)
    {
      ret := Binary(Forward.HadamardProduct(t1, t2), t1, t2, HadamardWith(t2), HadamardWith(t1));
    }

    /** `reduce_sum`: the sums of the rows, of the columns, or of all entries, as a column, a row or a 1x1 matrix; the input spreads the gradient back over the entries it summed. */
    method ReduceSum(t: nat, axis: Axis) returns (ret: nat)
      requires Valid() && t < |nodes|
      modifies this
      ensures ret == |old(nodes)|
      ensures nodes == Attach(old(nodes), Plain, Forward.ReduceSum(t, axis), None, map[t := SumBack(axis)])
      ensures Valid()
      ensures Fresh(nodes, ret) == Lift(Forward.ReduceSum(t, axis), Fresh(old(nodes), t), Fresh(old(nodes), t))
      ensures forall y :: 0 <= y < ret ==> Fresh(nodes, y) == Fresh(old(nodes), y)
      ensures Coherent(old(nodes)) && InputsUndifferentiated(old(nodes), map[t := SumBack(axis)]) ==> Coherent(nodes)
    {
      ghost var g := nodes;
      var fwd := Forward.ReduceSum(t, axis);
      ret := Push(Plain, fwd, None);
      Connect(t, ret, SumBack(axis));
      AttachLink(g, Plain, fwd, None, map[], t, SumBack(axis));
      AttachSettles(g, Plain, fwd, None, map[t := SumBack(axis)]);
    }

    /** `reduce_mean`: the means of the rows, of the columns, or of all entries; the input spreads the gradient back divided by the number of entries averaged. */
    method ReduceMean(t: nat, axis: Axis) returns (ret: nat)
      requires Valid() && t < |nodes|
      modifies this
      ensures ret == |old(nodes)|
      ensures nodes == Attach(old(nodes), Plain, Forward.ReduceMean(t, axis), None, map[t := MeanBack(axis)])
      ensures Valid()
      ensures Fresh(nodes, ret) == Lift(Forward.ReduceMean(t, axis), Fresh(old(nodes), t), Fresh(old(nodes), t))
      ensures forall y :: 0 <= y < ret ==> Fresh(nodes, y) == Fresh(old(nodes), y)
      ensures Coherent(old(nodes)) && InputsUndifferentiated(old(nodes), map[t := MeanBack(axis)]) ==> Coherent(nodes)
    {
      ghost var g := nodes;
      var fwd := Forward.ReduceMean(t, axis);
      ret := Push(Plain, fwd, None);
      Connect(t, ret, MeanBack(axis));
      AttachLink(g, Plain, fwd, None, map[], t, MeanBack(axis));
      AttachSettles(g, Plain, fwd, None, map[t := MeanBack(axis)]);
    }
  }
}
