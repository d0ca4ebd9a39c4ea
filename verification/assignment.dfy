/** Assigning a new value to a variable or a placeholder.

    `Variable::operator=` and `applyPlaceholders` first run `reset_value`
    on the operand and then store the new value. The engine never checks a
    cache again, so the walk of `reset_value` has to drop every cached value
    and gradient that the new value makes stale. The theorem of this module
    is that it does: on a coherent graph, the graph after the assignment is
    coherent again, and it denotes the old graph with the operand's value
    replaced. */
module Assignment {
  import opened Matrices
  import opened Rules
  import opened Dag
  import opened Agreement
  import opened Coherence
  import opened Resets

  /** The graph with leaf `n` holding `m`; nothing else changes. */
  ghost function Rebind(g: seq<Node>, n: nat, m: Mat): (r: seq<Node>)
    requires n < |g|
    ensures |r| == |g|
  {
    g[n := g[n].(value := Some(m))]
  }

  /** The graph after `reset_value` on `n` and storing `m` as its value. */
  ghost function AssignOf(g: seq<Node>, n: nat, m: Mat): (r: seq<Node>)
    requires n < |g|
    ensures |r| == |g|
    ensures forall y :: 0 <= y < |g| ==> r[y].kind == g[y].kind && r[y].pre == g[y].pre
  {
    Rebind(ResetValueOf(g, n), n, m)
  }

  /** The caches `reset_value` on `n` drops are the only thing besides the
      value of `n` an assignment changes, and they are all dropped by
      `Strip` anyway: the assigned graph denotes the rebound one. */
  lemma StripAssign(g: seq<Node>, n: nat, m: Mat)
    requires Wf(g) && n < |g| && g[n].kind != Plain
    ensures Strip(AssignOf(g, n, m)) == Strip(Rebind(g, n, m))
  {
    var a, b := Strip(AssignOf(g, n, m)), Strip(Rebind(g, n, m));
    forall i | 0 <= i < |g|
      ensures a[i] == b[i]
    {
      if i != n && i in FwdReach(g, n) {
        FwdReachPlain(g, n, i);
      }
    }
  }

  /** The value `n` denotes after the assignment is the value assigned. */
  lemma AssignFreshAt(g: seq<Node>, n: nat, m: Mat)
    requires Wf(g) && n < |g| && g[n].kind != Plain
    ensures Fresh(AssignOf(g, n, m), n) == Ok(m)
  {
    StripAssign(g, n, m);
  }

  /** Rebinding a leaf keeps a graph well formed. */
  lemma RebindWf(g: seq<Node>, n: nat, m: Mat)
    requires Wf(g) && n < |g|
    ensures Wf(Rebind(g, n, m))
  {
    var h := Rebind(g, n, m);
    forall i | 0 <= i < |h|
      ensures NodeOk(h, i)
    {
      assert NodeOk(g, i);
    }
  }

  /** A node that does not depend on `n` does not read its value. */
  lemma ComputedIndependent(g: seq<Node>, n: nat, m: Mat, y: nat)
    requires Wf(g) && n < |g| && y < |g| && g[n].kind != Plain && !DependsOn(g, y, n)
    ensures Fresh(Rebind(g, n, m), y) == Fresh(g, y)
  {
    var g1, g2 := Strip(g), Strip(Rebind(g, n, m));
    var Y := set z | 0 <= z < |g| && !DependsOn(g, z, n);
    forall z | z in Y
      ensures z < |g1| && z < |g2| && ValueAgreeAt(g1, g2, Y, z)
    {
      assert NodeOk(g, z);
      if !g[z].fwd.Default? && g[z].fwd.a < z && g[z].fwd.Second() < z {
        assert g[z].fwd.a in g[z].pre && g[z].fwd.Second() in g[z].pre;
      }
    }
    ComputedAgree(g1, g2, Y, y);
  }

  /** `reset_value` on `p` reaches a cached successor of `p`. */
  lemma ReachSuccessor(g: seq<Node>, p: nat, s: nat)
    requires p < s < |g| && s in g[p].post
    requires g[p].kind != Constant && g[p].value.Some?
    requires g[s].kind != Constant && g[s].value.Some?
    ensures s in FwdReach(g, p)
  {
    var ss := Successors(g, p);
    assert s in ss;
    var k :| 0 <= k < |ss| && ss[k] == s;
    FwdReachOfMember(g, p, ss, k);
  }

  /** `reset_delta` on `s` reaches an input of `s` that holds gradients. */
  lemma BackReachInput(g: seq<Node>, s: nat, p: nat)
    requires p < s < |g| && p in g[s].pre
    requires g[s].kind != Constant && |g[s].delta| > 0
    requires g[p].kind != Constant && |g[p].delta| > 0
    ensures p in BackReach(g, s)
  {
    var ps := Ascending(g[s].pre, 0, s);
    assert p in ps;
    var k :| 0 <= k < |ps| && ps[k] == p;
    BackReachOfMember(g, s, ps, k);
  }

  /** A map holding a key is not empty. */
  lemma NonEmpty(d: map<nat, Mat>, E: nat)
    requires E in d
    ensures |d| > 0
  {
    assert E in d.Keys;
  }

  /** On a graph whose values are coherent, a cached node that depends on
      `n` is reached by `reset_value` on `n`: every node on the way is
      cached too. */
  lemma {:induction false} CachedDependentReached(g: seq<Node>, n: nat, y: nat)
    requires Wf(g) && ValuesCoherent(g) && n < |g| && y < |g| && g[n].kind != Constant
    requires g[y].value.Some? && DependsOn(g, y, n)
    ensures y in FwdReach(g, n)
    decreases y
  {
    if y != n {
      var p :| p in g[y].pre && p < y && DependsOn(g, p, n);
      assert NodeOk(g, y) && ValueCoherentAt(g, y);
      CachedDependentReached(g, n, p);
      FwdReachBounds(g, n, p);
      ReachSuccessor(g, p, y);
      FwdReachTrans(g, n, p);
    }
  }

  /** On a graph whose gradients sit where `diff` puts them, a node reached by `reset_value` on `n` that holds
      a gradient is reached by `reset_delta` from a sink of the walk. */
  lemma {:induction false} ReachedGradientCleared(g: seq<Node>, n: nat, x: nat, E: nat)
    requires Wf(g) && GradsClosed(g) && n < |g| && x < |g| && x in FwdReach(g, n)
    requires (g[x].kind == Plain || g[x].kind == Variable) && E in g[x].delta
    ensures x in BackReachAll(g, Sinks(g, FwdReach(g, n)))
    decreases |g| - x
  {
    var F := FwdReach(g, n);
    FwdReachBounds(g, n, x);
    NonEmpty(g[x].delta, E);
    assert GradClosedAt(g, x);
    if |g[x].post| == 0 {
      assert x in Sinks(g, F);
      assert x in BackReach(g, x);
    } else {
      var s :| s in g[x].post;
      SuccessorIsPlain(g, x, s);
      assert GradClosedAt(g, s);
      ReachSuccessor(g, x, s);
      FwdReachTrans(g, n, x);
      ReachedGradientCleared(g, n, s, E);
      var t :| t in Sinks(g, F) && t < |g| && s in BackReach(g, t);
      NonEmpty(g[s].delta, E);
      assert x in g[s].pre by {
        assert NodeOk(g, x);
      }
      BackReachInput(g, s, x);
      BackReachTrans(g, t, s);
    }
  }

  /** On such a graph, the successors of a node holding a gradient that
      survives the walk keep their gradients too. */
  lemma GradientKeptAbove(g: seq<Node>, n: nat, x: nat, s: nat, E: nat)
    requires Wf(g) && GradsClosed(g) && n < |g| && x < |g| && s in g[x].post
    requires (g[x].kind == Plain || g[x].kind == Variable) && E in g[x].delta
    requires x !in BackReachAll(g, Sinks(g, FwdReach(g, n)))
    ensures s < |g| && E in g[s].delta && s !in BackReachAll(g, Sinks(g, FwdReach(g, n)))
  {
    var D := BackReachAll(g, Sinks(g, FwdReach(g, n)));
    SuccessorIsPlain(g, x, s);
    assert GradClosedAt(g, x);
    if s in D {
      var t :| t in Sinks(g, FwdReach(g, n)) && t < |g| && s in BackReach(g, t);
      NonEmpty(g[s].delta, E);
      NonEmpty(g[x].delta, E);
      assert x in g[s].pre by {
        assert NodeOk(g, x);
      }
      BackReachInput(g, s, x);
      BackReachTrans(g, t, s);
    }
  }

  /** The nodes whose gradient for `E` is cached and survives the walk. */
  ghost function Kept(g: seq<Node>, n: nat, E: nat): set<nat>
    requires n < |g|
  {
    set z | 0 <= z < |g| && (g[z].kind == Plain || g[z].kind == Variable) && E in g[z].delta &&
            z !in BackReachAll(g, Sinks(g, FwdReach(g, n)))
  }

  /** On a coherent graph, a cached node that the walk from `n` does not
      reach does not depend on `n`. */
  lemma UnreachedIndependent(g: seq<Node>, n: nat, y: nat)
    requires Coherent(g) && n < |g| && y < |g| && g[n].kind != Constant
    requires g[y].value.Some? && y !in FwdReach(g, n)
    ensures !DependsOn(g, y, n)
  {
    if DependsOn(g, y, n) {
      CachedDependentReached(g, n, y);
    }
  }

  /** A kept node and every node its gradient reads agree on the two
      stripped graphs. */
  lemma KeptAgreeAt(g: seq<Node>, n: nat, m: Mat, E: nat, z: nat)
    requires Coherent(g) && GradsClosed(g) && n < |g| && g[n].kind != Plain && g[n].kind != Constant
    requires z in Kept(g, n, E)
    ensures GradAgreeAt(Strip(g), Strip(Rebind(g, n, m)), Kept(g, n, E), E, z)
  {
    var g1, g2 := Strip(g), Strip(Rebind(g, n, m));
    var X := Kept(g, n, E);
    assert GradClosedAt(g, z) && NodeOk(g, z);
    if z in FwdReach(g, n) {
      ReachedGradientCleared(g, n, z, E);
    }
    UnreachedIndependent(g, n, z);
    ComputedIndependent(g, n, m, z);
    forall s | s in g1[z].post && z < s
      ensures s in X
    {
      GradientKeptAbove(g, n, z, s, E);
      SuccessorIsPlain(g, z, s);
    }
    forall s | s in g1[z].post && g1[z].post[s].ReadsOther()
      ensures g1[z].post[s].other < |g1| && g1[z].post[s].other < |g2|
      ensures Computed(g1, g1[z].post[s].other) == Computed(g2, g1[z].post[s].other)
    {
      var o := g[z].post[s].other;
      GradientKeptAbove(g, n, z, s, E);
      SuccessorIsPlain(g, z, s);
      assert NodeOk(g, s) && GradClosedAt(g, s) && ValueCoherentAt(g, s);
      if o in FwdReach(g, n) {
        FwdReachBounds(g, n, o);
        ReachSuccessor(g, o, s);
        FwdReachTrans(g, n, o);
        ReachedGradientCleared(g, n, s, E);
      }
      UnreachedIndependent(g, n, o);
      ComputedIndependent(g, n, m, o);
    }
  }

  /** The gradient of a kept node does not read the value of `n`. */
  lemma KeptGradient(g: seq<Node>, n: nat, m: Mat, E: nat, x: nat)
    requires Coherent(g) && n < |g| && g[n].kind != Plain && g[n].kind != Constant
    requires x in Kept(g, n, E)
    ensures Grad(Rebind(g, n, m), x, E) == Grad(g, x, E)
  {
    CoherentClosed(g);
    var X := Kept(g, n, E);
    forall z | z in X
      ensures z < |Strip(g)| && z < |Strip(Rebind(g, n, m))|
      ensures GradAgreeAt(Strip(g), Strip(Rebind(g, n, m)), X, E, z)
    {
      KeptAgreeAt(g, n, m, E, z);
    }
    DeltaAgree(Strip(g), Strip(Rebind(g, n, m)), X, E, x);
  }

  lemma AssignWf(g: seq<Node>, n: nat, m: Mat)
    requires Wf(g) && n < |g| && g[n].kind != Constant
    ensures Wf(AssignOf(g, n, m))
  {
    var F := FwdReach(g, n);
    forall y | y in F && y < |g|
      ensures g[y].kind != Constant
    {
      FwdReachBounds(g, n, y);
    }
    ClearSetsWf(g, F, BackReachAll(g, Sinks(g, F)));
    RebindWf(ResetValueOf(g, n), n, m);
  }

  /** After an assignment, every cached value is the denoted one. */
  lemma AssignValuesCoherent(g: seq<Node>, n: nat, m: Mat)
    requires Coherent(g) && n < |g| && g[n].kind != Plain && g[n].kind != Constant
    ensures ValuesCoherent(AssignOf(g, n, m))
  {
    var h := AssignOf(g, n, m);
    var F := FwdReach(g, n);
    StripAssign(g, n, m);
    forall y | 0 <= y < |h|
      ensures ValueCoherentAt(h, y)
    {
      if y == n {
        AssignFreshAt(g, n, m);
      } else if h[y].value.Some? {
        assert y !in F && ValueCoherentAt(g, y) && NodeOk(g, y);
        UnreachedIndependent(g, n, y);
        ComputedIndependent(g, n, m, y);
        forall p | p in h[y].pre && p < |h| && p != n
          ensures p !in F
        {
          if p in F {
            FwdReachBounds(g, n, p);
            ReachSuccessor(g, p, y);
            FwdReachTrans(g, n, p);
          }
        }
      }
    }
  }

  /** After an assignment, every cached gradient of a bare operand or a
      variable is the denoted one, on a cached node whose successors hold
      the same seed. */
  lemma AssignGradsCoherent(g: seq<Node>, n: nat, m: Mat)
    requires Coherent(g) && n < |g| && g[n].kind != Plain && g[n].kind != Constant
    ensures GradsCoherent(AssignOf(g, n, m))
  {
    var h := AssignOf(g, n, m);
    var F := FwdReach(g, n);
    var D := BackReachAll(g, Sinks(g, F));
    CoherentClosed(g);
    StripAssign(g, n, m);
    forall x | 0 <= x < |h|
      ensures GradCoherentAt(h, x)
    {
      if h[x].kind == Plain || h[x].kind == Variable {
        forall E | E in h[x].delta
          ensures h[x].value.Some?
          ensures forall s :: s in h[x].post && s < |h| ==> E in h[s].delta
          ensures Grad(h, x, E) == Ok(h[x].delta[E])
        {
          assert x !in D && E in g[x].delta;
          assert GradClosedAt(g, x) && GradCoherentAt(g, x);
          if x in F {
            ReachedGradientCleared(g, n, x, E);
          }
          forall s | s in h[x].post && s < |h|
            ensures E in h[s].delta
          {
            GradientKeptAbove(g, n, x, s, E);
          }
          assert x in Kept(g, n, E);
          KeptGradient(g, n, m, E, x);
        }
      }
    }
  }

  /** The assignment theorem: on a coherent graph, `reset_value` followed
      by storing the new value leaves a coherent graph, which denotes the
      old one with the value replaced. */
  lemma AssignCoherent(g: seq<Node>, n: nat, m: Mat)
    requires Coherent(g) && n < |g| && (g[n].kind == Variable || g[n].kind == Placeholder)
    ensures Coherent(AssignOf(g, n, m))
    ensures Strip(AssignOf(g, n, m)) == Strip(Rebind(g, n, m))
  {
    AssignWf(g, n, m);
    AssignValuesCoherent(g, n, m);
    AssignGradsCoherent(g, n, m);
    StripAssign(g, n, m);
  }

  /** Every key of `ks` names a leaf that `mp` gives a value. */
  ghost predicate Bindable(g: seq<Node>, ks: seq<nat>, mp: map<nat, Mat>) {
    forall i :: 0 <= i < |ks| ==>
      ks[i] < |g| && ks[i] in mp && (g[ks[i]].kind == Variable || g[ks[i]].kind == Placeholder)
  }

  /** The graph `g` with each `ks[i]` holding `mp[ks[i]]`, set directly. */
  ghost function RebindAll(g: seq<Node>, ks: seq<nat>, mp: map<nat, Mat>): (r: seq<Node>)
    requires Bindable(g, ks, mp)
    ensures |r| == |g|
    ensures forall y :: 0 <= y < |g| ==>
      r[y].kind == g[y].kind && r[y].fwd == g[y].fwd && r[y].pre == g[y].pre && r[y].post == g[y].post
    decreases |ks|
  {
    if ks == [] then g
    else
      var last := ks[|ks| - 1];
      Rebind(RebindAll(g, ks[..|ks| - 1], mp), last, mp[last])
  }

  /** The assignments of `ks`, in order, each resetting before it stores. */
  ghost function AssignAll(g: seq<Node>, ks: seq<nat>, mp: map<nat, Mat>): (r: seq<Node>)
    requires Bindable(g, ks, mp)
    ensures |r| == |g|
    ensures forall y :: 0 <= y < |g| ==> r[y].kind == g[y].kind && r[y].pre == g[y].pre
    decreases |ks|
  {
    if ks == [] then g
    else
      var h := AssignAll(g, ks[..|ks| - 1], mp);
      var last := ks[|ks| - 1];
      AssignOf(h, last, mp[last])
  }

  /** Dropping caches forgets which of two graphs cached more. */
  lemma StripRebind(a: seq<Node>, b: seq<Node>, n: nat, m: Mat)
    requires |a| == |b| && n < |a| && Strip(a) == Strip(b) && a[n].kind != Plain
    ensures Strip(Rebind(a, n, m)) == Strip(Rebind(b, n, m))
  {
    var ra, rb := Strip(Rebind(a, n, m)), Strip(Rebind(b, n, m));
    forall i | 0 <= i < |a|
      ensures ra[i] == rb[i]
    {
      assert Strip(a)[i] == Strip(b)[i];
    }
  }

  /** A run of assignments keeps a well-formed graph well formed, keeps
      every kind, and denotes the graph with the values set directly. */
  lemma {:induction false} AssignAllStrip(g: seq<Node>, ks: seq<nat>, mp: map<nat, Mat>)
    requires Wf(g) && Bindable(g, ks, mp)
    ensures |AssignAll(g, ks, mp)| == |g| && Wf(AssignAll(g, ks, mp))
    ensures Strip(AssignAll(g, ks, mp)) == Strip(RebindAll(g, ks, mp))
    decreases |ks|
  {
    if ks != [] {
      var init := ks[..|ks| - 1];
      assert Bindable(g, init, mp);
      AssignAllStrip(g, init, mp);
      var h := AssignAll(g, init, mp);
      var last := ks[|ks| - 1];
      assert Strip(h)[last].kind == Strip(RebindAll(g, init, mp))[last].kind;
      AssignWf(h, last, mp[last]);
      StripAssign(h, last, mp[last]);
      StripRebind(h, RebindAll(g, init, mp), last, mp[last]);
    }
  }

  /** A run of assignments keeps a coherent graph coherent. */
  lemma {:induction false} AssignAllCoherent(g: seq<Node>, ks: seq<nat>, mp: map<nat, Mat>)
    requires Coherent(g) && Bindable(g, ks, mp)
    ensures |AssignAll(g, ks, mp)| == |g| && Coherent(AssignAll(g, ks, mp))
    decreases |ks|
  {
    if ks != [] {
      var init := ks[..|ks| - 1];
      assert Bindable(g, init, mp);
      AssignAllCoherent(g, init, mp);
      AssignAllStrip(g, init, mp);
      var h := AssignAll(g, init, mp);
      var last := ks[|ks| - 1];
      assert Strip(h)[last].kind == Strip(RebindAll(g, init, mp))[last].kind;
      AssignCoherent(h, last, mp[last]);
    }
  }

  /** After the run, every bound leaf denotes its new value. */
  lemma {:induction false} RebindAllFresh(g: seq<Node>, ks: seq<nat>, mp: map<nat, Mat>, i: nat)
    requires Bindable(g, ks, mp) && i < |ks|
    ensures RebindAll(g, ks, mp)[ks[i]].value == Some(mp[ks[i]])
    ensures Fresh(RebindAll(g, ks, mp), ks[i]) == Ok(mp[ks[i]])
    decreases |ks|
  {
    var r := RebindAll(g, ks, mp);
    var last := ks[|ks| - 1];
    if ks[i] != last {
      var init := ks[..|ks| - 1];
      assert Bindable(g, init, mp) && init[i] == ks[i];
      RebindAllFresh(g, init, mp, i);
    }
    assert Strip(r)[ks[i]].value == Some(mp[ks[i]]);
  }

  /** A node depends only on nodes created before it. */
  lemma {:induction false} DependsOnEarlier(g: seq<Node>, y: nat, n: nat)
    requires y < |g| && DependsOn(g, y, n)
    ensures n <= y
    decreases y
  {
    if y != n {
      var p :| p in g[y].pre && p < y && DependsOn(g, p, n);
      DependsOnEarlier(g, p, n);
    }
  }

  /** What a whole run leaves: a well-formed graph denoting `g` with every
      bound leaf holding its new value, coherent if `g` was. */
  lemma AssignAllSettles(g: seq<Node>, ks: seq<nat>, mp: map<nat, Mat>)
    requires Wf(g) && Bindable(g, ks, mp)
    requires forall k :: k in mp ==> k in ks
    ensures |AssignAll(g, ks, mp)| == |g| && Wf(AssignAll(g, ks, mp))
    ensures Strip(AssignAll(g, ks, mp)) == Strip(RebindAll(g, ks, mp))
    ensures forall k :: k in mp ==> Fresh(AssignAll(g, ks, mp), k) == Ok(mp[k])
    ensures Coherent(g) ==> Coherent(AssignAll(g, ks, mp))
  {
    AssignAllStrip(g, ks, mp);
    forall k | k in mp
      ensures Fresh(AssignAll(g, ks, mp), k) == Ok(mp[k])
    {
      var j :| 0 <= j < |ks| && ks[j] == k;
      RebindAllFresh(g, ks, mp, j);
    }
    if Coherent(g) {
      AssignAllCoherent(g, ks, mp);
    }
  }

  /** Assigning `n` leaves the value of every other leaf alone: the reset
      only clears `n` and bare operands after it. */
  lemma AssignKeepsLeaf(g: seq<Node>, n: nat, m: Mat, k: nat)
    requires Wf(g) && n < |g| && k < |g| && k != n && g[k].kind != Plain
    ensures AssignOf(g, n, m)[k].kind == g[k].kind && AssignOf(g, n, m)[k].value == g[k].value
  {
    if k in FwdReach(g, n) {
      FwdReachPlain(g, n, k);
    }
  }

  /** A run of assignments leaves the value of every leaf it skips. */
  lemma {:induction false} AssignAllKeepsLeaf(g: seq<Node>, ks: seq<nat>, mp: map<nat, Mat>, k: nat)
    requires Wf(g) && Bindable(g, ks, mp) && k < |g| && g[k].kind != Plain
    requires forall i :: 0 <= i < |ks| ==> ks[i] != k
    ensures |AssignAll(g, ks, mp)| == |g|
    ensures AssignAll(g, ks, mp)[k].kind == g[k].kind && AssignAll(g, ks, mp)[k].value == g[k].value
    decreases |ks|
  {
    AssignAllStrip(g, ks, mp);
    if ks != [] {
      var init := ks[..|ks| - 1];
      assert Bindable(g, init, mp);
      AssignAllKeepsLeaf(g, init, mp, k);
      AssignAllStrip(g, init, mp);
      AssignKeepsLeaf(AssignAll(g, init, mp), ks[|ks| - 1], mp[ks[|ks| - 1]], k);
    }
  }

  /** Filling caches never gives a leaf without a value one, and keeps the
      value of every other leaf. */
  lemma MemoisedLeaf(g: seq<Node>, h: seq<Node>, k: nat)
    requires Memoised(g, h) && k < |g| && (g[k].kind == Variable || g[k].kind == Constant)
    ensures h[k].kind == g[k].kind && h[k].value == g[k].value
  {
    assert FilledAt(g, h, k);
  }

  /** The run over the first `i + 1` keys is the run over the first `i`
      followed by one assignment. */
  lemma AssignAllExtend(g: seq<Node>, ks: seq<nat>, mp: map<nat, Mat>, i: nat)
    requires Wf(g) && i < |ks| && Bindable(g, ks[..i], mp)
    requires ks[i] < |g| && ks[i] in mp && (g[ks[i]].kind == Variable || g[ks[i]].kind == Placeholder)
    ensures Bindable(g, ks[..i + 1], mp)
    ensures var h := AssignAll(g, ks[..i], mp);
      |h| == |g| && Wf(h) && (h[ks[i]].kind == Variable || h[ks[i]].kind == Placeholder) &&
      AssignAll(g, ks[..i + 1], mp) == AssignOf(h, ks[i], mp[ks[i]])
  {
    BindableExtend(g, ks, mp, i);
    AssignAllStrip(g, ks[..i], mp);
    assert ks[..i + 1][..i] == ks[..i];
  }

  /** A run that can be made can be made one key longer, if that key is a
      leaf with a value in `mp`. */
  lemma BindableExtend(g: seq<Node>, ks: seq<nat>, mp: map<nat, Mat>, i: nat)
    requires i < |ks| && Bindable(g, ks[..i], mp)
    requires ks[i] < |g| && ks[i] in mp && (g[ks[i]].kind == Variable || g[ks[i]].kind == Placeholder)
    ensures Bindable(g, ks[..i + 1], mp)
  {
    var init, next := ks[..i], ks[..i + 1];
    forall j | 0 <= j < |next|
      ensures next[j] < |g| && next[j] in mp && (g[next[j]].kind == Variable || g[next[j]].kind == Placeholder)
    {
      if j < i {
        assert next[j] == init[j];
      }
    }
  }
}
