/** What `reset_value` and `reset_delta` clear.

    Both walk the graph and stop where there is nothing left to clear:
    `reset_value` walks forward from a node through successors that still
    hold a value and, at every sink it clears, starts `reset_delta`;
    `reset_delta` walks backward through inputs that still hold gradients.
    A constant stops either walk, since both are no-ops on it. The sets
    below are the nodes each walk reaches on the graph as it was when the
    walk began; the methods of the engine clear exactly these, whichever
    order they visit successors in. */
module Resets {
  import opened Matrices
  import opened Rules
  import opened Dag
  import opened Agreement

  /** `g` with the values of the nodes in `V` and the gradient caches of
      the nodes in `D` dropped. */
  ghost function ClearSets(g: seq<Node>, V: set<nat>, D: set<nat>): (r: seq<Node>)
    ensures |r| == |g|
    ensures forall i :: 0 <= i < |g| ==>
      r[i] == g[i].(value := if i in V then None else g[i].value,
                    delta := if i in D then map[] else g[i].delta)
  {
    seq(|g|, i requires 0 <= i < |g| =>
      g[i].(value := if i in V then None else g[i].value,
            delta := if i in D then map[] else g[i].delta))
  }

  /** The nodes `reset_value` on `n` clears: `n`, unless it is a constant
      or holds no value, and then what it clears from every successor. */
  ghost function FwdReach(g: seq<Node>, n: nat): set<nat>
    requires n < |g|
    decreases |g| - n, 1, 0
  {
    if g[n].kind == Constant || g[n].value.None? then {}
    else {n} + FwdReachOf(g, n, Successors(g, n))
  }

  ghost function FwdReachOf(g: seq<Node>, n: nat, ss: seq<nat>): set<nat>
    requires n < |g|
    decreases |g| - n, 0, |ss|
  {
    if |ss| == 0 then {}
    else
      var s := ss[|ss| - 1];
      FwdReachOf(g, n, ss[..|ss| - 1]) + (if n < s < |g| then FwdReach(g, s) else {})
  }

  /** The nodes `reset_delta` on `n` clears: `n`, unless it is a constant
      or holds no gradient, and then what it clears from every input. */
  ghost function BackReach(g: seq<Node>, n: nat): set<nat>
    requires n < |g|
    decreases n, 1, 0
  {
    if g[n].kind == Constant || |g[n].delta| == 0 then {}
    else {n} + BackReachOf(g, n, Ascending(g[n].pre, 0, n))
  }

  ghost function BackReachOf(g: seq<Node>, n: nat, ps: seq<nat>): set<nat>
    requires n < |g|
    decreases n, 0, |ps|
  {
    if |ps| == 0 then {}
    else
      var p := ps[|ps| - 1];
      BackReachOf(g, n, ps[..|ps| - 1]) + (if p < n then BackReach(g, p) else {})
  }

  /** The members of `V` without successors. */
  ghost function Sinks(g: seq<Node>, V: set<nat>): set<nat> {
    set x | x in V && x < |g| && |g[x].post| == 0
  }

  /** What `reset_delta` clears from each node of `T`, together. */
  ghost function BackReachAll(g: seq<Node>, T: set<nat>): set<nat> {
    set t, x | t in T && t < |g| && x in BackReach(g, t) :: x
  }

  /** `g` with the values in `V` dropped, and the gradients that
      `reset_delta` drops from the sinks among them. */
  ghost function Walk(g: seq<Node>, V: set<nat>): seq<Node> {
    ClearSets(g, V, BackReachAll(g, Sinks(g, V)))
  }

  /** The graph after `reset_value` on `n`. */
  ghost function ResetValueOf(g: seq<Node>, n: nat): seq<Node>
    requires n < |g|
  {
    Walk(g, FwdReach(g, n))
  }

  /** The graph after `reset_delta` on `n`. */
  ghost function ResetDeltaOf(g: seq<Node>, n: nat): seq<Node>
    requires n < |g|
  {
    ClearSets(g, {}, BackReach(g, n))
  }

  // ---------------------------------------------------------------------
  // Clearing

  lemma ClearSetsCompose(g: seq<Node>, V1: set<nat>, D1: set<nat>, V2: set<nat>, D2: set<nat>)
    ensures ClearSets(ClearSets(g, V1, D1), V2, D2) == ClearSets(g, V1 + V2, D1 + D2)
  {
  }

  /** Clearing the values of anything but constants keeps a graph well
      formed. */
  lemma ClearSetsWf(g: seq<Node>, V: set<nat>, D: set<nat>)
    requires Wf(g)
    requires forall y :: y in V && y < |g| ==> g[y].kind != Constant
    ensures Wf(ClearSets(g, V, D))
  {
    var h := ClearSets(g, V, D);
    forall n | 0 <= n < |h|
      ensures NodeOk(h, n)
    {
      assert NodeOk(g, n);
    }
  }

  // ---------------------------------------------------------------------
  // The forward walk

  lemma {:induction false} FwdReachBounds(g: seq<Node>, n: nat, y: nat)
    requires n < |g| && y in FwdReach(g, n)
    ensures n <= y < |g| && g[y].kind != Constant && g[y].value.Some?
    decreases |g| - n, 1, 0
  {
    if y != n {
      FwdReachOfBounds(g, n, Successors(g, n), y);
    }
  }

  lemma {:induction false} FwdReachOfBounds(g: seq<Node>, n: nat, ss: seq<nat>, y: nat)
    requires n < |g| && y in FwdReachOf(g, n, ss)
    ensures n < y < |g| && g[y].kind != Constant && g[y].value.Some?
    decreases |g| - n, 0, |ss|
  {
    var s := ss[|ss| - 1];
    if y in FwdReachOf(g, n, ss[..|ss| - 1]) {
      FwdReachOfBounds(g, n, ss[..|ss| - 1], y);
    } else {
      FwdReachBounds(g, s, y);
    }
  }

  /** Whatever the walk from a node it reaches would clear, the walk
      already clears. */
  lemma {:induction false} FwdReachTrans(g: seq<Node>, z: nat, y: nat)
    requires z < |g| && y in FwdReach(g, z)
    ensures y < |g| && FwdReach(g, y) <= FwdReach(g, z)
    decreases |g| - z, 1, 0
  {
    FwdReachBounds(g, z, y);
    if y != z {
      FwdReachOfTrans(g, z, Successors(g, z), y);
    }
  }

  lemma {:induction false} FwdReachOfTrans(g: seq<Node>, n: nat, ss: seq<nat>, y: nat)
    requires n < |g| && y in FwdReachOf(g, n, ss)
    ensures y < |g| && FwdReach(g, y) <= FwdReachOf(g, n, ss)
    decreases |g| - n, 0, |ss|
  {
    FwdReachOfBounds(g, n, ss, y);
    var s := ss[|ss| - 1];
    if y in FwdReachOf(g, n, ss[..|ss| - 1]) {
      FwdReachOfTrans(g, n, ss[..|ss| - 1], y);
    } else {
      FwdReachTrans(g, s, y);
    }
  }

  /** The walk on a graph where some values are already cleared reaches,
      together with those, what it reaches on the original graph, as long
      as the walks from the cleared nodes are themselves already cleared. */
  lemma {:induction false} FwdReachCleared(g: seq<Node>, V: set<nat>, D: set<nat>, s: nat)
    requires s < |g|
    requires forall y :: y in V && s <= y < |g| ==> FwdReach(g, y) <= V
    ensures FwdReach(ClearSets(g, V, D), s) + V == FwdReach(g, s) + V
    decreases |g| - s, 1, 0
  {
    var h := ClearSets(g, V, D);
    if s in V {
    } else if g[s].kind == Constant || g[s].value.None? {
    } else {
      assert Successors(h, s) == Successors(g, s);
      FwdReachOfCleared(g, V, D, s, Successors(g, s));
    }
  }

  lemma {:induction false} FwdReachOfCleared(g: seq<Node>, V: set<nat>, D: set<nat>, n: nat, ss: seq<nat>)
    requires n < |g|
    requires forall y :: y in V && n < y < |g| ==> FwdReach(g, y) <= V
    ensures FwdReachOf(ClearSets(g, V, D), n, ss) + V == FwdReachOf(g, n, ss) + V
    decreases |g| - n, 0, |ss|
  {
    if |ss| > 0 {
      FwdReachOfCleared(g, V, D, n, ss[..|ss| - 1]);
      var s := ss[|ss| - 1];
      if n < s < |g| {
        FwdReachCleared(g, V, D, s);
      }
    }
  }

  // ---------------------------------------------------------------------
  // The backward walk

  lemma {:induction false} BackReachBounds(g: seq<Node>, n: nat, y: nat)
    requires n < |g| && y in BackReach(g, n)
    ensures y <= n && g[y].kind != Constant && |g[y].delta| > 0
    decreases n, 1, 0
  {
    if y != n {
      BackReachOfBounds(g, n, Ascending(g[n].pre, 0, n), y);
    }
  }

  lemma {:induction false} BackReachOfBounds(g: seq<Node>, n: nat, ps: seq<nat>, y: nat)
    requires n < |g| && y in BackReachOf(g, n, ps)
    ensures y < n && g[y].kind != Constant && |g[y].delta| > 0
    decreases n, 0, |ps|
  {
    var p := ps[|ps| - 1];
    if y in BackReachOf(g, n, ps[..|ps| - 1]) {
      BackReachOfBounds(g, n, ps[..|ps| - 1], y);
    } else {
      BackReachBounds(g, p, y);
    }
  }

  lemma {:induction false} BackReachTrans(g: seq<Node>, z: nat, y: nat)
    requires z < |g| && y in BackReach(g, z)
    ensures y < |g| && BackReach(g, y) <= BackReach(g, z)
    decreases z, 1, 0
  {
    BackReachBounds(g, z, y);
    if y != z {
      BackReachOfTrans(g, z, Ascending(g[z].pre, 0, z), y);
    }
  }

  lemma {:induction false} BackReachOfTrans(g: seq<Node>, n: nat, ps: seq<nat>, y: nat)
    requires n < |g| && y in BackReachOf(g, n, ps)
    ensures y < |g| && BackReach(g, y) <= BackReachOf(g, n, ps)
    decreases n, 0, |ps|
  {
    BackReachOfBounds(g, n, ps, y);
    var p := ps[|ps| - 1];
    if y in BackReachOf(g, n, ps[..|ps| - 1]) {
      BackReachOfTrans(g, n, ps[..|ps| - 1], y);
    } else {
      BackReachTrans(g, p, y);
    }
  }

  lemma {:induction false} BackReachCleared(g: seq<Node>, V: set<nat>, D: set<nat>, p: nat)
    requires p < |g|
    requires forall y :: y in D && y <= p ==> BackReach(g, y) <= D
    ensures BackReach(ClearSets(g, V, D), p) + D == BackReach(g, p) + D
    decreases p, 1, 0
  {
    var h := ClearSets(g, V, D);
    if p in D {
    } else if g[p].kind == Constant || |g[p].delta| == 0 {
    } else {
      BackReachOfCleared(g, V, D, p, Ascending(g[p].pre, 0, p));
    }
  }

  lemma {:induction false} BackReachOfCleared(g: seq<Node>, V: set<nat>, D: set<nat>, n: nat, ps: seq<nat>)
    requires n < |g|
    requires forall y :: y in D && y < n ==> BackReach(g, y) <= D
    ensures BackReachOf(ClearSets(g, V, D), n, ps) + D == BackReachOf(g, n, ps) + D
    decreases n, 0, |ps|
  {
    if |ps| > 0 {
      BackReachOfCleared(g, V, D, n, ps[..|ps| - 1]);
      var p := ps[|ps| - 1];
      if p < n {
        BackReachCleared(g, V, D, p);
      }
    }
  }

  lemma BackReachAllUnion(g: seq<Node>, A: set<nat>, B: set<nat>)
    ensures BackReachAll(g, A + B) == BackReachAll(g, A) + BackReachAll(g, B)
  {
  }

  lemma BackReachAllCleared(g: seq<Node>, V: set<nat>, D: set<nat>, T: set<nat>)
    requires forall y :: y in D && y < |g| ==> BackReach(g, y) <= D
    ensures BackReachAll(ClearSets(g, V, D), T) + D == BackReachAll(g, T) + D
  {
    var h := ClearSets(g, V, D);
    forall t | t in T && t < |g|
      ensures BackReach(h, t) + D == BackReach(g, t) + D
    {
      BackReachCleared(g, V, D, t);
    }
    forall x | x in BackReachAll(h, T)
      ensures x in BackReachAll(g, T) + D
    {
      var t :| t in T && t < |h| && x in BackReach(h, t);
      assert x in BackReach(g, t) + D;
    }
    forall x | x in BackReachAll(g, T)
      ensures x in BackReachAll(h, T) + D
    {
      var t :| t in T && t < |g| && x in BackReach(g, t);
      assert x in BackReach(h, t) + D;
    }
  }

  /** A union of backward walks is closed under them. */
  lemma BackReachAllClosed(g: seq<Node>, T: set<nat>)
    ensures forall y :: y in BackReachAll(g, T) && y < |g| ==> BackReach(g, y) <= BackReachAll(g, T)
  {
    forall y | y in BackReachAll(g, T) && y < |g|
      ensures BackReach(g, y) <= BackReachAll(g, T)
    {
      var t :| t in T && t < |g| && y in BackReach(g, t);
      BackReachTrans(g, t, y);
    }
  }

  /** The walk from a node covers the walk from every successor it visits. */
  lemma {:induction false} FwdReachOfMember(g: seq<Node>, n: nat, ss: seq<nat>, k: nat)
    requires n < |g| && k < |ss| && n < ss[k] < |g|
    ensures FwdReach(g, ss[k]) <= FwdReachOf(g, n, ss)
    decreases |ss|
  {
    if k < |ss| - 1 {
      FwdReachOfMember(g, n, ss[..|ss| - 1], k);
    }
  }

  /** The walk backward from a node covers the walk from every input it
      visits. */
  lemma {:induction false} BackReachOfMember(g: seq<Node>, n: nat, ps: seq<nat>, k: nat)
    requires n < |g| && k < |ps| && ps[k] < n
    ensures BackReach(g, ps[k]) <= BackReachOf(g, n, ps)
    decreases |ps|
  {
    if k < |ps| - 1 {
      BackReachOfMember(g, n, ps[..|ps| - 1], k);
    }
  }

  lemma BackReachAllSingle(g: seq<Node>, t: nat)
    requires t < |g|
    ensures BackReachAll(g, {t}) == BackReach(g, t)
  {
  }

  /** Apart from where it starts, the forward walk only reaches operator
      results. */
  lemma {:induction false} FwdReachPlain(g: seq<Node>, n: nat, y: nat)
    requires Wf(g) && n < |g| && y in FwdReach(g, n) && y != n
    ensures y < |g| && g[y].kind == Plain
    decreases |g| - n, 1, 0
  {
    FwdReachBounds(g, n, y);
    FwdReachOfPlain(g, n, Successors(g, n), y);
  }

  lemma {:induction false} FwdReachOfPlain(g: seq<Node>, n: nat, ss: seq<nat>, y: nat)
    requires Wf(g) && n < |g| && y in FwdReachOf(g, n, ss)
    requires forall i :: 0 <= i < |ss| ==> ss[i] in g[n].post
    ensures y < |g| && g[y].kind == Plain
    decreases |g| - n, 0, |ss|
  {
    FwdReachOfBounds(g, n, ss, y);
    var s := ss[|ss| - 1];
    if y in FwdReachOf(g, n, ss[..|ss| - 1]) {
      FwdReachOfPlain(g, n, ss[..|ss| - 1], y);
    } else if y == s {
      SuccessorIsPlain(g, n, s);
    } else {
      FwdReachPlain(g, s, y);
    }
  }

  /** One successor's `reset_value` inside the loop of another: on a graph
      where the walk so far has cleared the values in `V` and, below its
      sinks, the gradients, the walk from `s` adds exactly what it would
      have cleared on the original graph. */
  lemma ResetValueStep(g: seq<Node>, V: set<nat>, s: nat)
    requires s < |g|
    requires forall y :: y in V && s <= y < |g| ==> FwdReach(g, y) <= V
    ensures ResetValueOf(Walk(g, V), s) == Walk(g, V + FwdReach(g, s))
  {
    var D := BackReachAll(g, Sinks(g, V));
    var h := ClearSets(g, V, D);
    var W := FwdReach(h, s);
    var X := BackReachAll(h, Sinks(h, W));
    FwdReachCleared(g, V, D, s);
    WalkStepGradients(g, V, s);
    ClearSetsCompose(g, V, D, W, X);
  }

  /** The gradient half of `ResetValueStep`. */
  lemma WalkStepGradients(g: seq<Node>, V: set<nat>, s: nat)
    requires s < |g|
    requires forall y :: y in V && s <= y < |g| ==> FwdReach(g, y) <= V
    ensures var D := BackReachAll(g, Sinks(g, V));
            var h := ClearSets(g, V, D);
            D + BackReachAll(h, Sinks(h, FwdReach(h, s))) == BackReachAll(g, Sinks(g, V + FwdReach(g, s)))
  {
    var D := BackReachAll(g, Sinks(g, V));
    var h := ClearSets(g, V, D);
    var W := FwdReach(h, s);
    var F := FwdReach(g, s);
    var X := BackReachAll(h, Sinks(h, W));
    FwdReachCleared(g, V, D, s);
    assert V + W == V + F;
    assert Sinks(h, W) == Sinks(g, W);
    BackReachAllClosed(g, Sinks(g, V));
    BackReachAllCleared(g, V, D, Sinks(g, W));
    assert D + X == D + BackReachAll(g, Sinks(g, W));
    assert Sinks(g, V + F) == Sinks(g, V) + Sinks(g, W);
    BackReachAllUnion(g, Sinks(g, V), Sinks(g, W));
  }

  lemma ClearNothing(g: seq<Node>)
    ensures ClearSets(g, {}, {}) == g
  {
  }

  lemma ClearDeltaAt(g: seq<Node>, n: nat)
    requires n < |g|
    ensures g[n := g[n].(delta := map[])] == ClearSets(g, {}, {n})
  {
  }

  lemma ClearValueAt(g: seq<Node>, n: nat)
    requires n < |g|
    ensures g[n := g[n].(value := None)] == ClearSets(g, {n}, {})
  {
  }

  /** One input's `reset_delta` inside the loop of `reset_delta` on `n`. */
  lemma ResetDeltaStep(g: seq<Node>, n: nat, ps: seq<nat>, i: nat)
    requires n < |g| && i < |ps| && ps[i] < n
    ensures var h := ClearSets(g, {}, {n} + BackReachOf(g, n, ps[..i]));
            ClearSets(h, {}, BackReach(h, ps[i]))
              == ClearSets(g, {}, {n} + BackReachOf(g, n, ps[..i + 1]))
  {
    var D := {n} + BackReachOf(g, n, ps[..i]);
    var p := ps[i];
    forall y | y in D && y <= p
      ensures BackReach(g, y) <= D
    {
      BackReachOfTrans(g, n, ps[..i], y);
    }
    BackReachCleared(g, {}, D, p);
    ClearSetsCompose(g, {}, D, {}, BackReach(ClearSets(g, {}, D), p));
    assert ps[..i + 1][..i] == ps[..i];
    assert {n} + BackReachOf(g, n, ps[..i + 1]) == D + BackReach(g, p);
  }

  /** `reset_value` on a sink clears its value and what `reset_delta`
      clears from it. */
  lemma ResetValueSink(g: seq<Node>, n: nat)
    requires n < |g| && g[n].kind != Constant && g[n].value.Some? && |g[n].post| == 0
    ensures var h := ClearSets(g, {n}, {});
            ClearSets(h, {}, BackReach(h, n)) == ResetValueOf(g, n)
  {
    var h := ClearSets(g, {n}, {});
    BackReachCleared(g, {n}, {}, n);
    ClearSetsCompose(g, {n}, {}, {}, BackReach(h, n));
    AscendingEmpty(g[n].post.Keys, n + 1, |g|);
    assert FwdReach(g, n) == {n};
    assert Sinks(g, {n}) == {n};
    BackReachAllSingle(g, n);
  }

  /** The same step, stated for the loop of `reset_value` on `n` over its
      successors `ss`. */
  lemma ResetValueLoopStep(g: seq<Node>, n: nat, ss: seq<nat>, i: nat)
    requires n < |g| && i < |ss| && n < ss[i] < |g|
    ensures ResetValueOf(Walk(g, {n} + FwdReachOf(g, n, ss[..i])), ss[i])
              == Walk(g, {n} + FwdReachOf(g, n, ss[..i + 1]))
  {
    var V := {n} + FwdReachOf(g, n, ss[..i]);
    var s := ss[i];
    forall y | y in V && s <= y < |g|
      ensures FwdReach(g, y) <= V
    {
      FwdReachOfTrans(g, n, ss[..i], y);
    }
    ResetValueStep(g, V, s);
    assert ss[..i + 1][..i] == ss[..i];
    assert {n} + FwdReachOf(g, n, ss[..i + 1]) == V + FwdReach(g, s);
  }

  lemma WalkStart(g: seq<Node>, n: nat)
    requires n < |g| && |g[n].post| > 0
    ensures Walk(g, {n}) == ClearSets(g, {n}, {})
  {
    assert Sinks(g, {n}) == {};
  }
}
