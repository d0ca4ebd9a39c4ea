/** When two graphs give the same answers.

    `eval` and `diff` read caches before they compute, so a cache changes
    nothing as long as it holds what would be computed anyway. The two
    agreement lemmas below say this once, for values and for gradients;
    every later argument that filling, dropping or keeping caches is
    harmless is an instance of them. */
module Agreement {
  import opened Matrices
  import opened Rules
  import opened Dag

  /** Growing the range of `Ascending` past the last member changes nothing. */
  lemma {:induction false} AscendingBeyond(S: set<nat>, lo: nat, hi: nat, hi': nat)
    requires hi <= hi'
    requires forall x :: x in S && lo <= x ==> x < hi
    ensures Ascending(S, lo, hi) == Ascending(S, lo, hi')
    decreases hi - lo
  {
    if lo < hi {
      AscendingBeyond(S, lo + 1, hi, hi');
    } else {
      AscendingEmpty(S, lo, hi');
    }
  }

  lemma {:induction false} AscendingEmpty(S: set<nat>, lo: nat, hi: nat)
    requires forall x :: x in S && lo <= x ==> x < lo
    ensures Ascending(S, lo, hi) == []
    decreases hi - lo
  {
    if lo < hi {
      AscendingEmpty(S, lo + 1, hi);
    }
  }

  /** The indices below `k`. */
  function Below(k: nat): (r: set<nat>)
    ensures forall n: nat :: n in r <==> n < k
  {
    if k == 0 then {}
    else
      var r := Below(k - 1) + {k - 1};
      assert forall n :: n in r <==> n in Below(k - 1) || n == k - 1;
      r
  }

  /** On node `y`, two graphs have the same forward computation, the inputs
      it reads are in `Y`, and a value either graph caches is the value the
      other computes. */
  ghost predicate ValueAgreeAt(g1: seq<Node>, g2: seq<Node>, Y: set<nat>, y: nat)
    requires y < |g1| && y < |g2|
  {
    g1[y].kind == g2[y].kind && g1[y].fwd == g2[y].fwd &&
    (!g1[y].fwd.Default? && g1[y].fwd.a < y && g1[y].fwd.Second() < y ==>
      g1[y].fwd.a in Y && g1[y].fwd.Second() in Y) &&
    (g1[y].value.Some? ==> Computed(g2, y) == Ok(g1[y].value.value)) &&
    (g2[y].value.Some? ==> Computed(g1, y) == Ok(g2[y].value.value))
  }

  ghost predicate ValuesAgreeOn(g1: seq<Node>, g2: seq<Node>, Y: set<nat>) {
    forall y :: y in Y ==> y < |g1| && y < |g2| && ValueAgreeAt(g1, g2, Y, y)
  }

  lemma {:induction false} ComputedAgree(g1: seq<Node>, g2: seq<Node>, Y: set<nat>, y: nat)
    requires ValuesAgreeOn(g1, g2, Y) && y in Y
    ensures y < |g1| && y < |g2| && Computed(g1, y) == Computed(g2, y)
    decreases y
  {
    assert ValueAgreeAt(g1, g2, Y, y);
    var x1, x2 := g1[y], g2[y];
    if x1.value.Some? || x2.value.Some? {
    } else if x1.kind == Constant || x1.kind == Variable || x1.fwd.Default? {
    } else if x1.fwd.a >= y || x1.fwd.Second() >= y {
    } else {
      ComputedAgree(g1, g2, Y, x1.fwd.a);
      ComputedAgree(g1, g2, Y, x1.fwd.Second());
    }
  }

  /** On node `x`, two graphs have the same kind and successors, compute the
      same value for `x` and for the other operand of every product rule,
      the successors are in `X`, and a gradient for `E` that either graph
      caches is the gradient the other computes. */
  ghost predicate GradAgreeAt(g1: seq<Node>, g2: seq<Node>, X: set<nat>, E: nat, x: nat)
    requires x < |g1| && x < |g2|
  {
    g1[x].kind == g2[x].kind && g1[x].post == g2[x].post &&
    Computed(g1, x) == Computed(g2, x) &&
    (forall s :: s in g1[x].post && x < s ==> s in X) &&
    (forall s :: s in g1[x].post && g1[x].post[s].ReadsOther() ==>
      var o := g1[x].post[s].other;
      o < |g1| && o < |g2| && Computed(g1, o) == Computed(g2, o)) &&
    (g1[x].kind != Placeholder && E in g1[x].delta ==> Delta(g2, x, E) == Ok(g1[x].delta[E])) &&
    (g1[x].kind != Placeholder && E in g2[x].delta ==> Delta(g1, x, E) == Ok(g2[x].delta[E]))
  }

  ghost predicate GradAgreeOn(g1: seq<Node>, g2: seq<Node>, X: set<nat>, E: nat) {
    forall x :: x in X ==> x < |g1| && x < |g2| && GradAgreeAt(g1, g2, X, E, x)
  }

  lemma {:induction false} DeltaAgree(g1: seq<Node>, g2: seq<Node>, X: set<nat>, E: nat, n: nat)
    requires GradAgreeOn(g1, g2, X, E) && n in X
    ensures n < |g1| && n < |g2| && Delta(g1, n, E) == Delta(g2, n, E)
    decreases |g1| - n, 2, 0
  {
    assert GradAgreeAt(g1, g2, X, E, n);
    var x1, x2 := g1[n], g2[n];
    if x1.kind == Placeholder {
    } else if E in x1.delta || E in x2.delta {
    } else if Computed(g1, n).Fail? || |x1.post| == 0 {
    } else {
      var v := Computed(g1, n).value;
      SuccessorsAgree(g1, g2, X, E, n);
      DeltaSumAgree(g1, g2, X, E, n, Successors(g1, n), Zero(v.rows, v.cols));
    }
  }

  /** Where gradients agree on `n`, so do its successors. */
  lemma SuccessorsAgree(g1: seq<Node>, g2: seq<Node>, X: set<nat>, E: nat, n: nat)
    requires GradAgreeOn(g1, g2, X, E) && n in X
    ensures n < |g1| && n < |g2| && Successors(g1, n) == Successors(g2, n)
  {
    assert GradAgreeAt(g1, g2, X, E, n);
    var keys := g1[n].post.Keys;
    forall s | s in keys && n + 1 <= s
      ensures s < |g1| && s < |g2|
    {
      assert s in X;
    }
    if |g1| <= |g2| {
      AscendingBeyond(keys, n + 1, |g1|, |g2|);
    } else {
      AscendingBeyond(keys, n + 1, |g2|, |g1|);
    }
  }

  lemma {:induction false} DeltaSumAgree(g1: seq<Node>, g2: seq<Node>, X: set<nat>, E: nat, n: nat,
                                         ss: seq<nat>, zero: Mat)
    requires GradAgreeOn(g1, g2, X, E) && n in X
    ensures n < |g1| && n < |g2| && DeltaSum(g1, n, E, ss, zero) == DeltaSum(g2, n, E, ss, zero)
    decreases |g1| - n, 1, |ss|
  {
    if |ss| > 0 {
      DeltaSumAgree(g1, g2, X, E, n, ss[..|ss| - 1], zero);
      ContributionAgree(g1, g2, X, E, n, ss[|ss| - 1]);
    }
  }

  lemma {:induction false} ContributionAgree(g1: seq<Node>, g2: seq<Node>, X: set<nat>, E: nat, n: nat, s: nat)
    requires GradAgreeOn(g1, g2, X, E) && n in X
    ensures n < |g1| && n < |g2| && Contribution(g1, n, s, E) == Contribution(g2, n, s, E)
    decreases |g1| - n, 0, 0
  {
    assert GradAgreeAt(g1, g2, X, E, n);
    if n < s && s in g1[n].post {
      assert s in X;
      DeltaAgree(g1, g2, X, E, s);
    }
  }

  /** `h` is `g` with caches filled: the same links, every value kept,
      every gradient cache kept or grown, and every entry that is new (or,
      on a placeholder, rewritten) is what `g` computes. This is what
      `eval` and `diff` do to a graph. */
  ghost predicate FilledAt(g: seq<Node>, h: seq<Node>, n: nat)
    requires n < |g| && n < |h|
  {
    g[n].kind == h[n].kind && g[n].fwd == h[n].fwd && g[n].pre == h[n].pre && g[n].post == h[n].post &&
    (g[n].value.Some? ==> h[n].value == g[n].value) &&
    (h[n].value.Some? ==> Computed(g, n) == Ok(h[n].value.value)) &&
    g[n].delta.Keys <= h[n].delta.Keys &&
    (forall E :: E in h[n].delta ==>
      (E in g[n].delta && h[n].delta[E] == g[n].delta[E]) || Delta(g, n, E) == Ok(h[n].delta[E]))
  }

  ghost predicate Filled(g: seq<Node>, h: seq<Node>) {
    |g| == |h| && forall n :: 0 <= n < |g| ==> FilledAt(g, h, n)
  }

  lemma FilledReflexive(g: seq<Node>)
    ensures Filled(g, g)
  {
    forall n | 0 <= n < |g| ensures FilledAt(g, g, n) { }
  }

  /** Filling caches changes no answer of `eval` or `diff`. */
  lemma {:induction false} FilledRefines(g: seq<Node>, h: seq<Node>)
    requires Wf(g) && Filled(g, h)
    ensures forall n :: 0 <= n < |g| ==> Computed(h, n) == Computed(g, n)
    ensures forall n, E :: 0 <= n < |g| ==> Delta(h, n, E) == Delta(g, n, E)
  {
    var all := Below(|g|);
    forall y | y in all
      ensures ValueAgreeAt(g, h, all, y)
    {
      assert FilledAt(g, h, y);
    }
    forall n | 0 <= n < |g|
      ensures Computed(h, n) == Computed(g, n)
    {
      ComputedAgree(g, h, all, n);
    }
    forall n, E | 0 <= n < |g|
      ensures Delta(h, n, E) == Delta(g, n, E)
    {
      forall x | x in all
        ensures GradAgreeAt(g, h, all, E, x)
      {
        assert FilledAt(g, h, x);
        assert NodeOk(g, x);
        forall s | s in g[x].post && g[x].post[s].ReadsOther()
          ensures g[x].post[s].other < |g|
        {
          assert NodeOk(g, s);
        }
      }
      DeltaAgree(g, h, all, E, n);
    }
  }

  lemma FilledTransitive(g0: seq<Node>, g1: seq<Node>, g2: seq<Node>)
    requires Wf(g0) && Filled(g0, g1) && Filled(g1, g2)
    ensures Filled(g0, g2)
  {
    FilledRefines(g0, g1);
    forall n | 0 <= n < |g0|
      ensures FilledAt(g0, g2, n)
    {
      assert FilledAt(g0, g1, n) && FilledAt(g1, g2, n);
    }
  }

  /** Filling caches keeps the graph well formed. */
  lemma FilledWf(g: seq<Node>, h: seq<Node>)
    requires Wf(g) && Filled(g, h)
    ensures Wf(h)
  {
    forall n | 0 <= n < |h|
      ensures NodeOk(h, n)
    {
      assert NodeOk(g, n) && FilledAt(g, h, n);
      forall p | p in h[n].pre ensures n in h[p].post { assert FilledAt(g, h, p); }
      forall s | s in h[n].post ensures n in h[s].pre { assert FilledAt(g, h, s); }
      forall s | s in h[n].post && h[n].post[s].ReadsOther()
        ensures h[n].post[s].other in h[s].pre
      {
        assert FilledAt(g, h, s);
      }
    }
  }

  /** Filling caches changes no closure's contribution either. */
  lemma FilledContribution(g: seq<Node>, h: seq<Node>, n: nat, s: nat, E: nat)
    requires Wf(g) && Filled(g, h) && n < |g|
    ensures Contribution(h, n, s, E) == Contribution(g, n, s, E)
  {
    FilledRefines(g, h);
    assert FilledAt(g, h, n);
  }

  /** The value half of `FilledRefines`. */
  lemma FilledComputed(g: seq<Node>, h: seq<Node>)
    requires Wf(g) && Filled(g, h)
    ensures forall n :: 0 <= n < |g| ==> Computed(h, n) == Computed(g, n)
  {
    FilledRefines(g, h);
  }
}
