/** When the caches of a graph are up to date.

    The engine never checks that a cached value or gradient is still
    right; it relies on `reset_value` and `reset_delta` to drop every cache
    an assignment makes stale. The two invariants below say what "up to
    date" means, and the lemmas show that on a graph that keeps them,
    `eval` and `diff` answer with the values and gradients the graph
    denotes. */
module Coherence {
  import opened Matrices
  import opened Rules
  import opened Dag
  import opened Agreement

  /** A cached value is the node's denoted value, and a bare operand is
      only cached when its inputs are (`eval` caches inputs first, and
      `reset_value` clears a node's successors with it). */
  ghost predicate ValueCoherentAt(g: seq<Node>, n: nat)
    requires n < |g|
  {
    g[n].value.Some? ==>
      Fresh(g, n) == Ok(g[n].value.value) &&
      (g[n].kind == Plain ==> forall p :: p in g[n].pre && p < |g| ==> g[p].value.Some?)
  }

  ghost predicate ValuesCoherent(g: seq<Node>) {
    forall n :: 0 <= n < |g| ==> ValueCoherentAt(g, n)
  }

  /** A gradient cached on a bare operand or a variable sits on a cached
      node, every successor caches a gradient for the same `E`, and it is
      the gradient the graph denotes. Constants and placeholders are not
      covered: a constant's `reset_delta` does nothing, so its cache may go
      stale, and a placeholder's `diff` never reads its cache. */
  ghost predicate GradCoherentAt(g: seq<Node>, n: nat)
    requires n < |g|
  {
    (g[n].kind == Plain || g[n].kind == Variable) ==>
      forall E :: E in g[n].delta ==>
        g[n].value.Some? &&
        (forall s :: s in g[n].post && s < |g| ==> E in g[s].delta) &&
        Grad(g, n, E) == Ok(g[n].delta[E])
  }

  ghost predicate GradsCoherent(g: seq<Node>) {
    forall n :: 0 <= n < |g| ==> GradCoherentAt(g, n)
  }

  ghost predicate Coherent(g: seq<Node>) {
    Wf(g) && ValuesCoherent(g) && GradsCoherent(g)
  }

  /** The part of `GradCoherentAt` that says where gradients sit: a bare
      operand or a variable holding a gradient for `E` is cached, and so is
      the gradient for `E` of each of its successors. */
  ghost predicate GradClosedAt(g: seq<Node>, x: nat)
    requires x < |g|
  {
    (g[x].kind == Plain || g[x].kind == Variable) ==>
      forall E :: E in g[x].delta ==>
        g[x].value.Some? && forall s :: s in g[x].post && s < |g| ==> E in g[s].delta
  }

  ghost predicate GradsClosed(g: seq<Node>) {
    forall x :: 0 <= x < |g| ==> GradClosedAt(g, x)
  }

  lemma CoherentClosed(g: seq<Node>)
    requires Coherent(g)
    ensures GradsClosed(g)
  {
    forall x | 0 <= x < |g|
      ensures GradClosedAt(g, x)
    {
      assert GradCoherentAt(g, x);
    }
  }

  /** Dropping caches keeps a graph well formed. */
  lemma StripWf(g: seq<Node>)
    requires Wf(g)
    ensures Wf(Strip(g))
  {
    var h := Strip(g);
    forall n | 0 <= n < |h|
      ensures NodeOk(h, n)
    {
      assert NodeOk(g, n);
    }
  }

  /** On a graph whose cached values are coherent, `eval` answers with the
      denoted value of every node. */
  lemma {:induction false} CoherentComputed(g: seq<Node>, n: nat)
    requires Wf(g) && ValuesCoherent(g) && n < |g|
    ensures Computed(g, n) == Fresh(g, n)
  {
    var all := Below(|g|);
    var h := Strip(g);
    forall y | y in all
      ensures ValueAgreeAt(g, h, all, y)
    {
      assert ValueCoherentAt(g, y);
    }
    ComputedAgree(g, h, all, n);
  }

  /** On a coherent graph, `diff` answers with the denoted gradient on
      every node but a constant. */
  lemma {:induction false} CoherentDelta(g: seq<Node>, n: nat, E: nat)
    requires Coherent(g) && n < |g| && g[n].kind != Constant
    ensures Delta(g, n, E) == Grad(g, n, E)
  {
    var h := Strip(g);
    var X := set x | x in Below(|g|) && g[x].kind != Constant;
    forall x | x in X
      ensures GradAgreeAt(g, h, X, E, x)
    {
      assert NodeOk(g, x) && GradCoherentAt(g, x);
      CoherentComputed(g, x);
      forall s | s in g[x].post
        ensures s in X
        ensures g[x].post[s].ReadsOther() ==> g[x].post[s].other < |g|
      {
        SuccessorIsPlain(g, x, s);
        assert NodeOk(g, s);
      }
      forall s | s in g[x].post && g[x].post[s].ReadsOther()
        ensures Computed(g, g[x].post[s].other) == Computed(h, g[x].post[s].other)
      {
        CoherentComputed(g, g[x].post[s].other);
      }
    }
    DeltaAgree(g, h, X, E, n);
  }

  /** Filling caches changes neither the denoted values nor the denoted
      gradients. */
  lemma {:induction false} FilledFresh(g: seq<Node>, h: seq<Node>)
    requires Wf(g) && Filled(g, h)
    ensures forall n :: 0 <= n < |g| ==> Fresh(h, n) == Fresh(g, n)
    ensures forall n, E :: 0 <= n < |g| ==> Grad(h, n, E) == Grad(g, n, E)
  {
    var sg, sh := Strip(g), Strip(h);
    StripWf(g);
    forall n | 0 <= n < |g|
      ensures FilledAt(sg, sh, n)
    {
      assert FilledAt(g, h, n) && NodeOk(g, n);
      if sh[n].value.Some? && g[n].value.None? {
        assert Computed(g, n) == Ok(h[n].value.value);
        assert g[n].kind == Placeholder;
      }
    }
    FilledRefines(sg, sh);
  }

  /** `h` is `g` with caches filled the way `eval` and `diff` fill them:
      a bare operand's value is only cached once its inputs' are, and a
      gradient on a bare operand or a variable only once the node's value
      and every successor's gradient for the same seed are. */
  ghost predicate MemoisedAt(g: seq<Node>, h: seq<Node>, x: nat)
    requires x < |g| && x < |h|
  {
    (h[x].kind == Plain && h[x].value.Some? && g[x].value.None? ==>
      forall p :: p in h[x].pre && p < |h| ==> h[p].value.Some?) &&
    ((h[x].kind == Plain || h[x].kind == Variable) ==>
      forall E :: E in h[x].delta && E !in g[x].delta ==>
        h[x].value.Some? && forall s :: s in h[x].post && s < |h| ==> E in h[s].delta)
  }

  ghost predicate Memoised(g: seq<Node>, h: seq<Node>) {
    Filled(g, h) && forall x :: 0 <= x < |g| ==> MemoisedAt(g, h, x)
  }

  lemma MemoisedReflexive(g: seq<Node>)
    ensures Memoised(g, g)
  {
    FilledReflexive(g);
  }

  lemma MemoisedTransitive(g0: seq<Node>, g1: seq<Node>, g2: seq<Node>)
    requires Wf(g0) && Memoised(g0, g1) && Memoised(g1, g2)
    ensures Memoised(g0, g2)
  {
    FilledTransitive(g0, g1, g2);
    forall x | 0 <= x < |g0|
      ensures MemoisedAt(g0, g2, x)
    {
      assert FilledAt(g0, g1, x) && FilledAt(g1, g2, x);
      assert MemoisedAt(g0, g1, x) && MemoisedAt(g1, g2, x);
      forall p | p in g2[x].pre && p < |g2|
        ensures g1[p].value.Some? ==> g2[p].value.Some?
      {
        assert FilledAt(g1, g2, p);
      }
      forall E, s | E in g1[x].delta && s in g1[x].post && s < |g1|
        ensures E in g1[s].delta ==> E in g2[s].delta
      {
        assert FilledAt(g1, g2, s);
      }
    }
  }

  /** Filling caches the way `eval` and `diff` do keeps a graph coherent. */
  lemma MemoisedCoherent(g: seq<Node>, h: seq<Node>)
    requires Coherent(g) && Memoised(g, h)
    ensures Coherent(h)
  {
    FilledWf(g, h);
    FilledFresh(g, h);
    forall x | 0 <= x < |h|
      ensures ValueCoherentAt(h, x)
    {
      assert ValueCoherentAt(g, x) && FilledAt(g, h, x) && MemoisedAt(g, h, x);
      if h[x].value.Some? {
        CoherentComputed(g, x);
        forall p | p in h[x].pre && p < |h|
          ensures g[p].value.Some? ==> h[p].value.Some?
        {
          assert FilledAt(g, h, p);
        }
      }
    }
    forall x | 0 <= x < |h|
      ensures GradCoherentAt(h, x)
    {
      assert GradCoherentAt(g, x) && FilledAt(g, h, x) && MemoisedAt(g, h, x);
      if h[x].kind == Plain || h[x].kind == Variable {
        forall E | E in h[x].delta
          ensures h[x].value.Some?
          ensures forall s :: s in h[x].post && s < |h| ==> E in h[s].delta
          ensures Grad(h, x, E) == Ok(h[x].delta[E])
        {
          if E !in g[x].delta {
            CoherentDelta(g, x, E);
          } else {
            forall s | s in h[x].post && s < |h|
              ensures E in h[s].delta
            {
              assert FilledAt(g, h, s);
            }
          }
        }
      }
    }
  }

  /** Caching the value `eval` computes for an uncached node, once its
      inputs are cached. */
  lemma CacheValue(g: seq<Node>, n: nat, v: Mat)
    requires Wf(g) && n < |g| && g[n].value.None? && Computed(g, n) == Ok(v)
    requires g[n].kind == Plain ==> forall p :: p in g[n].pre && p < |g| ==> g[p].value.Some?
    ensures Memoised(g, g[n := g[n].(value := Some(v))])
    ensures Wf(g[n := g[n].(value := Some(v))])
  {
    var h := g[n := g[n].(value := Some(v))];
    forall m | 0 <= m < |g| ensures FilledAt(g, h, m) && MemoisedAt(g, h, m) { }
    FilledWf(g, h);
  }

  /** Caching the gradient `diff` computes on a node that is not a
      placeholder, once the node's value and its successors' gradients for
      the same seed are cached. */
  lemma CacheDelta(g: seq<Node>, n: nat, E: nat, d: Mat)
    requires Wf(g) && n < |g| && g[n].kind != Placeholder && Delta(g, n, E) == Ok(d)
    requires g[n].value.Some?
    requires forall s :: s in g[n].post && s < |g| ==> E in g[s].delta
    ensures Memoised(g, g[n := g[n].(delta := g[n].delta[E := d])])
    ensures Wf(g[n := g[n].(delta := g[n].delta[E := d])])
  {
    var h := g[n := g[n].(delta := g[n].delta[E := d])];
    forall m | 0 <= m < |g| ensures FilledAt(g, h, m) && MemoisedAt(g, h, m) { }
    FilledWf(g, h);
  }

  /** A placeholder's `diff` writes zeros of its value's shape. */
  lemma CachePlaceholderDelta(g: seq<Node>, n: nat, E: nat, d: Mat)
    requires Wf(g) && n < |g| && g[n].kind == Placeholder && Delta(g, n, E) == Ok(d)
    ensures Memoised(g, g[n := g[n].(delta := g[n].delta[E := d])])
    ensures Wf(g[n := g[n].(delta := g[n].delta[E := d])])
  {
    var h := g[n := g[n].(delta := g[n].delta[E := d])];
    forall m | 0 <= m < |g| ensures FilledAt(g, h, m) && MemoisedAt(g, h, m) { }
    FilledWf(g, h);
  }
}
