/** Growing the graph.

    Every constructor of lazy/ops/Operator.hpp makes a fresh operand, gives
    it its inputs and its forward function, and registers in the post map
    of each input the closure that turns the new operand's gradient into
    the input's. The leaf constructors make an operand without inputs.
    `Attach` is that step on the arena; the lemmas show that it keeps a
    graph well formed, changes no value the graph denotes, and keeps a
    coherent graph coherent as long as no input already caches a gradient
    (the new successor would change every such gradient without the
    engine noticing). */
module Construction {
  import opened Matrices
  import opened Rules
  import opened Dag
  import opened Agreement
  import opened Coherence

  /** The graph with a new node of `kind`, forward function `fwd` and value
      `value` appended, and `rules[i]` registered at each input `i` for it. */
  ghost function Attach(g: seq<Node>, kind: Kind, fwd: Forward, value: Option<Mat>,
                        rules: map<nat, Rule>): (r: seq<Node>)
    ensures |r| == |g| + 1
    ensures r[|g|] == Node(kind, fwd, fwd.Inputs(), map[], value, map[])
    ensures forall i :: 0 <= i < |g| ==>
      r[i] == if i in rules then g[i].(post := g[i].post[|g| := rules[i]]) else g[i]
  {
    seq(|g|, i requires 0 <= i < |g| =>
      if i in rules then g[i].(post := g[i].post[|g| := rules[i]]) else g[i])
    + [Node(kind, fwd, fwd.Inputs(), map[], value, map[])]
  }

  /** What a constructor must supply: existing inputs, one rule per input,
      a product rule naming an input, no inputs on a leaf, and a value on a
      constant. */
  ghost predicate Attachable(g: seq<Node>, kind: Kind, fwd: Forward, value: Option<Mat>,
                             rules: map<nat, Rule>) {
    rules.Keys == fwd.Inputs() &&
    (forall i :: i in rules ==> i < |g|) &&
    (forall i :: i in rules && rules[i].ReadsOther() ==> rules[i].other in fwd.Inputs()) &&
    (kind != Plain ==> fwd == Default) &&
    (kind == Constant ==> value.Some?)
  }

  /** Operand `t` holds no gradient that `diff` would read. */
  ghost predicate Undifferentiated(g: seq<Node>, t: nat)
    requires t < |g|
  {
    (g[t].kind == Plain || g[t].kind == Variable) ==> g[t].delta == map[]
  }

  /** No input that an operator reads holds a gradient of its own. */
  ghost predicate InputsUndifferentiated(g: seq<Node>, rules: map<nat, Rule>)
    requires forall i :: i in rules ==> i < |g|
  {
    forall i :: i in rules ==> Undifferentiated(g, i)
  }

  lemma AttachWf(g: seq<Node>, kind: Kind, fwd: Forward, value: Option<Mat>, rules: map<nat, Rule>)
    requires Wf(g) && Attachable(g, kind, fwd, value, rules)
    ensures Wf(Attach(g, kind, fwd, value, rules))
  {
    var h := Attach(g, kind, fwd, value, rules);
    forall n | 0 <= n < |h|
      ensures NodeOk(h, n)
    {
      if n < |g| {
        AttachNodeOk(g, kind, fwd, value, rules, n);
      } else {
        AttachNewOk(g, kind, fwd, value, rules);
      }
    }
  }

  /** The new node itself is well linked. */
  lemma AttachNewOk(g: seq<Node>, kind: Kind, fwd: Forward, value: Option<Mat>, rules: map<nat, Rule>)
    requires Attachable(g, kind, fwd, value, rules)
    ensures NodeOk(Attach(g, kind, fwd, value, rules), |g|)
  {
    var h := Attach(g, kind, fwd, value, rules);
    forall p | p in h[|g|].pre
      ensures p < |g| && |g| in h[p].post
    {
      assert p in rules;
    }
  }

  lemma AttachNodeOk(g: seq<Node>, kind: Kind, fwd: Forward, value: Option<Mat>, rules: map<nat, Rule>,
                     n: nat)
    requires Wf(g) && Attachable(g, kind, fwd, value, rules) && n < |g|
    ensures NodeOk(Attach(g, kind, fwd, value, rules), n)
  {
    var h := Attach(g, kind, fwd, value, rules);
    assert NodeOk(g, n);
    forall s | s in h[n].post
      ensures n < s < |h| && n in h[s].pre
    {
      if s != |g| {
        assert NodeOk(g, s);
      }
    }
  }

  /** `g2` extends `g1` and agrees with it on everything `eval` reads. */
  ghost predicate Extends(g1: seq<Node>, g2: seq<Node>) {
    |g1| <= |g2| &&
    forall y :: 0 <= y < |g1| ==>
      g1[y].kind == g2[y].kind && g1[y].fwd == g2[y].fwd && g1[y].value == g2[y].value
  }

  lemma ExtendsComputed(g1: seq<Node>, g2: seq<Node>)
    requires Extends(g1, g2)
    ensures forall y :: 0 <= y < |g1| ==> Computed(g2, y) == Computed(g1, y)
  {
    var Y := Below(|g1|);
    forall y | 0 <= y < |g1|
      ensures Computed(g2, y) == Computed(g1, y)
    {
      ComputedAgree(g1, g2, Y, y);
    }
  }

  /** A new node changes no value the old nodes denote. */
  lemma AttachFresh(g: seq<Node>, kind: Kind, fwd: Forward, value: Option<Mat>, rules: map<nat, Rule>)
    ensures forall y :: 0 <= y < |g| ==> Fresh(Attach(g, kind, fwd, value, rules), y) == Fresh(g, y)
    ensures forall y :: 0 <= y < |g| ==>
      Computed(Attach(g, kind, fwd, value, rules), y) == Computed(g, y)
  {
    var h := Attach(g, kind, fwd, value, rules);
    assert Extends(g, h);
    assert Extends(Strip(g), Strip(h));
    ExtendsComputed(g, h);
    ExtendsComputed(Strip(g), Strip(h));
  }

  /** A forward function applied to the results of evaluating its inputs:
      a failing input makes it fail. */
  function Lift(fwd: Forward, rx: Result<Mat>, ry: Result<Mat>): (r: Result<Mat>)
    ensures r.Ok? ==> rx.Ok? && ry.Ok? && Apply(fwd, rx.value, ry.value) == r
    ensures rx.Ok? && ry.Ok? ==> r == Apply(fwd, rx.value, ry.value)
  {
    match rx
    case Fail => Fail
    case Ok(x) =>
      match ry
      case Fail => Fail
      case Ok(y) => Apply(fwd, x, y)
  }

  /** The value a new node denotes: the value it was built with if it is
      not a bare operand; otherwise, and for a placeholder without a value,
      its forward function applied to what its inputs denote. A constant
      or a variable without a value denotes nothing (its `eval` would read
      an empty optional). */
  ghost function NewValue(g: seq<Node>, kind: Kind, fwd: Forward, value: Option<Mat>): Result<Mat>
    requires !fwd.Default? ==> fwd.a < |g| && fwd.Second() < |g|
  {
    if kind != Plain && value.Some? then Ok(value.value)
    else if kind == Constant || kind == Variable then Fail
    else if fwd.Default? then Ok(Empty)
    else Lift(fwd, Fresh(g, fwd.a), Fresh(g, fwd.Second()))
  }

  lemma AttachFreshNew(g: seq<Node>, kind: Kind, fwd: Forward, value: Option<Mat>, rules: map<nat, Rule>)
    requires Wf(g) && Attachable(g, kind, fwd, value, rules)
    ensures !fwd.Default? ==> fwd.a < |g| && fwd.Second() < |g|
    ensures Fresh(Attach(g, kind, fwd, value, rules), |g|) == NewValue(g, kind, fwd, value)
  {
    AttachFresh(g, kind, fwd, value, rules);
    if !fwd.Default? {
      assert fwd.a in rules && fwd.Second() in rules;
    }
  }

  /** `t->getPostOperand()[s] = rule`: input `t` registers `rule` for
      successor `s`, replacing any rule it held for `s`. */
  ghost function Link(g: seq<Node>, t: nat, s: nat, rule: Rule): (r: seq<Node>)
    requires t < |g|
    ensures |r| == |g|
  {
    g[t := g[t].(post := g[t].post[s := rule])]
  }

  /** Registering the rules one input at a time, in the order the
      constructor does, builds the graph `Attach` describes; a later rule
      for the same input replaces an earlier one. */
  lemma AttachLink(g: seq<Node>, kind: Kind, fwd: Forward, value: Option<Mat>, rules: map<nat, Rule>,
                   t: nat, rule: Rule)
    requires t < |g|
    ensures Attach(g, kind, fwd, value, rules[t := rule]) ==
      Link(Attach(g, kind, fwd, value, rules), t, |g|, rule)
  {
    var h1 := Attach(g, kind, fwd, value, rules[t := rule]);
    var h2 := Link(Attach(g, kind, fwd, value, rules), t, |g|, rule);
    forall i | 0 <= i < |h1|
      ensures h1[i] == h2[i]
    {
      if i == t {
        assert h1[i].post == g[t].post[|g| := rule];
      }
    }
  }

  /** Everything a constructor needs: the grown graph is well formed, the
      new node denotes `NewValue`, the old nodes denote what they did, and
      coherence is kept as long as no input holds a gradient. */
  lemma AttachSettles(g: seq<Node>, kind: Kind, fwd: Forward, value: Option<Mat>, rules: map<nat, Rule>)
    requires Wf(g) && Attachable(g, kind, fwd, value, rules)
    requires kind == Plain ==> value.None?
    ensures Wf(Attach(g, kind, fwd, value, rules))
    ensures !fwd.Default? ==> fwd.a < |g| && fwd.Second() < |g|
    ensures Fresh(Attach(g, kind, fwd, value, rules), |g|) == NewValue(g, kind, fwd, value)
    ensures forall y :: 0 <= y < |g| ==> Fresh(Attach(g, kind, fwd, value, rules), y) == Fresh(g, y)
    ensures Coherent(g) && InputsUndifferentiated(g, rules) ==> Coherent(Attach(g, kind, fwd, value, rules))
  {
    AttachWf(g, kind, fwd, value, rules);
    AttachFreshNew(g, kind, fwd, value, rules);
    AttachFresh(g, kind, fwd, value, rules);
    if Coherent(g) && InputsUndifferentiated(g, rules) {
      AttachCoherent(g, kind, fwd, value, rules);
    }
  }

  /** Appending a node keeps the cached values coherent. */
  lemma AttachValuesCoherent(g: seq<Node>, kind: Kind, fwd: Forward, value: Option<Mat>,
                             rules: map<nat, Rule>)
    requires Wf(g) && ValuesCoherent(g) && Attachable(g, kind, fwd, value, rules)
    requires kind == Plain ==> value.None?
    ensures ValuesCoherent(Attach(g, kind, fwd, value, rules))
  {
    var h := Attach(g, kind, fwd, value, rules);
    forall y | 0 <= y < |h|
      ensures ValueCoherentAt(h, y)
    {
      if y < |g| {
        AttachValueOld(g, kind, fwd, value, rules, y);
      } else {
        AttachValueNew(g, kind, fwd, value, rules);
      }
    }
  }

  lemma AttachValueOld(g: seq<Node>, kind: Kind, fwd: Forward, value: Option<Mat>,
                       rules: map<nat, Rule>, y: nat)
    requires Wf(g) && y < |g| && ValueCoherentAt(g, y)
    ensures ValueCoherentAt(Attach(g, kind, fwd, value, rules), y)
  {
    var h := Attach(g, kind, fwd, value, rules);
    AttachFresh(g, kind, fwd, value, rules);
    assert NodeOk(g, y);
    assert h[y].kind == g[y].kind && h[y].pre == g[y].pre && h[y].value == g[y].value;
    forall p | p in h[y].pre && p < |h|
      ensures h[p].value == g[p].value
    {
    }
  }

  lemma AttachValueNew(g: seq<Node>, kind: Kind, fwd: Forward, value: Option<Mat>,
                       rules: map<nat, Rule>)
    requires Wf(g) && Attachable(g, kind, fwd, value, rules)
    requires kind == Plain ==> value.None?
    ensures ValueCoherentAt(Attach(g, kind, fwd, value, rules), |g|)
  {
    if value.Some? {
      AttachFreshNew(g, kind, fwd, value, rules);
    }
  }

  /** Appending a node keeps a coherent graph coherent, provided no input
      holds a gradient. */
  lemma AttachCoherent(g: seq<Node>, kind: Kind, fwd: Forward, value: Option<Mat>, rules: map<nat, Rule>)
    requires Coherent(g) && Attachable(g, kind, fwd, value, rules)
    requires InputsUndifferentiated(g, rules)
    requires kind == Plain ==> value.None?
    ensures Coherent(Attach(g, kind, fwd, value, rules))
  {
    AttachWf(g, kind, fwd, value, rules);
    AttachValuesCoherent(g, kind, fwd, value, rules);
    CoherentClosed(g);
    AttachGradsCoherent(g, kind, fwd, value, rules);
  }

  /** Appending a node keeps cached gradients coherent, provided no input
      holds one. */
  lemma AttachGradsCoherent(g: seq<Node>, kind: Kind, fwd: Forward, value: Option<Mat>,
                            rules: map<nat, Rule>)
    requires Wf(g) && GradsCoherent(g) && GradsClosed(g) && Attachable(g, kind, fwd, value, rules)
    requires InputsUndifferentiated(g, rules)
    ensures GradsCoherent(Attach(g, kind, fwd, value, rules))
  {
    var h := Attach(g, kind, fwd, value, rules);
    forall x | 0 <= x < |h|
      ensures GradCoherentAt(h, x)
    {
      if x < |g| {
        AttachGradOld(g, kind, fwd, value, rules, x);
      }
    }
  }

  lemma AttachGradOld(g: seq<Node>, kind: Kind, fwd: Forward, value: Option<Mat>,
                      rules: map<nat, Rule>, x: nat)
    requires Wf(g) && GradsClosed(g) && Attachable(g, kind, fwd, value, rules)
    requires InputsUndifferentiated(g, rules)
    requires x < |g| && GradCoherentAt(g, x)
    ensures GradCoherentAt(Attach(g, kind, fwd, value, rules), x)
  {
    var h := Attach(g, kind, fwd, value, rules);
    if (g[x].kind == Plain || g[x].kind == Variable) && g[x].delta != map[] {
      forall E | E in h[x].delta
        ensures h[x].value.Some?
        ensures forall s :: s in h[x].post && s < |h| ==> E in h[s].delta
        ensures Grad(h, x, E) == Ok(h[x].delta[E])
      {
        AttachGrad(g, kind, fwd, value, rules, E, x);
      }
    }
  }

  /** The nodes caching a gradient for `E`. */
  ghost function Holding(g: seq<Node>, E: nat): set<nat> {
    set z | 0 <= z < |g| && (g[z].kind == Plain || g[z].kind == Variable) && E in g[z].delta
  }

  /** A node holding a gradient is no input of the new node and keeps its
      successors; its successors hold the gradient too. */
  lemma HoldingAgreeAt(g: seq<Node>, kind: Kind, fwd: Forward, value: Option<Mat>, rules: map<nat, Rule>,
                       E: nat, z: nat)
    requires Wf(g) && GradsClosed(g)
    requires z in Holding(g, E) && z !in rules
    ensures GradAgreeAt(Strip(g), Strip(Attach(g, kind, fwd, value, rules)), Holding(g, E), E, z)
  {
    var h := Attach(g, kind, fwd, value, rules);
    var X := Holding(g, E);
    var sg, sh := Strip(g), Strip(h);
    AttachFresh(g, kind, fwd, value, rules);
    assert GradClosedAt(g, z) && NodeOk(g, z);
    assert sh[z].kind == sg[z].kind && sh[z].post == g[z].post == sg[z].post;
    assert sg[z].delta == map[] && sh[z].delta == map[];
    assert Computed(sg, z) == Fresh(g, z) == Fresh(h, z) == Computed(sh, z);
    forall s | s in g[z].post
      ensures s in X
    {
      SuccessorIsPlain(g, z, s);
    }
    forall s | s in g[z].post && g[z].post[s].ReadsOther()
      ensures g[z].post[s].other < |g|
      ensures Computed(sg, g[z].post[s].other) == Computed(sh, g[z].post[s].other)
    {
      assert NodeOk(g, s);
      var o := g[z].post[s].other;
      assert Fresh(g, o) == Fresh(h, o);
    }
  }

  /** The old graph and the grown one agree on every gradient cached for
      `E`, once caches are dropped. */
  lemma HoldingAgreeOn(g: seq<Node>, kind: Kind, fwd: Forward, value: Option<Mat>, rules: map<nat, Rule>,
                       E: nat)
    requires Wf(g) && GradsClosed(g) && (forall i :: i in rules ==> i < |g|)
    requires InputsUndifferentiated(g, rules)
    ensures GradAgreeOn(Strip(g), Strip(Attach(g, kind, fwd, value, rules)), Holding(g, E), E)
  {
    var X := Holding(g, E);
    forall z | z in X
      ensures z < |Strip(g)| && z < |Strip(Attach(g, kind, fwd, value, rules))|
      ensures GradAgreeAt(Strip(g), Strip(Attach(g, kind, fwd, value, rules)), X, E, z)
    {
      assert Undifferentiated(g, z) || z !in rules;
      HoldingAgreeAt(g, kind, fwd, value, rules, E, z);
    }
  }

  /** A cached gradient does not read the new node. */
  lemma AttachGrad(g: seq<Node>, kind: Kind, fwd: Forward, value: Option<Mat>, rules: map<nat, Rule>,
                   E: nat, x: nat)
    requires Wf(g) && GradsClosed(g) && (forall i :: i in rules ==> i < |g|)
    requires InputsUndifferentiated(g, rules)
    requires x in Holding(g, E)
    ensures Attach(g, kind, fwd, value, rules)[x] == g[x]
    ensures forall s :: s in g[x].post ==> s < |g| && Attach(g, kind, fwd, value, rules)[s].delta == g[s].delta
    ensures Grad(Attach(g, kind, fwd, value, rules), x, E) == Grad(g, x, E)
  {
    assert Undifferentiated(g, x) || x !in rules;
    HoldingAgreeOn(g, kind, fwd, value, rules, E);
    DeltaAgree(Strip(g), Strip(Attach(g, kind, fwd, value, rules)), Holding(g, E), E, x);
    assert NodeOk(g, x);
  }
}
