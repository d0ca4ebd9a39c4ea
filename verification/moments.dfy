/** The state the momentum and Adam optimizers keep between steps, and how
    one step updates it. Every map is keyed by the index of a variable, as
    the optimizers' `VariableMap` is keyed by the variable. */
module Moments {
  import opened Matrices

  // ------------------------------------------------------ matrix arithmetic

  lemma ScaleScale(a: Mat, x: real, y: real)
    ensures Scale(Scale(a, x), y) == Scale(a, x * y)
  {
    var l := Scale(Scale(a, x), y);
    var r := Scale(a, x * y);
    forall i, j | 0 <= i < a.rows && 0 <= j < a.cols
      ensures l.data[i][j] == r.data[i][j]
    {
      var e := a.data[i][j];
      assert l.data[i][j] == (e * x) * y;
      assert r.data[i][j] == e * (x * y);
    }
    Extensionality(l, r);
  }

  lemma AddScales(a: Mat, x: real, y: real)
    ensures Add(Scale(a, x), Scale(a, y)) == Scale(a, x + y)
  {
    var l := Add(Scale(a, x), Scale(a, y));
    var r := Scale(a, x + y);
    forall i, j | 0 <= i < a.rows && 0 <= j < a.cols
      ensures l.data[i][j] == r.data[i][j]
    {
      var e := a.data[i][j];
      assert l.data[i][j] == e * x + e * y;
      assert r.data[i][j] == e * (x + y);
    }
    Extensionality(l, r);
  }

  lemma ScaleOne(a: Mat)
    ensures Scale(a, 1.0) == a
  {
    Extensionality(Scale(a, 1.0), a);
  }

  lemma ZeroScale(a: Mat)
    ensures Zero(a.rows, a.cols) == Scale(a, 0.0)
  {
    Extensionality(Zero(a.rows, a.cols), Scale(a, 0.0));
  }

  // ------------------------------------------------------------ shared state

  /** `emplace(ptr, Zero(rows, cols))` for every slot of `grad`, with the
      slot's shape: a key already present keeps its entry. */
  function Emplaced(m: map<nat, Mat>, grad: map<nat, Mat>): (r: map<nat, Mat>)
    ensures r.Keys == m.Keys + grad.Keys
    ensures forall k :: k in m ==> r[k] == m[k]
    ensures forall k :: k in grad && k !in m ==> r[k] == Zero(grad[k].rows, grad[k].cols)
  {
    map k | k in m.Keys + grad.Keys :: if k in m then m[k] else Zero(grad[k].rows, grad[k].cols)
  }

  /** Every slot of `grad` has an entry of its own shape in `m`: the
      condition under which `m.at(ptr)` neither throws nor meets a matrix
      of another shape. */
  predicate Tracks(m: map<nat, Mat>, grad: map<nat, Mat>) {
    forall k :: k in grad ==> k in m && SameShape(m[k], grad[k])
  }

  /** `x` to the power `t`. */
  function Power(x: real, t: nat): real {
    if t == 0 then 1.0 else x * Power(x, t - 1)
  }

  /** `1 + mu + ... + mu^(t - 1)`. */
  function Geometric(mu: real, t: nat): real {
    if t == 0 then 0.0 else 1.0 + mu * Geometric(mu, t - 1)
  }

  // ---------------------------------------------------------------- momentum

  /** One entry of `adjustMomentumWith`: `accumulation * momentum + value`. */
  function Velocity(v: Mat, d: Mat, mu: real): (r: Mat)
    requires SameShape(v, d)
    ensures SameShape(r, d)
  {
    Add(Scale(v, mu), d)
  }

  /** The accumulation `adjustMomentumWith(grad)` starts from:
      `initMomentum(grad)` runs only when it is empty. */
  function Primed(acc: map<nat, Mat>, grad: map<nat, Mat>): map<nat, Mat> {
    if acc == map[] then Emplaced(acc, grad) else acc
  }

  /** The new slots of `adjustMomentumWith(grad)` from the accumulation `p`. */
  function Advanced(p: map<nat, Mat>, grad: map<nat, Mat>, mu: real): (r: map<nat, Mat>)
    requires Tracks(p, grad)
    ensures r.Keys == grad.Keys && Tracks(r, grad)
  {
    map k | k in grad :: Velocity(p[k], grad[k], mu)
  }

  /** `adjustMomentumWith(grad)`: the new accumulation and the new slots,
      which are the accumulation's entries for the slots' variables. It
      fails when a slot's variable has no entry or one of another shape. */
  function Adjusted(acc: map<nat, Mat>, grad: map<nat, Mat>, mu: real): (r: Result<(map<nat, Mat>, map<nat, Mat>)>)
    ensures r.Ok? <==> Tracks(Primed(acc, grad), grad)
    ensures r.Ok? ==> r.value.1.Keys == grad.Keys && Tracks(r.value.1, grad)
    ensures r.Ok? ==> r.value.0.Keys == Primed(acc, grad).Keys
    ensures r.Ok? ==> forall k :: k in grad ==> r.value.0[k] == r.value.1[k]
  {
    var p := Primed(acc, grad);
    if Tracks(p, grad) then
      var slots := Advanced(p, grad, mu);
      Ok((p + slots, slots))
    else Fail
  }

  /** The accumulation's entries for the slots of `grad`: what
      `applyMomentum` reads with `at` to look ahead. */
  function Entries(p: map<nat, Mat>, grad: map<nat, Mat>): (r: map<nat, Mat>)
    requires grad.Keys <= p.Keys
    ensures r.Keys == grad.Keys && forall k :: k in r ==> r[k] == p[k]
  {
    map k | k in grad :: p[k]
  }

  /** A velocity built on zeros is the gradient itself. */
  lemma VelocityFromZero(d: Mat, mu: real)
    ensures Velocity(Zero(d.rows, d.cols), d, mu) == d
  {
    ZeroScale(d);
    ScaleScale(d, 0.0, mu);
    ScaleOne(d);
    AddScales(d, 0.0 * mu, 1.0);
    assert 0.0 * mu + 1.0 == 1.0;
  }

  /** The first call of `adjustMomentumWith` hands the gradients back
      unchanged and makes them the accumulation: the first step of the
      momentum optimizer is a plain gradient step. */
  lemma FirstVelocity(grad: map<nat, Mat>, mu: real)
    ensures Adjusted(map[], grad, mu) == Ok((grad, grad))
  {
    var p := Primed(map[], grad);
    forall k | k in grad
      ensures Velocity(p[k], grad[k], mu) == grad[k]
    {
      VelocityFromZero(grad[k], mu);
    }
    var slots := Advanced(p, grad, mu);
    assert slots == grad;
    assert p + slots == grad;
  }

  /** The accumulation after `t` steps with the same gradient `d`. */
  function Velocities(d: Mat, mu: real, t: nat): (r: Mat)
    ensures SameShape(r, d)
  {
    if t == 0 then Zero(d.rows, d.cols) else Velocity(Velocities(d, mu, t - 1), d, mu)
  }

  /** With a constant gradient the accumulation is the gradient times the
      geometric sum `1 + mu + ... + mu^(t - 1)`. */
  lemma {:induction false} VelocitiesGeometric(d: Mat, mu: real, t: nat)
    ensures Velocities(d, mu, t) == Scale(d, Geometric(mu, t))
  {
    if t == 0 {
      ZeroScale(d);
    } else {
      VelocitiesGeometric(d, mu, t - 1);
      var G := Geometric(mu, t - 1);
      ScaleScale(d, G, mu);
      ScaleOne(d);
      AddScales(d, G * mu, 1.0);
      assert G * mu + 1.0 == Geometric(mu, t);
    }
  }

  // -------------------------------------------------------------------- Adam

  /** `m_first * beta1 + here * (1 - beta1)`. */
  function FirstMoment(m: Mat, d: Mat, beta1: real): (r: Mat)
    requires SameShape(m, d)
    ensures SameShape(r, d)
  {
    Add(Scale(m, beta1), Scale(d, 1.0 - beta1))
  }

  /** `m_second * beta2 + here.unaryExpr(f -> f * f) * (1 - beta2)`. */
  function SecondMoment(s: Mat, d: Mat, beta2: real): (r: Mat)
    requires SameShape(s, d)
    ensures SameShape(r, d)
  {
    Add(Scale(s, beta2), Scale(Hadamard(d, d), 1.0 - beta2))
  }

  /** `1 / x`; the infinity a division by zero gives in floating point has
      no real counterpart and stands as zero. */
  function Inverse(x: real): real {
    if x == 0.0 then 0.0 else 1.0 / x
  }

  lemma InverseCancels(x: real)
    requires x != 0.0
    ensures x * Inverse(x) == 1.0
  {
  }

  /** `f -> pow(sqrt(f) + eps, -1)`, with `root` standing for `sqrt`. */
  function Damped(root: real -> real, eps: real): real -> real {
    f => Inverse(root(f) + eps)
  }

  /** The new slot: `(m / (1 - b1)).cwiseProduct((s / (1 - b2)).unaryExpr(
      f -> pow(sqrt(f) + eps, -1)))`. */
  function Direction(m: Mat, s: Mat, b1: real, b2: real, eps: real, root: real -> real): (r: Mat)
    requires SameShape(m, s)
    ensures SameShape(r, m)
  {
    Hadamard(Scale(m, Inverse(1.0 - b1)), MapEntries(Scale(s, Inverse(1.0 - b2)), Damped(root, eps)))
  }

  /** Adam's constants and the two decay products `b1` and `b2`. */
  datatype Rates = Rates(beta1: real, beta2: real, eps: real, b1: real, b2: real)

  /** The outcome of `adjustGradients`: both moments and the new slots. */
  datatype Adjustment = Adjustment(first: map<nat, Mat>, second: map<nat, Mat>, slots: map<nat, Mat>)

  /** The moments `adjustGradients(grad)` starts from: both are primed with
      zeros for every slot when either is empty. */
  function PrimedMoments(first: map<nat, Mat>, second: map<nat, Mat>, grad: map<nat, Mat>): (map<nat, Mat>, map<nat, Mat>) {
    if first == map[] || second == map[] then (Emplaced(first, grad), Emplaced(second, grad)) else (first, second)
  }

  /** The new first moment of each slot of `grad`. */
  function Firsts(f: map<nat, Mat>, grad: map<nat, Mat>, beta1: real): (r: map<nat, Mat>)
    requires Tracks(f, grad)
    ensures r.Keys == grad.Keys && Tracks(r, grad)
  {
    map k | k in grad :: FirstMoment(f[k], grad[k], beta1)
  }

  /** The new second moment of each slot of `grad`. */
  function Seconds(s: map<nat, Mat>, grad: map<nat, Mat>, beta2: real): (r: map<nat, Mat>)
    requires Tracks(s, grad)
    ensures r.Keys == grad.Keys && Tracks(r, grad)
  {
    map k | k in grad :: SecondMoment(s[k], grad[k], beta2)
  }

  /** The first moments after one step on `grad`. */
  function NextFirst(f: map<nat, Mat>, grad: map<nat, Mat>, beta1: real): (r: map<nat, Mat>)
    requires Tracks(f, grad)
    ensures r.Keys == f.Keys && Tracks(r, grad)
  {
    f + Firsts(f, grad, beta1)
  }

  /** The second moments after one step on `grad`. */
  function NextSecond(s: map<nat, Mat>, grad: map<nat, Mat>, beta2: real): (r: map<nat, Mat>)
    requires Tracks(s, grad)
    ensures r.Keys == s.Keys && Tracks(r, grad)
  {
    s + Seconds(s, grad, beta2)
  }

  /** The new slots, one direction per slot of `grad`. */
  function Directions(f: map<nat, Mat>, s: map<nat, Mat>, grad: map<nat, Mat>, c: Rates, root: real -> real)
    : (r: map<nat, Mat>)
    requires Tracks(f, grad) && Tracks(s, grad)
    ensures r.Keys == grad.Keys && Tracks(r, grad)
  {
    map k | k in grad :: Direction(f[k], s[k], c.b1, c.b2, c.eps, root)
  }

  /** What the loop of `adjustGradients` computes for one slot: its new
      first and second moment and Adam's direction from them. */
  datatype SlotUpdate = SlotUpdate(first: Mat, second: Mat, slot: Mat)

  function Update(m: Mat, v: Mat, d: Mat, c: Rates, root: real -> real): (r: SlotUpdate)
    requires SameShape(m, d) && SameShape(v, d)
    ensures SameShape(r.first, d) && SameShape(r.second, d) && SameShape(r.slot, d)
  {
    var a := FirstMoment(m, d, c.beta1);
    var b := SecondMoment(v, d, c.beta2);
    SlotUpdate(a, b, Direction(a, b, c.b1, c.b2, c.eps, root))
  }

  /** The per-slot updates of `grad`'s slots from the moments `f` and `s`. */
  ghost predicate Updates(f: map<nat, Mat>, s: map<nat, Mat>, grad: map<nat, Mat>, c: Rates, root: real -> real,
                          upd: map<nat, SlotUpdate>)
  {
    Tracks(f, grad) && Tracks(s, grad) && upd.Keys == grad.Keys &&
    forall k :: k in upd ==> upd[k] == Update(f[k], s[k], grad[k], c, root)
  }

  /** The per-slot updates, gathered into the new first moments. */
  lemma FirstsGathered(f: map<nat, Mat>, s: map<nat, Mat>, grad: map<nat, Mat>, c: Rates, root: real -> real,
                       upd: map<nat, SlotUpdate>)
    requires Updates(f, s, grad, c, root, upd)
    ensures (map k | k in upd :: upd[k].first) == Firsts(f, grad, c.beta1)
  {
  }

  /** The per-slot updates, gathered into the new second moments. */
  lemma SecondsGathered(f: map<nat, Mat>, s: map<nat, Mat>, grad: map<nat, Mat>, c: Rates, root: real -> real,
                        upd: map<nat, SlotUpdate>)
    requires Updates(f, s, grad, c, root, upd)
    ensures (map k | k in upd :: upd[k].second) == Seconds(s, grad, c.beta2)
  {
  }

  /** The per-slot updates, gathered into the new slots. */
  lemma SlotsGathered(f: map<nat, Mat>, s: map<nat, Mat>, grad: map<nat, Mat>, c: Rates, root: real -> real,
                      upd: map<nat, SlotUpdate>)
    requires Updates(f, s, grad, c, root, upd)
    ensures (map k | k in upd :: upd[k].slot) == Directions(NextFirst(f, grad, c.beta1), NextSecond(s, grad, c.beta2), grad, c, root)
  {
  }

  /** `adjustGradients(grad)`: it fails when a slot's variable has no entry
      in either moment or one of another shape; otherwise each slot's
      moments are updated and the slot becomes Adam's direction. */
  function AdamAdjusted(first: map<nat, Mat>, second: map<nat, Mat>, grad: map<nat, Mat>, c: Rates, root: real -> real)
    : (r: Result<Adjustment>)
    ensures r.Ok? <==>
      Tracks(PrimedMoments(first, second, grad).0, grad) && Tracks(PrimedMoments(first, second, grad).1, grad)
    ensures r.Ok? ==> r.value.slots.Keys == grad.Keys && Tracks(r.value.slots, grad)
    ensures r.Ok? ==> Tracks(r.value.first, grad) && Tracks(r.value.second, grad)
  {
    var (f, s) := PrimedMoments(first, second, grad);
    if Tracks(f, grad) && Tracks(s, grad) then
      var f1 := NextFirst(f, grad, c.beta1);
      var s1 := NextSecond(s, grad, c.beta2);
      Ok(Adjustment(f1, s1, Directions(f1, s1, grad, c, root)))
    else Fail
  }

  /** Every entry of `m` is at least zero. */
  ghost predicate NonNegative(m: Mat) {
    forall i, j :: 0 <= i < m.rows && 0 <= j < m.cols ==> m.data[i][j] >= 0.0
  }

  /** Every entry of every matrix of `m` is at least zero. */
  ghost predicate AllNonNegative(m: map<nat, Mat>) {
    forall k :: k in m ==> NonNegative(m[k])
  }

  lemma ConvexNonNegative(x: real, q: real, beta: real)
    requires x >= 0.0 && q >= 0.0 && 0.0 <= beta <= 1.0
    ensures x * beta + q * (1.0 - beta) >= 0.0
  {
    assert x * beta >= 0.0;
    assert q * (1.0 - beta) >= 0.0;
  }

  /** With `0 <= beta2 <= 1` the second moment of an entry stays at least
      zero, so the square root `adjustGradients` takes is of a number that
      has one. */
  lemma SecondMomentNonNegative(s: Mat, d: Mat, beta2: real)
    requires SameShape(s, d) && NonNegative(s) && 0.0 <= beta2 <= 1.0
    ensures NonNegative(SecondMoment(s, d, beta2))
  {
    var r := SecondMoment(s, d, beta2);
    var q := Hadamard(d, d);
    forall i, j | 0 <= i < d.rows && 0 <= j < d.cols
      ensures r.data[i][j] >= 0.0
    {
      var x := d.data[i][j];
      assert q.data[i][j] == x * x;
      assert r.data[i][j] == s.data[i][j] * beta2 + q.data[i][j] * (1.0 - beta2);
      ConvexNonNegative(s.data[i][j], q.data[i][j], beta2);
    }
  }

  lemma EmplacedNonNegative(m: map<nat, Mat>, grad: map<nat, Mat>)
    requires AllNonNegative(m)
    ensures AllNonNegative(Emplaced(m, grad))
  {
    forall k | k in Emplaced(m, grad)
      ensures NonNegative(Emplaced(m, grad)[k])
    {
      if k !in m {
        assert Emplaced(m, grad)[k] == Zero(grad[k].rows, grad[k].cols);
      }
    }
  }

  lemma NextSecondNonNegative(s: map<nat, Mat>, grad: map<nat, Mat>, beta2: real)
    requires Tracks(s, grad) && AllNonNegative(s) && 0.0 <= beta2 <= 1.0
    ensures AllNonNegative(NextSecond(s, grad, beta2))
  {
    forall k | k in NextSecond(s, grad, beta2)
      ensures NonNegative(NextSecond(s, grad, beta2)[k])
    {
      if k in grad {
        SecondMomentNonNegative(s[k], grad[k], beta2);
      }
    }
  }

  /** `adjustGradients` keeps every second moment at least zero. */
  lemma AdjustedNonNegative(first: map<nat, Mat>, second: map<nat, Mat>, grad: map<nat, Mat>, c: Rates, root: real -> real)
    requires 0.0 <= c.beta2 <= 1.0 && AllNonNegative(second)
    requires AdamAdjusted(first, second, grad, c, root).Ok?
    ensures AllNonNegative(AdamAdjusted(first, second, grad, c, root).value.second)
  {
    var s := PrimedMoments(first, second, grad).1;
    if first == map[] || second == map[] {
      EmplacedNonNegative(second, grad);
    }
    NextSecondNonNegative(s, grad, c.beta2);
  }

  lemma ConvexBetween(x: real, y: real, beta: real, r: real)
    requires 0.0 <= beta <= 1.0 && r == x * beta + y * (1.0 - beta)
    ensures (x <= r <= y) || (y <= r <= x)
  {
    var k := y - x;
    var w := 1.0 - beta;
    assert r == x + k * w;
    assert r == y - k * beta;
    if x <= y {
      assert k * w >= 0.0;
      assert k * beta >= 0.0;
    } else {
      var n := x - y;
      assert n * w >= 0.0;
      assert n * beta >= 0.0;
      assert k * w == -(n * w);
      assert k * beta == -(n * beta);
    }
  }

  /** With a convex `beta1`, each new first moment lies between the old
      one and the gradient, entry by entry. */
  lemma FirstMomentBetween(m: Mat, d: Mat, beta1: real)
    requires SameShape(m, d) && 0.0 <= beta1 <= 1.0
    ensures var r := FirstMoment(m, d, beta1);
      forall i, j :: 0 <= i < d.rows && 0 <= j < d.cols ==>
        (m.data[i][j] <= r.data[i][j] <= d.data[i][j]) || (d.data[i][j] <= r.data[i][j] <= m.data[i][j])
  {
    var r := FirstMoment(m, d, beta1);
    forall i, j | 0 <= i < d.rows && 0 <= j < d.cols
      ensures (m.data[i][j] <= r.data[i][j] <= d.data[i][j]) || (d.data[i][j] <= r.data[i][j] <= m.data[i][j])
    {
      ConvexBetween(m.data[i][j], d.data[i][j], beta1, r.data[i][j]);
    }
  }

  /** The first and second moments after `t` steps with the same gradient. */
  function FirstMoments(d: Mat, beta1: real, t: nat): (r: Mat)
    ensures SameShape(r, d)
  {
    if t == 0 then Zero(d.rows, d.cols) else FirstMoment(FirstMoments(d, beta1, t - 1), d, beta1)
  }

  function SecondMoments(d: Mat, beta2: real, t: nat): (r: Mat)
    ensures SameShape(r, d)
  {
    if t == 0 then Zero(d.rows, d.cols) else SecondMoment(SecondMoments(d, beta2, t - 1), d, beta2)
  }

  /** One decay step on the closed form: `(1 - P) beta + (1 - beta) = 1 - beta P`. */
  lemma DecayStep(a: Mat, P: real, beta: real)
    ensures Add(Scale(Scale(a, 1.0 - P), beta), Scale(a, 1.0 - beta)) == Scale(a, 1.0 - beta * P)
  {
    var u := 1.0 - P;
    var v := u * beta;
    var w := 1.0 - beta;
    ScaleScale(a, u, beta);
    AddScales(a, v, w);
    assert v + w == 1.0 - beta * P;
  }

  /** Starting from zeros, a constant gradient builds up to
      `(1 - beta1^t)` times itself: the bias `m / (1 - b1)` corrects. */
  lemma {:induction false} FirstMomentsClosed(d: Mat, beta1: real, t: nat)
    ensures FirstMoments(d, beta1, t) == Scale(d, 1.0 - Power(beta1, t))
  {
    if t == 0 {
      ZeroScale(d);
    } else {
      FirstMomentsClosed(d, beta1, t - 1);
      var P := Power(beta1, t - 1);
      var prev := FirstMoments(d, beta1, t - 1);
      assert FirstMoments(d, beta1, t) == Add(Scale(prev, beta1), Scale(d, 1.0 - beta1));
      DecayStep(d, P, beta1);
      assert Power(beta1, t) == beta1 * P;
    }
  }

  /** The same for the second moment and the squared gradient. */
  lemma {:induction false} SecondMomentsClosed(d: Mat, beta2: real, t: nat)
    ensures SecondMoments(d, beta2, t) == Scale(Hadamard(d, d), 1.0 - Power(beta2, t))
  {
    if t == 0 {
      ZeroScale(Hadamard(d, d));
    } else {
      SecondMomentsClosed(d, beta2, t - 1);
      var P := Power(beta2, t - 1);
      var q := Hadamard(d, d);
      var prev := SecondMoments(d, beta2, t - 1);
      assert SecondMoments(d, beta2, t) == Add(Scale(prev, beta2), Scale(q, 1.0 - beta2));
      DecayStep(q, P, beta2);
      assert Power(beta2, t) == beta2 * P;
    }
  }

  /** Dividing by the factor a moment was built up with gives back the value. */
  lemma Unbiased(a: Mat, y: real)
    requires y != 0.0
    ensures Scale(Scale(a, y), Inverse(y)) == a
  {
    ScaleScale(a, y, Inverse(y));
    InverseCancels(y);
    ScaleOne(a);
  }

  /** Bias correction: on the `t`-th step with the same gradient `d` all
      along, when `b1 = beta1^t` and `b2 = beta2^t` as `adjustGradients`
      keeps them, the direction is `d / (sqrt(d * d) + eps)` entry by entry,
      whatever the decay rates. */
  lemma BiasCorrected(d: Mat, c: Rates, root: real -> real, t: nat)
    requires c.b1 == Power(c.beta1, t) && c.b2 == Power(c.beta2, t)
    requires c.b1 != 1.0 && c.b2 != 1.0
    ensures Direction(FirstMoments(d, c.beta1, t), SecondMoments(d, c.beta2, t), c.b1, c.b2, c.eps, root) ==
      Hadamard(d, MapEntries(Hadamard(d, d), Damped(root, c.eps)))
  {
    FirstMomentsClosed(d, c.beta1, t);
    SecondMomentsClosed(d, c.beta2, t);
    Unbiased(d, 1.0 - c.b1);
    Unbiased(Hadamard(d, d), 1.0 - c.b2);
  }

  /** The loop that `emplace`s a zero matrix of each slot's shape into a
      map of the optimizer's state. */
  method EmplaceZeros(m: map<nat, Mat>, grad: map<nat, Mat>) returns (r: map<nat, Mat>)
    ensures r == Emplaced(m, grad)
  {
    r := m;
    var rest := grad.Keys;
    while rest != {}
      invariant rest <= grad.Keys
      invariant r.Keys == m.Keys + (grad.Keys - rest)
      invariant forall k :: k in r ==> r[k] == if k in m then m[k] else Zero(grad[k].rows, grad[k].cols)
      decreases rest
    {
      var k :| k in rest;
      if k !in r {
        r := r[k := Zero(grad[k].rows, grad[k].cols)];
      }
      rest := rest - {k};
    }
    assert r.Keys == Emplaced(m, grad).Keys;
  }

  /** The loop of `adjustMomentumWith` over the slots, from the primed
      accumulation `p` in which every slot has an entry of its shape. */
  method Advance(p: map<nat, Mat>, grad: map<nat, Mat>, mu: real) returns (r: map<nat, Mat>)
    requires Tracks(p, grad)
    ensures r == Advanced(p, grad, mu)
  {
    r := map[];
    var rest := grad.Keys;
    while rest != {}
      invariant rest <= grad.Keys && r.Keys == grad.Keys - rest
      invariant forall k :: k in r ==> r[k] == Velocity(p[k], grad[k], mu)
      decreases rest
    {
      var k :| k in rest;
      r := r[k := Velocity(p[k], grad[k], mu)];
      rest := rest - {k};
    }
  }

  /** The loop of `adjustGradients` over the slots, from the primed
      moments `f` and `s` in which every slot has an entry of its shape:
      the update of each slot. */
  method VisitSlots(f: map<nat, Mat>, s: map<nat, Mat>, grad: map<nat, Mat>, c: Rates, root: real -> real)
    returns (upd: map<nat, SlotUpdate>)
    requires Tracks(f, grad) && Tracks(s, grad)
    ensures Updates(f, s, grad, c, root, upd)
  {
    upd := map[];
    var rest := grad.Keys;
    while rest != {}
      invariant rest <= grad.Keys && upd.Keys == grad.Keys - rest
      invariant forall k :: k in upd ==> upd[k] == Update(f[k], s[k], grad[k], c, root)
      decreases rest
    {
      var k :| k in rest;
      upd := upd[k := Update(f[k], s[k], grad[k], c, root)];
      rest := rest - {k};
    }
  }

  /** `adjustGradients` after the priming of the moments: it fails on a
      slot without an entry of its shape in either moment, and otherwise
      gives the new moments and the new slots. */
  method UpdateMoments(f: map<nat, Mat>, s: map<nat, Mat>, grad: map<nat, Mat>, c: Rates, root: real -> real)
    returns (r: Result<Adjustment>)
    ensures r.Ok? <==> Tracks(f, grad) && Tracks(s, grad)
    ensures r.Ok? ==>
      r.value.first == NextFirst(f, grad, c.beta1) && r.value.second == NextSecond(s, grad, c.beta2) &&
      r.value.slots == Directions(r.value.first, r.value.second, grad, c, root)
  {
    // `at` throws on a missing entry and Eigen rejects a shape mismatch;
    // both end the program, so the check is made before any slot changes.
    if !Tracks(f, grad) || !Tracks(s, grad) {
      return Fail;
    }
    var upd := VisitSlots(f, s, grad, c, root);
    FirstsGathered(f, s, grad, c, root, upd);
    SecondsGathered(f, s, grad, c, root, upd);
    SlotsGathered(f, s, grad, c, root, upd);
    var firsts := map k | k in upd :: upd[k].first;
    var seconds := map k | k in upd :: upd[k].second;
    var slots := map k | k in upd :: upd[k].slot;
    return Ok(Adjustment(f + firsts, s + seconds, slots));
  }

  /** `adjustGradients(grad)` on the moments `first` and `second` and the
      rates `c`: the priming with zeros, then the loop over the slots. */
  method AdamStep(first: map<nat, Mat>, second: map<nat, Mat>, grad: map<nat, Mat>, c: Rates, root: real -> real)
    returns (r: Result<Adjustment>)
    ensures r == AdamAdjusted(first, second, grad, c, root)
  {
    var f, s := first, second;
    if f == map[] || s == map[] {
      f := EmplaceZeros(f, grad);
      s := EmplaceZeros(s, grad);
    }
    r := UpdateMoments(f, s, grad, c, root);
  }
}
