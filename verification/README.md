# lazydeep1: the lazy operand graph and its optimizers, in Dafny

lazydeep1 is a small C++ deep-learning library. Its core is a *lazy*
operand graph: each operand holds a forward function, its inputs (`m_pre`), one
gradient closure per successor (`m_post`), a cached value (`m_value`) and
cached gradients (`m_delta`, keyed by the operand the gradient is taken of).
`eval` computes a value on demand and caches it. `diff(E)` computes the
gradient of `E` by reverse accumulation over the successors and caches it.
`reset_value` and `reset_delta` invalidate those caches along the graph.
The leaves are constants, placeholders (bound before each step) and variables
(the trainable parameters). The operator constructors (`unaryExpr`,
`colwise_plus`, `dot_product`, `reduce_mean`, ...) each append one operand and
register its gradient closures. Three optimizers run on the graph: plain
gradient steps, Adam and momentum (with optional Nesterov look-ahead).

The model is organised as follows.

- `matrices.dfy` (`Matrices`): the Eigen operations the engine uses, on
  rectangular real matrices (`Mat`).
- `rules.dfy` (`Rules`): the forward function and the gradient closure of
  each operator. A closure is data that names the nodes it reads (`Rule`),
  interpreted by `Backward`. Its lemmas state each closure's vector-Jacobian
  product.
- `dag.dfy` (`Dag`): the graph as a value. It is a sequence of `Node`s indexed
  by creation order, so every input is older than its successor. It has four
  readings:
  - `Computed` and `Delta` are what `eval` and `diff` return with the caches
    as they stand;
  - `Fresh` and `Grad` are what they return with every cache dropped.
- `coherence.dfy`, `agreement.dfy` (`Coherence`, `Agreement`): when the caches
  agree with what the graph denotes (`Coherent`). Also the relation
  "`h` holds the caches of `g` and more" (`Memoised`), which every engine
  operation establishes.
- `construction.dfy` (`Construction`): appending an operator node (`Attach`),
  and what that does to values, gradients and coherence.
- `resets.dfy` (`Resets`): `reset_value` and `reset_delta` as the sets of
  nodes they clear.
- `assignment.dfy` (`Assignment`): assigning a variable or placeholder
  (`*ptr = value`, which resets and then stores), one after another.
- `engine.dfy` (`Engine`): class `Graph`, whose field `nodes` the methods
  update in place, as the operand objects are updated in the source. `Eval`,
  `Diff`, the resets, the assignment and every constructor are methods proved
  against the functions above.
- `training.dfy` (`Training`): `searchVariables`, placeholder binding, the
  gradients an optimizer reads, and what an optimizer step does to the
  variables (`Stepped`).
- `moments.dfy` (`Moments`): the optimizers' state, which is momentum
  accumulation and Adam's first and second moments with bias correction,
  with its loops as methods.
- `optimizers.dfy` (`Optimizers`): `Optimizer`, `AdamOptimizer` and
  `MomentumOptimizer` as classes, with each step proved against a predicate
  over the graph before and after.

Failure is explicit. A shape mismatch that Eigen would assert on, a
`std::optional::value()` on an empty optional and a `map::at` on a missing key
end the source program (Eigen's assertion only in a build without
`NDEBUG`). In the model each of them is a `Fail` result.

## Model

| member | source | states |
|---|---|---|
| Matrices.Fill | lazy/Operand.hpp:49 | a `rows x cols` matrix with every entry `x` (`Zero`, `Ones`, `Constant`) |
| Matrices.Add | lazy/Operand.hpp:60 | entrywise sum, same shape |
| Matrices.Scale | lazy/train/Optimizer.hpp:65 | every entry times the scalar, same shape |
| Matrices.MapEntries | lazy/ops/Operator.hpp:33 | `unaryExpr(f)`: `f` applied to every entry, same shape |
| Matrices.Hadamard | lazy/ops/Operator.hpp:144 | `cwiseProduct`: entrywise product, same shape |
| Matrices.Transpose | lazy/ops/Operator.hpp:127 | `r[i][j] == a[j][i]`, dimensions swapped |
| Matrices.Mul | lazy/ops/Operator.hpp:123 | matrix product: entry `(i, j)` is row `i` of `a` times column `j` of `b` |
| Matrices.RowSums | lazy/ops/Operator.hpp:176 | `rowwise().sum()`: a column whose entry `i` sums row `i` |
| Matrices.ColSums | lazy/ops/Operator.hpp:178 | `colwise().sum()`: a row whose entry `j` sums column `j` |
| Matrices.RowMeans | lazy/ops/Operator.hpp:207 | `rowwise().mean()`: row sums divided by the column count |
| Matrices.ColMeans | lazy/ops/Operator.hpp:209 | `colwise().mean()`: column sums divided by the row count |
| Matrices.BroadcastColAdd | lazy/ops/Operator.hpp:55 | `colwise() + v.col(0)`: entry `(i, j)` plus `v[i][0]` |
| Matrices.BroadcastRowAdd | lazy/ops/Operator.hpp:76 | `rowwise() + v.row(0)`: entry `(i, j)` plus `v[0][j]` |
| Matrices.Single | lazy/ops/Operator.hpp:180-182 | the `1 x 1` matrix holding `x` |
| Matrices.MulByFilledRow | lazy/ops/Operator.hpp:189 | `G * Ones(1, cols)` repeats the column `G` across `cols` columns |
| Matrices.FilledColumnMul | lazy/ops/Operator.hpp:191 | `Ones(rows, 1) * G` repeats the row `G` down `rows` rows |
| Rules.Inputs | lazy/ops/Operator.hpp:31 | the inputs of a forward function; empty exactly for the default function |
| Rules.UnaryVjp | lazy/ops/Operator.hpp:32-38 | the `unaryExpr` closure gives `G[i][j] * df(x[i][j])`, of the input's shape |
| Rules.ColwisePlusVjp | lazy/ops/Operator.hpp:54-63 | the matrix receives `G` unchanged; the vector receives the row sums of `G`, of its shape exactly when it is one column wide |
| Rules.RowwisePlusVjp | lazy/ops/Operator.hpp:75-84 | the matrix receives `G`; the vector receives the column sums, of its shape exactly when it is one row high |
| Rules.DotProductVjp | lazy/ops/Operator.hpp:122-131 | left operand receives `G * y^T`, right `x^T * G`, each of its operand's shape |
| Rules.HadamardProductVjp | lazy/ops/Operator.hpp:143-152 | each operand receives `G` times the other operand entrywise, of its shape |
| Rules.ReduceSumVjp | lazy/ops/Operator.hpp:167-197 | output is a column, row or `1 x 1` by axis; the closure spreads each output gradient over the entries it summed, in the input's shape |
| Rules.ReduceMeanVjp | lazy/ops/Operator.hpp:199-228 | the same for the mean, each share divided by the number of entries averaged |
| Rules.RowMeanVjp | lazy/ops/Operator.hpp:219-220 | the column case: entry `(i, j)` is `G[i][0] / cols` |
| Rules.ColMeanVjp | lazy/ops/Operator.hpp:221-222 | the row case: entry `(i, j)` is `G[0][j] / rows` |
| Rules.ReductionsDefined | lazy/ops/Operator.hpp:167-228 | a sum never fails; a mean fails exactly when it averages over an empty axis of a non-empty dimension |
| Dag.Successors | lazy/Operand.hpp:59-61 | the successors `diff` visits: exactly the younger keys of `m_post`, strictly increasing |
| Dag.SuccessorIsPlain | lazy/ops/Operator.hpp:30-31 | a successor is younger and is a bare operand (only operator results have inputs) |
| Coherence.CoherentComputed | lazy/Operand.hpp:38-40 | on a coherent graph `eval` returns the value the graph denotes, cache or not |
| Coherence.CoherentDelta | lazy/Operand.hpp:42-64 | on a coherent graph `diff(E)` of a non-constant returns the denoted gradient |
| Coherence.FilledFresh | lazy/Operand.hpp:39 | filling caches with their computed results changes no denoted value or gradient |
| Coherence.MemoisedTransitive | lazy/Operand.hpp:38-64 | two rounds of memoisation are one |
| Coherence.MemoisedCoherent | lazy/Operand.hpp:38-64 | memoising a coherent graph keeps it coherent |
| Coherence.CacheValue | lazy/Operand.hpp:39 | storing the computed value of a node whose inputs are cached is memoisation |
| Coherence.CacheDelta | lazy/Operand.hpp:47-63 | storing the computed gradient once every successor holds its own is memoisation |
| Coherence.CachePlaceholderDelta | lazy/Placeholder.hpp:21-24 | the same for the zero gradient a placeholder stores |
| Agreement.FilledRefines | lazy/Operand.hpp:39 | a graph with more caches filled (with their computed results) computes the same values and gradients |
| Agreement.FilledTransitive | lazy/Operand.hpp:43-47 | filling is transitive |
| Agreement.ComputedAgree | lazy/Operand.hpp:38-40 | two graphs that agree on a node's forward closure compute the same value there |
| Agreement.DeltaAgree | lazy/Operand.hpp:42-64 | two graphs that agree on a node's backward closure compute the same gradient there |
| Agreement.SuccessorsAgree | lazy/Operand.hpp:59 | such graphs visit the same successors |
| Construction.Attach | lazy/ops/Operator.hpp:30-38 | appending an operator: one new node with no caches, every rule registered in its input's `m_post`, nothing else changed |
| Construction.AttachWf | lazy/ops/Operator.hpp:30-38 | appending keeps the graph well formed |
| Construction.AttachFresh | lazy/ops/Operator.hpp:30-38 | appending changes no older node's value |
| Construction.AttachFreshNew | lazy/ops/Operator.hpp:32-34 | the new node denotes its forward function applied to its inputs' values |
| Construction.Lift | lazy/ops/Operator.hpp:32-34 | a forward function succeeds only on computed inputs and then is their image |
| Construction.AttachLink | lazy/ops/Operator.hpp:36-38 | registering one more closure is one more link |
| Construction.AttachCoherent | lazy/ops/Operator.hpp:25-41 | appending to a coherent graph keeps it coherent when no input holds a gradient |
| Construction.AttachGrad | lazy/ops/Operator.hpp:25-41 | appending keeps the gradients that were held |
| Resets.ClearSetsCompose | lazy/Operand.hpp:83-99 | two rounds of clearing are one round over the unions |
| Resets.ClearSetsWf | lazy/Operand.hpp:83-99 | clearing values other than constants' keeps the graph well formed |
| Resets.FwdReachBounds | lazy/Constant.hpp:30-32 | `reset_value` only reaches cached, not older nodes, and never a constant (whose `reset_value` does nothing) |
| Resets.FwdReachTrans | lazy/Operand.hpp:89 | what a reached node reaches is reached |
| Resets.BackReachBounds | lazy/Constant.hpp:34-36 | `reset_delta` only reaches not younger nodes holding gradients, and never a constant (whose `reset_delta` does nothing) |
| Resets.BackReachTrans | lazy/Operand.hpp:97 | what a reached node reaches is reached |
| Resets.BackReachAllUnion | lazy/Operand.hpp:87 | clearing gradients from a union of sinks is the union of the clearings |
| Resets.ResetValueSink | lazy/Operand.hpp:84-87 | `reset_value` on a sink clears its value, then its gradients backwards |
| Resets.ResetValueStep | lazy/Operand.hpp:89 | one more successor reset adds what it reaches |
| Resets.ResetValueLoopStep | lazy/Operand.hpp:89 | the loop over successors, one step |
| Resets.ResetDeltaStep | lazy/Operand.hpp:97 | the loop over inputs, one step |
| Resets.WalkStart | lazy/Operand.hpp:85-89 | clearing a node with successors starts the walk |
| Assignment.AssignOf | lazy/Variable.hpp:23-27 | the graph after `*ptr = m`: same kinds and inputs |
| Assignment.StripAssign | lazy/Variable.hpp:23-27 | once caches are dropped, the assignment is a rebind of the node's value |
| Assignment.AssignFreshAt | lazy/Variable.hpp:25 | the assigned node denotes `m` |
| Assignment.ComputedIndependent | lazy/Variable.hpp:23-27 | a node that does not depend on the assigned one keeps its value |
| Assignment.UnreachedIndependent | lazy/Operand.hpp:83-92 | a cached node the reset does not reach does not depend on the assigned node |
| Assignment.KeptGradient | lazy/Operand.hpp:94-99 | a gradient the reset keeps is still the right one |
| Assignment.AssignKeepsLeaf | lazy/Variable.hpp:23-27 | assigning one node leaves every other leaf's kind and stored value as they were |
| Assignment.AssignCoherent | lazy/Variable.hpp:23-27 | assignment keeps a coherent graph coherent |
| Assignment.AssignAll | lazy/Placeholder.hpp:26-31 | assigning a list of keys in order: same kinds and inputs |
| Assignment.AssignAllStrip | lazy/Placeholder.hpp:26-31 | once caches are dropped, assigning in order is rebinding in order |
| Assignment.AssignAllCoherent | lazy/Placeholder.hpp:26-31 | assigning in order keeps coherence |
| Assignment.RebindAllFresh | lazy/Placeholder.hpp:29 | each assigned node holds and denotes its new value |
| Assignment.DependsOnEarlier | lazy/ops/Operator.hpp:30-31 | a node only depends on older nodes |
| Assignment.AssignAllSettles | lazy/Placeholder.hpp:26-31 | assigning every key of the map in order: well formed, same kinds and inputs |
| Assignment.AssignAllKeepsLeaf | lazy/Placeholder.hpp:26-31 | a leaf that is not assigned keeps its kind and value |
| Assignment.MemoisedLeaf | lazy/Constant.hpp:22-24 | memoisation never changes a variable's or constant's value |
| Engine.Graph.Eval | lazy/Operand.hpp:38-40 | returns `Computed` on the old graph and caches it; memoises; never touches gradients or younger nodes; a constant or variable is unchanged; keeps coherence |
| Engine.Graph.Run | lazy/Operand.hpp:39 | runs `m_f` on an uncached node; result is `Computed`, inputs left cached |
| Engine.Graph.Diff | lazy/Operand.hpp:42-64 | returns `Delta` on the old graph and caches it; memoises; a hit changes nothing; only gradients for `E` change; keeps coherence |
| Engine.Graph.Accumulate | lazy/Operand.hpp:47-63 | the cache-miss path of `diff`: result is `Delta`, storing it is memoisation |
| Engine.Graph.SumSuccessors | lazy/Operand.hpp:59-61 | the loop over `m_post`: returns `DeltaSum` over the successors in order, leaving each with its gradient cached |
| Engine.Graph.Next | lazy/Operand.hpp:60 | one iteration: `DeltaSum` over one more successor, or failure of the whole sum |
| Engine.Graph.Contribute | lazy/Operand.hpp:60 | runs one closure: returns `Contribution` and leaves the successor's gradient cached |
| Engine.Graph.ResetDelta | lazy/Operand.hpp:94-99 | the graph becomes `ResetDeltaOf` the old one |
| Engine.Graph.ResetValue | lazy/Operand.hpp:83-92 | the graph becomes `ResetValueOf` the old one |
| Engine.Graph.Assign | lazy/Variable.hpp:23-27 | the graph becomes `AssignOf`; the node denotes `m`; nodes not depending on it keep their values; keeps coherence |
| Engine.Graph.ApplyPlaceholders | lazy/Placeholder.hpp:26-31 | assigns each placeholder of the map in key order; each denotes its value; keeps coherence |
| Engine.Graph.AssignEach | lazy/Placeholder.hpp:27-30 | the loop: the graph becomes `AssignAll` of the keys |
| Engine.Graph.MakeOperand | lazy/Operand.hpp:30-36 | a new bare node denoting the empty matrix; older values unchanged; keeps coherence |
| Engine.Graph.MakeConstant | lazy/Constant.hpp:15-17 | a new constant denoting `v` |
| Engine.Graph.MakePlaceholder | lazy/Placeholder.hpp:34-37 | a new unbound placeholder |
| Engine.Graph.MakeVariable | lazy/Variable.hpp:34-37 | a new optimizable variable denoting `v` |
| Engine.Graph.ZeroMatrixVariable | lazy/Variable.hpp:39-46 | a new optimizable variable denoting `Zero(rows, cols)` |
| Engine.Graph.UnaryExpr | lazy/ops/Operator.hpp:25-41 | appends `f` entrywise of `t` with closure `df`; it denotes `MapEntries(t, f)`; keeps coherence when `t` holds no gradient |
| Engine.Graph.ScalarPlus | lazy/ops/Operator.hpp:89-98 | the new node denotes `t + c` entrywise, and its derivative is 1 |
| Engine.Graph.ScalarProduct | lazy/ops/Operator.hpp:104-113 | the new node denotes `t * c` entrywise, and its derivative is `c` |
| Engine.Graph.Binary | lazy/ops/Operator.hpp:120-133 | the shared shape of the binary operators: one node, two closures, denoting the forward function of the inputs' values |
| Engine.Graph.ColwisePlus | lazy/ops/Operator.hpp:47-66 | appends `t1.colwise() + vec.col(0)` with its two closures; denotes it; keeps coherence when neither input holds a cached gradient |
| Engine.Graph.RowwisePlus | lazy/ops/Operator.hpp:68-87 | the same for `rowwise() + vec.row(0)`; keeps coherence when neither input holds a cached gradient |
| Engine.Graph.DotProduct | lazy/ops/Operator.hpp:115-134 | the same for the matrix product; keeps coherence when neither input holds a cached gradient |
| Engine.Graph.HadamardProduct | lazy/ops/Operator.hpp:136-155 | the same for the entrywise product; with `t1 == t2` the second closure replaces the first, as the post map does; keeps coherence when neither input holds a cached gradient |
| Engine.Graph.ReduceSum | lazy/ops/Operator.hpp:167-197 | appends the sum along `axis` with its closure; denotes it |
| Engine.Graph.ReduceMean | lazy/ops/Operator.hpp:199-228 | appends the mean along `axis` with its closure; denotes it |
| Training.SearchVariablesSound | lazy/train/Optimizer.hpp:83-96 | every node `searchVariables` returns is a variable the target depends on |
| Training.SearchVariablesComplete | lazy/train/Optimizer.hpp:83-96 | every variable the target depends on is returned |
| Training.SearchVariablesExact | lazy/train/Optimizer.hpp:83-96 | both directions |
| Training.SearchAllMembers | lazy/train/Optimizer.hpp:85-88 | the loop over inputs returns the union of their searches |
| Training.SearchFindsVariables | lazy/train/Optimizer.hpp:89-93 | every result is a `Variable` node |
| Training.SearchVariablesLinks | lazy/train/Optimizer.hpp:83-96 | the search depends only on kinds and inputs, so caches and assignments do not change it |
| Training.Bound | lazy/train/Optimizer.hpp:77-81 | the graph after `applyPlaceholders(ph)`: same size |
| Training.BoundLinks | lazy/train/Optimizer.hpp:77-81 | binding keeps the graph well formed, and every node's kind, forward function, inputs and successor rules |
| Training.BoundDenotes | lazy/train/Optimizer.hpp:54-62 | on a coherent graph, after binding, `eval` of the target and `diff` of every non-constant are the values and gradients the bound graph denotes |
| Training.GradientsDenote | lazy/train/Optimizer.hpp:54-62 | the gradients `computeGradients` reads are the denoted gradients of the target |
| Training.BoundLeaves | lazy/train/Optimizer.hpp:54-62 | binding and evaluating keep every variable's value, kind and inputs; every link stays and every constant and placeholder holds what binding gave it (`Framed`) |
| Training.Gradients | lazy/train/Optimizer.hpp:57-61 | the gradients read for `vars`: a subset of `vars` (a missing key is a failed `diff`) |
| Training.SteppableShapes | lazy/train/Optimizer.hpp:30-41 | a step succeeds exactly when the loss computes, every gradient computes and each variable has a value of its gradient's shape |
| Training.Move | lazy/train/Optimizer.hpp:65 | `eval() + value * lr` succeeds exactly when the variable has a value of the slot's shape |
| Training.MoveMoves | lazy/train/Optimizer.hpp:65 | entry `(i, j)` becomes `x[i][j] + c * d[i][j]` |
| Training.Moves | lazy/train/Optimizer.hpp:64-66 | the new values: every movable slot has one |
| Training.Negated | lazy/train/Optimizer.hpp:74 | `value * -1`: every entry negated, same shape |
| Training.NegatedAll | lazy/train/Optimizer.hpp:72-76 | same keys |
| Training.MoveNegated | lazy/train/Optimizer.hpp:72-76 | moving along the negated slot is moving by `-c` |
| Training.SteppedNegated | lazy/train/Optimizer.hpp:30-41 | stepping along the negated gradients is stepping by `-lr`: `minimize` is gradient descent |
| Training.MovesStepped | lazy/train/Optimizer.hpp:63-67 | assigning the moves in key order is a step; it keeps coherence |
| Training.SteppedFrom | lazy/train/Optimizer.hpp:63-67 | a step depends only on the variables' values |
| Training.MovableShapes | lazy/train/Optimizer.hpp:63-67 | whether a step succeeds depends only on the variables' shapes |
| Training.NegatedStep | lazy/train/Optimizer.hpp:36-37 | the same for the negated slots |
| Training.SameLinksTwice | lazy/train/MomentumOptimizer.hpp:32-37 | links survive two rounds; the binding and the variable list stay valid |
| Training.AssignAllLinks | lazy/train/Optimizer.hpp:64-66 | assignment keeps every node's kind, forward function, inputs and successor rules |
| Training.FilledFramed | lazy/Operand.hpp:38-40 | filling caches keeps every link and every constant's value; a placeholder without a value can only come to hold the empty matrix `eval` reads it as |
| Training.BoundFramed | lazy/train/Optimizer.hpp:77-81 | after `applyPlaceholders(ph)` every link stays, each placeholder of `ph` holds its matrix and every other constant and placeholder its old value |
| Training.MovesFramed | lazy/train/Optimizer.hpp:63-67 | assigning only variables keeps every link and the value of every constant and placeholder |
| Training.StepAgain | lazy/train/MomentumOptimizer.hpp:24-30 | after a step framed by `ph`, the binding and the variable list are valid for the next step, and `searchVariables(target)` finds the same variables, so the list `minimize(target)` fixes stays the target's variables |
| Moments.Emplaced | lazy/train/MomentumOptimizer.hpp:52-56 | `emplace` of zeros: old entries kept, each new slot gets zeros of its shape |
| Moments.Velocity | lazy/train/MomentumOptimizer.hpp:64 | `accumulation * momentum + value`, of the slot's shape |
| Moments.Advanced | lazy/train/MomentumOptimizer.hpp:63-65 | one velocity per slot, each of its slot's shape |
| Moments.Adjusted | lazy/train/MomentumOptimizer.hpp:58-66 | succeeds exactly when the primed accumulation tracks every slot; the new slots are the new accumulation entries |
| Moments.Entries | lazy/train/MomentumOptimizer.hpp:73 | the accumulation's entries for the slots |
| Moments.VelocityFromZero | lazy/train/MomentumOptimizer.hpp:52-56 | a velocity on zeros is the gradient |
| Moments.FirstVelocity | lazy/train/MomentumOptimizer.hpp:58-66 | from an empty accumulation the first velocities are the gradients |
| Moments.Velocities | lazy/train/MomentumOptimizer.hpp:64 | `t` steps with one gradient, of its shape |
| Moments.VelocitiesGeometric | lazy/train/MomentumOptimizer.hpp:64 | after `t` steps with gradient `d` the velocity is `d * (1 + mu + ... + mu^(t-1))` |
| Moments.FirstMoment | lazy/train/AdamOptimizer.hpp:71 | `m * beta1 + d * (1 - beta1)`, same shape |
| Moments.SecondMoment | lazy/train/AdamOptimizer.hpp:72-73 | `s * beta2 + d^2 * (1 - beta2)`, same shape |
| Moments.FirstMomentBetween | lazy/train/AdamOptimizer.hpp:71 | for `0 <= beta1 <= 1` each entry lies between old moment and gradient |
| Moments.SecondMomentNonNegative | lazy/train/AdamOptimizer.hpp:72-73 | the second moment stays non-negative |
| Moments.EmplacedNonNegative | lazy/train/AdamOptimizer.hpp:61-67 | zero priming keeps it non-negative |
| Moments.NextSecondNonNegative | lazy/train/AdamOptimizer.hpp:69-73 | so does a whole update |
| Moments.AdjustedNonNegative | lazy/train/AdamOptimizer.hpp:60-82 | `adjustGradients` keeps every second moment non-negative |
| Moments.Direction | lazy/train/AdamOptimizer.hpp:75-77 | the new slot, of the moment's shape |
| Moments.Firsts | lazy/train/AdamOptimizer.hpp:71 | a new first moment for every slot, each of its shape |
| Moments.Seconds | lazy/train/AdamOptimizer.hpp:72-73 | a new second moment for every slot, each of its shape |
| Moments.NextFirst | lazy/train/AdamOptimizer.hpp:69-71 | updated first moments: old keys kept, slots of their shape |
| Moments.NextSecond | lazy/train/AdamOptimizer.hpp:69-73 | updated second moments, likewise |
| Moments.Directions | lazy/train/AdamOptimizer.hpp:75-77 | a new slot for every slot of `grad`, of its shape |
| Moments.Update | lazy/train/AdamOptimizer.hpp:70-77 | one slot's update: both moments and the slot keep the gradient's shape |
| Moments.FirstsGathered | lazy/train/AdamOptimizer.hpp:69-78 | the loop's first moments are `Firsts` |
| Moments.SecondsGathered | lazy/train/AdamOptimizer.hpp:69-78 | the loop's second moments are `Seconds` |
| Moments.SlotsGathered | lazy/train/AdamOptimizer.hpp:69-78 | the loop's slots are the directions of the updated moments |
| Moments.AdamAdjusted | lazy/train/AdamOptimizer.hpp:60-82 | `adjustGradients` succeeds exactly when the primed moments track every slot; then slots and moments are the per-slot updates |
| Moments.FirstMoments | lazy/train/AdamOptimizer.hpp:71 | `t` steps with one gradient, of its shape |
| Moments.FirstMomentsClosed | lazy/train/AdamOptimizer.hpp:71 | after `t` steps from zeros, the first moment is `d * (1 - beta1^t)` |
| Moments.SecondMomentsClosed | lazy/train/AdamOptimizer.hpp:72-73 | the second moment is `d^2 * (1 - beta2^t)` |
| Moments.Unbiased | lazy/train/AdamOptimizer.hpp:75-76 | dividing by the build-up factor gives the value back |
| Moments.BiasCorrected | lazy/train/AdamOptimizer.hpp:22-23 | with `b1 = beta1^t`, `b2 = beta2^t` as kept, the `t`-th direction for a constant gradient is `d / (sqrt(d^2) + eps)`, whatever the rates |
| Moments.EmplaceZeros | lazy/train/MomentumOptimizer.hpp:52-56 | the emplace loop computes `Emplaced` |
| Moments.Advance | lazy/train/MomentumOptimizer.hpp:63-65 | the adjust loop computes `Advanced` |
| Moments.VisitSlots | lazy/train/AdamOptimizer.hpp:69-78 | the Adam loop computes one update per slot |
| Moments.UpdateMoments | lazy/train/AdamOptimizer.hpp:69-78 | succeeds exactly when both moments track every slot; then returns the updated moments and the directions |
| Moments.AdamStep | lazy/train/AdamOptimizer.hpp:60-82 | computes `AdamAdjusted` |
| Optimizers.DiffAll | lazy/train/Optimizer.hpp:58-60 | `diff(target)` for every variable: succeeds exactly when every gradient computes, and returns them; memoises and keeps coherence |
| Optimizers.GatheredNext | lazy/train/Optimizer.hpp:58-60 | the loop keeps what it gathered and adds one gradient |
| Optimizers.DiffFrom | lazy/train/Optimizer.hpp:59 | one `diff` on a memoised graph returns the original graph's gradient |
| Optimizers.BindPlaceholders | lazy/train/Optimizer.hpp:77-81 | the graph becomes `Bound`, with the same kinds and inputs; keeps coherence |
| Optimizers.ComputeGradientsOver | lazy/train/Optimizer.hpp:54-62 | binds and differentiates: succeeds exactly when every gradient computes, and they are then the denoted gradients of the bound graph |
| Optimizers.ComputeGradients | lazy/train/Optimizer.hpp:54-62 | the same over `searchVariables(target)` |
| Optimizers.NegateGradients | lazy/train/Optimizer.hpp:72-76 | computes `NegatedAll` |
| Optimizers.MoveSlot | lazy/train/Optimizer.hpp:65 | one variable moved by `c` times its slot, or nothing changed on failure |
| Optimizers.MoveNext | lazy/train/Optimizer.hpp:64-66 | one more slot assigned in key order |
| Optimizers.StuckMove | lazy/train/Optimizer.hpp:65 | one slot that cannot move makes the whole step fail |
| Optimizers.BoundMovable | lazy/train/Optimizer.hpp:64-66 | if every slot was assigned, every slot could move |
| Optimizers.MoveEach | lazy/train/Optimizer.hpp:64-66 | the loop: a prefix of the slots is assigned; all of them on success, else the first that cannot move is named |
| Optimizers.ApplyGradients | lazy/train/Optimizer.hpp:63-67 | succeeds exactly when every slot can move, and then the graph is a step by `c`; nothing but variables and caches changes: every link and every constant and placeholder stays (`Framed` by no binding) |
| Optimizers.GradientsAndLoss | lazy/train/Optimizer.hpp:32-34 | the gradients and the loss of the bound graph, both or neither; the graph is the bound one with caches filled (`Memoised`): every variable keeps its value, every link stays and each placeholder of `ph` holds its matrix (`Framed`) |
| Optimizers.Descend | lazy/train/Optimizer.hpp:36-37 | negate, then apply: a step along the negated gradients; nothing but variables and caches changes: every link and every constant and placeholder stays (`Framed` by no binding) |
| Optimizers.Ascend | lazy/train/Optimizer.hpp:48 | apply: a step along the gradients; nothing but variables and caches changes: every link and every constant and placeholder stays (`Framed` by no binding) |
| Optimizers.Follow | lazy/train/Optimizer.hpp:36-37 | either of the two by `descend`; nothing but variables and caches changes: every link and every constant and placeholder stays (`Framed` by no binding) |
| Optimizers.Optimizer.constructor | lazy/train/Optimizer.hpp:28 | stores the learning rate |
| Optimizers.Optimizer.Minimize | lazy/train/Optimizer.hpp:30-41 | succeeds exactly when the step is possible; returns the loss before the step; each variable moves by `-lr` times its gradient; whether or not it succeeds, every link stays and each placeholder of `ph` holds its matrix, every other constant and placeholder its value (`Framed`) |
| Optimizers.Optimizer.Maximize | lazy/train/Optimizer.hpp:42-52 | the same, moving by `+lr` times the gradient; whether or not it succeeds, every link stays and each placeholder of `ph` holds its matrix, every other constant and placeholder its value (`Framed`) |
| Optimizers.AdamSteppedFrom | lazy/train/AdamOptimizer.hpp:26-50 | assembles an Adam step from its parts |
| Optimizers.AdamOptimizer.constructor | lazy/train/AdamOptimizer.hpp:17-24 | rates stored, `b1 = beta1`, `b2 = beta2`, empty moments (the defaults 0.9, 0.999 and 1e-8 are the caller's to pass) |
| Optimizers.AdamOptimizer.AdjustGradients | lazy/train/AdamOptimizer.hpp:60-82 | slots and moments as `AdamAdjusted`; `b1`, `b2` decay once per call |
| Optimizers.AdamOptimizer.SlotsAndLoss | lazy/train/AdamOptimizer.hpp:29-32 | gradients, loss and adjustment together, all or nothing; on success `b1 = old(b1) * beta1`, `b2 = old(b2) * beta2` and one more step is counted; the graph is framed by `ph` and keeps every variable |
| Optimizers.AdamOptimizer.ApplySlots | lazy/train/AdamOptimizer.hpp:33-34 | a step along the slots (`descend`: negated); nothing but variables and caches changes: every link and every constant and placeholder stays (`Framed` by no binding) |
| Optimizers.AdamOptimizer.Step | lazy/train/AdamOptimizer.hpp:26-50 | `AdamStepped`: loss before the step, new moments, variables moved along the Adam directions; on success `b1 = old(b1) * beta1`, `b2 = old(b2) * beta2` and one more step is counted; whether or not it succeeds, every link stays and each placeholder of `ph` holds its matrix, every other constant and placeholder its value (`Framed`) |
| Optimizers.AdamOptimizer.Minimize | lazy/train/AdamOptimizer.hpp:26-38 | `Step` against the directions; on success `b1 = old(b1) * beta1`, `b2 = old(b2) * beta2` and one more step is counted; whether or not it succeeds, every link stays and each placeholder of `ph` holds its matrix, every other constant and placeholder its value (`Framed`) |
| Optimizers.AdamOptimizer.Maximize | lazy/train/AdamOptimizer.hpp:39-50 | `Step` along the directions; on success `b1 = old(b1) * beta1`, `b2 = old(b2) * beta2` and one more step is counted; whether or not it succeeds, every link stays and each placeholder of `ph` holds its matrix, every other constant and placeholder its value (`Framed`) |
| Optimizers.MomentumSteppedFrom | lazy/train/MomentumOptimizer.hpp:29-44 | assembles a momentum step from its parts |
| Optimizers.LookAheadFrom | lazy/train/MomentumOptimizer.hpp:68-75 | whether the look-ahead succeeds, and where it leads, depend only on the variables |
| Optimizers.MoveAhead | lazy/train/MomentumOptimizer.hpp:72-74 | every variable moves by `c` times its accumulation entry; fails exactly on a missing entry or a shape mismatch; nothing but variables and caches changes: every link and every constant and placeholder stays (`Framed` by no binding) |
| Optimizers.MomentumOptimizer.constructor | lazy/train/MomentumOptimizer.hpp:17-22 | stores rate, momentum and `nag`; empty accumulation |
| Optimizers.MomentumOptimizer.InitMomentum | lazy/train/MomentumOptimizer.hpp:52-56 | the accumulation becomes `Emplaced` |
| Optimizers.MomentumOptimizer.Prime | lazy/train/MomentumOptimizer.hpp:59-61 | initialises only an empty accumulation |
| Optimizers.MomentumOptimizer.AdjustMomentumWith | lazy/train/MomentumOptimizer.hpp:58-66 | slots and accumulation as `Adjusted`; on failure the accumulation is only primed |
| Optimizers.MomentumOptimizer.ApplyMomentum | lazy/train/MomentumOptimizer.hpp:68-75 | primes, then looks ahead by `-lr * momentum` times the accumulation; succeeds exactly when every variable fits its entry; nothing but variables and caches changes: every link and every constant and placeholder stays (`Framed` by no binding) |
| Optimizers.MomentumOptimizer.LookAhead | lazy/train/MomentumOptimizer.hpp:72-74 | the look-ahead loop from the current accumulation; nothing but variables and caches changes: every link and every constant and placeholder stays (`Framed` by no binding) |
| Optimizers.MomentumOptimizer.PlainStep | lazy/train/MomentumOptimizer.hpp:31-42 | without `nag`: `MomentumStepped`, the loss before the step and the variables moved along their new velocities; whether or not it succeeds, every link stays and each placeholder of `ph` holds its matrix, every other constant and placeholder its value (`Framed`) |
| Optimizers.MomentumOptimizer.Resume | lazy/train/MomentumOptimizer.hpp:37-40 | after the look-ahead: gradients taken again, accumulation adjusted, step applied (`Resumed`); whether or not it succeeds, every link stays and each placeholder of `ph` holds its matrix, every other constant and placeholder its value (`Framed`) |
| Optimizers.MomentumOptimizer.NesterovStep | lazy/train/MomentumOptimizer.hpp:31-42 | with `nag`: `NesterovStepped`, look-ahead then `Resumed`; whether or not it succeeds, every link stays and each placeholder of `ph` holds its matrix, every other constant and placeholder its value (`Framed`) |
| Optimizers.MomentumOptimizer.Step | lazy/train/MomentumOptimizer.hpp:29-44 | either by `nag`; whether or not it succeeds, every link stays and each placeholder of `ph` holds its matrix, every other constant and placeholder its value (`Framed`) |
| Optimizers.MomentumOptimizer.MinimizeAsWritten | lazy/train/MomentumOptimizer.hpp:39-40 | the step as written: the variables move by `+lr` along the velocity; whether or not it succeeds, every link stays and each placeholder of `ph` holds its matrix, every other constant and placeholder its value (`Framed`) |
| Optimizers.MomentumOptimizer.Minimize | lazy/train/MomentumOptimizer.hpp:29-44 | the corrected step: the variables move by `-lr` along the velocity; whether or not it succeeds, every link stays and each placeholder of `ph` holds its matrix, every other constant and placeholder its value (`Framed`) |
| Optimizers.FirstStepAscends | lazy/train/MomentumOptimizer.hpp:39-40 | from a fresh optimizer the step as written moves every variable by `+lr` times its gradient |
| Optimizers.FirstStepDescends | lazy/train/MomentumOptimizer.hpp:29-44 | the corrected first step moves it by `-lr` times its gradient |

## Left out

- Floating point is modelled as `real`. `sqrt` is a function parameter, and `1 / 0`, which is infinity in floating point, stands as `0` (`Moments.Inverse`).
- lazy/ops/Math.hpp and lazy/ops/NN.hpp (activation functions and losses built from the operators above) are not part of this model.
- `random_normal_matrix_variable` draws from a random device. It is not modelled; `Engine.Graph.MakeVariable` takes the drawn matrix as a parameter.
- The source iterates `m_post`, `m_pre` and the optimizers' maps in pointer order, which is an address order. The model visits them by creation index. A sum of gradients over reals does not depend on that order.
- Closures are data (`Forward`, `Rule`) naming the nodes they read, not captured pointers. `setFunction` therefore exists only as the forward function an operator constructor installs; a constant, variable or placeholder keeps the default function it is created with, which matches a constant's `setFunction` override doing nothing.
- Shared-pointer ownership, the deleted copy and move members, and templates over scalar types are not modelled.
- Every failure (an Eigen shape assertion, `std::optional::value` on an empty optional, `map::at` on a missing key) is `Fail`. The source aborts there, part-way through a loop. The model's loops check upfront, so the state the source would leave half-updated on such a path is not modelled.
- With `NDEBUG` defined, Eigen's shape assertions are compiled out and a shape mismatch is undefined behaviour rather than an abort; that behaviour is not modelled.
- The operator constructors invalidate no cache: attaching a successor to an operand only adds a closure to its `m_post` (lazy/ops/Operator.hpp:36, 58-63) and keeps the gradients the operand has already cached, although they no longer include the new successor's contribution. The model keeps them too; the constructors therefore promise coherence only when no input holds a cached gradient (`Construction.InputsUndifferentiated`).
- A constant's `reset_delta` does nothing (lazy/Constant.hpp:34-36), so gradients cached at a constant are never invalidated and can go stale; a placeholder's `diff` recomputes its zeros every time. `Coherence.Coherent` therefore makes no claim about gradients cached at constants and placeholders, and `Coherence.CoherentDelta` covers every node but a constant.
- `m_optimizable` is declared `const` (lazy/Operand.hpp:113), yet `Variable`'s constructor assigns it (lazy/Variable.hpp:17). The model takes the evident intent: a node created as a variable is optimizable (`Dag.Optimizable` is `kind == Variable`).
- `Optimizer::applyPlaceholders` writes `*ptr = value` on a `Placeholder` (lazy/train/Optimizer.hpp:77-81), which has no assignment from a matrix; only `Variable` has one (lazy/Variable.hpp:23-27). The model takes the evident intent, the reset-and-store of `Placeholder::applyPlaceholders` (lazy/Placeholder.hpp:26-31), as `Assignment.AssignOf`.
- In `diff`, the source inserts the cache slot for `E` before computing. On success the final state is the same; the state after an aborted computation is not modelled.
- `Variable` and `Placeholder` call `resetValue()` while `Operand` defines `reset_value()`. The model uses the evident intent: the operand's `reset_value`.
- The momentum optimizer's `minimize(target, var_list)` calls a three-argument `computeGradients` and is marked `override`; neither exists in `Optimizer`. The model takes the evident meaning: `computeGradients` over `var_list` (`Optimizers.ComputeGradientsOver`). `minimize(target)` is that step with `var_list = searchVariables(target)`.
- The momentum optimizer's `maximize` is inherited unchanged from `Optimizer`. It is the same as `Optimizers.Optimizer.Maximize` and is not repeated.
- The type aliases `VariableSet` and `std::optional` slots in `VariableMap` are modelled as sets of indices and plain matrices.

## Findings

| source | as written | input that shows it | evidently intended | confidence | as-written member | corrected member |
|---|---|---|---|---|---|---|
| lazy/train/MomentumOptimizer.hpp:39-40 | `minimize` adds `lr` times the accumulated velocity to each variable (`applyGradients` with no `negateGradients`), so it climbs the loss | a fresh optimizer, loss `x` with `x = 1` and `lr = 0.1`: the gradient is 1 and `x` becomes 1.1 rather than 0.9 | the velocity is subtracted, as `Optimizer::minimize` does with `negateGradients` | not executed | Optimizers.MomentumOptimizer.MinimizeAsWritten, Optimizers.FirstStepAscends | Optimizers.MomentumOptimizer.Minimize, Optimizers.FirstStepDescends |
