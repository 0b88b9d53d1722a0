# RepeatStep: the loop-control stage of the Gremlin traversal engine

This project models `RepeatStep`, the step behind `repeat(...).until(...).emit(...)`
in a pull-based Gremlin traversal. It proves properties of the model in Dafny.

- **Traversers** (`traverser.dfy`): a traverser is a value with a value, a positive
  bulk and a loop count. `IncrLoops`, `ResetLoops` and `Split` are the three
  operations the stage applies to it.
- **Predicates** (`repeat_step.dfy`): `Pred` is either `LoopPred(maxLoops)`
  (`LoopPredicate`) or `NestedPred` over a `TraversalPredicate` object; any other
  Java predicate is represented as a `NestedPred`. The
  `TraversalPredicate` holds a nested `Traversal`. `Holds` is the test.
  `TraversalPredicate.Test` is the imperative test: reset, feed a split, ask `hasNext`.
  It is proved to agree with `Holds`.
- **Traversal**: a class whose `body` function says what the steps produce for one
  start. `pending` is the FIFO of outputs not yet pulled from the end step.
  `steps` is the step list that the builders inspect and extend.
- **RepeatStep**: a class with the source's fields (`repeatTraversal`,
  `untilPredicate`, `emitPredicate`, `untilFirst`, `emitFirst`) plus its
  upstream `starts`. It has the setters, `getTraversals`, `doUntil`/`doEmit`,
  `getRequirements`, `clone` and the three static `add*ToTraversal` builders.
- **The pull loop**: `ProcessNextStart` runs the source's `while (true)` loop
  imperatively against the body's queue and the upstream queue. It is proved equal
  to `Run`, a function built from `Step` (one turn of the loop).
  `repeat_step_lemmas.dfy` proves the loop's properties about `Step` and `Run`:
  - body output is drained first;
  - each pass is counted exactly once;
  - `until` is checked on fresh input only when `untilFirst` holds;
  - emission forks and never changes the trajectory;
  - the `times(k)` scenario and two other end-to-end scenarios.

The source's `while (true)` has no bound. It keeps looping as long as the body keeps
producing output that never escapes and is never emitted; when body and upstream run
dry, the pull ends in exhaustion instead (RepeatStep.java:121).
The model therefore gives `ProcessNextStart` a `fuel` bound on the number of
turns. `OutOfFuel` reports that the loop had not returned within that many turns.
`NeverReturns` shows that with an identity body, neither predicate set and a traverser
already in the body, the pull runs out of every bound. `NoPredsNeverYield` shows that
with neither predicate set a pull never returns a traverser, whatever the body.
`RunFuelMonotone` shows that a pull that returned gives the same result under any larger bound.

The code tests `until` on every body output, whatever `untilFirst` is (RepeatStep.java:109).
It tests `emit` on every body output that stays in the loop, whatever `emitFirst` is
(RepeatStep.java:114). The two flags only add a check on a fresh upstream traverser
(RepeatStep.java:122 and 127).

## Model

| member | source | states |
|---|---|---|
| `RepeatSteps.RepeatStep.constructor` | gremlin-core/src/main/java/com/tinkerpop/gremlin/process/graph/step/branch/RepeatStep.java:25-34 | A new step belongs to the given traversal. It has no body, no until and no emit predicate, both flags false and no upstream input. |
| `RepeatSteps.TraversalPredicate.constructor` | gremlin-core/src/main/java/com/tinkerpop/gremlin/process/graph/step/branch/RepeatStep.java:233-235 | The predicate holds the given nested traversal. |
| `RepeatSteps.RepeatStep.GetRequirements` | gremlin-core/src/main/java/com/tinkerpop/gremlin/process/graph/step/branch/RepeatStep.java:37-44 | The result contains every requirement of the body, plus SINGLE_LOOP and BULK. It contains NESTED_LOOP iff the body already needs SINGLE_LOOP or NESTED_LOOP. It contains nothing else. |
| `RepeatSteps.RepeatStep.SetRepeatTraversal` | gremlin-core/src/main/java/com/tinkerpop/gremlin/process/graph/step/branch/RepeatStep.java:47-60 | Installs the body. Only `repeatTraversal` changes, so the first/last flags that are already fixed stay as they are. |
| `RepeatSteps.RepeatStep.SetUntilPredicate` | gremlin-core/src/main/java/com/tinkerpop/gremlin/process/graph/step/branch/RepeatStep.java:62-65 | Sets `until`. `untilFirst` becomes true exactly when no body is set yet, and a flag that is already true stays true. |
| `RepeatSteps.RepeatStep.SetEmitPredicate` | gremlin-core/src/main/java/com/tinkerpop/gremlin/process/graph/step/branch/RepeatStep.java:67-70 | The same rule for `emit` and `emitFirst`, independent of `until`. |
| `RepeatSteps.RepeatStep.GetTraversals` | gremlin-core/src/main/java/com/tinkerpop/gremlin/process/graph/step/branch/RepeatStep.java:72-74 | Returns at most one traversal. It is empty iff there is no body, and otherwise holds only the body. |
| `RepeatSteps.RepeatStep.DoUntil` | gremlin-core/src/main/java/com/tinkerpop/gremlin/process/graph/step/branch/RepeatStep.java:92-94 | False when there is no until predicate. Otherwise it is that predicate's verdict. |
| `RepeatSteps.RepeatStep.DoEmit` | gremlin-core/src/main/java/com/tinkerpop/gremlin/process/graph/step/branch/RepeatStep.java:96-98 | False when there is no emit predicate. Otherwise it is that predicate's verdict. |
| `RepeatSteps.RepeatStep.ProcessNextStart` | gremlin-core/src/main/java/com/tinkerpop/gremlin/process/graph/step/branch/RepeatStep.java:101-134 | The imperative loop returns exactly what `Run` predicts from the configuration and state on entry. It leaves exactly the body queue and upstream queue that `Run` predicts. It changes nothing else. |
| `RepeatStepProperties.LoopPredicateThreshold` | gremlin-core/src/main/java/com/tinkerpop/gremlin/process/graph/step/branch/RepeatStep.java:210-220 | `LoopPredicate(k)` holds exactly for loop counts of at least k. Its verdict depends on the count alone, and once it holds, a higher count keeps it holding. |
| `RepeatSteps.TraversalPredicate.Test` | gremlin-core/src/main/java/com/tinkerpop/gremlin/process/graph/step/branch/RepeatStep.java:237-242 | Resetting, feeding one split and asking `hasNext` gives the verdict `Holds` states. The nested traversal then holds exactly that split's outputs. |
| `RepeatSteps.TraversalPredicate.Clone` | gremlin-core/src/main/java/com/tinkerpop/gremlin/process/graph/step/branch/RepeatStep.java:249-254 | The clone is a fresh predicate over a fresh traversal with the same behaviour. |
| `RepeatSteps.ClonePred` | gremlin-core/src/main/java/com/tinkerpop/gremlin/process/graph/step/branch/RepeatStep.java:162-167 | A loop predicate is shared, and a traversal predicate is replaced by a fresh clone. The result fires on exactly the same traversers. |
| `RepeatSteps.RepeatStep.Clone` | gremlin-core/src/main/java/com/tinkerpop/gremlin/process/graph/step/branch/RepeatStep.java:159-169 | The clone is a fresh step that shares the body and the flags. Loop predicates are shared. Each traversal predicate is a fresh clone over a fresh nested traversal, so no cursor is shared. `doUntil`/`doEmit` agree on every traverser. |
| `RepeatSteps.RepeatStep.AddRepeatToTraversal` | gremlin-core/src/main/java/com/tinkerpop/gremlin/process/graph/step/branch/RepeatStep.java:173-183 | If the end step is a RepeatStep without a body, it gets the body and no step is added. Otherwise exactly one fresh RepeatStep is appended that carries only the body, and the old end step is unchanged. |
| `RepeatSteps.RepeatStep.AddUntilToTraversal` | gremlin-core/src/main/java/com/tinkerpop/gremlin/process/graph/step/branch/RepeatStep.java:185-195 | If the end step is a RepeatStep without `until`, it gets `until` and no step is added. Otherwise exactly one fresh RepeatStep is appended that carries only `until`, with `untilFirst` set. |
| `RepeatSteps.RepeatStep.AddEmitToTraversal` | gremlin-core/src/main/java/com/tinkerpop/gremlin/process/graph/step/branch/RepeatStep.java:197-207 | If the end step is a RepeatStep without `emit`, it gets `emit` and no step is added. Otherwise exactly one fresh RepeatStep is appended that carries only `emit`, with `emitFirst` set. |
| `RepeatStepProperties.DrainsBodyBeforeAdmitting` | gremlin-core/src/main/java/com/tinkerpop/gremlin/process/graph/step/branch/RepeatStep.java:105-121 | While the body has output, upstream is not touched. With an empty body, exactly one upstream traverser is admitted. Exhaustion is reported iff both are empty, and it leaves the state as it was. |
| `RepeatStepProperties.BodyPassCountsOnce` | gremlin-core/src/main/java/com/tinkerpop/gremlin/process/graph/step/branch/RepeatStep.java:106-113 | A traverser from the body's end has its count raised by exactly one before `until`. If `until` fires, it leaves with count 0 and is not fed back. Otherwise it goes back into the body with the raised count. |
| `RepeatStepProperties.UntilFirstGatesFreshInput` | gremlin-core/src/main/java/com/tinkerpop/gremlin/process/graph/step/branch/RepeatStep.java:120-126 | Without `untilFirst`, the until predicate makes no difference to admitting a fresh traverser. With `untilFirst` and `until` holding, the traverser leaves with count 0, its count is never raised and the body stays empty. Otherwise it is fed to the body. |
| `RepeatStepProperties.EmissionForksOriginal` | gremlin-core/src/main/java/com/tinkerpop/gremlin/process/graph/step/branch/RepeatStep.java:113-131 | An emitted traverser is the fed-back original with its count reset, so it has the same value and bulk. The original is fed back with its count untouched. |
| `RepeatStepProperties.EmitLeavesTurn` | gremlin-core/src/main/java/com/tinkerpop/gremlin/process/graph/step/branch/RepeatStep.java:105-132 | Changing `emit`/`emitFirst` changes neither the next state, nor whether a turn escapes or is exhausted, nor what escapes. |
| `RepeatStepProperties.EmitLeavesTrajectory` | gremlin-core/src/main/java/com/tinkerpop/gremlin/process/graph/step/branch/RepeatStep.java:105-132 | Over any number of turns, the states reached and the escaping traversers are the same whatever the emit configuration. Emitting never changes the original's trajectory. |
| `RepeatStepProperties.RunFuelMonotone` | gremlin-core/src/main/java/com/tinkerpop/gremlin/process/graph/step/branch/RepeatStep.java:105-133 | Once a pull has returned within n turns, any larger bound gives the same result. |
| `RepeatStepProperties.PullFollowsTrajectory` | gremlin-core/src/main/java/com/tinkerpop/gremlin/process/graph/step/branch/RepeatStep.java:105-133 | One pull takes at most its bound of turns, and every turn but its last goes round again. It returns what its last turn gives, and it leaves the state that those turns reach. So the trajectory lemmas apply to each pull. |
| `RepeatStepProperties.NeverReturns` | gremlin-core/src/main/java/com/tinkerpop/gremlin/process/graph/step/branch/RepeatStep.java:105-133 | With neither predicate set and an identity body, a traverser in the body never comes back out: the pull runs out of every bound. |
| `RepeatStepProperties.NoPredsNeverYield` | gremlin-core/src/main/java/com/tinkerpop/gremlin/process/graph/step/branch/RepeatStep.java:105-133 | With neither `until` nor `emit`, none of the returns at RepeatStep.java:110, 116, 123 and 129 can be reached, so a pull never yields a traverser under any body, state or bound: it is exhausted or still looping. |
| `RepeatStepProperties.ExhaustedOnlyWhenDrained` | gremlin-core/src/main/java/com/tinkerpop/gremlin/process/graph/step/branch/RepeatStep.java:105-121 | A pull reports exhaustion only with the body's output and upstream both empty. |
| `RepeatStepProperties.CirclesUntilThreshold` | gremlin-core/src/main/java/com/tinkerpop/gremlin/process/graph/step/branch/RepeatStep.java:105-113 | With an identity body and `until(loops >= k)`, a traverser in the body with count below k returns after exactly k minus its count turns. It comes back with count 0 and the same value and bulk. |
| `RepeatStepProperties.RepeatTimesScenario` | gremlin-core/src/main/java/com/tinkerpop/gremlin/process/graph/step/branch/RepeatStep.java:105-126 | Identity body, `until = LoopPredicate(k)` with k >= 1, checked last, no emit. One fresh traverser comes back at exactly turn k+1, after k body passes, unchanged with count 0. The next pull is exhausted. |
| `RepeatStepProperties.EscapeBeforeBodyScenario` | gremlin-core/src/main/java/com/tinkerpop/gremlin/process/graph/step/branch/RepeatStep.java:120-125 | With `untilFirst` and a predicate that holds, the traverser leaves on its admitting turn with count 0 and never enters the body. |
| `RepeatStepProperties.EmitThenEscapeScenario` | gremlin-core/src/main/java/com/tinkerpop/gremlin/process/graph/step/branch/RepeatStep.java:105-131 | Identity body, `emit(loops>=1)`, `until(loops>=2)`. The first pull returns the emitted copy while the original stays in the body with count 1. The second pull returns the original. The third is exhausted. |
| `RepeatStepProperties.RepeatTimesClient` | gremlin-core/src/main/java/com/tinkerpop/gremlin/process/graph/step/branch/RepeatStep.java:173-195 | `repeat(identity)` then `until(loops>=k)` builds one step. Pulling it with one upstream traverser returns that traverser, then exhaustion. |
| `RepeatStepProperties.UntilThenRepeatClient` | gremlin-core/src/main/java/com/tinkerpop/gremlin/process/graph/step/branch/RepeatStep.java:173-195 | `until(p)` then `repeat(b)` lands on one step, with `untilFirst` true and `emitFirst` false. |
| `RepeatStepProperties.SecondUntilAppendsClient` | gremlin-core/src/main/java/com/tinkerpop/gremlin/process/graph/step/branch/RepeatStep.java:173-207 | `repeat`, `emit` and `until` coalesce onto one step with both flags false. A second `until` appends a new step that carries only it, with no body and `untilFirst` true. |

## Left out

- RepeatSteps.RepeatStep.ProcessNextStart: bounded by `fuel` turns, because the source's `while (true)` keeps looping as long as the body keeps producing output that neither escapes nor is emitted. `OutOfFuel` stands for "still looping".
- RepeatSteps.RepeatStep.ProcessNextStart: requires a body. With none, the source fails with a null dereference in `TraversalHelper.getEnd`.
- RepeatSteps.RepeatStep.ProcessNextStart: evaluates predicates through `Holds`. The cursor state that a traversal predicate's test leaves in its nested traversal is not tracked during a pull. If one traversal is shared between the body and a predicate, the source would reset the body; the model does not capture that aliasing.
- RepeatSteps.RepeatStep.GetRequirements: requires a body. `TraversalHelper.getRequirements` is not part of this model; the body's requirements are a fixed set.
- RepeatSteps.RepeatStep.Clone: says nothing about the clone's upstream inputs, because `AbstractStep.clone` is not part of this model.
- RepeatSteps.ClonePred: the source accepts any Java `Predicate` as `until` or `emit`. A predicate other than `LoopPredicate` and `TraversalPredicate` (a lambda, say) is represented here as a `NestedPred` whose `body` encodes its verdict. The model then clones such a predicate where the source shares it; no verdict changes.
- RepeatSteps.Holds: the nested traversal of a `TraversalPredicate` is not executed. Its behaviour is the abstract function `body`, so the predicate holds iff that function gives some output for the split traverser.
- The cached `endStep` (`TraversalHelper.getEnd`) is not modelled. Body output is read straight from the repeat traversal's output queue.
- The side-effect merge and strategy cloning in `setRepeatTraversal` (`mergeInto`, `setSideEffects`, removing `SideEffectCapStrategy`) are opaque collaborators and are left out. `SetRepeatTraversal` only installs the body.
- Running a traversal is the function `body` plus a FIFO of outputs. The lazy step-by-step evaluation, barriers and any link between `body` and `steps` are not modelled.
- A traverser has one loop counter. The step label passed to `incrLoops` and Java's 32-bit `int` overflow of the counter are not modelled.
- `Split` copies a value, so object identity is not modelled. The body may produce any traversers, so bulk conservation through the body is not stated.
- The getters `getUntilPredicate`, `getEmitPredicate`, `isUntilFirst` and `isEmitFirst` are plain field reads.
- `toString`, `untilString`, `emitString` and `LoopPredicate.toString` are display formatting only.
- `CloneNotSupportedException` handling and Java generics are left out.
