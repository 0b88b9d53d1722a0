/**
 The loop-control stage `repeat(...).until(...).emit(...)`: its predicates, the
 traversal it repeats, the pull loop and the builders that attach its parts.
 */
module RepeatSteps {
  import opened Options
  import opened Traversers

  /** What a step declares it needs from the traversers that flow through it. */
  datatype Requirement = SingleLoop | NestedLoop | Bulk | Other(name: string)

  /** A step of a traversal under construction, as far as the builders tell steps apart. */
  datatype StepKind = Repeat(step: RepeatStep) | OtherStep(name: string)

  /**
   A traversal. `body` is what its steps produce for one start (running the pipeline
   is modelled by this function), `requirements` what its steps declare, `pending`
   the outputs produced but not yet pulled from its end step, and `steps` the step
   list that the builders inspect and extend.
   */
  class Traversal {
    const body: Traverser -> seq<Traverser>
    const requirements: set<Requirement>
    var pending: seq<Traverser>
    var steps: seq<StepKind>

    constructor (body: Traverser -> seq<Traverser>, requirements: set<Requirement>)
      ensures this.body == body && this.requirements == requirements
      ensures pending == [] && steps == []
    {
      this.body := body;
      this.requirements := requirements;
      pending := [];
      steps := [];
    }

    /** `addStart`: the outputs for `t` queue up behind the ones not yet pulled. */
    method AddStart(t: Traverser)
      modifies this`pending
      ensures pending == old(pending) + body(t)
    {
      pending := pending + body(t);
    }

    /** `hasNext`: some output is waiting at the end step. */
    method HasNext() returns (b: bool)
      ensures b <==> pending != []
    {
      b := pending != [];
    }

    /** `next` on the end step, called only after `hasNext` answered true. */
    method Next() returns (t: Traverser)
      requires pending != []
      modifies this`pending
      ensures t == old(pending)[0] && pending == old(pending)[1..]
    {
      t := pending[0];
      pending := pending[1..];
    }

    /** `reset`: drop every start and output still in flight. */
    method Reset()
      modifies this`pending
      ensures pending == []
    {
      pending := [];
    }

    /** `addStep`: append a step at the end of the step list. */
    method AddStep(s: StepKind)
      modifies this`steps
      ensures steps == old(steps) + [s]
    {
      steps := steps + [s];
    }

    /** `clone`: a new traversal with the same behaviour and its own copy of the cursor. */
    method Clone() returns (c: Traversal)
      ensures fresh(c)
      ensures c.body == body && c.requirements == requirements && c.pending == pending
    {
      c := new Traversal(body, requirements);
      c.pending := pending;
    }
  }

  /** `TraversalPredicate`: a test answered by running a nested traversal. */
  class TraversalPredicate {
    const traversal: Traversal

    constructor (traversal: Traversal)
      ensures this.traversal == traversal
    {
      this.traversal := traversal;
    }

    /**
     `test`: reset the nested traversal, feed it a split of `t` as its only start and
     report whether it has an output. The outputs are left in the nested traversal.
     */
    method Test(t: Traverser) returns (b: bool)
      modifies traversal`pending
      ensures b == Holds(NestedPred(this), t)
      ensures traversal.pending == traversal.body(Split(t))
    {
      traversal.Reset();
      traversal.AddStart(Split(t));
      b := traversal.HasNext();
    }

    /** `clone`: a new predicate over a clone of the nested traversal. */
    method Clone() returns (c: TraversalPredicate)
      ensures fresh(c) && fresh(c.traversal)
      ensures c.traversal.body == traversal.body
    {
      var copy := traversal.Clone();
      c := new TraversalPredicate(copy);
    }
  }

  /**
   The two kinds of until/emit predicate: `LoopPredicate(maxLoops)` and a
   `TraversalPredicate`.
   */
  datatype Pred = LoopPred(maxLoops: int) | NestedPred(nested: TraversalPredicate)

  /** `Predicate.test` for either kind. */
  function Holds(p: Pred, t: Traverser): bool
  {
    match p
    case LoopPred(maxLoops) => t.loops >= maxLoops
    case NestedPred(nested) => nested.traversal.body(Split(t)) != []
  }

  /** An optional predicate fires when it is present and holds. */
  function Fires(p: Option<Pred>, t: Traverser): bool
  {
    p.Some? && Holds(p.value, t)
  }

  /**
   The duplication rule of `RepeatStep.clone`: a loop predicate is shared, a
   traversal predicate is cloned, so the copy decides every test the same way.
   */
  method ClonePred(p: Option<Pred>) returns (q: Option<Pred>)
    ensures q.Some? <==> p.Some?
    ensures p.Some? && p.value.LoopPred? ==> q == p
    ensures p.Some? && p.value.NestedPred? ==>
              q.Some? && q.value.NestedPred? && fresh(q.value.nested) && fresh(q.value.nested.traversal)
    ensures forall t :: Fires(q, t) == Fires(p, t)
  {
    q := p;
    if p.Some? && p.value.NestedPred? {
      var c := p.value.nested.Clone();
      q := Some(NestedPred(c));
    }
  }

  // ---------------------------------------------------------------------------
  // The pull loop as a function of the configuration and the state it works on.

  /** What the pull loop consults: the body's behaviour, both predicates and both flags. */
  datatype Config = Config(
    body: Traverser -> seq<Traverser>,
    until: Option<Pred>,
    emit: Option<Pred>,
    untilFirst: bool,
    emitFirst: bool)

  /** What the pull loop changes: the body's unpulled outputs and the upstream starts. */
  datatype LoopState = LoopState(pending: seq<Traverser>, starts: seq<Traverser>)

  /** What one turn of the `while (true)` loop does. */
  datatype Event =
    | Silent                 // the loop goes round again
    | Escaped(t: Traverser)  // `until` fired: the traverser itself leaves the loop
    | Emitted(t: Traverser)  // `emit` fired: a split copy is returned, the original loops on
    | NoInput                // the body is drained and upstream has nothing left

  datatype Transition = Transition(event: Event, next: LoopState)

  /** One turn of the loop in `processNextStart`. */
  function Step(c: Config, s: LoopState): Transition
  {
    if s.pending != [] then
      var out := IncrLoops(s.pending[0]);
      if Fires(c.until, out) then
        Transition(Escaped(ResetLoops(out)), LoopState(s.pending[1..], s.starts))
      else
        var next := LoopState(s.pending[1..] + c.body(out), s.starts);
        if Fires(c.emit, out) then Transition(Emitted(ResetLoops(Split(out))), next)
        else Transition(Silent, next)
    else if s.starts == [] then
      Transition(NoInput, s)
    else
      var t := s.starts[0];
      if c.untilFirst && Fires(c.until, t) then
        Transition(Escaped(ResetLoops(t)), LoopState(s.pending, s.starts[1..]))
      else
        var next := LoopState(s.pending + c.body(t), s.starts[1..]);
        if c.emitFirst && Fires(c.emit, t) then Transition(Emitted(ResetLoops(Split(t))), next)
        else Transition(Silent, next)
  }

  /**
   The result of one pull. `OutOfFuel` means that the loop had not returned after
   the given number of turns; the source would keep looping.
   */
  datatype Pulled = Yield(t: Traverser) | Exhausted | OutOfFuel

  datatype RunResult = RunResult(outcome: Pulled, state: LoopState)

  /** One call of `processNextStart`, allowed at most `fuel` turns of its loop. */
  function Run(c: Config, s: LoopState, fuel: nat): RunResult
    decreases fuel
  {
    if fuel == 0 then RunResult(OutOfFuel, s)
    else
      var tr := Step(c, s);
      match tr.event
      case Silent => Run(c, tr.next, fuel - 1)
      case Escaped(t) => RunResult(Yield(t), tr.next)
      case Emitted(t) => RunResult(Yield(t), tr.next)
      case NoInput => RunResult(Exhausted, tr.next)
  }

  // ---------------------------------------------------------------------------
  // The builders' view of the end of a traversal.

  /** The traversal's end step when it is a `RepeatStep`. */
  function Trailing(traversal: Traversal): Option<RepeatStep>
    reads traversal
  {
    if traversal.steps != [] && traversal.steps[|traversal.steps| - 1].Repeat? then
      Some(traversal.steps[|traversal.steps| - 1].step)
    else None
  }

  function TrailingSet(traversal: Traversal): set<RepeatStep>
    reads traversal
  {
    if Trailing(traversal).Some? then {Trailing(traversal).value} else {}
  }

  /** The end step is a `RepeatStep` that has no repeat traversal yet. */
  predicate TakesRepeat(traversal: Traversal)
    reads traversal, TrailingSet(traversal)
  {
    Trailing(traversal).Some? && Trailing(traversal).value.repeatTraversal == null
  }

  /** The end step is a `RepeatStep` that has no until predicate yet. */
  predicate TakesUntil(traversal: Traversal)
    reads traversal, TrailingSet(traversal)
  {
    Trailing(traversal).Some? && Trailing(traversal).value.untilPredicate.None?
  }

  /** The end step is a `RepeatStep` that has no emit predicate yet. */
  predicate TakesEmit(traversal: Traversal)
    reads traversal, TrailingSet(traversal)
  {
    Trailing(traversal).Some? && Trailing(traversal).value.emitPredicate.None?
  }

  // ---------------------------------------------------------------------------

  /** `RepeatStep`, the loop-control stage. */
  class RepeatStep {
    /** The traversal this step belongs to. */
    const traversal: Traversal
    var repeatTraversal: Traversal?
    var untilPredicate: Option<Pred>
    var emitPredicate: Option<Pred>
    var untilFirst: bool
    var emitFirst: bool
    /** The upstream traversers this step has not taken yet. */
    var starts: seq<Traverser>

    constructor (traversal: Traversal)
      ensures this.traversal == traversal && repeatTraversal == null
      ensures untilPredicate == None && emitPredicate == None
      ensures !untilFirst && !emitFirst && starts == []
    {
      this.traversal := traversal;
      repeatTraversal := null;
      untilPredicate := None;
      emitPredicate := None;
      untilFirst := false;
      emitFirst := false;
      starts := [];
    }

    /** Upstream hands this step more traversers. */
    method AddStarts(ts: seq<Traverser>)
      modifies this`starts
      ensures starts == old(starts) + ts
    {
      starts := starts + ts;
    }

    /**
     `getRequirements`: the body's requirements plus loop counting and bulk, and
     nested-loop counting exactly when the body itself counts loops.
     */
    method GetRequirements() returns (r: set<Requirement>)
      requires repeatTraversal != null
      ensures repeatTraversal.requirements <= r
      ensures SingleLoop in r && Bulk in r
      ensures NestedLoop in r <==>
                NestedLoop in repeatTraversal.requirements || SingleLoop in repeatTraversal.requirements
      ensures r <= repeatTraversal.requirements + {SingleLoop, NestedLoop, Bulk}
    {
      r := repeatTraversal.requirements;
      if SingleLoop in r {
        r := r + {NestedLoop};
      }
      r := r + {SingleLoop};
      r := r + {Bulk};
    }

    /** `setRepeatTraversal`: install the body; the first/last flags are left alone. */
    method SetRepeatTraversal(body: Traversal)
      modifies this`repeatTraversal
      ensures repeatTraversal == body
    {
      repeatTraversal := body;
    }

    /**
     `setUntilPredicate`: an until attached while there is no body yet is checked
     before the first pass; the flag is never cleared.
     */
    method SetUntilPredicate(p: Pred)
      modifies this`untilPredicate, this`untilFirst
      ensures untilPredicate == Some(p)
      ensures untilFirst == (old(untilFirst) || repeatTraversal == null)
    {
      if repeatTraversal == null {
        untilFirst := true;
      }
      untilPredicate := Some(p);
    }

    /** `setEmitPredicate`: the same rule, for `emitFirst`. */
    method SetEmitPredicate(p: Pred)
      modifies this`emitPredicate, this`emitFirst
      ensures emitPredicate == Some(p)
      ensures emitFirst == (old(emitFirst) || repeatTraversal == null)
    {
      if repeatTraversal == null {
        emitFirst := true;
      }
      emitPredicate := Some(p);
    }

    /** `getTraversals`: the body, when there is one. */
    function GetTraversals(): (r: seq<Traversal>)
      reads this
      ensures |r| <= 1
      ensures r == [] <==> repeatTraversal == null
      ensures forall i :: 0 <= i < |r| ==> r[i] == repeatTraversal
    {
      if repeatTraversal == null then [] else [repeatTraversal]
    }

    /** `doUntil`: false without an until predicate, otherwise its verdict. */
    function DoUntil(t: Traverser): (r: bool)
      reads this
      ensures untilPredicate.None? ==> !r
      ensures untilPredicate.Some? ==> (r <==> Holds(untilPredicate.value, t))
    {
      Fires(untilPredicate, t)
    }

    /** `doEmit`: false without an emit predicate, otherwise its verdict. */
    function DoEmit(t: Traverser): (r: bool)
      reads this
      ensures emitPredicate.None? ==> !r
      ensures emitPredicate.Some? ==> (r <==> Holds(emitPredicate.value, t))
    {
      Fires(emitPredicate, t)
    }

    /** The configuration the pull loop consults. */
    function Controls(): Config
      reads this
      requires repeatTraversal != null
    {
      Config(repeatTraversal.body, untilPredicate, emitPredicate, untilFirst, emitFirst)
    }

    /** The state the pull loop changes. */
    ghost function State(): LoopState
      reads this, repeatTraversal
      requires repeatTraversal != null
    {
      LoopState(repeatTraversal.pending, starts)
    }

    /**
     `processNextStart`, allowed at most `fuel` turns of its loop: drain the body's
     outputs before admitting an upstream traverser, count one loop per pass, let a
     traverser out when `until` fires and return a split copy when `emit` fires.
     */
    method ProcessNextStart(fuel: nat) returns (r: Pulled)
      requires repeatTraversal != null
      modifies this`starts, repeatTraversal`pending
      ensures Run(old(Controls()), old(State()), fuel) == RunResult(r, State())
    {
      ghost var c := Controls();
      var n := fuel;
      while n > 0
        invariant Run(c, old(State()), fuel) == Run(c, State(), n)
        decreases n
      {
        ghost var s := State();
        n := n - 1;
        var hasNext := repeatTraversal.HasNext();
        if hasNext {
          var t := repeatTraversal.Next();
          t := IncrLoops(t);
          if DoUntil(t) {
            r := Yield(ResetLoops(t));
            return;
          }
          repeatTraversal.AddStart(t);
          if DoEmit(t) {
            r := Yield(ResetLoops(Split(t)));
            return;
          }
        } else {
          if starts == [] {
            r := Exhausted;
            return;
          }
          var t := starts[0];
          starts := starts[1..];
          if untilFirst && DoUntil(t) {
            r := Yield(ResetLoops(t));
            return;
          }
          repeatTraversal.AddStart(t);
          if emitFirst && DoEmit(t) {
            r := Yield(ResetLoops(Split(t)));
            return;
          }
        }
        assert Step(c, s) == Transition(Silent, State());
      }
      r := OutOfFuel;
    }

    /**
     `clone`: a copy that shares the body and loop predicates but gets its own
     clone of every traversal predicate.
     */
    method Clone() returns (c: RepeatStep)
      ensures fresh(c)
      ensures c.traversal == traversal && c.repeatTraversal == repeatTraversal
      ensures c.untilFirst == untilFirst && c.emitFirst == emitFirst
      ensures untilPredicate.Some? && untilPredicate.value.LoopPred? ==> c.untilPredicate == untilPredicate
      ensures emitPredicate.Some? && emitPredicate.value.LoopPred? ==> c.emitPredicate == emitPredicate
      ensures untilPredicate.Some? && untilPredicate.value.NestedPred? ==>
                c.untilPredicate.Some? && c.untilPredicate.value.NestedPred? &&
                fresh(c.untilPredicate.value.nested) && fresh(c.untilPredicate.value.nested.traversal)
      ensures emitPredicate.Some? && emitPredicate.value.NestedPred? ==>
                c.emitPredicate.Some? && c.emitPredicate.value.NestedPred? &&
                fresh(c.emitPredicate.value.nested) && fresh(c.emitPredicate.value.nested.traversal)
      ensures c.untilPredicate.Some? == untilPredicate.Some? && c.emitPredicate.Some? == emitPredicate.Some?
      ensures forall t :: c.DoUntil(t) == DoUntil(t) && c.DoEmit(t) == DoEmit(t)
    {
      c := new RepeatStep(traversal);
      c.repeatTraversal := repeatTraversal;
      c.untilFirst := untilFirst;
      c.emitFirst := emitFirst;
      c.untilPredicate := ClonePred(untilPredicate);
      c.emitPredicate := ClonePred(emitPredicate);
    }

    // -------------------------------------------------------------------------
    // Builders: `repeat(...)`, `until(...)` and `emit(...)` in any order.

    /**
     `addRepeatToTraversal`: give the body to the end step when it is a
     `RepeatStep` without one, otherwise append a new step that has only the body.
     */
    static method AddRepeatToTraversal(traversal: Traversal, body: Traversal)
      modifies traversal`steps, TrailingSet(traversal)`repeatTraversal
      ensures old(TakesRepeat(traversal)) ==>
                traversal.steps == old(traversal.steps) &&
                Trailing(traversal).value.repeatTraversal == body
      ensures !old(TakesRepeat(traversal)) ==> unchanged(old(TrailingSet(traversal)))
      ensures !old(TakesRepeat(traversal)) ==>
                |traversal.steps| == old(|traversal.steps|) + 1 &&
                traversal.steps[..old(|traversal.steps|)] == old(traversal.steps) &&
                Trailing(traversal).Some? &&
                var r := Trailing(traversal).value;
                fresh(r) && r.traversal == traversal && r.repeatTraversal == body &&
                r.untilPredicate.None? && r.emitPredicate.None? &&
                !r.untilFirst && !r.emitFirst && r.starts == []
    {
      var last := Trailing(traversal);
      if last.Some? && last.value.GetTraversals() == [] {
        last.value.SetRepeatTraversal(body);
      } else {
        var r := new RepeatStep(traversal);
        r.SetRepeatTraversal(body);
        traversal.AddStep(Repeat(r));
      }
    }

    /**
     `addUntilToTraversal`: give the until predicate to the end step when it is a
     `RepeatStep` without one, otherwise append a new step that has only it.
     */
    static method AddUntilToTraversal(traversal: Traversal, p: Pred)
      modifies traversal`steps, TrailingSet(traversal)`untilPredicate, TrailingSet(traversal)`untilFirst
      ensures old(TakesUntil(traversal)) ==>
                traversal.steps == old(traversal.steps) &&
                var r := Trailing(traversal).value;
                r.untilPredicate == Some(p) &&
                r.untilFirst == (old(r.untilFirst) || r.repeatTraversal == null)
      ensures !old(TakesUntil(traversal)) ==> unchanged(old(TrailingSet(traversal)))
      ensures !old(TakesUntil(traversal)) ==>
                |traversal.steps| == old(|traversal.steps|) + 1 &&
                traversal.steps[..old(|traversal.steps|)] == old(traversal.steps) &&
                Trailing(traversal).Some? &&
                var r := Trailing(traversal).value;
                fresh(r) && r.traversal == traversal && r.repeatTraversal == null &&
                r.untilPredicate == Some(p) && r.emitPredicate.None? &&
                r.untilFirst && !r.emitFirst && r.starts == []
    {
      var last := Trailing(traversal);
      if last.Some? && last.value.untilPredicate.None? {
        last.value.SetUntilPredicate(p);
      } else {
        var r := new RepeatStep(traversal);
        r.SetUntilPredicate(p);
        traversal.AddStep(Repeat(r));
      }
    }

    /**
     `addEmitToTraversal`: give the emit predicate to the end step when it is a
     `RepeatStep` without one, otherwise append a new step that has only it.
     */
    static method AddEmitToTraversal(traversal: Traversal, p: Pred)
      modifies traversal`steps, TrailingSet(traversal)`emitPredicate, TrailingSet(traversal)`emitFirst
      ensures old(TakesEmit(traversal)) ==>
                traversal.steps == old(traversal.steps) &&
                var r := Trailing(traversal).value;
                r.emitPredicate == Some(p) &&
                r.emitFirst == (old(r.emitFirst) || r.repeatTraversal == null)
      ensures !old(TakesEmit(traversal)) ==> unchanged(old(TrailingSet(traversal)))
      ensures !old(TakesEmit(traversal)) ==>
                |traversal.steps| == old(|traversal.steps|) + 1 &&
                traversal.steps[..old(|traversal.steps|)] == old(traversal.steps) &&
                Trailing(traversal).Some? &&
                var r := Trailing(traversal).value;
                fresh(r) && r.traversal == traversal && r.repeatTraversal == null &&
                r.untilPredicate.None? && r.emitPredicate == Some(p) &&
                !r.untilFirst && r.emitFirst && r.starts == []
    {
      var last := Trailing(traversal);
      if last.Some? && last.value.emitPredicate.None? {
        last.value.SetEmitPredicate(p);
      } else {
        var r := new RepeatStep(traversal);
        r.SetEmitPredicate(p);
        traversal.AddStep(Repeat(r));
      }
    }
  }
}
