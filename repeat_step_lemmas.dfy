/**
 What the loop-control stage promises, proved about the pull-loop semantics
 `Step`/`Run` of module RepeatSteps, plus the scenarios that the builders and
 `ProcessNextStart` reach together.
 */
module RepeatStepProperties {
  import opened Options
  import opened Traversers
  import opened RepeatSteps

  // ---------------------------------------------------------------------------
  // Several turns of the loop, whatever they return.

  /** The state after `n` turns of the loop. */
  function Iterate(c: Config, s: LoopState, n: nat): LoopState
    decreases n
  {
    if n == 0 then s else Iterate(c, Step(c, s).next, n - 1)
  }

  /** The events of `n` turns of the loop, in order. */
  function Trace(c: Config, s: LoopState, n: nat): (r: seq<Event>)
    ensures |r| == n
    decreases n
  {
    if n == 0 then [] else [Step(c, s).event] + Trace(c, Step(c, s).next, n - 1)
  }

  /** The traversers that left through `until`, in order. */
  function Escapes(events: seq<Event>): seq<Traverser>
  {
    if events == [] then []
    else (if events[0].Escaped? then [events[0].t] else []) + Escapes(events[1..])
  }

  // ---------------------------------------------------------------------------
  // The loop predicate.

  /**
   `LoopPredicate(k)` is a threshold on the loop count alone: it holds exactly
   for counts of at least k, and once it holds, more passes keep it holding.
   */
  lemma LoopPredicateThreshold(k: int, t: Traverser, u: Traverser)
    ensures Holds(LoopPred(k), t) <==> t.loops >= k
    ensures t.loops == u.loops ==> Holds(LoopPred(k), t) == Holds(LoopPred(k), u)
    ensures t.loops <= u.loops && Holds(LoopPred(k), t) ==> Holds(LoopPred(k), u)
  {
  }

  // ---------------------------------------------------------------------------
  // One turn.

  /**
   Body output is drained first: while the body has output, upstream is not
   touched; only an empty body admits the next upstream traverser, and the loop
   reports exhaustion only when both are empty.
   */
  lemma DrainsBodyBeforeAdmitting(c: Config, s: LoopState)
    ensures s.pending != [] ==> Step(c, s).event != NoInput && Step(c, s).next.starts == s.starts
    ensures s.pending == [] && s.starts != [] ==>
              Step(c, s).event != NoInput && Step(c, s).next.starts == s.starts[1..]
    ensures Step(c, s).event == NoInput <==> s.pending == [] && s.starts == []
    ensures Step(c, s).event == NoInput ==> Step(c, s).next == s
  {
  }

  /**
   A traverser taken from the body's end has its loop count raised by exactly one
   before `until` is asked; if `until` fires it leaves with the count reset and is
   not fed back, otherwise it is fed back to the body with the raised count.
   */
  lemma BodyPassCountsOnce(c: Config, s: LoopState)
    requires s.pending != []
    ensures var u := s.pending[0];
            var out := Traverser(u.value, u.bulk, u.loops + 1);
            (Fires(c.until, out) ==>
               Step(c, s) == Transition(Escaped(Traverser(u.value, u.bulk, 0)), LoopState(s.pending[1..], s.starts)))
            && (!Fires(c.until, out) ==>
               Step(c, s).next == LoopState(s.pending[1..] + c.body(out), s.starts))
  {
  }

  /**
   An upstream traverser meets `until` only when `untilFirst` holds: without the
   flag the until predicate makes no difference to the turn that admits it; with
   it, a traverser that satisfies `until` leaves with its count reset, never
   enters the body and is never counted as a pass.
   */
  lemma UntilFirstGatesFreshInput(c: Config, s: LoopState, other: Option<Pred>)
    requires s.pending == [] && s.starts != []
    ensures !c.untilFirst ==> Step(c.(until := other), s) == Step(c, s)
    ensures c.untilFirst && Fires(c.until, s.starts[0]) ==>
              Step(c, s) == Transition(Escaped(s.starts[0].(loops := 0)), LoopState([], s.starts[1..]))
    ensures !(c.untilFirst && Fires(c.until, s.starts[0])) ==>
              Step(c, s).next == LoopState(c.body(s.starts[0]), s.starts[1..])
  {
  }

  /**
   An emitted traverser is a copy, with its count reset, of the one just fed back
   to the body: same value, same bulk, and the original keeps its count.
   */
  lemma EmissionForksOriginal(c: Config, s: LoopState)
    requires Step(c, s).event.Emitted?
    ensures s.pending != [] ==>
              var o := s.pending[0].(loops := s.pending[0].loops + 1);
              Step(c, s) == Transition(Emitted(o.(loops := 0)), LoopState(s.pending[1..] + c.body(o), s.starts))
    ensures s.pending == [] ==>
              s.starts != [] && c.emitFirst &&
              var o := s.starts[0];
              Step(c, s) == Transition(Emitted(o.(loops := 0)), LoopState(c.body(o), s.starts[1..]))
  {
  }

  /**
   The emit predicate and its flag decide only whether a copy is returned: the
   next state, exhaustion and every escape are the same with any emit setting.
   */
  lemma EmitLeavesTurn(c: Config, emit: Option<Pred>, emitFirst: bool, s: LoopState)
    ensures var d := c.(emit := emit, emitFirst := emitFirst);
            && Step(d, s).next == Step(c, s).next
            && (Step(d, s).event.Escaped? <==> Step(c, s).event.Escaped?)
            && (Step(d, s).event == NoInput <==> Step(c, s).event == NoInput)
            && (Step(c, s).event.Escaped? ==> Step(d, s).event == Step(c, s).event)
  {
  }

  // ---------------------------------------------------------------------------
  // Many turns.

  /**
   Emitting never changes the loop's trajectory: over any number of turns the
   states and the escaping traversers are those of the same loop without emit.
   */
  lemma {:induction false} EmitLeavesTrajectory(c: Config, emit: Option<Pred>, emitFirst: bool, s: LoopState, n: nat)
    ensures Iterate(c.(emit := emit, emitFirst := emitFirst), s, n) == Iterate(c, s, n)
    ensures Escapes(Trace(c.(emit := emit, emitFirst := emitFirst), s, n)) == Escapes(Trace(c, s, n))
    decreases n
  {
    if n > 0 {
      var d := c.(emit := emit, emitFirst := emitFirst);
      EmitLeavesTurn(c, emit, emitFirst, s);
      var next := Step(c, s).next;
      EmitLeavesTrajectory(c, emit, emitFirst, next, n - 1);
      var td, tc := Trace(d, s, n), Trace(c, s, n);
      assert td[0] == Step(d, s).event && td[1..] == Trace(d, next, n - 1);
      assert tc[0] == Step(c, s).event && tc[1..] == Trace(c, next, n - 1);
    }
  }

  /** More fuel changes nothing once a pull has returned. */
  lemma {:induction false} RunFuelMonotone(c: Config, s: LoopState, n: nat, m: nat)
    requires n <= m && Run(c, s, n).outcome != OutOfFuel
    ensures Run(c, s, m) == Run(c, s, n)
    decreases n
  {
    if Step(c, s).event == Silent {
      RunFuelMonotone(c, Step(c, s).next, n - 1, m - 1);
    }
  }

  /**
   A pull reports exhaustion only when the body has no output left and upstream
   is empty: no body output is ever dropped at the end of the stream.
   */
  lemma {:induction false} ExhaustedOnlyWhenDrained(c: Config, s: LoopState, n: nat)
    requires Run(c, s, n).outcome == Exhausted
    ensures Run(c, s, n).state == LoopState([], [])
    decreases n
  {
    if Step(c, s).event == Silent {
      ExhaustedOnlyWhenDrained(c, Step(c, s).next, n - 1);
    }
  }

  /** The number of turns a pull with at most `fuel` turns takes. */
  function PullTurns(c: Config, s: LoopState, fuel: nat): nat
    decreases fuel
  {
    if fuel == 0 then 0
    else if Step(c, s).event == Silent then 1 + PullTurns(c, Step(c, s).next, fuel - 1)
    else 1
  }

  /** What a pull returns when the given turn is its last. */
  function LastTurnGives(e: Event): Pulled
  {
    match e
    case Silent => OutOfFuel
    case Escaped(t) => Yield(t)
    case Emitted(t) => Yield(t)
    case NoInput => Exhausted
  }

  /**
   One pull is a prefix of the loop's trajectory: it takes at most `fuel` turns,
   every turn but its last is silent, it returns what its last turn gives, and it
   leaves the state `Iterate` reaches after that many turns. So what is proved
   about `Iterate` and `Trace` holds of `ProcessNextStart`, pull by pull.
   */
  lemma {:induction false} PullFollowsTrajectory(c: Config, s: LoopState, fuel: nat)
    ensures PullTurns(c, s, fuel) <= fuel
    ensures Run(c, s, fuel).state == Iterate(c, s, PullTurns(c, s, fuel))
    ensures forall i :: 0 <= i < PullTurns(c, s, fuel) - 1 ==> Trace(c, s, PullTurns(c, s, fuel))[i] == Silent
    ensures fuel == 0 ==> Run(c, s, fuel).outcome == OutOfFuel
    ensures fuel > 0 ==>
              Run(c, s, fuel).outcome == LastTurnGives(Trace(c, s, PullTurns(c, s, fuel))[PullTurns(c, s, fuel) - 1])
    decreases fuel
  {
    if fuel > 0 && Step(c, s).event == Silent {
      var next := Step(c, s).next;
      PullFollowsTrajectory(c, next, fuel - 1);
      var k := PullTurns(c, next, fuel - 1);
      assert Trace(c, s, k + 1) == [Silent] + Trace(c, next, k);
    }
  }

  /**
   With neither predicate, the source's loop never returns for a traverser in the
   body: an identity body gives `OutOfFuel` for every bound.
   */
  lemma {:induction false} NeverReturns(t: Traverser, n: nat)
    ensures Run(Config(Identity, None, None, false, false), LoopState([t], []), n).outcome == OutOfFuel
    decreases n
  {
    if n > 0 {
      var c := Config(Identity, None, None, false, false);
      assert Step(c, LoopState([t], [])) == Transition(Silent, LoopState([t.(loops := t.loops + 1)], []));
      NeverReturns(t.(loops := t.loops + 1), n - 1);
    }
  }

  /**
   With neither `until` nor `emit` a pull never returns a traverser: it either
   ends in exhaustion, once body and upstream are drained, or keeps looping.
   */
  lemma {:induction false} NoPredsNeverYield(c: Config, s: LoopState, n: nat)
    requires c.until == None && c.emit == None
    ensures !Run(c, s, n).outcome.Yield?
    decreases n
  {
    if n > 0 && Step(c, s).event.Silent? {
      NoPredsNeverYield(c, Step(c, s).next, n - 1);
    }
  }

  // ---------------------------------------------------------------------------
  // `repeat(identity).times(k)`: `until(loops >= k)` checked after each pass.

  /** A body that passes its input through unchanged. */
  function Identity(t: Traverser): seq<Traverser>
  {
    [t]
  }

  function TimesConfig(k: int): Config
  {
    Config(Identity, Some(LoopPred(k)), None, false, false)
  }

  /**
   A traverser in the body with count `u.loops < k` is returned after exactly
   `k - u.loops` more turns, with its count reset and value and bulk unchanged.
   */
  lemma {:induction false} CirclesUntilThreshold(k: nat, u: Traverser, n: nat)
    requires u.loops < k
    ensures n < k - u.loops ==> Run(TimesConfig(k), LoopState([u], []), n).outcome == OutOfFuel
    ensures n >= k - u.loops ==>
              Run(TimesConfig(k), LoopState([u], []), n) == RunResult(Yield(u.(loops := 0)), LoopState([], []))
    decreases k - u.loops
  {
    if n > 0 && u.loops + 1 < k {
      var u' := u.(loops := u.loops + 1);
      assert Step(TimesConfig(k), LoopState([u], [])) == Transition(Silent, LoopState([u'], []));
      CirclesUntilThreshold(k, u', n - 1);
    }
  }

  /**
   With an identity body, `until = LoopPredicate(k)` for k >= 1 checked after
   each pass and no emit, one upstream traverser with count 0 comes back out of
   a pull exactly at turn k + 1 (one turn admits it, k turns take it from the
   body), with count 0 and value and bulk unchanged; a further pull is exhausted.
   */
  lemma {:induction false} RepeatTimesScenario(k: nat, t: Traverser, n: nat)
    requires 1 <= k && t.loops == 0
    ensures n <= k ==> Run(TimesConfig(k), LoopState([], [t]), n).outcome == OutOfFuel
    ensures n > k ==> Run(TimesConfig(k), LoopState([], [t]), n) == RunResult(Yield(t), LoopState([], []))
    ensures n > 0 ==> Run(TimesConfig(k), LoopState([], []), n).outcome == Exhausted
  {
    if n > 0 {
      assert Step(TimesConfig(k), LoopState([], [t])) == Transition(Silent, LoopState([t], []));
      CirclesUntilThreshold(k, t, n - 1);
    }
  }

  /**
   `until` attached before the body, and satisfied by the upstream traverser:
   the traverser leaves on the turn that admits it, with count 0, and the body
   never receives it.
   */
  lemma EscapeBeforeBodyScenario(c: Config, t: Traverser, n: nat)
    requires c.untilFirst && c.until.Some? && Holds(c.until.value, t) && 0 < n
    ensures Run(c, LoopState([], [t]), n) == RunResult(Yield(t.(loops := 0)), LoopState([], []))
  {
  }

  /**
   Identity body, `emit(loops >= 1)` and `until(loops >= 2)`, both checked after
   each pass: one traverser gives two pulls. The first returns the copy emitted
   after pass 1 while the original stays in the body with count 1; the second
   returns the original after pass 2. Both carry count 0 and the input's value.
   */
  lemma EmitThenEscapeScenario(t: Traverser)
    requires t.loops == 0
    ensures var c := Config(Identity, Some(LoopPred(2)), Some(LoopPred(1)), false, false);
            var first := Run(c, LoopState([], [t]), 2);
            && first == RunResult(Yield(t), LoopState([t.(loops := 1)], []))
            && Run(c, first.state, 1) == RunResult(Yield(t), LoopState([], []))
            && Run(c, LoopState([], []), 1).outcome == Exhausted
  {
    var c := Config(Identity, Some(LoopPred(2)), Some(LoopPred(1)), false, false);
    assert Step(c, LoopState([], [t])) == Transition(Silent, LoopState([t], []));
  }

  // ---------------------------------------------------------------------------
  // The builders and the pull loop together.

  /**
   `repeat(identity).until(loops >= k)`: the builders make one step, and two
   pulls on it with one upstream traverser return that traverser once, then
   report exhaustion.
   */
  method RepeatTimesClient(k: nat, t: Traverser) returns (first: Pulled, second: Pulled)
    requires 1 <= k && t.loops == 0
    ensures first == Yield(t) && second == Exhausted
  {
    var body := new Traversal(Identity, {});
    var outer := new Traversal(Identity, {});
    RepeatStep.AddRepeatToTraversal(outer, body);
    RepeatStep.AddUntilToTraversal(outer, LoopPred(k));
    var step := Trailing(outer).value;
    assert step.Controls() == TimesConfig(k);
    step.AddStarts([t]);
    assert step.repeatTraversal == body;
    assert body.pending == [];
    assert step.starts == [t];
    assert step.State() == LoopState([], [t]);
    RepeatTimesScenario(k, t, k + 1);
    first := step.ProcessNextStart(k + 1);
    assert step.Controls() == TimesConfig(k);
    assert step.State() == LoopState([], []);
    RepeatTimesScenario(k, t, 1);
    second := step.ProcessNextStart(1);
  }

  /**
   `until(p).repeat(b)` (do-while is `repeat(b).until(p)`): both parts land on one
   step, and the until predicate, attached first, is checked before the first pass.
   */
  method UntilThenRepeatClient(b: Traversal, p: Pred) returns (outer: Traversal, step: RepeatStep)
    ensures outer.steps == [Repeat(step)]
    ensures step.repeatTraversal == b && step.untilPredicate == Some(p) && step.emitPredicate == None
    ensures step.untilFirst && !step.emitFirst
  {
    outer := new Traversal(Identity, {});
    RepeatStep.AddUntilToTraversal(outer, p);
    RepeatStep.AddRepeatToTraversal(outer, b);
    step := Trailing(outer).value;
  }

  /**
   `repeat(b).emit(e).until(p).until(q)`: the first three parts coalesce onto one
   step with both predicates checked after each pass; the second until finds that
   step already filled and starts a new step that carries only `q`.
   */
  method SecondUntilAppendsClient(b: Traversal, e: Pred, p: Pred, q: Pred)
    returns (outer: Traversal, first: RepeatStep, second: RepeatStep)
    ensures outer.steps == [Repeat(first), Repeat(second)] && first != second
    ensures first.repeatTraversal == b && first.emitPredicate == Some(e) && first.untilPredicate == Some(p)
    ensures !first.untilFirst && !first.emitFirst
    ensures second.repeatTraversal == null && second.untilPredicate == Some(q) && second.emitPredicate == None
    ensures second.untilFirst && !second.emitFirst
  {
    outer := new Traversal(Identity, {});
    RepeatStep.AddRepeatToTraversal(outer, b);
    RepeatStep.AddEmitToTraversal(outer, e);
    RepeatStep.AddUntilToTraversal(outer, p);
    first := Trailing(outer).value;
    RepeatStep.AddUntilToTraversal(outer, q);
    second := Trailing(outer).value;
  }
}
