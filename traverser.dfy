/** An optional value: stands for a Java field or reference that may be null. */
module Options {
  datatype Option<+T> = None | Some(value: T)
}

/**
 The unit of flow through a pipeline: a carried value, its multiplicity (bulk)
 and the loop counter that a loop-control stage increments once per pass.
 */
module Traversers {

  /** The carried element; this core never looks inside it. */
  type Value = int

  /** A traverser stands for `bulk` identical logical traversers, so bulk is never zero. */
  type Multiplicity = b: nat | 0 < b witness 1

  datatype Traverser = Traverser(value: Value, bulk: Multiplicity, loops: nat)

  /** One more pass through the enclosing loop body. */
  function IncrLoops(t: Traverser): Traverser
  {
    t.(loops := t.loops + 1)
  }

  /** The traverser leaves the loop: its counter starts again at zero. */
  function ResetLoops(t: Traverser): Traverser
  {
    t.(loops := 0)
  }

  /**
   A fork with the same value, bulk and loop state. Traversers are values here,
   so the fork and the original can never affect one another.
   */
  function Split(t: Traverser): Traverser
  {
    t
  }
}
