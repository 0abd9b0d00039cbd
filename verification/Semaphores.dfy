/** The semaphore that is bounded on both sides. */
module Semaphores {
  import opened Monitor
  import opened Runs

  datatype Op = Wait | Post

  predicate Guard(max: int, value: int, op: Op) {
    match op
    case Wait => value != 0
    case Post => value != max
  }

  function Effect(value: int, op: Op): int {
    match op
    case Wait => value - 1
    case Post => value + 1
  }

  function SemaphoreSpec(value: int, max: int): Spec<int, Op> {
    Spec(value, (v: int, op: Op) => Guard(max, v, op), (v: int, op: Op) => Effect(v, op))
  }

  function Count(log: seq<(nat, Op)>, op: Op): nat {
    if log == [] then 0 else Count(log[..|log| - 1], op) + if log[|log| - 1].1 == op then 1 else 0
  }

  lemma {:induction false} Accounting(init: int, max: int, log: seq<(nat, Op)>)
    requires 0 <= init <= max && Served(SemaphoreSpec(init, max), log)
    ensures var v := After(SemaphoreSpec(init, max), log);
            0 <= v <= max && v == init + Count(log, Post) - Count(log, Wait)
    decreases |log|
  {
    if log == [] {
    } else {
      var before := log[..|log| - 1];
      Accounting(init, max, before);
      var v, op := After(SemaphoreSpec(init, max), before), log[|log| - 1].1;
      assert Guard(max, v, op);
      assert After(SemaphoreSpec(init, max), log) == Effect(v, op);
    }
  }

  /**
    In every interleaving: the value stays between 0 and the maximum and equals the initial value plus
    the completed posts minus the completed waits; a wait sleeps only at 0, a post only at the maximum.
    */
  lemma EverySemaphoreRun(init: int, max: int, threads: set<nat>, steps: seq<Step<Op>>)
    requires 0 <= init <= max
    requires Legal(Protocol(SemaphoreSpec(init, max)), Start(SemaphoreSpec(init, max), threads), steps)
    ensures var s := Run(Protocol(SemaphoreSpec(init, max)), Start(SemaphoreSpec(init, max), threads), steps);
            && 0 <= s.shared <= max
            && s.shared == init + Count(s.log, Post) - Count(s.log, Wait)
            && (forall t | t in s.pc && s.pc[t].Asleep? :: s.shared == if s.pc[t].op.Wait? then 0 else max)
  {
    var spec := SemaphoreSpec(init, max);
    EveryRun(spec, threads, steps);
    var s := Run(Protocol(spec), Start(spec, threads), steps);
    Accounting(init, max, s.log);
    forall t | t in s.pc && s.pc[t].Asleep?
      ensures s.shared == if s.pc[t].op.Wait? then 0 else max
    {
      assert !Guard(max, s.shared, s.pc[t].op);
    }
  }

  class Semamore {
    var value: int
    var maxVal: int

    predicate Valid()
      reads this
    {
      0 <= value <= maxVal
    }

    constructor (value: int, maxVal: int)
      ensures this.value == value && this.maxVal == maxVal
    {
      this.value, this.maxVal := value, maxVal;
    }

    /** What a wait does once it need not wait: in range, that is at any value but 0. */
    method Wait()
      requires Valid() && Guard(maxVal, value, Op.Wait)
      modifies this`value
      ensures Valid() && value + 1 == old(value)
    {
      value := value - 1;
    }

    /** What a post does once it need not wait: in range, that is at any value but the maximum. */
    method Post()
      requires Valid() && Guard(maxVal, value, Op.Post)
      modifies this`value
      ensures Valid() && value - 1 == old(value)
    {
      value := value + 1;
    }
  }

  /**
    The operations of a run, carried out on the struct one after the other in the order in which they
    took effect: each finds its guard true, and the struct ends with the value that the run shares.
    */
  method Replay(init: int, max: int, log: seq<(nat, Op)>) returns (s: Semamore)
    requires 0 <= init <= max && Served(SemaphoreSpec(init, max), log)
    ensures fresh(s) && s.Valid() && s.maxVal == max && s.value == After(SemaphoreSpec(init, max), log)
    decreases |log|
  {
    if log == [] {
      s := new Semamore(init, max);
      return;
    }
    ghost var before := After(SemaphoreSpec(init, max), log[..|log| - 1]);
    s := Replay(init, max, log[..|log| - 1]);
    var op := log[|log| - 1].1;
    assert Guard(max, before, op) && After(SemaphoreSpec(init, max), log) == Effect(before, op);
    match op
    case Wait => s.Wait();
    case Post => s.Post();
  }
}
