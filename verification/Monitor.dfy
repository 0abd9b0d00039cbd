/**
  Monitors in the style that the queue and the semaphore share: an operation locks the mutex, waits on
  the one condition variable while its guard is false, takes effect, broadcasts and unlocks.
  */
module Monitor {
  import opened Options
  import opened Runs

  /** The shared data and its operations; an operation waits until its guard is true. */
  datatype Spec<!S, !Op> = Spec(init: S, guard: (S, Op) -> bool, effect: (S, Op) -> S)

  /** Where a thread is with respect to the monitor. */
  datatype Pc<Op> =
    | Outside
    | Entering(op: Op)   // about to lock the mutex, for the first time or after waking up
    | Inside(op: Op)     // holds the mutex, about to test its guard
    | Asleep(op: Op)     // waits on the condition variable

  /** `log` lists the operations that took effect, in the order in which they did. */
  datatype State<S, Op> = State(shared: S, lock: Option<nat>, pc: map<nat, Pc<Op>>, log: seq<(nat, Op)>)

  datatype Step<Op> =
    | Call(t: nat, op: Op)
    | Lock(t: nat)
    | Test(t: nat)
    | Wake(t: nat)       // a spurious wakeup

  predicate Enabled<S, Op>(s: State<S, Op>, step: Step<Op>) {
    && step.t in s.pc
    && match step
       case Call(t, _) => s.pc[t].Outside?
       case Lock(t) => s.pc[t].Entering? && s.lock.None?
       case Test(t) => s.pc[t].Inside?
       case Wake(t) => s.pc[t].Asleep?
  }

  /** A broadcast: every sleeper has to lock the mutex again. */
  function Awaken<Op>(pc: map<nat, Pc<Op>>): map<nat, Pc<Op>> {
    map t | t in pc :: if pc[t].Asleep? then Entering(pc[t].op) else pc[t]
  }

  function Apply<S, Op>(spec: Spec<S, Op>, s: State<S, Op>, step: Step<Op>): State<S, Op>
    requires Enabled(s, step)
  {
    match step
    case Call(t, op) => s.(pc := s.pc[t := Entering(op)])
    case Lock(t) => s.(lock := Some(t), pc := s.pc[t := Inside(s.pc[t].op)])
    case Test(t) =>
      var op := s.pc[t].op;
      if spec.guard(s.shared, op) then
        State(spec.effect(s.shared, op), None, Awaken(s.pc)[t := Outside], s.log + [(t, op)])
      else
        s.(lock := None, pc := s.pc[t := Asleep(op)])
    case Wake(t) => s.(pc := s.pc[t := Entering(s.pc[t].op)])
  }

  function Start<S, Op>(spec: Spec<S, Op>, threads: set<nat>): State<S, Op> {
    State(spec.init, None, map t | t in threads :: Outside, [])
  }

  /** The shared data after the logged operations, run one after the other. */
  function After<S, Op>(spec: Spec<S, Op>, log: seq<(nat, Op)>): S {
    if log == [] then spec.init else spec.effect(After(spec, log[..|log| - 1]), log[|log| - 1].1)
  }

  /** Every logged operation found its guard true. */
  predicate Served<S, Op>(spec: Spec<S, Op>, log: seq<(nat, Op)>) {
    log == []
    || (Served(spec, log[..|log| - 1]) && spec.guard(After(spec, log[..|log| - 1]), log[|log| - 1].1))
  }

  /** At most one thread is inside, and it is the one that holds the mutex. */
  ghost predicate Exclusive<S, Op>(s: State<S, Op>) {
    && (forall t | t in s.pc :: s.lock == Some(t) <==> s.pc[t].Inside?)
    && (s.lock.Some? ==> s.lock.value in s.pc)
  }

  /** No wakeup was lost: whoever sleeps would have to wait anyway. */
  ghost predicate SleepersMustWait<S, Op>(spec: Spec<S, Op>, s: State<S, Op>) {
    forall t | t in s.pc && s.pc[t].Asleep? :: !spec.guard(s.shared, s.pc[t].op)
  }

  ghost predicate Inv<S, Op>(spec: Spec<S, Op>, s: State<S, Op>) {
    && Exclusive(s) && SleepersMustWait(spec, s)
    && Served(spec, s.log) && s.shared == After(spec, s.log)
  }

  /** An operation that finds its guard true may be logged next. */
  lemma LogGrows<S, Op>(spec: Spec<S, Op>, log: seq<(nat, Op)>, t: nat, op: Op)
    requires Served(spec, log) && spec.guard(After(spec, log), op)
    ensures Served(spec, log + [(t, op)]) && After(spec, log + [(t, op)]) == spec.effect(After(spec, log), op)
  {
    assert (log + [(t, op)])[..|log|] == log;
  }

  lemma StepInv<S, Op>(spec: Spec<S, Op>, s: State<S, Op>, step: Step<Op>)
    requires Inv(spec, s) && Enabled(s, step)
    ensures Inv(spec, Apply(spec, s, step))
  {
    hide Served, After;
    match step
    case Call(t, op) =>
    case Lock(t) =>
    case Test(t) =>
      if spec.guard(s.shared, s.pc[t].op) {
        LogGrows(spec, s.log, t, s.pc[t].op);
      }
    case Wake(t) =>
  }

  ghost function Protocol<S, Op>(spec: Spec<S, Op>): Machine<State<S, Op>, Step<Op>> {
    Machine((s: State<S, Op>, step: Step<Op>) => Enabled(s, step),
            (s: State<S, Op>, step: Step<Op>) => if Enabled(s, step) then Apply(spec, s, step) else s)
  }

  /**
    Whatever the interleaving: the mutex excludes, no wakeup is lost, and the shared data is what the
    operations give when run one after the other in the order in which they held the lock.
    */
  lemma EveryRun<S, Op>(spec: Spec<S, Op>, threads: set<nat>, steps: seq<Step<Op>>)
    requires Legal(Protocol(spec), Start(spec, threads), steps)
    ensures Inv(spec, Run(Protocol(spec), Start(spec, threads), steps))
  {
    forall s: State<S, Op>, step | Inv(spec, s) && Enabled(s, step)
      ensures Inv(spec, Apply(spec, s, step))
    {
      StepInv(spec, s, step);
    }
    RunKeeps(Protocol(spec), (s: State<S, Op>) => Inv(spec, s), Start(spec, threads), steps);
  }

  /** While some operation is under way and not asleep, one can take a step. */
  lemma Progress<S, Op>(spec: Spec<S, Op>, s: State<S, Op>, t: nat) returns (step: Step<Op>)
    requires Inv(spec, s) && t in s.pc && !s.pc[t].Outside? && !s.pc[t].Asleep?
    ensures Enabled(s, step) && (step.Lock? || step.Test?)
  {
    if s.lock.Some? {
      step := Test(s.lock.value);
    } else {
      step := Lock(t);
    }
  }

  // ---- what becomes of each call ----

  /** The operations that t calls in a run. */
  function Called<Op>(steps: seq<Step<Op>>, t: nat): seq<Op> {
    if steps == [] then [] else (if steps[0].Call? && steps[0].t == t then [steps[0].op] else []) + Called(steps[1..], t)
  }

  /** Those of the logged operations that are t's. */
  function LoggedBy<Op>(log: seq<(nat, Op)>, t: nat): seq<Op> {
    if log == [] then [] else
      var (u, op) := log[|log| - 1];
      LoggedBy(log[..|log| - 1], t) + if u == t then [op] else []
  }

  /** The operation under way. */
  function UnderWay<Op>(pc: Pc<Op>): seq<Op> {
    if pc.Outside? then [] else [pc.op]
  }

  /** The operations of t that have taken effect, and the one under way. */
  function Begun<S, Op>(s: State<S, Op>, t: nat): seq<Op>
    requires t in s.pc
  {
    LoggedBy(s.log, t) + UnderWay(s.pc[t])
  }

  lemma LogOne<Op>(log: seq<(nat, Op)>, u: nat, op: Op, t: nat)
    ensures LoggedBy(log + [(u, op)], t) == LoggedBy(log, t) + if u == t then [op] else []
  {
    assert (log + [(u, op)])[..|log|] == log;
  }

  lemma StepLogs<S, Op>(spec: Spec<S, Op>, s: State<S, Op>, step: Step<Op>, t: nat)
    requires Enabled(s, step) && t in s.pc
    ensures var s1 := Apply(spec, s, step);
            t in s1.pc && Begun(s1, t) == Begun(s, t) + Called([step], t)
  {
    hide LoggedBy;
    if step.Test? { LogOne(s.log, step.t, s.pc[step.t].op, t); }
    assert [step][1..] == [];
  }

  lemma {:induction false} RunLogs<S, Op>(spec: Spec<S, Op>, s: State<S, Op>, steps: seq<Step<Op>>, t: nat)
    requires Legal(Protocol(spec), s, steps) && t in s.pc
    ensures var s1 := Run(Protocol(spec), s, steps);
            t in s1.pc && Begun(s1, t) == Begun(s, t) + Called(steps, t)
    decreases |steps|
  {
    if steps != [] {
      hide Begun;
      StepLogs(spec, s, steps[0], t);
      RunLogs(spec, Apply(spec, s, steps[0]), steps[1..], t);
      assert Called(steps, t) == Called([steps[0]], t) + Called(steps[1..], t) by { assert [steps[0]][1..] == []; }
    }
  }

  /**
    Whatever the interleaving: each thread's operations take effect in the order in which it called them,
    each exactly once, and an operation returns only when it has taken effect.
    */
  lemma EveryCall<S, Op>(spec: Spec<S, Op>, threads: set<nat>, steps: seq<Step<Op>>, t: nat)
    requires Legal(Protocol(spec), Start(spec, threads), steps) && t in threads
    ensures var s := Run(Protocol(spec), Start(spec, threads), steps);
            t in s.pc && LoggedBy(s.log, t) + UnderWay(s.pc[t]) == Called(steps, t)
  {
    RunLogs(spec, Start(spec, threads), steps, t);
  }

  /**
    A thread that finds the mutex free has its operation take effect if the guard is true, waking all
    sleepers, and goes to sleep otherwise.
    */
  lemma OneTurn<S, Op>(spec: Spec<S, Op>, s: State<S, Op>, t: nat)
    requires t in s.pc && s.pc[t].Entering? && s.lock.None?
    ensures Legal(Protocol(spec), s, [Lock(t), Test(t)])
    ensures var op, s1 := s.pc[t].op, Run(Protocol(spec), s, [Lock(t), Test(t)]);
            && s1.lock.None? && s1.pc.Keys == s.pc.Keys
            && (if spec.guard(s.shared, op) then
                  && s1.shared == spec.effect(s.shared, op) && s1.log == s.log + [(t, op)] && s1.pc[t].Outside?
                  && forall u | u in s.pc && u != t :: s1.pc[u] == if s.pc[u].Asleep? then Entering(s.pc[u].op) else s.pc[u]
                else s1 == s.(pc := s.pc[t := Asleep(op)]))
  {
    var m := Protocol(spec);
    var steps: seq<Step<Op>> := [Lock(t), Test(t)];
    var s1 := Apply(spec, s, Lock(t));
    var s2 := Apply(spec, s1, Test(t));
    assert steps[1..] == [Test(t)] && steps[1..][1..] == [];
    assert m.apply(s, Lock(t)) == s1 && m.apply(s1, Test(t)) == s2;
    assert Legal(m, s2, []) && Run(m, s2, []) == s2;
    assert Legal(m, s1, [Test(t)]) && Run(m, s1, [Test(t)]) == s2;
  }
}
