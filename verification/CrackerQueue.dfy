/**
  The cracker's workers on the queue's monitor, step by step: each lock, test, sleep and wakeup of a queue
  operation is a step of its own. Every run of them is a run of the protocol in which an operation is one step.
  */
module CrackerQueue {
  import M = Monitor
  import Q = BoundedQueue
  import C = Cracker
  import opened Runs

  type Op = Q.Op<C.Item>
  type Monitored = M.State<seq<C.Item>, Op>

  /** Where a worker is in its loop. */
  datatype Phase = InLoop | Busy(id: nat) | Ending | Done

  datatype State = State(queue: Monitored, phase: seq<Phase>, pulled: seq<nat>)

  /** The queue has no limit, and starts with the tasks and one NULL. */
  function TaskQueue(ids: seq<nat>): M.Spec<seq<C.Item>, Op> {
    Q.QueueSpec<C.Item>(0).(init := C.Tasks(ids) + [C.Null])
  }

  /** A worker calls queue_pull for its next task, and queue_push once it has got the NULL. */
  predicate MayCall(p: Phase, op: Op) {
    match p
    case InLoop => op == Q.Pull
    case Busy(_) => op == Q.Pull
    case Ending => op == Q.Push(C.Null)
    case Done => false
  }

  predicate Enabled(s: State, step: M.Step<Op>) {
    && step.t < |s.phase| && M.Enabled(s.queue, step)
    && (step.Call? ==> MayCall(s.phase[step.t], step.op))
  }

  /** What becomes of the worker whose operation takes effect on queue contents c. */
  function Served(p: Phase, op: Op, c: seq<C.Item>): Phase {
    if op.Push? then Done
    else if c == [] then p
    else match c[0] case Task(id) => Busy(id) case Null => Ending
  }

  /** A step of the monitor; the worker moves on when it calls, and when its operation takes effect. */
  function Apply(s: State, ids: seq<nat>, step: M.Step<Op>): State
    requires Enabled(s, step)
  {
    var t := step.t;
    var queue := M.Apply(TaskQueue(ids), s.queue, step);
    if step.Call? then
      State(queue, s.phase[t := if step.op.Pull? then InLoop else Ending], s.pulled)
    else if step.Test? && Q.Guard(0, s.queue.shared, s.queue.pc[t].op) then
      var c, op := s.queue.shared, s.queue.pc[t].op;
      State(queue, s.phase[t := Served(s.phase[t], op, c)],
            if op.Pull? && c != [] && c[0].Task? then s.pulled + [c[0].id] else s.pulled)
    else s.(queue := queue)
  }

  ghost function Workers(ids: seq<nat>): Machine<State, M.Step<Op>> {
    Machine((s: State, step: M.Step<Op>) => Enabled(s, step),
            (s: State, step: M.Step<Op>) => if Enabled(s, step) then Apply(s, ids, step) else s)
  }

  function Indices(n: nat): (s: set<nat>)
    ensures forall t: nat :: t in s <==> t < n
  {
    if n == 0 then {} else Indices(n - 1) + {n - 1}
  }

  function Start(ids: seq<nat>, workers: nat): State {
    State(M.Start(TaskQueue(ids), Indices(workers)), seq(workers, _ => InLoop), [])
  }

  /** A worker's phase and what it is doing at the queue fit together. */
  predicate Fits(p: Phase, pc: M.Pc<Op>) {
    match p
    case InLoop => pc.Outside? || pc.op == Q.Pull
    case Busy(_) => pc.Outside?
    case Ending => pc.Outside? || (pc.op == Q.Push(C.Null) && !pc.Asleep?)
    case Done => pc.Outside?
  }

  ghost predicate Inv(s: State) {
    && (forall w: nat | w < |s.phase| :: w in s.queue.pc && Fits(s.phase[w], s.queue.pc[w]))
    && (forall w | w in s.queue.pc :: w < |s.phase|)
  }

  /** The worker as the coarser protocol sees it. */
  function Seen(p: Phase, pc: M.Pc<Op>): C.Worker {
    match p
    case InLoop => if pc.Asleep? then C.Asleep else C.Pulling
    case Busy(id) => C.Working(id)
    case Ending => C.GotNull
    case Done => C.Exited
  }

  ghost function Abstract(s: State): C.State
    requires Inv(s)
  {
    C.State(s.queue.shared, seq(|s.phase|, w requires 0 <= w < |s.phase| => Seen(s.phase[w], s.queue.pc[w])), s.pulled)
  }

  lemma StepInv(s: State, ids: seq<nat>, step: M.Step<Op>)
    requires Inv(s) && Enabled(s, step)
    ensures Inv(Apply(s, ids, step))
  {
  }

  /** Each step is a step of the coarser protocol, or none. */
  lemma Refines(s: State, ids: seq<nat>, step: M.Step<Op>) returns (steps: seq<C.Step>)
    requires Inv(s) && Enabled(s, step)
    ensures Inv(Apply(s, ids, step)) && |steps| <= 1
    ensures Legal(C.Protocol(), Abstract(s), steps)
    ensures Run(C.Protocol(), Abstract(s), steps) == Abstract(Apply(s, ids, step))
  {
    StepInv(s, ids, step);
    var s1 := Apply(s, ids, step);
    var t := step.t;
    var a, a1 := Abstract(s), Abstract(s1);
    match step {
      case Call(_, op) =>
        steps := if s.phase[t].Busy? then [C.Finish(t)] else [];
        assert a1.workers == if s.phase[t].Busy? then a.workers[t := C.Pulling] else a.workers;
      case Lock(_) =>
        steps := [];
        assert a1.workers == a.workers;
      case Wake(_) =>
        steps := [C.Wake(t)];
        assert a1.workers == a.workers[t := C.Pulling];
      case Test(_) =>
        steps := TestRefines(s, ids, t);
    }
  }

  lemma TestRefines(s: State, ids: seq<nat>, t: nat) returns (steps: seq<C.Step>)
    requires Inv(s) && Enabled(s, M.Test(t)) && Inv(Apply(s, ids, M.Test(t)))
    ensures |steps| == 1 && Legal(C.Protocol(), Abstract(s), steps)
    ensures Run(C.Protocol(), Abstract(s), steps) == Abstract(Apply(s, ids, M.Test(t)))
  {
    var s1 := Apply(s, ids, M.Test(t));
    var a, a1 := Abstract(s), Abstract(s1);
    if s.phase[t].Ending? {
      steps := [C.PutBack(t)];
      assert a1.workers == C.Awaken(a.workers)[t := C.Exited];
    } else if s.queue.shared == [] {
      steps := [C.Sleep(t)];
      assert a1.workers == a.workers[t := C.Asleep];
    } else {
      steps := [C.Take(t)];
      assert a1.workers == C.Awaken(a.workers)[t := Seen(s1.phase[t], M.Outside)];
    }
    assert Run(C.Protocol(), C.Apply(a, steps[0]), steps[1..]) == C.Apply(a, steps[0]);
  }

  lemma {:induction false} RunRefines(s: State, ids: seq<nat>, steps: seq<M.Step<Op>>) returns (coarse: seq<C.Step>)
    requires Inv(s) && Legal(Workers(ids), s, steps)
    ensures Inv(Run(Workers(ids), s, steps)) && Legal(C.Protocol(), Abstract(s), coarse)
    ensures Run(C.Protocol(), Abstract(s), coarse) == Abstract(Run(Workers(ids), s, steps))
    decreases |steps|
  {
    if steps == [] {
      coarse := [];
    } else {
      var first := Refines(s, ids, steps[0]);
      var rest := RunRefines(Apply(s, ids, steps[0]), ids, steps[1..]);
      coarse := first + rest;
      if first == [] {
        assert coarse == rest;
      } else {
        assert coarse[1..] == rest && first[1..] == [];
      }
    }
  }

  /**
    Every run of the workers on the queue's monitor is a run of the coarser protocol, with the same pulls,
    the same contents and the same workers in the same places.
    */
  lemma EveryRun(ids: seq<nat>, workers: nat, steps: seq<M.Step<Op>>) returns (coarse: seq<C.Step>)
    requires Legal(Workers(ids), Start(ids, workers), steps)
    ensures Legal(C.Protocol(), C.Start(ids, workers), coarse)
    ensures var s := Run(Workers(ids), Start(ids, workers), steps);
            Inv(s) && Run(C.Protocol(), C.Start(ids, workers), coarse) == Abstract(s)
  {
    assert Abstract(Start(ids, workers)).workers == C.Start(ids, workers).workers;
    coarse := RunRefines(Start(ids, workers), ids, steps);
  }

  /** The task that worker w begins to work on between s and s1. */
  function Begins(s: State, s1: State, w: nat): seq<nat> {
    if w < |s.phase| == |s1.phase| && s1.phase[w].Busy? && s1.phase[w] != s.phase[w] then [s1.phase[w].id] else []
  }

  /** The tasks that the workers of a run work on, in the order in which they begin. */
  ghost function Worked(s: State, ids: seq<nat>, steps: seq<M.Step<Op>>): seq<nat>
    requires Legal(Workers(ids), s, steps)
    decreases |steps|
  {
    if steps == [] then [] else
      var s1 := Apply(s, ids, steps[0]);
      Begins(s, s1, steps[0].t) + Worked(s1, ids, steps[1..])
  }

  /** A worker begins to work only on the task it has just pulled, and on each it pulls; no other worker does. */
  lemma StepWorks(s: State, ids: seq<nat>, step: M.Step<Op>)
    requires Inv(s) && Enabled(s, step)
    ensures var s1 := Apply(s, ids, step);
            && |s1.phase| == |s.phase|
            && s1.pulled == s.pulled + Begins(s, s1, step.t)
            && forall w | 0 <= w < |s.phase| && w != step.t :: Begins(s, s1, w) == []
  {
    assert Fits(s.phase[step.t], s.queue.pc[step.t]);
  }

  /** Over a run, the workers work on exactly the tasks that are pulled. */
  lemma {:induction false} WorkedPulled(s: State, ids: seq<nat>, steps: seq<M.Step<Op>>)
    requires Inv(s) && Legal(Workers(ids), s, steps)
    ensures Run(Workers(ids), s, steps).pulled == s.pulled + Worked(s, ids, steps)
    decreases |steps|
  {
    hide Inv, Begins, Enabled, Apply;
    if steps != [] {
      var s1 := Apply(s, ids, steps[0]);
      var first, rest := Begins(s, s1, steps[0].t), steps[1..];
      StepInv(s, ids, steps[0]);
      StepWorks(s, ids, steps[0]);
      assert Workers(ids).apply(s, steps[0]) == s1;
      WorkedPulled(s1, ids, rest);
      assert s.pulled + (first + Worked(s1, ids, rest)) == s1.pulled + Worked(s1, ids, rest);
    }
  }

  /** So when all workers are done, each task was worked on once, in order, and one NULL is left. */
  lemma FinalState(ids: seq<nat>, workers: nat, steps: seq<M.Step<Op>>)
    requires workers > 0 && Legal(Workers(ids), Start(ids, workers), steps)
    requires var s := Run(Workers(ids), Start(ids, workers), steps); forall w | 0 <= w < |s.phase| :: s.phase[w].Done?
    ensures var s := Run(Workers(ids), Start(ids, workers), steps); s.pulled == ids && s.queue.shared == [C.Null]
    ensures Worked(Start(ids, workers), ids, steps) == ids
  {
    var coarse := EveryRun(ids, workers, steps);
    C.FinalState(ids, workers, coarse);
    WorkedPulled(Start(ids, workers), ids, steps);
  }

  /** What the queue goes through is a run of its monitor. */
  lemma {:induction false} MonitorRuns(s: State, ids: seq<nat>, steps: seq<M.Step<Op>>)
    requires Legal(Workers(ids), s, steps)
    ensures Legal(M.Protocol(TaskQueue(ids)), s.queue, steps)
    ensures Run(M.Protocol(TaskQueue(ids)), s.queue, steps) == Run(Workers(ids), s, steps).queue
    decreases |steps|
  {
    if steps != [] {
      assert Apply(s, ids, steps[0]).queue == M.Apply(TaskQueue(ids), s.queue, steps[0]);
      MonitorRuns(Apply(s, ids, steps[0]), ids, steps[1..]);
    }
  }
}
