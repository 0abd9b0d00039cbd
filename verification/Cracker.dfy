/**
  The password cracker's workers: one NULL behind the tasks is passed from worker to worker and ends
  them one after the other. A queue operation is one step here; CrackerQueue shows that the runs on the
  queue's monitor, where it is several, come to the same.
  */
module Cracker {
  import opened Runs

  /** What the queue holds: a task, or the NULL pointer. */
  datatype Item = Task(id: nat) | Null

  datatype Worker =
    | Pulling            // in queue_pull, awake
    | Asleep             // in queue_pull, waiting on the condition variable
    | Working(id: nat)
    | GotNull            // out of the loop, about to put the NULL back
    | Exited

  datatype State = State(queue: seq<Item>, workers: seq<Worker>, pulled: seq<nat>)

  datatype Step =
    | Take(w: nat)       // queue_pull returns
    | Sleep(w: nat)      // queue_pull finds the queue empty
    | Finish(w: nat)
    | PutBack(w: nat)    // queue_push( task_queue, NULL ), then return
    | Wake(w: nat)       // a spurious wakeup

  predicate Enabled(s: State, step: Step) {
    && step.w < |s.workers|
    && var p := s.workers[step.w];
       match step
       case Take(_) => p.Pulling? && s.queue != []
       case Sleep(_) => p.Pulling? && s.queue == []
       case Finish(_) => p.Working?
       case PutBack(_) => p.GotNull?
       case Wake(_) => p.Asleep?
  }

  /** The broadcast at the end of every push and pull. */
  function Awaken(ws: seq<Worker>): (r: seq<Worker>)
    ensures |r| == |ws|
    ensures forall w | 0 <= w < |ws| :: r[w] == if ws[w].Asleep? then Pulling else ws[w]
  {
    seq(|ws|, w requires 0 <= w < |ws| => if ws[w].Asleep? then Pulling else ws[w])
  }

  function Apply(s: State, step: Step): State
    requires Enabled(s, step)
  {
    var w := step.w;
    match step
    case Take(_) =>
      (match s.queue[0]
       case Task(id) => State(s.queue[1..], Awaken(s.workers)[w := Working(id)], s.pulled + [id])
       case Null => State(s.queue[1..], Awaken(s.workers)[w := GotNull], s.pulled))
    case Sleep(_) => s.(workers := s.workers[w := Asleep])
    case Finish(_) => s.(workers := s.workers[w := Pulling])
    case PutBack(_) => State(s.queue + [Null], Awaken(s.workers)[w := Exited], s.pulled)
    case Wake(_) => s.(workers := s.workers[w := Pulling])
  }

  function Tasks(ids: seq<nat>): (q: seq<Item>)
    ensures |q| == |ids| && forall i | 0 <= i < |ids| :: q[i] == Task(ids[i])
  {
    seq(|ids|, i requires 0 <= i < |ids| => Task(ids[i]))
  }

  /** All tasks and one NULL are queued before the workers start. */
  function Start(ids: seq<nat>, workers: nat): State {
    State(Tasks(ids) + [Null], seq(workers, _ => Pulling), [])
  }

  /** Worker h is the one that holds the NULL. */
  predicate HeldBy(s: State, h: nat) {
    h < |s.workers| && s.workers[h].GotNull? && forall w | 0 <= w < |s.workers| && w != h :: !s.workers[w].GotNull?
  }

  /**
    There is exactly one NULL: the last item of the queue, behind the tasks not yet pulled, or held by
    one worker while the queue is empty. Nobody has seen it while tasks remain, and nobody sleeps
    unless it is held.
    */
  ghost predicate Inv(s: State, ids: seq<nat>) {
    && |s.pulled| <= |ids| && s.pulled == ids[..|s.pulled|]
    && (|| (s.queue == Tasks(ids[|s.pulled|..]) + [Null] && forall w | 0 <= w < |s.workers| :: !s.workers[w].GotNull? && !s.workers[w].Asleep?)
        || (s.queue == [] && s.pulled == ids && exists h :: HeldBy(s, h)))
    && (s.pulled != ids ==> forall w | 0 <= w < |s.workers| :: !s.workers[w].Exited?)
  }

  lemma TasksTail(ids: seq<nat>, n: nat)
    requires n < |ids|
    ensures (Tasks(ids[n..]) + [Null])[0] == Task(ids[n])
    ensures (Tasks(ids[n..]) + [Null])[1..] == Tasks(ids[n + 1..]) + [Null]
  {
    var q, r := (Tasks(ids[n..]) + [Null])[1..], Tasks(ids[n + 1..]) + [Null];
    assert |q| == |r|;
    forall i | 0 <= i < |q|
      ensures q[i] == r[i]
    {
      if i < |q| - 1 { assert ids[n..][i + 1] == ids[n + 1..][i]; }
    }
  }

  lemma StepInv(s: State, ids: seq<nat>, step: Step)
    requires Inv(s, ids) && Enabled(s, step)
    ensures Inv(Apply(s, step), ids)
  {
    var s1 := Apply(s, step);
    var n := |s.pulled|;
    match step
    case Take(w) =>
      if n < |ids| {
        TasksTail(ids, n);
        assert ids[..n + 1] == ids[..n] + [ids[n]];
      } else {
        assert s.queue == [Null];
        assert HeldBy(s1, w);
      }
    case Sleep(w) =>
      var h :| HeldBy(s, h);
      assert HeldBy(s1, h);
    case Finish(w) =>
      if s.queue == [] {
        var h :| HeldBy(s, h);
        assert HeldBy(s1, h);
      }
    case PutBack(w) =>
      assert Tasks(ids[n..]) == [];
      assert s1.queue == Tasks(ids[n..]) + [Null];
    case Wake(w) =>
      var h :| HeldBy(s, h);
      assert HeldBy(s1, h);
  }

  ghost function Protocol(): Machine<State, Step> {
    Machine((s: State, step: Step) => Enabled(s, step), (s: State, step: Step) => if Enabled(s, step) then Apply(s, step) else s)
  }

  lemma EveryRun(ids: seq<nat>, workers: nat, steps: seq<Step>)
    requires Legal(Protocol(), Start(ids, workers), steps)
    ensures var s := Run(Protocol(), Start(ids, workers), steps); Inv(s, ids) && |s.workers| == workers
  {
    assert ids[0..] == ids;
    forall s, step | Inv(s, ids) && |s.workers| == workers && Enabled(s, step)
      ensures Inv(Apply(s, step), ids) && |Apply(s, step).workers| == workers
    {
      StepInv(s, ids, step);
    }
    RunKeeps(Protocol(), (s: State) => Inv(s, ids) && |s.workers| == workers, Start(ids, workers), steps);
  }

  /** In a state that is not final, some worker can take a step that is not a spurious wakeup. */
  lemma NoDeadlock(s: State, ids: seq<nat>, w: nat) returns (step: Step)
    requires Inv(s, ids) && w < |s.workers| && !s.workers[w].Exited?
    ensures Enabled(s, step) && !step.Wake?
  {
    if s.queue == [] {
      var h :| HeldBy(s, h);
      step := PutBack(h);
    } else {
      step := if s.workers[w].Working? then Finish(w) else Take(w);
    }
  }

  /** The task that worker w begins to work on between s and s1. */
  function Begins(s: State, s1: State, w: nat): seq<nat> {
    if w < |s.workers| == |s1.workers| && s1.workers[w].Working? && s1.workers[w] != s.workers[w] then [s1.workers[w].id] else []
  }

  /** The tasks that the workers of a run work on, in the order in which they begin. */
  ghost function Worked(s: State, steps: seq<Step>): seq<nat>
    requires Legal(Protocol(), s, steps)
    decreases |steps|
  {
    if steps == [] then [] else
      var s1 := Apply(s, steps[0]);
      Begins(s, s1, steps[0].w) + Worked(s1, steps[1..])
  }

  /** A worker begins to work only on the task it has just pulled, and on each it pulls; no other worker does. */
  lemma StepWorks(s: State, step: Step)
    requires Enabled(s, step)
    ensures var s1 := Apply(s, step);
            && |s1.workers| == |s.workers|
            && s1.pulled == s.pulled + Begins(s, s1, step.w)
            && forall w | 0 <= w < |s.workers| && w != step.w :: Begins(s, s1, w) == []
  {
  }

  /** Over a run, the workers work on exactly the tasks that are pulled. */
  lemma {:induction false} WorkedPulled(s: State, steps: seq<Step>)
    requires Legal(Protocol(), s, steps)
    ensures Run(Protocol(), s, steps).pulled == s.pulled + Worked(s, steps)
    decreases |steps|
  {
    if steps != [] {
      StepWorks(s, steps[0]);
      WorkedPulled(Apply(s, steps[0]), steps[1..]);
    }
  }

  /** When all workers have exited, every task was worked on, once and in order, and one NULL is left. */
  lemma FinalState(ids: seq<nat>, workers: nat, steps: seq<Step>)
    requires workers > 0 && Legal(Protocol(), Start(ids, workers), steps)
    requires var s := Run(Protocol(), Start(ids, workers), steps); forall w | 0 <= w < |s.workers| :: s.workers[w].Exited?
    ensures var s := Run(Protocol(), Start(ids, workers), steps); s.pulled == ids && s.queue == [Null]
    ensures Worked(Start(ids, workers), steps) == ids
  {
    EveryRun(ids, workers, steps);
    var s := Run(Protocol(), Start(ids, workers), steps);
    assert s.workers[0].Exited?;
    assert Tasks(ids[|ids|..]) == [];
    WorkedPulled(Start(ids, workers), steps);
  }

  // ---- every run ends ----

  function CountIf(ws: seq<Worker>, p: Worker -> bool): (n: nat)
    ensures n <= |ws|
  {
    if ws == [] then 0 else (if p(ws[0]) then 1 else 0) + CountIf(ws[1..], p)
  }

  lemma {:induction false} CountUpdate(ws: seq<Worker>, p: Worker -> bool, w: nat, x: Worker)
    requires w < |ws|
    ensures CountIf(ws[w := x], p) + (if p(ws[w]) then 1 else 0) == CountIf(ws, p) + (if p(x) then 1 else 0)
    decreases |ws|
  {
    if w == 0 {
      assert ws[0 := x][1..] == ws[1..];
    } else {
      assert ws[w := x][1..] == ws[1..][w - 1 := x];
      CountUpdate(ws[1..], p, w - 1, x);
    }
  }

  lemma {:induction false} CountAwaken(ws: seq<Worker>, p: Worker -> bool)
    requires p(Asleep) == p(Pulling)
    ensures CountIf(Awaken(ws), p) == CountIf(ws, p)
    decreases |ws|
  {
    if ws == [] {
    } else {
      assert Awaken(ws)[1..] == Awaken(ws[1..]);
      CountAwaken(ws[1..], p);
    }
  }

  /** Tasks still to be pulled or finished, a pull counting for two. */
  function Pending(s: State, ids: seq<nat>): (n: nat)
    requires |s.pulled| <= |ids|
  {
    2 * (|ids| - |s.pulled|) + CountIf(s.workers, (p: Worker) => p.Working?)
  }

  /** Hops left for the NULL: each worker takes it and puts it back. */
  function Hops(s: State): (n: nat)
    ensures n <= 3 * |s.workers|
  {
    2 * CountIf(s.workers, (p: Worker) => !p.Exited? && !p.GotNull?) + CountIf(s.workers, (p: Worker) => p.GotNull?)
  }

  function AwakePullers(s: State): (n: nat)
    ensures n <= |s.workers|
  {
    CountIf(s.workers, (p: Worker) => p.Pulling?)
  }

  /** Every step but a spurious wakeup brings the end nearer, in lexicographic order. */
  lemma StepDecreases(s: State, ids: seq<nat>, step: Step)
    requires Inv(s, ids) && Enabled(s, step) && !step.Wake?
    ensures var s1 := Apply(s, step);
            && |s1.pulled| <= |ids|
            && (|| Pending(s1, ids) < Pending(s, ids)
                || (Pending(s1, ids) == Pending(s, ids) && Hops(s1) < Hops(s))
                || (Pending(s1, ids) == Pending(s, ids) && Hops(s1) == Hops(s) && AwakePullers(s1) < AwakePullers(s)))
  {
    StepInv(s, ids, step);
    var working, free, holding, awake :=
      (p: Worker) => p.Working?, (p: Worker) => !p.Exited? && !p.GotNull?, (p: Worker) => p.GotNull?, (p: Worker) => p.Pulling?;
    var ws := if step.Take? || step.PutBack? then Awaken(s.workers) else s.workers;
    CountAwaken(s.workers, working);
    CountAwaken(s.workers, free);
    CountAwaken(s.workers, holding);
    var x := Apply(s, step).workers[step.w];
    CountUpdate(ws, working, step.w, x);
    CountUpdate(ws, free, step.w, x);
    CountUpdate(ws, holding, step.w, x);
    CountUpdate(ws, awake, step.w, x);
  }

  function Weigh(k: nat, high: nat, low: nat): nat {
    high * k + low
  }

  lemma WeighLess(k: nat, high: nat, low: nat, high': nat, low': nat)
    requires low' < k && (high' < high || (high' == high && low' < low))
    ensures Weigh(k, high', low') < Weigh(k, high, low)
  {
    if high' < high {
      TimesMonotone(high' + 1, high, k);
      assert (high' + 1) * k == high' * k + k;
    }
  }

  lemma {:induction false} TimesMonotone(a: nat, b: nat, k: nat)
    requires a <= b
    ensures a * k <= b * k
    decreases b
  {
    if a == b {
    } else {
      TimesMonotone(a, b - 1, k);
      assert b * k == (b - 1) * k + k;
    }
  }

  /** An upper bound on the steps left. */
  function Budget(s: State, ids: seq<nat>): nat
    requires |s.pulled| <= |ids|
  {
    var n := |s.workers|;
    Weigh(n + 1, Weigh(3 * n + 1, Pending(s, ids), Hops(s)), AwakePullers(s))
  }

  lemma BudgetDecreases(s: State, ids: seq<nat>, step: Step)
    requires Inv(s, ids) && Enabled(s, step) && !step.Wake?
    ensures var s1 := Apply(s, step); |s1.pulled| <= |ids| && Budget(s1, ids) < Budget(s, ids)
  {
    var s1, n := Apply(s, step), |s.workers|;
    StepDecreases(s, ids, step);
    var (a, b, c) := (Pending(s, ids), Hops(s), AwakePullers(s));
    var (a', b', c') := (Pending(s1, ids), Hops(s1), AwakePullers(s1));
    if a' < a || b' < b {
      WeighLess(3 * n + 1, a, b, a', b');
    }
    WeighLess(n + 1, Weigh(3 * n + 1, a, b), c, Weigh(3 * n + 1, a', b'), c');
  }

  lemma AwakePullersWake(s: State, w: nat)
    requires w < |s.workers| && s.workers[w].Asleep?
    ensures AwakePullers(Apply(s, Wake(w))) == AwakePullers(s) + 1 && Hops(Apply(s, Wake(w))) == Hops(s)
    ensures forall ids: seq<nat> | |s.pulled| <= |ids| :: Pending(Apply(s, Wake(w)), ids) == Pending(s, ids)
  {
    CountUpdate(s.workers, (p: Worker) => p.Pulling?, w, Pulling);
    CountUpdate(s.workers, (p: Worker) => !p.Exited? && !p.GotNull?, w, Pulling);
    CountUpdate(s.workers, (p: Worker) => p.GotNull?, w, Pulling);
    CountUpdate(s.workers, (p: Worker) => p.Working?, w, Pulling);
  }

  /** A spurious wakeup costs one step more. */
  lemma WakeBudget(s: State, ids: seq<nat>, w: nat)
    requires Inv(s, ids) && w < |s.workers| && s.workers[w].Asleep?
    ensures Budget(Apply(s, Wake(w)), ids) == Budget(s, ids) + 1
  {
    AwakePullersWake(s, w);
  }

  function Wakes(steps: seq<Step>): nat {
    if steps == [] then 0 else (if steps[0].Wake? then 1 else 0) + Wakes(steps[1..])
  }

  /** Every run ends within its budget and two steps more for each spurious wakeup. */
  lemma {:induction false} RunsEnd(s: State, ids: seq<nat>, steps: seq<Step>)
    requires Inv(s, ids) && Legal(Protocol(), s, steps)
    ensures |steps| <= Budget(s, ids) + 2 * Wakes(steps)
    decreases |steps|
  {
    if steps != [] {
      var s1 := Apply(s, steps[0]);
      StepInv(s, ids, steps[0]);
      if steps[0].Wake? {
        WakeBudget(s, ids, steps[0].w);
      } else {
        BudgetDecreases(s, ids, steps[0]);
      }
      RunsEnd(s1, ids, steps[1..]);
    }
  }
}
