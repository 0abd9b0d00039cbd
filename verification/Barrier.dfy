/** The reusable barrier, with its generation counter that may wrap around. */
module Barrier {
  import opened Bytes
  import opened Options
  import opened Runs

  /** Where a thread is in barrier_wait; `stage` is the copy of timesUsed that a waiter took. */
  datatype Pc =
    | Outside
    | Entering               // about to lock the mutex
    | Arriving               // holds it, about to count itself in
    | Asleep(stage: nat)     // waits on the condition variable
    | Woken(stage: nat)      // about to lock the mutex again
    | Rechecking(stage: nat) // holds it, about to compare its stage

  /** `rounds` and `left` are bookkeeping: rounds completed, and rounds that each thread has left. */
  datatype State = State(
    n: nat, count: nat, timesUsed: nat, lock: Option<nat>, pc: map<nat, Pc>, rounds: nat, left: map<nat, nat>)

  datatype Step = Call(t: nat) | Lock(t: nat) | Arrive(t: nat) | Wake(t: nat) | Relock(t: nat) | Test(t: nat)

  predicate Enabled(s: State, step: Step) {
    && step.t in s.pc && step.t in s.left
    && var pc := s.pc[step.t];
       match step
       case Call(_) => pc.Outside?
       case Lock(_) => pc.Entering? && s.lock.None?
       case Arrive(_) => pc.Arriving?
       case Wake(_) => pc.Asleep?
       case Relock(_) => pc.Woken? && s.lock.None?
       case Test(_) => pc.Rechecking?
  }

  function Awaken(pc: map<nat, Pc>): map<nat, Pc> {
    map t | t in pc :: if pc[t].Asleep? then Woken(pc[t].stage) else pc[t]
  }

  function Apply(s: State, step: Step): State
    requires Enabled(s, step)
  {
    var t := step.t;
    match step
    case Call(_) => s.(pc := s.pc[t := Entering])
    case Lock(_) => s.(lock := Some(t), pc := s.pc[t := Arriving])
    case Arrive(_) =>
      if s.count + 1 < s.n then
        s.(count := s.count + 1, lock := None, pc := s.pc[t := Asleep(s.timesUsed)])
      else
        s.(count := 0, timesUsed := (s.timesUsed + 1) % WORD, lock := None, pc := Awaken(s.pc)[t := Outside],
           rounds := s.rounds + 1, left := s.left[t := s.left[t] + 1])
    case Wake(_) => s.(pc := s.pc[t := Woken(s.pc[t].stage)])
    case Relock(_) => s.(lock := Some(t), pc := s.pc[t := Rechecking(s.pc[t].stage)])
    case Test(_) =>
      if s.pc[t].stage == s.timesUsed then
        s.(lock := None, pc := s.pc[t := Asleep(s.pc[t].stage)])
      else
        s.(lock := None, pc := s.pc[t := Outside], left := s.left[t := s.left[t] + 1])
  }

  function Start(threads: set<nat>): State {
    State(|threads|, 0, 0, None, map t | t in threads :: Outside, 0, map t | t in threads :: 0)
  }

  predicate Waiting(pc: Pc) {
    pc.Asleep? || pc.Woken? || pc.Rechecking?
  }

  /** The rounds that t has entered. */
  function Entered(s: State, t: nat): nat
    requires t in s.pc && t in s.left
  {
    s.left[t] + if Waiting(s.pc[t]) then 1 else 0
  }

  /** The waiters whose round is not complete yet. */
  function Unreleased(s: State): set<nat>
    requires s.left.Keys == s.pc.Keys
  {
    set t | t in s.pc && Waiting(s.pc[t]) && s.left[t] == s.rounds
  }

  /** A thread outside has left all rounds; a waiter is in the current round, or released from the last. */
  ghost predicate Position(s: State, t: nat)
    requires t in s.pc && t in s.left
  {
    if Waiting(s.pc[t]) then
      && (s.left[t] == s.rounds || (s.left[t] + 1 == s.rounds && !s.pc[t].Asleep?))
      && s.pc[t].stage == s.left[t] % WORD
    else s.left[t] == s.rounds
  }

  /** The thread that holds the mutex is the one inside a critical section. */
  ghost predicate Exclusive(s: State) {
    && (forall t | t in s.pc :: s.lock == Some(t) <==> s.pc[t].Arriving? || s.pc[t].Rechecking?)
    && (s.lock.Some? ==> s.lock.value in s.pc)
  }

  ghost predicate Positions(s: State)
    requires s.left.Keys == s.pc.Keys
  {
    forall t | t in s.pc :: Position(s, t)
  }

  ghost predicate Inv(s: State) {
    && s.left.Keys == s.pc.Keys && |s.pc.Keys| == s.n
    && s.timesUsed == s.rounds % WORD
    && Exclusive(s) && Positions(s)
    && s.count == |Unreleased(s)| && (s.n > 0 ==> s.count < s.n)
  }

  lemma StartInv(threads: set<nat>)
    ensures Inv(Start(threads))
  {
    assert Start(threads).pc.Keys == threads;
    assert Unreleased(Start(threads)) == {};
  }

  /** Neighbouring rounds never look the same, even across the wrap-around. */
  lemma StagesDiffer(r: nat)
    requires r > 0
    ensures (r - 1) % WORD != r % WORD
  {
  }

  lemma WrapSuccessor(r: nat)
    ensures (r % WORD + 1) % WORD == (r + 1) % WORD
  {
  }

  /** The last thread to arrive finds every other one waiting in the current round. */
  lemma AllOthersWait(s: State, t: nat)
    requires Inv(s) && t in s.pc && s.pc[t].Arriving? && s.count + 1 >= s.n
    ensures Unreleased(s) == s.pc.Keys - {t}
  {
    var others := s.pc.Keys - {t};
    assert |others| == s.n - 1;
    assert Unreleased(s) <= others;
    SubsetOfSameSize(Unreleased(s), others);
  }

  lemma {:induction false} SubsetOfSameSize(a: set<nat>, b: set<nat>)
    requires a <= b && |a| >= |b|
    ensures a == b
    decreases |a|
  {
    if x :| x in a {
      SubsetOfSameSize(a - {x}, b - {x});
      assert b == (b - {x}) + {x} && a == (a - {x}) + {x};
    } else {
      assert a == {} && |b| == 0;
    }
  }

  lemma StepInv(s: State, step: Step)
    requires Inv(s) && Enabled(s, step)
    ensures Inv(Apply(s, step))
  {
    if step.Arrive? {
      ArriveInv(s, step.t);
    } else if step.Test? {
      TestInv(s, step.t);
    } else {
      QuietInv(s, step);
    }
  }

  lemma QuietInv(s: State, step: Step)
    requires Inv(s) && Enabled(s, step) && !step.Arrive? && !step.Test?
    ensures Inv(Apply(s, step))
  {
    var s1 := Apply(s, step);
    assert s1.pc.Keys == s.pc.Keys;
    assert Position(s, step.t);
    assert Unreleased(s1) == Unreleased(s);
    assert forall u | u in s.pc && u != step.t :: s1.pc[u] == s.pc[u] && Position(s, u);
  }

  lemma ArriveInv(s: State, t: nat)
    requires Inv(s) && Enabled(s, Arrive(t))
    ensures Inv(Apply(s, Arrive(t)))
  {
    var s1 := Apply(s, Arrive(t));
    assert s1.pc.Keys == s.pc.Keys && s1.left.Keys == s.left.Keys;
    assert Position(s, t);
    if s.count + 1 < s.n {
      assert Unreleased(s1) == Unreleased(s) + {t};
    } else {
      LastArrives(s, t, s1);
    }
  }

  lemma LastArrivesAt(s: State, t: nat, s1: State, u: nat)
    requires Inv(s) && Enabled(s, Arrive(t)) && s.count + 1 >= s.n && u in s.pc
    requires s1 == Apply(s, Arrive(t))
    ensures u in s1.pc && u in s1.left && Position(s1, u)
    ensures !(Waiting(s1.pc[u]) && s1.left[u] == s1.rounds)
    ensures !s1.pc[u].Arriving? && !s1.pc[u].Rechecking?
  {
    AllOthersWait(s, t);
    assert Position(s, u) && Position(s, t);
    if u != t { assert u in Unreleased(s); }
  }

  /** The last arrival releases every waiter and leaves with the round complete. */
  lemma LastArrives(s: State, t: nat, s1: State)
    requires Inv(s) && Enabled(s, Arrive(t)) && s.count + 1 >= s.n
    requires s1 == Apply(s, Arrive(t))
    ensures Inv(s1) && Unreleased(s1) == {}
  {
    assert s1.timesUsed == s1.rounds % WORD by { WrapSuccessor(s.rounds); }
    assert s1.pc.Keys == s.pc.Keys && s1.left.Keys == s.left.Keys;
    assert s.n > 0 by { assert t in s.pc.Keys; }
    forall u | u in s1.pc
      ensures Position(s1, u) && u !in Unreleased(s1) && !s1.pc[u].Arriving? && !s1.pc[u].Rechecking?
    {
      LastArrivesAt(s, t, s1, u);
    }
    assert Unreleased(s1) == {};
  }

  lemma TestInv(s: State, t: nat)
    requires Inv(s) && Enabled(s, Test(t))
    ensures Inv(Apply(s, Test(t)))
  {
    var s1 := Apply(s, Test(t));
    assert s1.pc.Keys == s.pc.Keys && s1.left.Keys == s.left.Keys;
    assert Position(s, t);
    if s.rounds > 0 { StagesDiffer(s.rounds); }
    assert Unreleased(s1) == Unreleased(s);
  }

  ghost function Protocol(): Machine<State, Step> {
    Machine((s: State, step: Step) => Enabled(s, step), (s: State, step: Step) => if Enabled(s, step) then Apply(s, step) else s)
  }

  lemma RunInv(threads: set<nat>, steps: seq<Step>)
    requires Legal(Protocol(), Start(threads), steps)
    ensures var s := Run(Protocol(), Start(threads), steps); Inv(s) && s.pc.Keys == threads
  {
    StartInv(threads);
    assert Start(threads).pc.Keys == threads;
    forall s, step | Inv(s) && s.pc.Keys == threads && Enabled(s, step)
      ensures Inv(Apply(s, step)) && Apply(s, step).pc.Keys == threads
    {
      StepInv(s, step);
      assert Apply(s, step).pc.Keys == s.pc.Keys;
    }
    RunKeeps(Protocol(), (s: State) => Inv(s) && s.pc.Keys == threads, Start(threads), steps);
  }

  // ---- who returns, and when ----

  /** How often t has called barrier_wait in a run. */
  function Calls(steps: seq<Step>, t: nat): nat {
    if steps == [] then 0 else (if steps[0] == Call(t) then 1 else 0) + Calls(steps[1..], t)
  }

  /** How often it has counted itself in. */
  function Arrivals(steps: seq<Step>, t: nat): nat {
    if steps == [] then 0 else (if steps[0] == Arrive(t) then 1 else 0) + Arrivals(steps[1..], t)
  }

  /** It comes out of barrier_wait. */
  predicate ComesOut(s: State, s1: State, t: nat) {
    t in s.pc && t in s1.pc && !s.pc[t].Outside? && s1.pc[t].Outside?
  }

  /** How often it has returned. */
  ghost function Returns(s: State, steps: seq<Step>, t: nat): nat
    requires Legal(Protocol(), s, steps)
    decreases |steps|
  {
    if steps == [] then 0 else
      var s1 := Protocol().apply(s, steps[0]);
      (if ComesOut(s, s1, t) then 1 else 0) + Returns(s1, steps[1..], t)
  }

  /** `left` counts exactly the returns, and a thread is counted in, once a round, by its own arrival alone. */
  lemma StepCounts(s: State, step: Step, u: nat)
    requires Inv(s) && Enabled(s, step) && u in s.pc
    ensures var s1 := Apply(s, step);
            && s1.pc.Keys == s1.left.Keys == s.pc.Keys
            && s1.left[u] == s.left[u] + (if ComesOut(s, s1, u) then 1 else 0)
            && Entered(s1, u) == Entered(s, u) + (if step == Arrive(u) then 1 else 0)
            && (s.pc[u].Outside? && !s1.pc[u].Outside? <==> step == Call(u))
  {
    assert Apply(s, step).pc.Keys == s.pc.Keys;
    assert Position(s, u);
  }

  lemma {:induction false} RunCounts(s: State, steps: seq<Step>, u: nat)
    requires Inv(s) && Legal(Protocol(), s, steps) && u in s.pc
    ensures var s1 := Run(Protocol(), s, steps);
            && s1.pc.Keys == s1.left.Keys == s.pc.Keys
            && s1.left[u] == s.left[u] + Returns(s, steps, u)
            && Entered(s1, u) == Entered(s, u) + Arrivals(steps, u)
            && (if s1.pc[u].Outside? then 0 else 1) + Returns(s, steps, u)
               == (if s.pc[u].Outside? then 0 else 1) + Calls(steps, u)
    decreases |steps|
  {
    if steps != [] {
      hide Inv;
      StepCounts(s, steps[0], u);
      StepInv(s, steps[0]);
      RunCounts(Apply(s, steps[0]), steps[1..], u);
    }
  }

  /**
    In every interleaving, over any number of rounds: nobody has returned more often than anybody has
    arrived, let alone called; a thread outside has returned from every call, one inside from all but one.
    */
  lemma NobodyReturnsEarly(threads: set<nat>, steps: seq<Step>, t: nat, u: nat)
    requires Legal(Protocol(), Start(threads), steps) && t in threads && u in threads
    ensures Returns(Start(threads), steps, t) <= Arrivals(steps, u) <= Calls(steps, u)
    ensures var s := Run(Protocol(), Start(threads), steps);
            u in s.pc && Calls(steps, u) == Returns(Start(threads), steps, u) + if s.pc[u].Outside? then 0 else 1
  {
    var start, s := Start(threads), Run(Protocol(), Start(threads), steps);
    StartInv(threads);
    RunInv(threads, steps);
    RunCounts(start, steps, t);
    RunCounts(start, steps, u);
    assert Position(s, t) && Position(s, u);
  }

  /**
    In every interleaving, over any number of rounds: no thread has left a round that some thread has
    not entered, the waiters not yet released are counted by `count`, a waiter is at most one round
    behind, and one sleeps only while its round is incomplete.
    */
  lemma EveryRun(threads: set<nat>, steps: seq<Step>)
    requires Legal(Protocol(), Start(threads), steps)
    ensures var s := Run(Protocol(), Start(threads), steps);
            && s.pc.Keys == s.left.Keys == threads
            && (forall t | t in threads :: s.left[t] == Returns(Start(threads), steps, t) && Entered(s, t) == Arrivals(steps, t))
            && (forall t, u | t in threads && u in threads :: s.left[t] <= Entered(s, u))
            && s.count == |Unreleased(s)|
            && (forall t | t in threads && Waiting(s.pc[t]) :: s.rounds - 1 <= s.left[t] <= s.rounds)
            && (forall t | t in threads && s.pc[t].Asleep? :: s.left[t] == s.rounds)
  {
    StartInv(threads);
    RunInv(threads, steps);
    var s := Run(Protocol(), Start(threads), steps);
    assert Start(threads).pc.Keys == threads;
    forall t | t in threads
      ensures s.left[t] == Returns(Start(threads), steps, t) && Entered(s, t) == Arrivals(steps, t)
      ensures Position(s, t)
    {
      RunCounts(Start(threads), steps, t);
    }
    forall t, u | t in threads && u in threads
      ensures s.left[t] <= Entered(s, u)
    {
      assert Position(s, t) && Position(s, u);
    }
    forall t | t in threads && Waiting(s.pc[t])
      ensures s.rounds - 1 <= s.left[t] <= s.rounds && (s.pc[t].Asleep? ==> s.left[t] == s.rounds)
    {
      assert Position(s, t);
    }
  }

  /** A waiter leaves exactly when its round is complete, although it compares wrapped counters. */
  lemma LeavesIffComplete(s: State, t: nat)
    requires Inv(s) && Enabled(s, Test(t))
    ensures Apply(s, Test(t)).pc[t].Outside? <==> s.left[t] < s.rounds
  {
    assert Position(s, t);
    if s.rounds > 0 { StagesDiffer(s.rounds); }
  }

  lemma FindAwake(s: State) returns (t: nat)
    requires Inv(s) && s.n > 0
    ensures t in s.pc && !s.pc[t].Asleep?
  {
    var others := s.pc.Keys - Unreleased(s);
    assert |others| == s.n - s.count by {
      assert Unreleased(s) <= s.pc.Keys;
      assert others + Unreleased(s) == s.pc.Keys;
    }
    t :| t in others;
    assert Position(s, t);
  }

  /** When all threads have come to the barrier, one of them can move on: they never all sleep. */
  lemma NeverAllAsleep(s: State) returns (step: Step)
    requires Inv(s) && s.n > 0 && forall t | t in s.pc :: !s.pc[t].Outside?
    ensures Enabled(s, step) && !step.Wake? && !step.Call?
  {
    var t := FindAwake(s);
    var u := if s.lock.Some? then s.lock.value else t;
    match s.pc[u]
    case Entering => step := Lock(u);
    case Arriving => step := Arrive(u);
    case Woken(_) => step := Relock(u);
    case Rechecking(_) => step := Test(u);
  }

  // ---- every round ends ----

  /** Round r: all have called and nobody is released, or all are released and some may have returned. */
  ghost predicate InRound(s: State, r: nat) {
    && Inv(s) && s.n > 0
    && (|| (s.rounds == r && forall t | t in s.pc :: !s.pc[t].Outside? && s.left[t] == r)
        || (s.rounds == r + 1 && forall t | t in s.pc :: s.pc[t].Outside? || (Waiting(s.pc[t]) && s.left[t] == r)))
  }

  /** An upper bound on the steps that t still has to take in the round. */
  function Rank(s: State, t: nat): (n: nat)
    requires t in s.pc && t in s.left
    ensures n <= 7
  {
    var released := s.left[t] < s.rounds;
    match s.pc[t]
    case Outside => 0
    case Entering => 7
    case Arriving => 6
    case Woken(_) => if released then 2 else 5
    case Rechecking(_) => if released then 1 else 4
    case Asleep(_) => 3
  }

  ghost function RankSum(s: State, ts: set<nat>): nat
    requires ts <= s.pc.Keys && s.left.Keys == s.pc.Keys
  {
    if ts == {} then 0 else var t :| t in ts; Rank(s, t) + RankSum(s, ts - {t})
  }

  lemma {:induction false} RankSumBound(s: State, ts: set<nat>)
    requires ts <= s.pc.Keys && s.left.Keys == s.pc.Keys
    ensures RankSum(s, ts) <= 7 * |ts|
    decreases ts
  {
    if ts != {} {
      var t :| t in ts && RankSum(s, ts) == Rank(s, t) + RankSum(s, ts - {t});
      RankSumBound(s, ts - {t});
      assert |ts| == |ts - {t}| + 1 && Rank(s, t) <= 7;
    }
  }

  /** When no rank grows but that of t, by k at most, the sum grows by k at most. */
  lemma {:induction false} RankSumMoves(s: State, s1: State, ts: set<nat>, t: nat, k: int)
    requires ts <= s.pc.Keys && s.left.Keys == s.pc.Keys && s1.left.Keys == s1.pc.Keys == s.pc.Keys
    requires forall u | u in s.pc :: Rank(s1, u) <= Rank(s, u) + if u == t then k else 0
    ensures RankSum(s1, ts) <= RankSum(s, ts) + if t in ts then k else 0
    decreases ts
  {
    if ts != {} {
      var u :| u in ts && RankSum(s, ts) == Rank(s, u) + RankSum(s, ts - {u});
      RankSumRemove(s1, ts, u);
      RankSumMoves(s, s1, ts - {u}, t, k);
    }
  }

  lemma {:induction false} RankSumRemove(s: State, ts: set<nat>, u: nat)
    requires ts <= s.pc.Keys && s.left.Keys == s.pc.Keys && u in ts
    ensures RankSum(s, ts) == Rank(s, u) + RankSum(s, ts - {u})
    decreases ts
  {
    var t :| t in ts && RankSum(s, ts) == Rank(s, t) + RankSum(s, ts - {t});
    if t != u {
      RankSumRemove(s, ts - {t}, u);
      RankSumRemove(s, ts - {u}, t);
      assert ts - {t} - {u} == ts - {u} - {t};
    }
  }

  /** What a step adds to the bound: a spurious wakeup may cost two steps more, any other is one less. */
  function Change(step: Step): int {
    if step.Wake? then 2 else -1
  }

  /** How u stands after a step within a round. */
  ghost predicate RoundKept(s: State, s1: State, step: Step, r: nat, u: nat)
    requires u in s.pc && s.left.Keys == s.pc.Keys
  {
    && s1.pc.Keys == s1.left.Keys == s.pc.Keys
    && Rank(s1, u) <= Rank(s, u) + (if u == step.t then Change(step) else 0)
    && (s1.rounds == r ==> !s1.pc[u].Outside? && s1.left[u] == r)
    && (s1.rounds != r ==> s1.rounds == r + 1 && (s1.pc[u].Outside? || (Waiting(s1.pc[u]) && s1.left[u] == r)))
  }

  lemma LastArrivalKept(s: State, t: nat, r: nat, u: nat)
    requires InRound(s, r) && Enabled(s, Arrive(t)) && s.count + 1 >= s.n && u in s.pc
    ensures RoundKept(s, Apply(s, Arrive(t)), Arrive(t), r, u)
  {
    assert Position(s, t) && s.left[t] == s.rounds;
    AllOthersWait(s, t);
    assert u != t ==> u in Unreleased(s);
  }

  lemma TestKept(s: State, t: nat, r: nat, u: nat)
    requires InRound(s, r) && Enabled(s, Test(t)) && u in s.pc
    ensures RoundKept(s, Apply(s, Test(t)), Test(t), r, u)
  {
    assert Position(s, t) && Position(s, u);
    if s.rounds > 0 { StagesDiffer(s.rounds); }
  }

  lemma QuietKept(s: State, step: Step, r: nat, u: nat)
    requires InRound(s, r) && Enabled(s, step) && u in s.pc
    requires step.Lock? || step.Wake? || step.Relock? || (step.Arrive? && s.count + 1 < s.n)
    ensures RoundKept(s, Apply(s, step), step, r, u)
  {
    assert Position(s, step.t);
  }

  lemma RoundKeptIn(s: State, s1: State, step: Step, r: nat)
    requires InRound(s, r) && Inv(s1) && s1.n == s.n && step.t in s.pc
    requires forall u | u in s.pc :: RoundKept(s, s1, step, r, u)
    ensures InRound(s1, r) && s1.pc.Keys == s1.left.Keys == s.pc.Keys
  {
    assert s.left.Keys == s.pc.Keys;
    hide Rank, Inv, Change;
    assert RoundKept(s, s1, step, r, step.t);
  }

  lemma RoundKeptSum(s: State, s1: State, step: Step, r: nat)
    requires s.left.Keys == s.pc.Keys && s1.left.Keys == s1.pc.Keys == s.pc.Keys && step.t in s.pc
    requires forall u | u in s.pc :: RoundKept(s, s1, step, r, u)
    ensures RankSum(s1, s1.pc.Keys) <= RankSum(s, s.pc.Keys) + Change(step)
  {
    hide Rank, Change, Waiting;
    forall u | u in s.pc
      ensures Rank(s1, u) <= Rank(s, u) + if u == step.t then Change(step) else 0
    {
      assert RoundKept(s, s1, step, r, u);
    }
    RankSumMoves(s, s1, s.pc.Keys, step.t, Change(step));
  }

  /** Within a round, every step but a spurious wakeup brings its end nearer. */
  lemma RoundStep(s: State, step: Step, r: nat)
    requires InRound(s, r) && Enabled(s, step) && !step.Call?
    ensures var s1 := Apply(s, step);
            && InRound(s1, r) && s1.pc.Keys == s.pc.Keys
            && RankSum(s1, s1.pc.Keys) <= RankSum(s, s.pc.Keys) + Change(step)
  {
    var s1 := Apply(s, step);
    assert s1.n == s.n && s.left.Keys == s.pc.Keys;
    StepInv(s, step);
    hide RoundKept, Inv;
    forall u | u in s.pc
      ensures RoundKept(s, s1, step, r, u)
    {
      if step.Test? {
        TestKept(s, step.t, r, u);
      } else if step.Arrive? && s.count + 1 >= s.n {
        LastArrivalKept(s, step.t, r, u);
      } else {
        QuietKept(s, step, r, u);
      }
    }
    RoundKeptIn(s, s1, step, r);
    RoundKeptSum(s, s1, step, r);
  }

  function Wakes(steps: seq<Step>): nat {
    if steps == [] then 0 else (if steps[0].Wake? then 1 else 0) + Wakes(steps[1..])
  }

  /**
    Once all threads have called, and until the next call, the round takes at most seven steps for each
    thread and three more for each spurious wakeup, in whatever order they are taken, and is not stuck
    before all have returned from it.
    */
  lemma {:induction false} RoundEnds(s: State, steps: seq<Step>, r: nat)
    requires InRound(s, r) && Legal(Protocol(), s, steps) && forall step | step in steps :: !step.Call?
    ensures |steps| <= RankSum(s, s.pc.Keys) + 3 * Wakes(steps) <= 7 * s.n + 3 * Wakes(steps)
    ensures var s1 := Run(Protocol(), s, steps);
            || (s1.pc.Keys == s1.left.Keys == s.pc.Keys && forall t | t in s.pc :: s1.pc[t].Outside? && s1.left[t] == r + 1)
            || exists step :: Enabled(s1, step) && !step.Call? && !step.Wake?
    decreases |steps|
  {
    RankSumBound(s, s.pc.Keys);
    if steps == [] {
      RoundProgress(s, r);
    } else {
      assert steps[0] in steps;
      RoundStep(s, steps[0], r);
      RoundEnds(Apply(s, steps[0]), steps[1..], r);
    }
  }

  lemma RoundProgress(s: State, r: nat)
    requires InRound(s, r)
    ensures (forall t | t in s.pc :: s.pc[t].Outside? && s.left[t] == r + 1)
            || exists step :: Enabled(s, step) && !step.Call? && !step.Wake?
  {
    if s.rounds == r {
      var step := NeverAllAsleep(s);
    } else if t :| t in s.pc && !s.pc[t].Outside? {
      assert Position(s, t);
      var u := if s.lock.Some? then s.lock.value else t;
      assert Enabled(s, if s.lock.Some? then Test(u) else Relock(u));
    } else {
      forall t | t in s.pc
        ensures s.left[t] == r + 1
      {
        assert Position(s, t);
      }
    }
  }
}
