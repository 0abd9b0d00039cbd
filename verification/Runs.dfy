/** Runs of a step system, and what every run of one keeps. */
module Runs {

  datatype Machine<!S, !A> = Machine(enabled: (S, A) -> bool, apply: (S, A) -> S)

  ghost predicate Legal<S, A>(m: Machine<S, A>, s: S, steps: seq<A>)
    decreases |steps|
  {
    steps == [] || (m.enabled(s, steps[0]) && Legal(m, m.apply(s, steps[0]), steps[1..]))
  }

  ghost function Run<S, A>(m: Machine<S, A>, s: S, steps: seq<A>): S
    requires Legal(m, s, steps)
    decreases |steps|
  {
    if steps == [] then s else Run(m, m.apply(s, steps[0]), steps[1..])
  }

  /** What every step keeps, every run keeps. */
  lemma {:induction false} RunKeeps<S, A>(m: Machine<S, A>, inv: S -> bool, s: S, steps: seq<A>)
    requires forall s, a | inv(s) && m.enabled(s, a) :: inv(m.apply(s, a))
    requires inv(s) && Legal(m, s, steps)
    ensures inv(Run(m, s, steps))
    decreases |steps|
  {
    if steps != [] {
      RunKeeps(m, inv, m.apply(s, steps[0]), steps[1..]);
    }
  }

  lemma {:induction false} RunJoins<S, A>(m: Machine<S, A>, s: S, first: seq<A>, second: seq<A>)
    requires Legal(m, s, first) && Legal(m, Run(m, s, first), second)
    ensures Legal(m, s, first + second) && Run(m, s, first + second) == Run(m, Run(m, s, first), second)
    decreases |first|
  {
    if first == [] {
      assert first + second == second;
    } else {
      assert (first + second)[1..] == first[1..] + second;
      RunJoins(m, m.apply(s, first[0]), first[1..], second);
    }
  }
}
