/** Parallel reduction: chunks reduced by threads of their own, their results reduced once more. */
module ParReduce {

  /** `reduce`: the left fold from `base`. */
  function Reduce<X>(list: seq<X>, f: (X, X) -> X, base: X): X {
    if list == [] then base else f(Reduce(list[..|list| - 1], f, base), list[|list| - 1])
  }

  ghost predicate Associative<X(!new)>(f: (X, X) -> X) {
    forall x, y, z :: f(f(x, y), z) == f(x, f(y, z))
  }

  ghost predicate RightIdentity<X(!new)>(f: (X, X) -> X, base: X) {
    forall x :: f(x, base) == x
  }

  /** The base case may come up again in the middle of a reduction without changing its result. */
  ghost predicate Regroups<X(!new)>(f: (X, X) -> X, base: X) {
    && (forall x :: f(base, f(base, x)) == f(base, x))
    && (forall x, y :: f(f(f(base, x), base), y) == f(f(base, x), y))
  }

  lemma IdentityRegroups<X(!new)>(f: (X, X) -> X, base: X)
    requires Associative(f) && RightIdentity(f, base)
    ensures Regroups(f, base)
  {
    forall x
      ensures f(base, f(base, x)) == f(base, x)
    {
      assert f(f(base, base), x) == f(base, f(base, x));
    }
  }

  /** The reduction of a list that is not empty starts with the base case. */
  lemma {:induction false} StartsWithBase<X(!new)>(xs: seq<X>, f: (X, X) -> X, base: X) returns (x: X)
    requires Associative(f) && xs != []
    ensures Reduce(xs, f, base) == f(base, x)
    decreases |xs|
  {
    var ys, y := xs[..|xs| - 1], xs[|xs| - 1];
    if ys == [] {
      x := y;
    } else {
      var z := StartsWithBase(ys, f, base);
      x := f(z, y);
      assert f(f(base, z), y) == f(base, f(z, y));
    }
  }

  /** Reducing a tail from `base` and combining is the same as going on with the tail. */
  lemma {:induction false} ReduceConcat<X(!new)>(xs: seq<X>, ys: seq<X>, f: (X, X) -> X, base: X)
    requires Associative(f) && Regroups(f, base) && ys != []
    ensures f(Reduce(xs, f, base), Reduce(ys, f, base)) == Reduce(xs + ys, f, base)
    decreases |ys|
  {
    var zs, y := ys[..|ys| - 1], ys[|ys| - 1];
    assert (xs + ys)[..|xs + ys| - 1] == xs + zs;
    var r := Reduce(xs, f, base);
    if zs == [] {
      assert xs + zs == xs;
      if xs != [] {
        var x := StartsWithBase(xs, f, base);
        assert f(r, f(base, y)) == f(f(r, base), y);
      }
    } else {
      ReduceConcat(xs, zs, f, base);
      assert f(r, f(Reduce(zs, f, base), y)) == f(f(r, Reduce(zs, f, base)), y);
    }
  }

  // ---- how the list is divided ----

  /** Where part i starts: the sum of the sizes before it. */
  function Offset(sizes: seq<nat>, i: nat): nat
    requires i <= |sizes|
  {
    if i == 0 then 0 else Offset(sizes, i - 1) + sizes[i - 1]
  }

  /**
    The parts use up the list; any two differ by at most one; earlier parts are no smaller than later
    ones; and the parts that are not empty come first.
    */
  ghost predicate Balanced(sizes: seq<nat>, len: nat) {
    && Offset(sizes, |sizes|) == len
    && (forall i, j | 0 <= i <= j < |sizes| :: sizes[j] <= sizes[i] <= sizes[j] + 1)
    && (forall i | 0 <= i < |sizes| :: sizes[i] > 0 <==> i < len)
  }

  function SizeAt(len: nat, n: nat, i: nat): nat
    requires n > 0
  {
    len / n + if i < len % n then 1 else 0
  }

  /** The sizes of the parts. */
  function Sizes(len: nat, n: nat): (sizes: seq<nat>)
    requires n > 0
    ensures |sizes| == n && forall i | 0 <= i < n :: sizes[i] == SizeAt(len, n, i)
  {
    seq(n, i requires 0 <= i < n => SizeAt(len, n, i))
  }

  lemma {:induction false} OffsetFormula(sizes: seq<nat>, q: nat, r: nat, i: nat)
    requires i <= |sizes| && forall j | 0 <= j < |sizes| :: sizes[j] == q + if j < r then 1 else 0
    ensures Offset(sizes, i) == i * q + if i < r then i else r
    decreases i
  {
    if i == 0 {
    } else {
      OffsetFormula(sizes, q, r, i - 1);
      assert i * q == (i - 1) * q + q;
    }
  }

  lemma Division(sizes: seq<nat>, len: nat)
    requires |sizes| > 0 && forall i | 0 <= i < |sizes| :: sizes[i] == SizeAt(len, |sizes|, i)
    ensures Balanced(sizes, len)
  {
    var n := |sizes|;
    var q, r := len / n, len % n;
    OffsetFormula(sizes, q, r, n);
    assert n * q + r == len;
    if len < n {
      assert q == 0 && r == len;
    } else {
      assert q >= 1;
    }
  }

  lemma SmallQuotient(len: nat, n: nat)
    requires len < n
    ensures len / n == 0 && len % n == len
  {
  }

  method ThreadSize(listLen: nat, numThreads: nat) returns (threadSize: array<nat>)
    requires numThreads > 0
    ensures fresh(threadSize) && threadSize[..] == Sizes(listLen, numThreads)
    ensures Balanced(threadSize[..], listLen)
  {
    threadSize := new nat[numThreads](_ => 0);
    if numThreads > listLen {
      for i := 0 to listLen
        invariant forall j | 0 <= j < numThreads :: threadSize[j] == if j < i then 1 else 0
      {
        threadSize[i] := 1;
      }
      SmallQuotient(listLen, numThreads);
    } else {
      var lenThread := listLen / numThreads;
      var remainder := listLen % numThreads;
      for i := 0 to numThreads
        invariant forall j | 0 <= j < i :: threadSize[j] == SizeAt(listLen, numThreads, j)
      {
        if i < remainder {
          threadSize[i] := lenThread + 1;
        } else {
          threadSize[i] := lenThread;
        }
      }
    }
    Division(threadSize[..], listLen);
  }

  lemma {:induction false} OffsetGrows(sizes: seq<nat>, i: nat, j: nat)
    requires i <= j <= |sizes|
    ensures Offset(sizes, i) <= Offset(sizes, j)
    decreases j - i
  {
    if i == j {
    } else {
      OffsetGrows(sizes, i, j - 1);
    }
  }

  /** Once the list is used up, the remaining parts are empty. */
  lemma {:induction false} OffsetEnds(sizes: seq<nat>, len: nat, k: nat)
    requires Balanced(sizes, len) && Busy(len, |sizes|) <= k <= |sizes|
    ensures Offset(sizes, k) == len
    decreases |sizes| - k
  {
    if k == |sizes| {
    } else {
      OffsetEnds(sizes, len, k + 1);
    }
  }

  // ---- the reduction ----

  /** How many threads get anything to do. */
  function Busy(len: nat, n: nat): nat {
    if len < n then len else n
  }

  /** One thread's work: the sublist it points at. */
  datatype Work = Work(start: nat, len: nat)

  ghost function Part<X>(list: seq<X>, sizes: seq<nat>, i: nat): (p: seq<X>)
    requires i < |sizes| && Offset(sizes, |sizes|) == |list|
    ensures Offset(sizes, i + 1) == Offset(sizes, i) + sizes[i] <= |list|
  {
    OffsetGrows(sizes, i + 1, |sizes|);
    list[Offset(sizes, i)..Offset(sizes, i) + sizes[i]]
  }

  method StartRoutine<X>(list: seq<X>, work: Work, f: (X, X) -> X, base: X) returns (result: X)
    requires work.start + work.len <= |list|
    ensures result == Reduce(list[work.start..work.start + work.len], f, base)
  {
    result := Reduce(list[work.start..work.start + work.len], f, base);
  }

  /** What each thread is to return. */
  ghost function Expected<X>(list: seq<X>, sizes: seq<nat>, f: (X, X) -> X, base: X, i: nat): (r: X)
    requires i < |sizes| && Offset(sizes, |sizes|) == |list|
  {
    Reduce(Part(list, sizes, i), f, base)
  }

  /** The reduction up to the end of part k, from the one up to its start. */
  lemma PartStep<X(!new)>(list: seq<X>, sizes: seq<nat>, f: (X, X) -> X, base: X, k: nat)
    requires Offset(sizes, |sizes|) == |list| && k < |sizes| && sizes[k] > 0 && Associative(f) && Regroups(f, base)
    ensures Offset(sizes, k) <= Offset(sizes, k + 1) <= |list|
    ensures Reduce(list[..Offset(sizes, k + 1)], f, base)
         == f(Reduce(list[..Offset(sizes, k)], f, base), Reduce(Part(list, sizes, k), f, base))
  {
    hide Associative, Regroups, Reduce;
    var a, b, part := Offset(sizes, k), Offset(sizes, k + 1), Part(list, sizes, k);
    ReduceConcat(list[..a], part, f, base);
    assert list[..a] + part == list[..b];
  }

  /** The threads' results for the first k parts, reduced, are the reduction of the list up to there. */
  lemma {:induction false} ReduceParts<X(!new)>(list: seq<X>, sizes: seq<nat>, retvals: seq<X>, f: (X, X) -> X, base: X)
    requires Offset(sizes, |sizes|) == |list| && |retvals| <= |sizes| && Associative(f) && Regroups(f, base)
    requires forall i | 0 <= i < |retvals| :: sizes[i] > 0
    requires forall i | 0 <= i < |retvals| :: retvals[i] == Expected(list, sizes, f, base, i)
    ensures Offset(sizes, |retvals|) <= |list|
    ensures Reduce(retvals, f, base) == Reduce(list[..Offset(sizes, |retvals|)], f, base)
    decreases |retvals|
  {
    if retvals == [] {
    } else {
      var k := |retvals| - 1;
      ReduceParts(list, sizes, retvals[..k], f, base);
      PartStep(list, sizes, f, base, k);
      assert retvals[k] == Expected(list, sizes, f, base, k);
    }
  }

  /** Fills in the threads' work; the first `num` entries are the ones filled. */
  method AssignWork(threadSize: array<nat>, listLen: nat) returns (data: array<Work>, num: nat)
    requires Balanced(threadSize[..], listLen)
    ensures fresh(data) && data.Length == threadSize.Length && num == Busy(listLen, threadSize.Length)
    ensures forall j | 0 <= j < num :: data[j] == Work(Offset(threadSize[..], j), threadSize[j])
  {
    data := new Work[threadSize.Length](_ => Work(0, 0));
    var start := 0;
    num := 0;
    ghost var sizes := threadSize[..];
    for i := 0 to threadSize.Length
      invariant start == Offset(sizes, i) && num == Busy(listLen, i)
      invariant forall j | 0 <= j < num :: data[j] == Work(Offset(sizes, j), sizes[j])
    {
      assert threadSize[i] == sizes[i];
      if threadSize[i] > 0 {
        data[i] := Work(start, threadSize[i]);
        start := start + threadSize[i];
        num := num + 1;
      }
    }
  }

  lemma WorkFits<X>(list: seq<X>, sizes: seq<nat>, work: Work, i: nat)
    requires i < |sizes| && Offset(sizes, |sizes|) == |list|
    requires work == Work(Offset(sizes, i), sizes[i])
    ensures work.start + work.len <= |list| && Part(list, sizes, i) == list[work.start..work.start + work.len]
  {
    var part := Part(list, sizes, i);
  }

  /** Runs and joins the threads; each writes only its own result, so their order does not matter. */
  method RunThreads<X(0)>(list: seq<X>, ghost sizes: seq<nat>, data: array<Work>, num: nat, f: (X, X) -> X, base: X)
    returns (retvals: array<X>)
    requires num <= data.Length == |sizes| && Offset(sizes, |sizes|) == |list|
    requires forall i | 0 <= i < num :: data[i] == Work(Offset(sizes, i), sizes[i])
    ensures fresh(retvals) && retvals.Length == data.Length
    ensures forall i | 0 <= i < num :: retvals[i] == Expected(list, sizes, f, base, i)
  {
    retvals := new X[data.Length];
    for i := 0 to num
      invariant forall j | 0 <= j < i :: retvals[j] == Expected(list, sizes, f, base, j)
    {
      var work := data[i];
      WorkFits(list, sizes, work, i);
      var retval := StartRoutine(list, work, f, base);
      retvals[i] := retval;
    }
  }

  /** What the parallel reduction computes: the reductions of the parts that are not empty, reduced. */
  ghost function ParallelResult<X>(list: seq<X>, f: (X, X) -> X, base: X, n: nat): X
    requires n > 0
  {
    Reduce(PartResults(list, f, base, n), f, base)
  }

  ghost function PartResults<X>(list: seq<X>, f: (X, X) -> X, base: X, n: nat): (r: seq<X>)
    requires n > 0
    ensures Balanced(Sizes(|list|, n), |list|)
    ensures |r| == Busy(|list|, n) && forall i | 0 <= i < |r| :: r[i] == Expected(list, Sizes(|list|, n), f, base, i)
  {
    Division(Sizes(|list|, n), |list|);
    seq(Busy(|list|, n), i requires 0 <= i < Busy(|list|, n) => Expected(list, Sizes(|list|, n), f, base, i))
  }

  method ParallelReduce<X(0,!new)>(list: seq<X>, f: (X, X) -> X, base: X, numThreads: nat) returns (result: X)
    requires numThreads > 0
    ensures result == ParallelResult(list, f, base, numThreads)
    ensures Associative(f) && Regroups(f, base) ==> result == Reduce(list, f, base)
  {
    var threadSize := ThreadSize(|list|, numThreads);
    ghost var sizes := threadSize[..];
    var data, num := AssignWork(threadSize, |list|);
    var retvals := RunThreads(list, sizes, data, num, f, base);
    result := Reduce(retvals[..num], f, base);
    assert retvals[..num] == PartResults(list, f, base, numThreads);
    if Associative(f) && Regroups(f, base) {
      AllParts(list, sizes, retvals[..num], f, base);
    }
  }

  /** Reducing the results of the busy threads reduces the whole list. */
  lemma AllParts<X(!new)>(list: seq<X>, sizes: seq<nat>, retvals: seq<X>, f: (X, X) -> X, base: X)
    requires Balanced(sizes, |list|) && |retvals| == Busy(|list|, |sizes|) && Associative(f) && Regroups(f, base)
    requires forall i | 0 <= i < |retvals| :: retvals[i] == Expected(list, sizes, f, base, i)
    ensures Reduce(retvals, f, base) == Reduce(list, f, base)
  {
    ReduceParts(list, sizes, retvals, f, base);
    OffsetEnds(sizes, |list|, |retvals|);
    assert list[..|list|] == list;
  }

  lemma ReduceOne<X>(x: X, f: (X, X) -> X, base: X)
    ensures Reduce([x], f, base) == f(base, x)
  {
    assert [x][..0] == [];
  }

  lemma ReduceTwo<X>(x: X, y: X, f: (X, X) -> X, base: X)
    ensures Reduce([x, y], f, base) == f(f(base, x), y)
  {
    assert [x, y][..1] == [x];
    ReduceOne(x, f, base);
  }

  lemma OneThread<X>(x: X, f: (X, X) -> X, base: X)
    ensures ParallelResult([x], f, base, 1) == f(base, f(base, x))
  {
    var sizes := Sizes(1, 1);
    var rs := PartResults([x], f, base, 1);
    assert sizes[0] == 1 && Part([x], sizes, 0) == [x];
    assert rs[0] == Expected([x], sizes, f, base, 0);
    assert rs == [Reduce([x], f, base)];
    ReduceOne(x, f, base);
    ReduceOne(f(base, x), f, base);
  }

  lemma TwoThreads<X>(x: X, y: X, f: (X, X) -> X, base: X)
    ensures ParallelResult([x, y], f, base, 2) == f(f(base, f(base, x)), f(base, y))
  {
    var sizes := Sizes(2, 2);
    var rs := PartResults([x, y], f, base, 2);
    assert sizes[0] == 1 && sizes[1] == 1;
    assert Part([x, y], sizes, 0) == [x] && Part([x, y], sizes, 1) == [y];
    assert rs[0] == Expected([x, y], sizes, f, base, 0) && rs[1] == Expected([x, y], sizes, f, base, 1);
    assert rs == [Reduce([x], f, base), Reduce([y], f, base)];
    ReduceOne(x, f, base);
    ReduceOne(y, f, base);
    ReduceTwo(f(base, x), f(base, y), f, base);
  }

  /** The parallel reduction is the sequential one, on every list and with every number of threads. */
  ghost predicate AlwaysAgrees<X(!new)>(f: (X, X) -> X, base: X) {
    forall list, n {:trigger ParallelResult(list, f, base, n)} | n > 0 ::
      ParallelResult(list, f, base, n) == Reduce(list, f, base)
  }

  lemma AssociativeAt<X(!new)>(f: (X, X) -> X, x: X, y: X, z: X)
    requires Associative(f)
    ensures f(f(x, y), z) == f(x, f(y, z))
  {
  }

  lemma AgreeingAt<X(!new)>(x: X, y: X, f: (X, X) -> X, base: X)
    requires Associative(f) && AlwaysAgrees(f, base)
    ensures f(base, f(base, x)) == f(base, x)
    ensures f(f(f(base, x), base), y) == f(f(base, x), y)
  {
    hide Associative, Reduce;
    OneThread(x, f, base);
    ReduceOne(x, f, base);
    assert ParallelResult([x], f, base, 1) == Reduce([x], f, base);
    TwoThreads(x, y, f, base);
    ReduceTwo(x, y, f, base);
    assert ParallelResult([x, y], f, base, 2) == Reduce([x, y], f, base);
    AssociativeAt(f, f(base, x), base, y);
  }

  /**
    For an associative reducer, the parallel reduction always agrees with the sequential one exactly
    when the base case may come up again without changing the result.
    */
  lemma AgreesIff<X(!new)>(f: (X, X) -> X, base: X)
    requires Associative(f)
    ensures AlwaysAgrees(f, base) <==> Regroups(f, base)
  {
    hide Associative, Reduce;
    if Regroups(f, base) {
      forall list, n | n > 0
        ensures ParallelResult(list, f, base, n) == Reduce(list, f, base)
      {
        AllParts(list, Sizes(|list|, n), PartResults(list, f, base, n), f, base);
      }
    }
    if AlwaysAgrees(f, base) {
      forall x
        ensures f(base, f(base, x)) == f(base, x)
      {
        AgreeingAt(x, x, f, base);
      }
      forall x, y
        ensures f(f(f(base, x), base), y) == f(f(base, x), y)
      {
        AgreeingAt(x, y, f, base);
      }
    }
  }

  /** Summing 5 and 7 from 1 gives 13; with two threads it gives 15. */
  method SumTwice() returns (sequential: int, parallel: int)
    ensures var f := (x: int, y: int) => x + y;
            sequential == Reduce([5, 7], f, 1) && parallel == ParallelResult([5, 7], f, 1, 2) && sequential == 13 && parallel == 15
  {
    var f := (x: int, y: int) => x + y;
    sequential := Reduce([5, 7], f, 1);
    parallel := ParallelReduce([5, 7], f, 1, 2);
    TwoThreads(5, 7, f, 1);
    ReduceTwo(5, 7, f, 1);
  }
}
