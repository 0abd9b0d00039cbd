/**
  The sweeps of the last two lists, which merge every block of a list with its right neighbour. A block
  that outgrows list 15 stays in it, and unlinking the first block of a list moves the head of the list of
  that block's size. So a sweep can leave the heads of lists 15 and 16 wrong, and list 15 with blocks of
  the wrong class; everything else stays in order. What counts for that is a small part of the heap.
  */
module Sweeps {
  import opened HeapMemory
  import opened Sequences

  /** The free blocks with their ends, the break, lists 15 and 16, and what their heads point to. */
  datatype Sweep = Sweep(free: map<int, int>, brk: int, low: seq<int>, high: seq<int>, h15: int, h16: int)

  /** The free block at `a` is too large for list 15. */
  predicate Over(F: map<int, int>, a: int)
    requires a in F
  {
    F[a] - a - META > BLOCK_SIZE[15]
  }

  /** The heads are right, and no block of list 15 has outgrown it. */
  ghost predicate Sound(v: Sweep) {
    && v.h15 == At(v.low, 0) && v.h16 == At(v.high, 0)
    && (forall a | a in v.low :: a in v.free && !Over(v.free, a))
  }

  // ---- what a sweep does, turn by turn ----

  /** The free block at n leaves its list; if it was first, the head for its size moves. */
  function Unlink(v: Sweep, n: int): Sweep
    requires n in v.free
  {
    var first := n == At(v.low, 0) || n == At(v.high, 0);
    var next := if n == At(v.low, 0) then At(v.low, 1) else At(v.high, 1);
    Sweep(v.free, v.brk, Drop(v.low, n), Drop(v.high, n),
          if first && !Over(v.free, n) then next else v.h15,
          if first && Over(v.free, n) then next else v.h16)
  }

  /** The free block at `cur` absorbs its right neighbour, if that one is free. */
  function Merge(v: Sweep, cur: int): Sweep
    requires cur in v.free
  {
    var n := v.free[cur];
    if n in v.free then Unlink(v, n).(free := v.free[cur := v.free[n]] - {n}) else v
  }

  /** The free block at `cur`, the last of the region, goes back to the kernel. */
  function Trim(v: Sweep, cur: int): Sweep
    requires cur in v.free
  {
    Unlink(v, cur).(free := v.free - {cur}, brk := cur)
  }

  /** The list being swept: 15, or else 16. */
  function ListOf(v: Sweep, is15: bool): seq<int> {
    if is15 then v.low else v.high
  }

  /** Where the node at k is after n has left its list. */
  function PlaceAfter(L: seq<int>, k: nat, n: int): nat
    requires k <= |L|
  {
    if n in L[..k] then k - 1 else k
  }

  /** The sweep from the k-th node on. In a heap every node is free and ends behind its start. */
  function SweepFrom(v: Sweep, is15: bool, k: nat): Sweep
    decreases |ListOf(v, is15)| - k
  {
    var L := ListOf(v, is15);
    if k >= |L| || L[k] !in v.free || v.free[L[k]] == L[k] then v
    else
      var cur, n := L[k], v.free[L[k]];
      var w := Merge(v, cur);
      var k1 := if n in v.free then PlaceAfter(L, k, n) else k;
      if cur !in w.free then v
      else if w.free[cur] == w.brk then Trim(w, cur)
      else SweepFrom(w, is15, k1 + 1)
  }

  /**
    The sweep of list 15, from its k-th node on, never leaves a block in the list that has outgrown
    it: F are the free blocks, `brk` is the break. A block that merges up to the break is given back in
    the same turn, which works out, whatever its size, unless it is first in the list.
    */
  predicate SweepSafe(F: map<int, int>, brk: int, L: seq<int>, k: nat)
    decreases |L| - k
  {
    k < |L| && L[k] in F ==>
      var cur, n := L[k], F[L[k]];
      if n in F then
        var k1 := PlaceAfter(L, k, n);
        && (F[n] - cur - META <= BLOCK_SIZE[15] || (F[n] == brk && k1 > 0))
        && (F[n] == brk || SweepSafe(F[cur := F[n]] - {n}, brk, Drop(L, n), k1 + 1))
      else n == brk || SweepSafe(F, brk, L, k + 1)
  }

  /** What the sweep relies on; true of every heap, and kept by every turn. */
  ghost predicate WellFormed(v: Sweep) {
    && (forall a | a in v.free :: 0 <= a && a + META < v.free[a] <= v.brk)
    && (forall a, b | a in v.free && b in v.free && a < b :: v.free[a] <= b)
    && (forall a | a in v.low :: a in v.free && a !in v.high)
    && (forall a | a in v.high :: a in v.free && Over(v.free, a))
    && Distinct(v.low) && Distinct(v.high)
    && (v.h15 == NULL ==> v.low == [])
  }

  lemma TailDistinct(L: seq<int>)
    requires Distinct(L) && L != []
    ensures Distinct(L[1..]) && L[0] !in L[1..]
  {
    forall i, j | 0 <= i < |L| - 1 && 0 <= j < |L| - 1 && L[1..][i] == L[1..][j]
      ensures i == j
    {
      assert L[i + 1] == L[j + 1];
    }
  }

  lemma ConsDistinct(x: int, L: seq<int>)
    requires Distinct(L) && x !in L
    ensures Distinct([x] + L)
  {
    var M := [x] + L;
    forall i, j | 0 <= i < |M| && 0 <= j < |M| && M[i] == M[j]
      ensures i == j
    {
      if i > 0 && j > 0 { assert L[i - 1] == L[j - 1]; }
    }
  }

  lemma {:induction false} DropKeeps(L: seq<int>, n: int)
    requires Distinct(L)
    ensures Distinct(Drop(L, n))
    ensures forall a :: a in Drop(L, n) <==> a in L && a != n
    ensures At(Drop(L, n), 0) == if L != [] && L[0] == n then At(L, 1) else At(L, 0)
    decreases |L|
  {
    if L != [] {
      TailDistinct(L);
      DropKeeps(L[1..], n);
      hide Distinct;
      assert forall a :: a in L <==> a == L[0] || a in L[1..];
      if L[0] != n {
        ConsDistinct(L[0], Drop(L[1..], n));
      }
    }
  }

  lemma {:induction false} DropAppend(A: seq<int>, C: seq<int>, n: int)
    ensures Drop(A + C, n) == if n in A then Drop(A, n) + C else A + Drop(C, n)
    decreases |A|
  {
    if A == [] {
      assert A + C == C;
    } else {
      assert (A + C)[1..] == A[1..] + C;
      DropAppend(A[1..], C, n);
    }
  }

  lemma DropPlace(L: seq<int>, n: int, k: nat)
    requires Distinct(L) && k < |L| && L[k] != n
    ensures var k1 := PlaceAfter(L, k, n);
            k1 < |Drop(L, n)| && Drop(L, n)[k1] == L[k] && |Drop(L, n)| - k1 <= |L| - k
    ensures PlaceAfter(L, k, n) == 0 <==> k == 0 || (k == 1 && L[0] == n)
  {
    hide Distinct;
    var A, C := L[..k], L[k..];
    assert L == A + C && C[0] == L[k];
    DropAppend(A, C, n);
    assert n in A && k == 1 ==> L[0] == n;
  }

  lemma UnlinkKeeps(v: Sweep, n: int)
    requires WellFormed(v) && n in v.free
    ensures var w := Unlink(v, n);
            && Distinct(w.low) && Distinct(w.high) && (w.h15 == NULL ==> w.low == [])
            && (forall a :: a in w.low <==> a in v.low && a != n)
            && (forall a :: a in w.high <==> a in v.high && a != n)
            && (Sound(v) ==> w.h15 == At(w.low, 0) && w.h16 == At(w.high, 0))
  {
    DropKeeps(v.low, n);
    DropKeeps(v.high, n);
    assert v.low != [] ==> v.low[0] in v.low;
    assert v.high != [] ==> v.high[0] in v.high;
    assert |v.low| > 1 ==> v.low[1] in v.low;
  }

  lemma MergedExtents(v: Sweep, cur: int)
    requires WellFormed(v) && cur in v.free && v.free[cur] in v.free
    ensures var n := v.free[cur];
            var F := v.free[cur := v.free[n]] - {n};
            && n != cur
            && (forall a | a in F :: 0 <= a && a + META < F[a] <= v.brk)
            && (forall a, b | a in F && b in F && a < b :: F[a] <= b)
  {
  }

  lemma MergedForm(v: Sweep, cur: int)
    requires WellFormed(v) && cur in v.free && (cur in v.low || cur in v.high)
    ensures WellFormed(Merge(v, cur))
  {
    var n := v.free[cur];
    if n in v.free {
      UnlinkKeeps(v, n);
      MergedExtents(v, cur);
      hide Drop, Distinct, At;
      var w := Merge(v, cur);
      assert w.free == v.free[cur := v.free[n]] - {n};
    }
  }

  /** A merge keeps the form, and can only spoil the size of the block that grows. */
  lemma MergeKeeps(v: Sweep, cur: int)
    requires WellFormed(v) && cur in v.free && (cur in v.low || cur in v.high)
    ensures var w := Merge(v, cur);
            && WellFormed(w) && cur in w.free && w.brk == v.brk
            && w.free[cur] == (if v.free[cur] in v.free then v.free[v.free[cur]] else v.free[cur])
            && (forall a | a in w.free && a != cur :: a in v.free && w.free[a] == v.free[a])
            && (forall a :: a in w.low <==> a in v.low && (v.free[cur] in v.free ==> a != v.free[cur]))
            && (forall a :: a in w.high <==> a in v.high && (v.free[cur] in v.free ==> a != v.free[cur]))
            && (Sound(v) ==> w.h15 == At(w.low, 0) && w.h16 == At(w.high, 0))
  {
    MergedForm(v, cur);
    var n := v.free[cur];
    if n in v.free {
      UnlinkKeeps(v, n);
      MergedExtents(v, cur);
    }
    hide WellFormed, Drop, Distinct, At, Sound, Over;
  }

  lemma TrimKeeps(v: Sweep, cur: int)
    requires WellFormed(v) && cur in v.free && (cur in v.low || cur in v.high)
    requires v.h15 == At(v.low, 0) && v.h16 == At(v.high, 0)
    requires forall a | a in v.low && a != cur :: !Over(v.free, a)
    ensures Sound(Trim(v, cur)) <==> !(cur in v.low && Over(v.free, cur) && At(v.low, 0) == cur)
  {
    UnlinkKeeps(v, cur);
    DropKeeps(v.low, cur);
    DropKeeps(v.high, cur);
    assert v.low != [] ==> v.low[0] in v.low;
    assert |v.low| > 1 ==> v.low[1] in v.low && v.low[1] != v.low[0];
    assert v.high != [] ==> v.high[0] in v.high;
  }

  lemma SweepUnfolds(v: Sweep, is15: bool, k: nat)
    requires k < |ListOf(v, is15)|
    requires var cur := ListOf(v, is15)[k]; cur in v.free && v.free[cur] != cur && cur in Merge(v, cur).free
    ensures var L, cur := ListOf(v, is15), ListOf(v, is15)[k];
            var w := Merge(v, cur);
            var k1 := if v.free[cur] in v.free then PlaceAfter(L, k, v.free[cur]) else k;
            SweepFrom(v, is15, k) == if w.free[cur] == w.brk then Trim(w, cur) else SweepFrom(w, is15, k1 + 1)
  {
    hide Drop;
  }

  lemma TurnPlace(v: Sweep, is15: bool, k: nat) returns (k1: nat)
    requires WellFormed(v) && k < |ListOf(v, is15)| && ListOf(v, is15)[k] in v.free
    ensures var L, cur, w := ListOf(v, is15), ListOf(v, is15)[k], Merge(v, ListOf(v, is15)[k]);
            && k1 == (if v.free[cur] in v.free then PlaceAfter(L, k, v.free[cur]) else k)
            && k1 < |ListOf(w, is15)| && ListOf(w, is15)[k1] == cur && |ListOf(w, is15)| - k1 <= |L| - k
  {
    hide Distinct, Drop, Over;
    var L := ListOf(v, is15);
    var n := v.free[L[k]];
    k1 := if n in v.free then PlaceAfter(L, k, n) else k;
    if n in v.free { DropPlace(L, n, k); }
  }

  /** One turn: the k-th node of the swept list merges, and the sweep trims it or goes on behind it. */
  lemma TurnStep(v: Sweep, is15: bool, k: nat) returns (w: Sweep, k1: nat)
    requires WellFormed(v) && k < |ListOf(v, is15)|
    ensures var L, cur := ListOf(v, is15), ListOf(v, is15)[k];
            && cur in v.free && cur in L && v.free[cur] != cur && w == Merge(v, cur)
            && WellFormed(w) && cur in w.free && w.brk == v.brk
            && w.free[cur] == (if v.free[cur] in v.free then v.free[v.free[cur]] else v.free[cur])
            && k1 == (if v.free[cur] in v.free then PlaceAfter(L, k, v.free[cur]) else k)
            && k1 < |ListOf(w, is15)| && ListOf(w, is15)[k1] == cur && |ListOf(w, is15)| - k1 <= |L| - k
            && SweepFrom(v, is15, k) == (if w.free[cur] == w.brk then Trim(w, cur) else SweepFrom(w, is15, k1 + 1))
    ensures forall a | a in w.free && a != ListOf(v, is15)[k] :: a in v.free && w.free[a] == v.free[a]
    ensures forall a | a in w.low :: a in v.low && a in w.free
    ensures Sound(v) ==> w.h15 == At(w.low, 0) && w.h16 == At(w.high, 0)
  {
    hide Distinct, Drop, Over, Merge, SweepFrom;
    var L := ListOf(v, is15);
    var cur := L[k];
    assert cur in L && v.free[cur] != cur;
    MergeKeeps(v, cur);
    w := Merge(v, cur);
    assert forall a | a in w.low :: a in w.free;
    k1 := TurnPlace(v, is15, k);
    SweepUnfolds(v, is15, k);
  }

  /** The same, as far as the course of the sweep goes. */
  lemma NextTurn(v: Sweep, is15: bool, k: nat) returns (w: Sweep, k1: nat)
    requires WellFormed(v) && k < |ListOf(v, is15)|
    ensures var cur := ListOf(v, is15)[k];
            && cur in v.free && w == Merge(v, cur) && cur in w.free
            && k1 < |ListOf(w, is15)| && ListOf(w, is15)[k1] == cur && |ListOf(w, is15)| - k1 <= |ListOf(v, is15)| - k
            && SweepFrom(v, is15, k) == (if w.free[cur] == w.brk then Trim(w, cur) else SweepFrom(w, is15, k1 + 1))
  {
    w, k1 := TurnStep(v, is15, k);
  }

  /** The sweep of list 16 does no harm. */
  lemma {:induction false} HighSweepSound(v: Sweep, k: nat)
    requires WellFormed(v) && Sound(v)
    ensures Sound(SweepFrom(v, false, k))
    decreases |v.high| - k
  {
    hide Drop, Merge, SweepFrom, Distinct;
    if k >= |v.high| {
      SweepEnds(v, false, k);
    } else {
      var w, k1 := TurnStep(v, false, k);
      var cur := v.high[k];
      assert cur in w.high by { assert w.high[k1] == cur; }
      assert cur !in w.low;
      if w.free[cur] == w.brk {
        TrimKeeps(w, cur);
      } else {
        HighSweepSound(w, k1 + 1);
      }
    }
  }

  /** A node before the k-th stays before it when another one leaves. */
  lemma PrefixAfter(L: seq<int>, n: int, k: nat, z: int)
    requires Distinct(L) && k < |L| && L[k] != n && z in L[..k] && z != n
    ensures PlaceAfter(L, k, n) <= |Drop(L, n)| && z in Drop(L, n)[..PlaceAfter(L, k, n)]
  {
    hide Drop, Distinct;
    var i :| 0 <= i < k && L[..k][i] == z;
    assert L[i] == z;
    DropPlace(L, n, k);
    DropPlace(L, n, i);
    assert PlaceAfter(L, i, n) < PlaceAfter(L, k, n) by {
      if n in L[..k] {
        var o :| 0 <= o < k && L[..k][o] == n;
        if o < i { assert L[..i][o] == n; }
      }
      if n in L[..i] {
        var o :| 0 <= o < i && L[..i][o] == n;
        assert L[..k][o] == n;
      }
    }
    assert Drop(L, n)[..PlaceAfter(L, k, n)][PlaceAfter(L, i, n)] == z;
  }

  lemma PrefixGrows(M: seq<int>, k: nat, z: int, cur: int)
    requires k <= |M| && (z in M[..k] || z == cur)
    ensures k < |M| && M[k] == cur ==> z in M[..k + 1]
  {
    if k < |M| { assert M[..k + 1] == M[..k] + [M[k]]; }
  }

  /** Where a block before the k-th node is after that node's turn: still there, or absorbed by it. */
  lemma LargeMoves(v: Sweep, is15: bool, k: nat, z: int) returns (z1: int)
    requires var L := ListOf(v, is15); WellFormed(v) && k < |L| && L[k] in v.free && z in L[..k] && z in v.free && z != L[k]
    ensures var L, cur := ListOf(v, is15), ListOf(v, is15)[k];
            var n, M := v.free[cur], ListOf(Merge(v, cur), is15);
            var k1 := if n in v.free then PlaceAfter(L, k, n) else k;
            && z1 == (if n == z then cur else z)
            && (k1 < |M| && M[k1] == cur ==> z1 in M[..k1 + 1])
  {
    var L := ListOf(v, is15);
    var cur := L[k];
    var n := v.free[cur];
    assert n != cur && Distinct(L) by { assert cur in L; }
    hide WellFormed, Distinct, Drop, Over;
    z1 := if n == z then cur else z;
    var M := ListOf(Merge(v, cur), is15);
    if n in v.free {
      assert M == Drop(L, n);
      if n != z { PrefixAfter(L, n, k, z); } else { DropPlace(L, n, k); }
      PrefixGrows(M, PlaceAfter(L, k, n), z1, cur);
    } else {
      PrefixGrows(M, k, z1, cur);
    }
  }

  /** The swept list holds a block of at least b bytes. */
  ghost predicate Holds(v: Sweep, is15: bool, b: int) {
    exists z :: z in ListOf(v, is15) && Reaches(v, z, b)
  }

  ghost predicate Reaches(v: Sweep, z: int, b: int) {
    z in v.free && v.free[z] - z - META >= b
  }

  lemma LargeTrim(w: Sweep, is15: bool, cur: int, z: int, b: int)
    requires WellFormed(w) && cur in w.free && z in ListOf(w, is15) && z != cur && Reaches(w, z, b)
    ensures Holds(Trim(w, cur), is15, b)
  {
    UnlinkKeeps(w, cur);
    assert z in ListOf(Trim(w, cur), is15) && Reaches(Trim(w, cur), z, b);
  }

  lemma Earlier(v: Sweep, is15: bool, k: nat, z: int)
    requires WellFormed(v) && k < |ListOf(v, is15)| && z in ListOf(v, is15)[..k]
    ensures z in ListOf(v, is15) && z != ListOf(v, is15)[k]
  {
    var i :| 0 <= i < k && ListOf(v, is15)[i] == z;
  }

  lemma LargeTurn(v: Sweep, is15: bool, k: nat, z: int, b: int) returns (w: Sweep, k1: nat, z1: int)
    requires WellFormed(v) && k < |ListOf(v, is15)| && z in ListOf(v, is15)[..k] && Reaches(v, z, b) && v.free[z] != v.brk
    ensures var M := ListOf(w, is15);
            && WellFormed(w) && k1 < |M| && |M| - k1 <= |ListOf(v, is15)| - k
            && z1 in M && z1 in M[..k1 + 1] && Reaches(w, z1, b) && w.free[z1] != w.brk
    ensures var cur := ListOf(v, is15)[k];
            && cur in w.free && SweepFrom(v, is15, k) == (if w.free[cur] == w.brk then Trim(w, cur) else SweepFrom(w, is15, k1 + 1))
  {
    var cur := ListOf(v, is15)[k];
    Earlier(v, is15, k, z);
    hide WellFormed, Drop, Merge, SweepFrom, Trim, Sound, PlaceAfter;
    w, k1 := TurnStep(v, is15, k);
    z1 := LargeMoves(v, is15, k, z);
    Outlives(v, cur, z, z1, b);
    assert z1 in ListOf(w, is15) by { assert z1 in ListOf(w, is15)[..k1 + 1]; }
  }

  /** A block whose turn is over, and that is not last, is in the list when the sweep ends, or else what absorbed it is. */
  lemma {:induction false} LargeStays(v: Sweep, is15: bool, k: nat, z: int, b: int)
    requires WellFormed(v) && k <= |ListOf(v, is15)| && z in ListOf(v, is15)[..k] && Reaches(v, z, b) && v.free[z] != v.brk
    ensures Holds(SweepFrom(v, is15, k), is15, b)
    decreases |ListOf(v, is15)| - k
  {
    hide WellFormed, SweepFrom, Trim;
    if k >= |ListOf(v, is15)| {
      SweepEnds(v, is15, k);
      assert z in ListOf(v, is15);
    } else {
      var cur := ListOf(v, is15)[k];
      var w, k1, z1 := LargeTurn(v, is15, k, z, b);
      if w.free[cur] == w.brk {
        assert z1 != cur;
        LargeTrim(w, is15, cur, z1, b);
      } else {
        LargeStays(w, is15, k1 + 1, z1, b);
      }
    }
  }

  lemma Outlives(v: Sweep, cur: int, z: int, z1: int, b: int)
    requires WellFormed(v) && cur in v.free && z in v.free && z != cur && z1 == (if v.free[cur] == z then cur else z)
    requires Reaches(v, z, b) && v.free[z] != v.brk
    ensures var w := Merge(v, cur); Reaches(w, z1, b) && w.free[z1] != w.brk
  {
  }

  lemma SweepEnds(v: Sweep, is15: bool, k: nat)
    requires k >= |ListOf(v, is15)|
    ensures SweepFrom(v, is15, k) == v && (is15 ==> SweepSafe(v.free, v.brk, v.low, k))
  {
  }

  /** The sweep of list 15 does no harm exactly when it is safe. */
  lemma {:induction false} SweepSafeIff(v: Sweep, k: nat)
    requires WellFormed(v) && Sound(v)
    ensures SweepSafe(v.free, v.brk, v.low, k) <==> Sound(SweepFrom(v, true, k))
    decreases |v.low| - k
  {
    hide WellFormed, Drop, Merge, SweepFrom, SweepSafe, Trim;
    if k >= |v.low| {
      SweepEnds(v, true, k);
    } else {
      var cur := v.low[k];
      var w, k1 := TurnStep(v, true, k);
      SafeTurn(v, k, w, k1);
      assert w.low[..k1 + 1][k1] == cur && w.low[k1] in w.low;
      assert forall a | a in w.low && a != cur :: !Over(w.free, a);
      if w.free[cur] == w.brk {
        assert cur in w.low;
        TrimKeeps(w, cur);
        FirstIff(w, cur, k1);
      } else if Over(w.free, cur) {
        LargeStays(w, true, k1 + 1, cur, BLOCK_SIZE[15] + 1);
        HoldsUnsound(SweepFrom(w, true, k1 + 1));
      } else {
        SweepSafeIff(w, k1 + 1);
      }
    }
  }

  lemma HoldsUnsound(v: Sweep)
    requires Holds(v, true, BLOCK_SIZE[15] + 1)
    ensures !Sound(v)
  {
  }

  lemma FirstIff(w: Sweep, cur: int, k: nat)
    requires WellFormed(w) && k < |w.low| && w.low[k] == cur
    ensures At(w.low, 0) == cur <==> k == 0
  {
  }

  /** What the condition of a safe sweep says of one turn. */
  lemma SafeTurn(v: Sweep, k: nat, w: Sweep, k1: nat)
    requires WellFormed(v) && Sound(v) && k < |v.low| && v.low[k] in v.free && w == Merge(v, v.low[k]) && v.low[k] in w.free
    requires k1 == if v.free[v.low[k]] in v.free then PlaceAfter(v.low, k, v.free[v.low[k]]) else k
    requires w.free[v.low[k]] == if v.free[v.low[k]] in v.free then v.free[v.free[v.low[k]]] else v.free[v.low[k]]
    ensures SweepSafe(v.free, v.brk, v.low, k) <==>
            && (!Over(w.free, v.low[k]) || (w.free[v.low[k]] == w.brk && k1 > 0))
            && (w.free[v.low[k]] == w.brk || SweepSafe(w.free, w.brk, w.low, k1 + 1))
  {
    assert v.low[k] in v.low;
  }

  // ---- what a sweep achieves ----

  /** x stands in R before some y. */
  predicate Precedes(R: seq<int>, x: int, y: int) {
    R != [] && if R[0] == x then y in R[1..] else Precedes(R[1..], x, y)
  }

  lemma {:induction false} DropPrecedes(R: seq<int>, n: int, x: int, y: int)
    requires Distinct(R) && x != n && y != n
    ensures Precedes(Drop(R, n), x, y) <==> Precedes(R, x, y)
    decreases |R|
  {
    if R != [] {
      TailDistinct(R);
      DropKeeps(R[1..], n);
      DropPrecedes(R[1..], n, x, y);
    }
  }

  lemma {:induction false} PrecededIn(R: seq<int>, x: int, y: int)
    requires Precedes(R, x, y)
    ensures y in R[1..]
    decreases |R|
  {
    if R[0] != x { PrecededIn(R[1..], x, y); }
  }

  /** What is behind the k-th node after n has left the list. */
  lemma DropSuffix(L: seq<int>, n: int, k: nat)
    requires Distinct(L) && k < |L| && L[k] != n
    ensures PlaceAfter(L, k, n) < |Drop(L, n)| && Drop(L, n)[PlaceAfter(L, k, n) + 1..] == Drop(L[k + 1..], n)
  {
    hide Distinct;
    var A, C := L[..k], L[k..];
    assert L == A + C && C[0] == L[k] && C[1..] == L[k + 1..];
    DropAppend(A, C, n);
    if n in A {
      NotBehind(L, k, n);
      DropAbsent(C[1..], n);
    }
  }

  lemma NotBehind(L: seq<int>, k: nat, n: int)
    requires Distinct(L) && k < |L| && n in L[..k]
    ensures n !in L[k + 1..]
  {
    var i :| 0 <= i < k && L[i] == n;
    var C := L[k + 1..];
    assert forall j | 0 <= j < |C| :: C[j] == L[k + 1 + j] != n;
  }

  lemma DistinctSuffix(L: seq<int>, k: nat)
    requires Distinct(L) && k < |L|
    ensures Distinct(L[k..]) && L[k..][1..] == L[k + 1..] && Distinct(L[k + 1..]) && L[k] !in L[k + 1..]
  {
    forall i, j | 0 <= i < j < |L| - k
      ensures L[k..][i] != L[k..][j]
    {
      assert L[k + i] != L[k + j];
    }
    TailDistinct(L[k..]);
  }

  lemma RestOf(v: Sweep, is15: bool, k: nat)
    requires Distinct(ListOf(v, is15)) && k < |ListOf(v, is15)|
    requires var cur := ListOf(v, is15)[k]; cur in v.free && v.free[cur] != cur
    ensures var L, cur := ListOf(v, is15), ListOf(v, is15)[k];
            var n, M := v.free[cur], ListOf(Merge(v, cur), is15);
            var k1 := if n in v.free then PlaceAfter(L, k, n) else k;
            k1 < |M| && M[k1 + 1..] == if n in v.free then Drop(L[k + 1..], n) else L[k + 1..]
  {
    var L := ListOf(v, is15);
    hide Distinct, Drop, PlaceAfter, Over;
    if v.free[L[k]] in v.free { DropSuffix(L, v.free[L[k]], k); }
  }

  /** One turn, with R the nodes from the k-th on: those behind it stay in line, but for the one it absorbs. */
  lemma RestAfter(v: Sweep, is15: bool, k: nat) returns (w: Sweep, k1: nat)
    requires WellFormed(v) && k < |ListOf(v, is15)|
    ensures var R, cur := ListOf(v, is15)[k..], ListOf(v, is15)[k];
            && cur in v.free && w == Merge(v, cur) && WellFormed(w) && w.brk == v.brk && cur in w.free
            && Distinct(R) && R[0] == cur && cur !in R[1..] && Distinct(R[1..]) && v.free[cur] != cur
            && k1 < |ListOf(w, is15)| && |ListOf(w, is15)| - k1 <= |ListOf(v, is15)| - k
            && ListOf(w, is15)[k1 + 1..] == (if v.free[cur] in v.free then Drop(R[1..], v.free[cur]) else R[1..])
            && SweepFrom(v, is15, k) == (if w.free[cur] == w.brk then Trim(w, cur) else SweepFrom(w, is15, k1 + 1))
  {
    assert Distinct(ListOf(v, is15));
    hide Distinct, Drop, SweepFrom, WellFormed, Over, Merge, PlaceAfter, Trim, Sound;
    w, k1 := TurnStep(v, is15, k);
    DistinctSuffix(ListOf(v, is15), k);
    RestOf(v, is15, k);
  }

  /** Free blocks only grow, and only in their turns; the break moves only to a node's start. */
  lemma {:induction false} SweepFrame(v: Sweep, is15: bool, k: nat)
    requires WellFormed(v) && k <= |ListOf(v, is15)|
    ensures var w, R := SweepFrom(v, is15, k), ListOf(v, is15)[k..];
            && (w.brk != v.brk ==> w.brk in R)
            && forall a | a in w.free :: a in v.free && w.free[a] >= v.free[a] && (a in R || w.free[a] == v.free[a])
    decreases |ListOf(v, is15)| - k
  {
    hide WellFormed, Drop, Distinct, SweepFrom;
    if k == |ListOf(v, is15)| {
      SweepEnds(v, is15, k);
    } else {
      var cur := ListOf(v, is15)[k];
      var w, k1 := RestAfter(v, is15, k);
      MergeGrows(v, cur);
      RestStays(ListOf(v, is15)[k + 1..], v.free[cur]);
      if w.free[cur] != w.brk { SweepFrame(w, is15, k1 + 1); }
    }
  }

  lemma RestStays(R: seq<int>, n: int)
    requires Distinct(R)
    ensures forall a :: a in Drop(R, n) <==> a in R && a != n
    ensures Distinct(Drop(R, n))
  {
    DropKeeps(R, n);
  }

  lemma MergeGrows(v: Sweep, cur: int)
    requires WellFormed(v) && cur in v.free
    ensures var n, w := v.free[cur], Merge(v, cur);
            && cur < n <= v.brk && cur in w.free && w.free[cur] == (if n in v.free then v.free[n] else n)
            && w.free[cur] >= n
            && (forall a :: a in w.free <==> a in v.free && a != n)
            && (forall a | a in w.free && a != cur :: w.free[a] == v.free[a] && v.free[a] != n)
  {
  }

  /**
    What has become of node c, of the nodes R to be swept, between v and w. If its turn came, it has
    absorbed the free neighbour it had, if any, with all that this one had absorbed before, and does not
    end at the break. Its turn comes unless a block before it in the list is given back.
    */
  ghost predicate Absorbed(v: Sweep, w: Sweep, R: seq<int>, c: int)
    requires c in v.free && c in w.free
  {
    var n := v.free[c];
    if w.brk == v.brk || Precedes(R, c, w.brk) then
      && w.free[c] != v.brk
      && if n in v.free then n !in w.free && w.free[c] >= v.free[n] && (!Precedes(R, n, c) ==> w.free[c] == v.free[n])
         else w.free[c] == n
    else w.free[c] == n
  }

  /** A sweep has every block that is left, and whose turn came, absorb the free neighbour it had. */
  lemma {:induction false} SweepAbsorbs(v: Sweep, is15: bool, k: nat, c: int)
    requires WellFormed(v) && k <= |ListOf(v, is15)| && c in ListOf(v, is15)[k..] && c in SweepFrom(v, is15, k).free
    ensures c in v.free && Absorbed(v, SweepFrom(v, is15, k), ListOf(v, is15)[k..], c)
    decreases |ListOf(v, is15)| - k
  {
    hide WellFormed, Drop, Distinct, SweepFrom, Merge, Absorbed;
    var R, cur := ListOf(v, is15)[k..], ListOf(v, is15)[k];
    var w, k1 := RestAfter(v, is15, k);
    MergeGrows(v, cur);
    if w.free[cur] == w.brk {
      TurnTrims(v, w, R, c);
    } else {
      var n, R1, z := v.free[cur], ListOf(w, is15)[k1 + 1..], SweepFrom(w, is15, k1 + 1);
      SweepFrame(w, is15, k1 + 1);
      RestStays(R[1..], n);
      if c == cur {
        OwnTurn(v, w, z, R, c);
      } else {
        assert c in R1;
        SweepAbsorbs(w, is15, k1 + 1, c);
        LaterTurn(v, w, z, R, R1, c);
      }
    }
  }

  /** The last turn: c comes after the block that is given back. */
  lemma TurnTrims(v: Sweep, w: Sweep, R: seq<int>, c: int)
    requires R != [] && R[0] in w.free && R[0] !in R[1..] && c in R && c != R[0]
    requires w.brk == v.brk && w.free[R[0]] == v.brk && R[0] < v.brk
    requires c in v.free && c in w.free && w.free[c] == v.free[c]
    ensures Absorbed(v, Trim(w, R[0]), R, c)
  {
    if Precedes(R[1..], c, R[0]) { PrecededIn(R[1..], c, R[0]); }
  }

  /** The turn of c itself, with others to follow: z is how the sweep ends. */
  lemma OwnTurn(v: Sweep, w: Sweep, z: Sweep, R: seq<int>, c: int)
    requires R != [] && R[0] == c && c !in R[1..] && c in v.free && c in w.free && c in z.free && v.free[c] != c
    requires var n := v.free[c];
             && w.free[c] == (if n in v.free then v.free[n] else n) && n !in w.free
    requires w.free[c] != v.brk && z.free[c] == w.free[c] && (z.brk != v.brk ==> z.brk in R[1..])
    requires forall a | a in z.free :: a in w.free
    ensures Absorbed(v, z, R, c)
  {
    var n := v.free[c];
    if Precedes(R[1..], n, c) { PrecededIn(R[1..], n, c); }
  }

  /** The turn of another, in which cur = R[0] absorbs a neighbour or not, does not change what becomes of c. */
  lemma LaterTurn(v: Sweep, w: Sweep, z: Sweep, R: seq<int>, R1: seq<int>, c: int)
    requires R != [] && Distinct(R[1..]) && c in R[1..] && c != R[0] && R[0] in v.free && R[0] in w.free
    requires var n := v.free[R[0]];
             && R1 == (if n in v.free then Drop(R[1..], n) else R[1..])
             && w.free[R[0]] >= n && (n in v.free ==> w.free[R[0]] >= v.free[n])
             && (forall a :: a in w.free <==> a in v.free && a != n)
             && (forall a | a in w.free && a != R[0] :: w.free[a] == v.free[a] && v.free[a] != n)
    requires w.brk == v.brk && (z.brk != v.brk ==> z.brk in R1 && (v.free[R[0]] in v.free ==> z.brk != v.free[R[0]]))
    requires forall a | a in z.free :: a in w.free
    requires c in w.free && c in z.free && Absorbed(w, z, R1, c)
    ensures Absorbed(v, z, R, c)
  {
    var n, m, b := v.free[R[0]], v.free[c], z.brk;
    if n in v.free {
      if b != n { DropPrecedes(R[1..], n, c, b); }
      DropPrecedes(R[1..], n, m, c);
    }
    hide Drop, Distinct;
    assert Precedes(R, c, b) <==> Precedes(R[1..], c, b);
    if m in v.free {
      assert m == R[0] ==> Precedes(R, m, c);
      assert m != R[0] ==> (Precedes(R, m, c) <==> Precedes(R1, m, c)) && w.free[m] == v.free[m];
    }
  }

  /** A block that is gone was given back or is part of one that is left. */
  ghost predicate Accounted(v: Sweep, w: Sweep) {
    forall a | a in v.free :: a >= w.brk || exists c :: Within(v, w, a, c)
  }

  ghost predicate Within(v: Sweep, w: Sweep, a: int, c: int) {
    a in v.free && c in w.free && c <= a && v.free[a] <= w.free[c]
  }

  lemma {:induction false} SweepAccounts(v: Sweep, is15: bool, k: nat)
    requires WellFormed(v) && k <= |ListOf(v, is15)|
    ensures Accounted(v, SweepFrom(v, is15, k))
    decreases |ListOf(v, is15)| - k
  {
    hide WellFormed, Drop, Distinct, SweepFrom, Merge, Trim, Accounted, Within;
    if k == |ListOf(v, is15)| {
      SweepEnds(v, is15, k);
      SameAccounts(v);
    } else {
      var cur := ListOf(v, is15)[k];
      var w, k1 := RestAfter(v, is15, k);
      MergeAccounts(v, cur);
      if w.free[cur] == w.brk {
        TrimAccounts(w, cur);
      } else {
        SweepAccounts(w, is15, k1 + 1);
      }
      AccountedTwice(v, w, SweepFrom(v, is15, k));
    }
  }

  lemma SameAccounts(v: Sweep)
    ensures Accounted(v, v)
  {
    assert forall a | a in v.free :: Within(v, v, a, a);
  }

  lemma TrimAccounts(w: Sweep, cur: int)
    requires cur in w.free
    ensures Accounted(w, Trim(w, cur))
  {
    assert forall a | a in w.free && a != cur :: Within(w, Trim(w, cur), a, a);
  }

  /** Every free block of v is within one of w. */
  ghost predicate AllWithin(v: Sweep, w: Sweep) {
    forall a | a in v.free :: exists c :: Within(v, w, a, c)
  }

  lemma MergeAccounts(v: Sweep, cur: int)
    requires cur in v.free && WellFormed(v)
    ensures AllWithin(v, Merge(v, cur))
  {
    MergeGrows(v, cur);
    forall a | a in v.free
      ensures exists c :: Within(v, Merge(v, cur), a, c)
    {
      assert Within(v, Merge(v, cur), a, if a == v.free[cur] then cur else a);
    }
  }

  lemma AccountedTwice(v: Sweep, w: Sweep, z: Sweep)
    requires AllWithin(v, w) && Accounted(w, z)
    ensures Accounted(v, z)
  {
    forall a | a in v.free && a < z.brk
      ensures exists c :: Within(v, z, a, c)
    {
      var b :| Within(v, w, a, b);
      var c :| Within(w, z, b, c);
      assert Within(v, z, a, c);
    }
  }

  /** The nodes of L that are still free, in the same order. */
  function StillIn(L: seq<int>, F: map<int, int>): seq<int> {
    if L == [] then [] else (if L[0] in F then [L[0]] else []) + StillIn(L[1..], F)
  }

  lemma {:induction false} StillInDrop(L: seq<int>, n: int, F: map<int, int>)
    requires n !in F
    ensures StillIn(Drop(L, n), F) == StillIn(L, F)
    decreases |L|
  {
    if L != [] { StillInDrop(L[1..], n, F); }
  }

  lemma {:induction false} StillInAll(L: seq<int>, F: map<int, int>)
    requires forall a | a in L :: a in F
    ensures StillIn(L, F) == L
    decreases |L|
  {
    if L != [] {
      var a := L[0];
      assert a in L;
      StillInAll(L[1..], F);
      assert L == [L[0]] + L[1..];
    }
  }

  /** The lists lose the blocks that are gone, and nothing else. */
  lemma {:induction false} SweepLists(v: Sweep, is15: bool, k: nat)
    requires WellFormed(v) && k <= |ListOf(v, is15)|
    ensures var w := SweepFrom(v, is15, k); w.low == StillIn(v.low, w.free) && w.high == StillIn(v.high, w.free)
    decreases |ListOf(v, is15)| - k
  {
    hide WellFormed, Drop, Distinct, SweepFrom, Merge, StillIn, Trim;
    if k == |ListOf(v, is15)| {
      SweepEnds(v, is15, k);
      AllStillIn(v);
    } else {
      var cur := ListOf(v, is15)[k];
      var w, k1 := RestAfter(v, is15, k);
      if w.free[cur] == w.brk {
        TrimLists(w, cur);
      } else {
        SweepLists(w, is15, k1 + 1);
        SweepFrame(w, is15, k1 + 1);
      }
      MergeLists(v, cur, SweepFrom(v, is15, k).free);
    }
  }

  lemma AllStillIn(v: Sweep)
    requires WellFormed(v)
    ensures StillIn(v.low, v.free) == v.low && StillIn(v.high, v.free) == v.high
  {
    StillInAll(v.low, v.free);
    StillInAll(v.high, v.free);
  }

  lemma MergeLists(v: Sweep, cur: int, F: map<int, int>)
    requires WellFormed(v) && cur in v.free && forall a | a in F :: a in Merge(v, cur).free
    ensures StillIn(Merge(v, cur).low, F) == StillIn(v.low, F) && StillIn(Merge(v, cur).high, F) == StillIn(v.high, F)
  {
    MergeGrows(v, cur);
    StillInDrop(v.low, v.free[cur], F);
    StillInDrop(v.high, v.free[cur], F);
  }

  lemma TrimLists(w: Sweep, cur: int)
    requires WellFormed(w) && cur in w.free
    ensures forall a | a in Trim(w, cur).free :: a in w.free
    ensures var z := Trim(w, cur); z.low == StillIn(w.low, z.free) && z.high == StillIn(w.high, z.free)
  {
    var z := Trim(w, cur);
    UnlinkKeeps(w, cur);
    StillInDrop(w.low, cur, z.free);
    StillInDrop(w.high, cur, z.free);
    StillInAll(z.low, z.free);
    StillInAll(z.high, z.free);
  }

  /**
    What a sweep of list 15 or 16 does between v and w: every node of the list that is left has absorbed
    its free neighbour, if its turn came; the other blocks stay as they are; no space is lost; the break
    moves, if at all, to the start of a node; and the lists lose just the blocks that are gone.
    */
  ghost predicate SweptInto(v: Sweep, w: Sweep, is15: bool) {
    var L := ListOf(v, is15);
    && (forall c | c in w.free :: c in v.free && if c in L then Absorbed(v, w, L, c) else w.free[c] == v.free[c])
    && Accounted(v, w) && (w.brk == v.brk || (w.brk in L && w.brk < v.brk))
    && w.low == StillIn(v.low, w.free) && w.high == StillIn(v.high, w.free)
  }

  lemma SweepSweeps(v: Sweep, is15: bool)
    requires WellFormed(v)
    ensures SweptInto(v, SweepFrom(v, is15, 0), is15)
  {
    var L, w := ListOf(v, is15), SweepFrom(v, is15, 0);
    assert L[0..] == L && forall a | a in L :: a in v.free && a < v.brk;
    hide WellFormed, Absorbed, SweepFrom, Accounted;
    SweepFrame(v, is15, 0);
    SweepAccounts(v, is15, 0);
    SweepLists(v, is15, 0);
    forall c | c in w.free && c in L
      ensures Absorbed(v, w, L, c)
    {
      SweepAbsorbs(v, is15, 0, c);
    }
  }

  lemma SweepOutcome(v: Sweep, is15: bool)
    requires WellFormed(v) && Sound(v)
    ensures var w := SweepFrom(v, is15, 0);
            SweptInto(v, w, is15) && w.brk <= v.brk && (Sound(w) <==> !is15 || SweepSafe(v.free, v.brk, v.low, 0))
  {
    SweepSweeps(v, is15);
    if is15 { SweepSafeIff(v, 0); } else { HighSweepSound(v, 0); }
  }

  /** The first node's turn always comes: what it can absorb is there for the search. */
  lemma FirstMerges(v: Sweep, is15: bool, b: int)
    requires WellFormed(v) && ListOf(v, is15) != []
    requires var a := ListOf(v, is15)[0];
             a in v.free && v.free[a] in v.free && v.free[v.free[a]] != v.brk && v.free[v.free[a]] - a - META >= b
    ensures Holds(SweepFrom(v, is15, 0), is15, b)
  {
    var a := ListOf(v, is15)[0];
    var w, k1 := TurnStep(v, is15, 0);
    hide WellFormed, SweepFrom, Merge;
    assert ListOf(w, is15)[..k1 + 1][k1] == a;
    LargeStays(w, is15, k1 + 1, a, b);
  }
}
