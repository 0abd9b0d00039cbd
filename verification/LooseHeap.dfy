/**
  Heaps whose lists are in order, though the heads of lists 15 and 16 may point elsewhere and list 15 may
  hold blocks that have outgrown it. Such a heap can be read as a proper one or not; which is the case
  shows in the part of it that a sweep works on.
  */
module LooseHeaps {
  import opened HeapMemory
  import opened Sweeps
  import opened Sequences

  ghost function Firsts(lists: seq<seq<int>>): (h: seq<int>)
    ensures |h| == |lists| && forall i | 0 <= i < |lists| :: h[i] == At(lists[i], 0)
  {
    seq(|lists|, i requires 0 <= i < |lists| => At(lists[i], 0))
  }

  /** X are the blocks that have outgrown list 15. */
  ghost predicate Loose(m: seq<Cell>, heads: seq<int>, starts: set<int>, lists: seq<seq<int>>, X: set<int>) {
    && |heads| == CLASSES && Consistent(m, Firsts(lists), starts, lists, X)
    && (forall i | 0 <= i < 15 :: heads[i] == At(lists[i], 0))
    && (forall a | a in X :: a in lists[15] && HeadAt(m, a) && ClassOf(Size(m, a)) == 16)
    && (heads[15] == NULL ==> lists[15] == [])
  }

  /** Some assignment of starts and lists makes this memory a proper heap. */
  ghost predicate Readable(m: seq<Cell>, heads: seq<int>) {
    exists s, l :: Consistent(m, heads, s, l, {})
  }

  ghost function View(m: seq<Cell>, heads: seq<int>, starts: set<int>, lists: seq<seq<int>>): Sweep
    requires |lists| == |heads| == CLASSES
    requires forall a | a in starts :: HeadAt(m, a)
  {
    Sweep(Frees(m, starts), |m|, lists[15], lists[16], heads[15], heads[16])
  }

  lemma OverIff(m: seq<Cell>, starts: set<int>, a: int)
    requires forall b | b in starts :: HeadAt(m, b)
    requires a in starts && IsFree(m, a)
    ensures Over(Frees(m, starts), a) <==> ClassOf(Size(m, a)) == 16
  {
    ClassIff(Size(m, a), 16);
  }

  lemma ViewWellFormed(m: seq<Cell>, heads: seq<int>, starts: set<int>, lists: seq<seq<int>>, X: set<int>)
    requires Loose(m, heads, starts, lists, X)
    ensures WellFormed(View(m, heads, starts, lists))
  {
    var v := View(m, heads, starts, lists);
    forall a | a in v.free
      ensures 0 <= a && a + META < v.free[a] <= v.brk
    {
      assert HeadAt(m, a);
      EndInRegion(m, starts, a);
    }
    forall a | a in v.low
      ensures a in v.free && a !in v.high
    {
      var k :| 0 <= k < |lists[15]| && lists[15][k] == a;
    }
    forall a | a in v.high
      ensures a in v.free && Over(v.free, a)
    {
      OverIff(m, starts, a);
    }
  }

  /** A proper heap is a loose one, whose heads are right. */
  lemma ProperIsLoose(m: seq<Cell>, heads: seq<int>, starts: set<int>, lists: seq<seq<int>>)
    requires Consistent(m, heads, starts, lists, {})
    ensures heads == Firsts(lists) && Loose(m, heads, starts, lists, {}) && Sound(View(m, heads, starts, lists))
  {
    assert forall i | 0 <= i < CLASSES :: Chain(m, heads[i], lists[i]);
    assert heads == Firsts(lists);
    assert lists[15] != [] ==> HeadAt(m, lists[15][0]);
    forall a | a in lists[15]
      ensures a in Frees(m, starts) && !Over(Frees(m, starts), a)
    {
      OverIff(m, starts, a);
    }
  }

  lemma SoundIsProper(m: seq<Cell>, heads: seq<int>, starts: set<int>, lists: seq<seq<int>>, X: set<int>)
    requires Loose(m, heads, starts, lists, X) && Sound(View(m, heads, starts, lists))
    ensures Consistent(m, heads, starts, lists, {}) && X == {} && heads == Firsts(lists)
  {
    assert heads == Firsts(lists);
    forall a | a in X
      ensures false
    {
      OverIff(m, starts, a);
    }
  }

  /** Two properly linked lists that share a node are the same. */
  lemma {:induction false} ChainsMeet(m: seq<Cell>, L: seq<int>, M: seq<int>, p: nat, q: nat)
    requires Chain(m, At(L, 0), L) && Chain(m, At(M, 0), M) && p < |L| && q < |M| && L[p] == M[q]
    ensures L == M
    decreases p
  {
    assert HeadAt(m, L[p]) && HeadAt(m, M[q]);
    assert m[L[p]].m.prev == At(L, p - 1) && m[M[q]].m.prev == At(M, q - 1);
    if p == 0 {
      assert q > 0 ==> HeadAt(m, M[q - 1]);
      ChainUnique(m, L[0], L, M);
    } else {
      assert HeadAt(m, L[p - 1]);
      ChainsMeet(m, L, M, p - 1, q - 1);
    }
  }

  /** In any proper reading, a list that shares a block with one of ours is that list. */
  lemma ReadingMeets(m: seq<Cell>, heads: seq<int>, starts: set<int>, lists: seq<seq<int>>, X: set<int>,
                     s: set<int>, l: seq<seq<int>>, a: int, i: nat, j: nat)
    requires Loose(m, heads, starts, lists, X) && Consistent(m, heads, s, l, {})
    requires i < CLASSES && j < CLASSES && a in lists[i] && a in l[j]
    ensures lists[i] == l[j]
  {
    var p :| 0 <= p < |lists[i]| && lists[i][p] == a;
    var q :| 0 <= q < |l[j]| && l[j][q] == a;
    assert Chain(m, Firsts(lists)[i], lists[i]) && Chain(m, heads[j], l[j]);
    ChainsMeet(m, lists[i], l[j], p, q);
  }

  /** A proper reading of a loose heap is our own, and then nothing is loose about it. */
  lemma ReadingIsSound(m: seq<Cell>, heads: seq<int>, starts: set<int>, lists: seq<seq<int>>, X: set<int>,
                       s: set<int>, l: seq<seq<int>>)
    requires Loose(m, heads, starts, lists, X) && Consistent(m, heads, s, l, {})
    ensures Sound(View(m, heads, starts, lists))
  {
    TilingUnique(m, starts, s);
    assert Chain(m, heads[15], l[15]) && Chain(m, heads[16], l[16]);
    NoneOutgrown(m, heads, starts, lists, X, s, l);
    forall i | 15 <= i <= 16
      ensures heads[i] == At(lists[i], 0)
    {
      assert l[i] != [] ==> l[i][0] in l[i];
      if lists[i] != [] {
        assert lists[i][0] in lists[i];
        ReadingMeets(m, heads, starts, lists, X, s, l, lists[i][0], i, i);
      } else {
        ReadingListed(m, heads, starts, lists, X, s, l, i);
      }
    }
    forall a | a in lists[15]
      ensures a in Frees(m, starts) && !Over(Frees(m, starts), a)
    {
      OverIff(m, starts, a);
    }
  }

  /** What a proper reading has in list 15 or 16 is in ours too. */
  lemma ReadingListed(m: seq<Cell>, heads: seq<int>, starts: set<int>, lists: seq<seq<int>>, X: set<int>,
                      s: set<int>, l: seq<seq<int>>, i: nat)
    requires Loose(m, heads, starts, lists, X) && Consistent(m, heads, s, l, {}) && s == starts
    requires i < CLASSES && (X == {} || i == 15)
    ensures forall a | a in l[i] :: a in lists[i] && a in starts && ClassOf(Size(m, a)) == i
  {
  }

  /** A block that outgrew list 15 would make that list the reading's list 16, and leave its list 15 empty. */
  lemma NoneOutgrown(m: seq<Cell>, heads: seq<int>, starts: set<int>, lists: seq<seq<int>>, X: set<int>,
                     s: set<int>, l: seq<seq<int>>)
    requires Loose(m, heads, starts, lists, X) && Consistent(m, heads, s, l, {}) && s == starts
    ensures X == {}
  {
    assert Chain(m, heads[15], l[15]);
    ReadingListed(m, heads, starts, lists, X, s, l, 15);
    assert l[15] != [] ==> l[15][0] in l[15];
    assert forall a | a in l[16] :: ClassOf(Size(m, a)) == 16;
    assert l[15] != [] ==> !(lists[15] == l[16]);
    assert l[15] == [] ==> lists[15] == [];
    forall z
      ensures z !in X
    {
      if z in X {
        assert z in l[16];
        ReadingMeets(m, heads, starts, lists, X, s, l, z, 15, 16);
      }
    }
  }

  /** A loose heap can be read as a proper one exactly when its heads and its list 15 are in order. */
  lemma ReadableIff(m: seq<Cell>, heads: seq<int>, starts: set<int>, lists: seq<seq<int>>, X: set<int>)
    requires Loose(m, heads, starts, lists, X)
    ensures Readable(m, heads) <==> Sound(View(m, heads, starts, lists))
  {
    if Sound(View(m, heads, starts, lists)) {
      SoundIsProper(m, heads, starts, lists, X);
    }
    forall s, l | Consistent(m, heads, s, l, {})
      ensures Sound(View(m, heads, starts, lists))
    {
      ReadingIsSound(m, heads, starts, lists, X, s, l);
    }
  }

  // ------------------------------------------------------------ what unlinking, merging and trimming do

  lemma FirstsWithout(lists: seq<seq<int>>, i: nat, l: nat)
    requires i < |lists| && l < |lists[i]|
    ensures Firsts(lists[i := Without(lists[i], l)]) == if l == 0 then Firsts(lists)[i := At(lists[i], 1)] else Firsts(lists)
  {
  }

  /** h1 are the heads after `removeblock` took the l-th node, of class c, out of list i. */
  ghost predicate HeadsMoved(h0: seq<int>, h1: seq<int>, lists: seq<seq<int>>, i: nat, l: nat, c: nat)
    requires i < |lists| && l < |lists[i]| && c < |h0|
  {
    h1 == if l == 0 then h0[c := At(lists[i], 1)] else h0
  }

  /** A listed block is in the list of its class, or has outgrown list 15. */
  lemma ListedWhere(m: seq<Cell>, heads: seq<int>, starts: set<int>, lists: seq<seq<int>>, X: set<int>, i: nat, l: nat)
    requires Loose(m, heads, starts, lists, X) && i < CLASSES && l < |lists[i]|
    ensures var n := lists[i][l];
            && n in starts && IsFree(m, n)
            && (ClassOf(Size(m, n)) == i || (i == 15 && ClassOf(Size(m, n)) == 16))
  {
    var n := lists[i][l];
    assert n in lists[i];
    if n in X {
      var k :| 0 <= k < |lists[15]| && lists[15][k] == n;
      assert lists[i][l] == lists[15][k];
    }
  }

  lemma UnlinkView(m: seq<Cell>, h0: seq<int>, starts: set<int>, lists: seq<seq<int>>, X: set<int>, h1: seq<int>, i: nat, l: nat)
    requires Loose(m, h0, starts, lists, X) && i < CLASSES && l < |lists[i]|
    requires lists[i][l] in starts && HeadsMoved(h0, h1, lists, i, l, ClassOf(Size(m, lists[i][l])))
    ensures var n, l1 := lists[i][l], lists[i := Without(lists[i], l)];
            && n in Frees(m, starts) && |h1| == CLASSES
            && (forall j | 0 <= j < 15 :: h1[j] == At(l1[j], 0))
            && (h1[15] == NULL ==> l1[15] == [])
            && var u := Unlink(View(m, h0, starts, lists), n);
               u.low == l1[15] && u.high == l1[16] && u.h15 == h1[15] && u.h16 == h1[16]
  {
    var n, l1 := lists[i][l], lists[i := Without(lists[i], l)];
    ListedWhere(m, h0, starts, lists, X, i, l);
    OverIff(m, starts, n);
    DropFromList(lists, i, l, 15);
    DropFromList(lists, i, l, 16);
    FirstsWithout(lists, i, l);
    assert n == At(lists[15], 0) <==> i == 15 && l == 0 by { FirstWhere(m, starts, lists, X, i, l, 15); }
    assert n == At(lists[16], 0) <==> i == 16 && l == 0 by { FirstWhere(m, starts, lists, X, i, l, 16); }
    assert i == 15 && l == 0 && |lists[15]| > 1 ==> HeadAt(m, lists[15][1]) by {
      assert Chain(m, Firsts(lists)[15], lists[15]);
    }
    assert |lists| == CLASSES && n in Frees(m, starts);
    hide Consistent, Frees, Firsts, Drop, Without;
    forall j | 0 <= j < 15
      ensures h1[j] == At(l1[j], 0)
    {
      assert At(l1[j], 0) == Firsts(l1)[j];
    }
  }

  lemma FirstWhere(m: seq<Cell>, starts: set<int>, lists: seq<seq<int>>, X: set<int>, i: nat, l: nat, j: nat)
    requires Consistent(m, Firsts(lists), starts, lists, X) && i < CLASSES && l < |lists[i]| && j < CLASSES
    ensures lists[i][l] == At(lists[j], 0) <==> i == j && l == 0
  {
    assert Chain(m, Firsts(lists)[i], lists[i]);
    assert HeadAt(m, lists[i][l]);
  }

  /** What is outgrown when `cur` has absorbed n. */
  ghost function Outgrown(m1: seq<Cell>, l1: seq<seq<int>>, X: set<int>, cur: int, n: int): set<int>
    requires HeadAt(m1, cur) && |l1| == CLASSES
  {
    if ClassOf(Size(m1, cur)) == 16 && cur in l1[15] then X + {cur} - {n} else X - {cur} - {n}
  }

  lemma MergedView(m0: seq<Cell>, h0: seq<int>, s0: set<int>, l0: seq<seq<int>>, X: set<int>,
                   m1: seq<Cell>, h1: seq<int>, s1: set<int>, l1: seq<seq<int>>, cur: int, i: nat, l: nat)
    requires Loose(m0, h0, s0, l0, X) && (cur in l0[15] || cur in l0[16]) && cur in s0 && End(m0, cur) in s0
    requires IsFree(m0, End(m0, cur)) && End(m0, cur) != cur && s1 == s0 - {End(m0, cur)} && cur in s1
    requires Consistent(m1, Firsts(l1), s1, l1, X + {cur} - {End(m0, cur)}) && |m1| == |m0| && IsFree(m1, cur)
    requires Size(m1, cur) == Size(m0, cur) + META + Size(m0, End(m0, cur))
    requires forall b | b in s1 && b != cur :: Size(m1, b) == Size(m0, b) && IsFree(m1, b) == IsFree(m0, b)
    requires i < CLASSES && l < |l0[i]| && l0[i][l] == End(m0, cur) && l1 == l0[i := Without(l0[i], l)]
    requires HeadsMoved(h0, h1, l0, i, l, ClassOf(Size(m0, l0[i][l])))
    ensures |h1| == CLASSES && cur in Frees(m0, s0) && View(m1, h1, s1, l1) == Merge(View(m0, h0, s0, l0), cur)
    ensures (forall j | 0 <= j < 15 :: h1[j] == At(l1[j], 0)) && (h1[15] == NULL ==> l1[15] == [])
  {
    assert IsFree(m0, cur);
    UnlinkView(m0, h0, s0, l0, X, h1, i, l);
    MergedFrees(m0, s0, m1, s1, cur);
    hide Frees, Unlink, Firsts, Tiled, Linked, Filed, HeadsMoved;
    var n, v, w := End(m0, cur), View(m0, h0, s0, l0), View(m1, h1, s1, l1);
    assert v.free[cur] == n by { FreeEnd(m0, s0, cur); }
    assert w == Unlink(v, n).(free := v.free[cur := v.free[n]] - {n}) by { UnlinkBrk(v, n); }
  }

  lemma FreeEnd(m: seq<Cell>, starts: set<int>, a: int)
    requires forall b | b in starts :: HeadAt(m, b)
    requires a in starts && IsFree(m, a)
    ensures a in Frees(m, starts) && Frees(m, starts)[a] == End(m, a)
  {
  }

  lemma InFrees(m: seq<Cell>, starts: set<int>, a: int)
    requires forall b | b in starts :: HeadAt(m, b)
    requires a in Frees(m, starts)
    ensures a in starts && IsFree(m, a) && Frees(m, starts)[a] == End(m, a)
  {
  }

  lemma UnlinkBrk(v: Sweep, n: int)
    requires n in v.free
    ensures Unlink(v, n).brk == v.brk && Unlink(v, n).free == v.free
  {
  }

  lemma MergedExcuses(m0: seq<Cell>, h0: seq<int>, s0: set<int>, l0: seq<seq<int>>, X: set<int>,
                      m1: seq<Cell>, s1: set<int>, l1: seq<seq<int>>, cur: int, i: nat, l: nat)
    requires Loose(m0, h0, s0, l0, X) && (cur in l0[15] || cur in l0[16]) && cur in s0 && End(m0, cur) in s0
    requires IsFree(m0, End(m0, cur)) && End(m0, cur) != cur && s1 == s0 - {End(m0, cur)} && cur in s1
    requires Consistent(m1, Firsts(l1), s1, l1, X + {cur} - {End(m0, cur)}) && |m1| == |m0| && IsFree(m1, cur)
    requires Size(m1, cur) == Size(m0, cur) + META + Size(m0, End(m0, cur))
    requires forall b | b in s1 && b != cur :: Size(m1, b) == Size(m0, b) && IsFree(m1, b) == IsFree(m0, b)
    requires i < CLASSES && l < |l0[i]| && l0[i][l] == End(m0, cur) && l1 == l0[i := Without(l0[i], l)]
    ensures Consistent(m1, Firsts(l1), s1, l1, Outgrown(m1, l1, X, cur, End(m0, cur)))
    ensures forall a | a in Outgrown(m1, l1, X, cur, End(m0, cur)) :: a in l1[15] && HeadAt(m1, a) && ClassOf(Size(m1, a)) == 16
  {
    var n := End(m0, cur);
    WithoutDisjoint(l0, i, l);
    if !(ClassOf(Size(m1, cur)) == 16 && cur in l1[15]) {
      GrownIsRight(m0, h0, s0, l0, X, m1, l1, cur);
      NoExcuse(m1, Firsts(l1), s1, l1, X + {cur} - {n}, cur);
      assert X + {cur} - {n} - {cur} == X - {cur} - {n};
    }
    forall a | a in X && a != cur && a != n
      ensures a in l1[15] && HeadAt(m1, a) && ClassOf(Size(m1, a)) == 16
    {
      assert a in l0[15] && a in s1;
    }
  }

  /** After a merge into a block of list 15 or 16: loose as before, and the view has made the same step. */
  lemma MergedIsLoose(m0: seq<Cell>, h0: seq<int>, s0: set<int>, l0: seq<seq<int>>, X: set<int>,
                      m1: seq<Cell>, h1: seq<int>, s1: set<int>, l1: seq<seq<int>>, cur: int, i: nat, l: nat)
    requires Loose(m0, h0, s0, l0, X) && (cur in l0[15] || cur in l0[16]) && cur in s0 && End(m0, cur) in s0
    requires IsFree(m0, End(m0, cur)) && End(m0, cur) != cur && s1 == s0 - {End(m0, cur)} && cur in s1
    requires Consistent(m1, Firsts(l1), s1, l1, X + {cur} - {End(m0, cur)}) && |m1| == |m0| && IsFree(m1, cur)
    requires Size(m1, cur) == Size(m0, cur) + META + Size(m0, End(m0, cur))
    requires forall b | b in s1 && b != cur :: Size(m1, b) == Size(m0, b) && IsFree(m1, b) == IsFree(m0, b)
    requires i < CLASSES && l < |l0[i]| && l0[i][l] == End(m0, cur) && l1 == l0[i := Without(l0[i], l)]
    requires HeadsMoved(h0, h1, l0, i, l, ClassOf(Size(m0, l0[i][l])))
    ensures Loose(m1, h1, s1, l1, Outgrown(m1, l1, X, cur, End(m0, cur)))
    ensures cur in Frees(m0, s0) && View(m1, h1, s1, l1) == Merge(View(m0, h0, s0, l0), cur)
  {
    MergedView(m0, h0, s0, l0, X, m1, h1, s1, l1, cur, i, l);
    MergedExcuses(m0, h0, s0, l0, X, m1, s1, l1, cur, i, l);
    hide View, Outgrown, Firsts, Frees, Merge, Linked, Filed;
  }

  /** A block of list 16, or one of list 15 that has not outgrown it, is where its class says. */
  lemma GrownIsRight(m0: seq<Cell>, h0: seq<int>, s0: set<int>, l0: seq<seq<int>>, X: set<int>, m1: seq<Cell>, l1: seq<seq<int>>, cur: int)
    requires Loose(m0, h0, s0, l0, X) && |l1| == CLASSES && cur in s0 && HeadAt(m1, cur)
    requires (cur in l0[15] && cur in l1[15]) || (cur in l0[16] && cur in l1[16])
    requires Size(m0, cur) <= Size(m1, cur) && !(ClassOf(Size(m1, cur)) == 16 && cur in l1[15])
    ensures cur in l1[ClassOf(Size(m1, cur))]
  {
    var j := if cur in l0[15] then 15 else 16;
    var k :| 0 <= k < |l0[j]| && l0[j][k] == cur;
    ListedWhere(m0, h0, s0, l0, X, j, k);
    ClassIff(Size(m0, cur), ClassOf(Size(m0, cur)));
    ClassIff(Size(m1, cur), 15);
    ClassIff(Size(m1, cur), 16);
  }

  lemma TrimmedFrees(m0: seq<Cell>, m1: seq<Cell>, s0: set<int>, c: int)
    requires forall b | b in s0 :: HeadAt(m0, b)
    requires forall b | b in s0 - {c} :: HeadAt(m1, b) && Size(m1, b) == Size(m0, b) && IsFree(m1, b) == IsFree(m0, b)
    ensures Frees(m1, s0 - {c}) == Frees(m0, s0) - {c}
  {
    assert forall b | b in s0 - {c} :: End(m1, b) == End(m0, b);
  }

  lemma TrimmedView(m0: seq<Cell>, h0: seq<int>, h1: seq<int>, s0: set<int>, l0: seq<seq<int>>, X: set<int>,
                    m1: seq<Cell>, i: nat, k: nat)
    requires Loose(m0, h0, s0, l0, X) && i < CLASSES && k < |l0[i]| && l0[i][k] in s0 && |m1| == l0[i][k]
    requires HeadsMoved(h0, h1, l0, i, k, ClassOf(Size(m0, l0[i][k])))
    requires forall b | b in s0 - {l0[i][k]} :: HeadAt(m1, b) && Size(m1, b) == Size(m0, b) && IsFree(m1, b) == IsFree(m0, b)
    ensures var c, l1 := l0[i][k], l0[i := Without(l0[i], k)];
            && |h1| == CLASSES && c in Frees(m0, s0)
            && View(m1, h1, s0 - {c}, l1) == Trim(View(m0, h0, s0, l0), c)
            && (forall j | 0 <= j < 15 :: h1[j] == At(l1[j], 0)) && (h1[15] == NULL ==> l1[15] == [])
  {
    var c, l1 := l0[i][k], l0[i := Without(l0[i], k)];
    UnlinkView(m0, h0, s0, l0, X, h1, i, k);
    TrimmedFrees(m0, m1, s0, c);
    hide Frees, Unlink, Firsts, Linked, Filed, HeadsMoved;
    var v := View(m0, h0, s0, l0);
    assert View(m1, h1, s0 - {c}, l1) == Unlink(v, c).(free := v.free - {c}, brk := c);
  }

  /** After the last block, the k-th of list i, was unlinked and given back. */
  lemma TrimmedIsLoose(m0: seq<Cell>, mx: seq<Cell>, h0: seq<int>, h1: seq<int>, s0: set<int>,
                       l0: seq<seq<int>>, X: set<int>, i: nat, k: nat)
    requires Loose(m0, h0, s0, l0, X) && i < CLASSES && k < |l0[i]|
    requires HeadAt(m0, l0[i][k]) && End(m0, l0[i][k]) == |m0|
    requires CutOut(m0, mx, l0[i][k], At(l0[i], k - 1), At(l0[i], k + 1))
    requires Linked(mx, Firsts(l0[i := Without(l0[i], k)]), l0[i := Without(l0[i], k)])
    requires HeadsMoved(h0, h1, l0, i, k, ClassOf(Size(m0, l0[i][k])))
    ensures HeadAt(mx, l0[i][k]) && End(mx, l0[i][k]) == |mx|
    ensures var c, l1 := l0[i][k], l0[i := Without(l0[i], k)];
            var m1 := SetFree(mx, c, false)[..c];
            && Loose(m1, h1, s0 - {c}, l1, X - {c}) && Kept(m0, s0, m1, s0 - {c}, {})
            && c in Frees(m0, s0) && View(m1, h1, s0 - {c}, l1) == Trim(View(m0, h0, s0, l0), c)
            && forall b | b in s0 - {c} :: HeadAt(m1, b) && Size(m1, b) == Size(m0, b)
  {
    var c, l1 := l0[i][k], l0[i := Without(l0[i], k)];
    CutTrimmed(m0, mx, Firsts(l0), Firsts(l1), s0, l0, X, i, k);
    ListedWhere(m0, h0, s0, l0, X, i, k);
    var m1 := SetFree(mx, c, false)[..c];
    TrimmedView(m0, h0, h1, s0, l0, X, m1, i, k);
    TakenExcuses(m0, m1, s0, s0 - {c}, l0, X, i, k);
    hide View, Firsts, Frees, Trim, Linked, Filed, Kept, CutOut;
  }

  // ------------------------------------------------------------ where the head of list 15 may point

  /** The header of a block that was absorbed: marked live, in no list, somewhere inside a block. */
  ghost predicate Stale(m: seq<Cell>, starts: set<int>, h: int) {
    && HeadAt(m, h) && !IsFree(m, h) && m[h].m.next == NULL && m[h].m.prev == NULL && h !in starts
    && exists y {:trigger y in starts} :: y in starts && HeadAt(m, y) && y < h && h + META <= End(m, y)
  }

  /** The head of list 15 is right, or lost beyond the break, or was left at a block since absorbed. */
  ghost predicate HeadKnown(m: seq<Cell>, starts: set<int>, lists: seq<seq<int>>, h: int)
    requires |lists| == CLASSES
  {
    h == At(lists[15], 0) || h >= |m| || Stale(m, starts, h)
  }

  lemma StaleMerged(m0: seq<Cell>, s0: set<int>, m1: seq<Cell>, s1: set<int>, cur: int, h: int)
    requires Tiled(m0, s0) && Tiled(m1, s1) && Stale(m0, s0, h) && HeadsOnly(m0, m1, s0, |m1|) && |m1| == |m0|
    requires cur in s0 && cur in s1 && End(m0, cur) in s0 && s1 == s0 - {End(m0, cur)}
    requires Size(m1, cur) == Size(m0, cur) + META + Size(m0, End(m0, cur))
    requires forall b | b in s1 && b != cur :: Size(m1, b) == Size(m0, b)
    ensures Stale(m1, s1, h)
  {
    var n := End(m0, cur);
    var y :| y in s0 && HeadAt(m0, y) && y < h && h + META <= End(m0, y);
    assert m1[h] == m0[h];
    var y' := if y == n then cur else y;
    assert y' in s1 && HeadAt(m1, y') && y' < h && h + META <= End(m1, y');
  }

  /** What a merge does to the head of list 15: it stays known. */
  lemma KnownMerged(m0: seq<Cell>, h0: seq<int>, s0: set<int>, l0: seq<seq<int>>, X: set<int>,
                    m1: seq<Cell>, h1: seq<int>, s1: set<int>, l1: seq<seq<int>>, cur: int, i: nat, l: nat)
    requires Loose(m0, h0, s0, l0, X) && HeadKnown(m0, s0, l0, h0[15]) && Tiled(m1, s1)
    requires HeadsOnly(m0, m1, s0, |m1|) && |m1| == |m0|
    requires cur in s0 && cur in s1 && End(m0, cur) in s0 && s1 == s0 - {End(m0, cur)}
    requires Size(m1, cur) == Size(m0, cur) + META + Size(m0, End(m0, cur))
    requires forall b | b in s1 && b != cur :: Size(m1, b) == Size(m0, b)
    requires i < CLASSES && l < |l0[i]| && l0[i][l] == End(m0, cur) && l1 == l0[i := Without(l0[i], l)]
    requires var n := End(m0, cur); HeadAt(m1, n) && m1[n].m.next == NULL && m1[n].m.prev == NULL && !IsFree(m1, n)
    requires HeadsMoved(h0, h1, l0, i, l, ClassOf(Size(m0, l0[i][l])))
    ensures |h1| == CLASSES && HeadKnown(m1, s1, l1, h1[15])
  {
    ListedWhere(m0, h0, s0, l0, X, i, l);
    FirstsWithout(l0, i, l);
    assert At(l1[15], 0) == Firsts(l1)[15] && At(l0[15], 0) == Firsts(l0)[15];
    if Stale(m0, s0, h0[15]) { StaleMerged(m0, s0, m1, s1, cur, h0[15]); }
    if i == 15 && l == 0 {
      assert HeadAt(m0, cur) && HeadAt(m1, cur) && End(m0, cur) + META <= End(m1, cur);
      assert Stale(m1, s1, End(m0, cur));
    }
  }

  lemma StaleTrimmed(m0: seq<Cell>, s0: set<int>, m1: seq<Cell>, c: int, h: int)
    requires Tiled(m0, s0) && Stale(m0, s0, h) && c in s0 && End(m0, c) == |m0| && |m1| == c && h < c
    requires m1[h] == m0[h] && forall b | b in s0 - {c} :: HeadAt(m1, b) && Size(m1, b) == Size(m0, b)
    ensures Stale(m1, s0 - {c}, h)
  {
    var y :| y in s0 && HeadAt(m0, y) && y < h && h + META <= End(m0, y);
    LastBlock(m0, s0, c, y);
    assert y in s0 - {c} && HeadAt(m1, y) && h + META <= End(m1, y);
  }

  /** Likewise when the last block, the k-th of list i, is unlinked and given back. */
  lemma KnownTrimmed(m0: seq<Cell>, mx: seq<Cell>, h0: seq<int>, h1: seq<int>, s0: set<int>, l0: seq<seq<int>>, X: set<int>, i: nat, k: nat)
    requires Loose(m0, h0, s0, l0, X) && HeadKnown(m0, s0, l0, h0[15]) && i < CLASSES && k < |l0[i]|
    requires HeadAt(m0, l0[i][k]) && End(m0, l0[i][k]) == |m0| && HeadAt(mx, l0[i][k])
    requires CutOut(m0, mx, l0[i][k], At(l0[i], k - 1), At(l0[i], k + 1))
    requires HeadsMoved(h0, h1, l0, i, k, ClassOf(Size(m0, l0[i][k])))
    requires var c := l0[i][k];
             var m1 := SetFree(mx, c, false)[..c];
             forall b | b in s0 - {c} :: HeadAt(m1, b) && Size(m1, b) == Size(m0, b)
    ensures var c := l0[i][k];
            |h1| == CLASSES && HeadKnown(SetFree(mx, c, false)[..c], s0 - {c}, l0[i := Without(l0[i], k)], h1[15])
  {
    var c, l1 := l0[i][k], l0[i := Without(l0[i], k)];
    var m1 := SetFree(mx, c, false)[..c];
    ListedWhere(m0, h0, s0, l0, X, i, k);
    FirstsWithout(l0, i, k);
    assert At(l1[15], 0) == Firsts(l1)[15] && At(l0[15], 0) == Firsts(l0)[15];
    if Stale(m0, s0, h0[15]) && h0[15] < c {
      assert k > 0 ==> l0[i][k - 1] in l0[i];
      assert k + 1 < |l0[i]| ==> l0[i][k + 1] in l0[i];
      StaleTrimmed(m0, s0, m1, c, h0[15]);
    }
  }

  // ------------------------------------------------------------ serving a request

  /** A block was taken out of its list and marked live. */
  function Taken(v: Sweep, c: int): Sweep
    requires c in v.free
  {
    Unlink(v, c).(free := v.free - {c})
  }

  /**
    List 15 holds one block that has outgrown it, which is not first, and none besides that would do for
    the request; the heads are right. Then serving the request takes just that block away.
    */
  ghost predicate Repaired(v: Sweep, size: nat) {
    && v.h15 == At(v.low, 0) && v.h16 == At(v.high, 0) && (forall a | a in v.low :: a in v.free)
    && exists j | 0 < j < |v.low| ::
         Over(v.free, v.low[j])
         && forall a | a in v.low && a != v.low[j] :: !Over(v.free, a) && v.free[a] - a - META < size
  }

  lemma TakenSound(v: Sweep, c: int)
    requires WellFormed(v) && Sound(v) && c in v.free
    ensures Sound(Taken(v, c))
  {
    UnlinkKeeps(v, c);
  }

  /** What becomes of the two lists and their heads when the block at c of list 15 is taken. */
  lemma TakenParts(v: Sweep, c: int) returns (j: nat)
    requires WellFormed(v) && c in v.low && v.h15 == At(v.low, 0)
    ensures j < |v.low| && v.low[j] == c && (j == 0 <==> At(v.low, 0) == c) && c in v.free
    ensures var w := Taken(v, c);
            && w.h15 == (if j == 0 && !Over(v.free, c) then At(v.low, 1) else v.h15)
            && w.h16 == (if j == 0 && Over(v.free, c) then At(v.low, 1) else v.h16)
            && At(w.low, 0) == (if j == 0 then At(v.low, 1) else At(v.low, 0)) && At(w.high, 0) == At(v.high, 0)
            && (forall a :: a in w.low <==> a in v.low && a != c)
            && (forall a | a in w.low :: a in w.free && w.free[a] == v.free[a])
    ensures At(v.low, 0) != At(v.low, 1)
  {
    j :| 0 <= j < |v.low| && v.low[j] == c;
    DropKeeps(v.low, c);
    DropKeeps(v.high, c);
    assert v.high != [] ==> v.high[0] in v.high;
    assert v.low[0] in v.low;
    DropAbsent(v.high, c);
    hide Drop;
  }

  /** The best fit of a list 15 that is not in order: when taking it away sets things right. */
  lemma TakenSoundIff(v: Sweep, c: int, size: nat)
    requires WellFormed(v) && !Sound(v) && v.h15 == At(v.low, 0) && c in v.low && size <= BLOCK_SIZE[15]
    requires v.free[c] - c - META >= size
    requires forall a | a in v.low && v.free[a] - a - META >= size :: v.free[c] - c <= v.free[a] - a
    ensures Sound(Taken(v, c)) <==> Repaired(v, size)
  {
    var j := TakenParts(v, c);
    assert forall a | a in v.low :: a in v.free;
    hide WellFormed, Taken, Distinct, Drop;
    var w := Taken(v, c);
    if Sound(w) {
      assert forall a | a in v.low && a != c :: !Over(v.free, a) by {
        assert forall a | a in v.low && a != c :: a in w.low;
      }
      assert j > 0 && Over(v.free, c);
    }
    if Repaired(v, size) {
      var k :| 0 < k < |v.low| && Over(v.free, v.low[k])
        && forall a | a in v.low && a != v.low[k] :: !Over(v.free, a) && v.free[a] - a - META < size;
      assert v.low[k] == c;
      assert Over(v.free, c) && j > 0;
    }
  }

  lemma TakenView(m0: seq<Cell>, h0: seq<int>, h1: seq<int>, s0: set<int>, l0: seq<seq<int>>, X: set<int>,
                  m1: seq<Cell>, i: nat, k: nat)
    requires Loose(m0, h0, s0, l0, X) && i < CLASSES && k < |l0[i]| && l0[i][k] in s0 && |m1| == |m0|
    requires HeadsMoved(h0, h1, l0, i, k, ClassOf(Size(m0, l0[i][k])))
    requires forall b | b in s0 :: HeadAt(m1, b) && Size(m1, b) == Size(m0, b)
    requires forall b | b in s0 :: IsFree(m1, b) == (b != l0[i][k] && IsFree(m0, b))
    ensures var c, l1 := l0[i][k], l0[i := Without(l0[i], k)];
            && |h1| == CLASSES && c in Frees(m0, s0)
            && View(m1, h1, s0, l1) == Taken(View(m0, h0, s0, l0), c)
            && (forall j | 0 <= j < 15 :: h1[j] == At(l1[j], 0)) && (h1[15] == NULL ==> l1[15] == [])
            && Blocks(m1, s0) == Blocks(m0, s0)[c := Block(Size(m0, c), false)]
  {
    UnlinkView(m0, h0, s0, l0, X, h1, i, k);
    TakenFrees(m0, m1, s0, l0[i][k]);
    hide Frees, Unlink, Firsts, Linked, Filed, HeadsMoved, Blocks;
    var v := View(m0, h0, s0, l0);
    assert View(m1, h1, s0, l0[i := Without(l0[i], k)]) == Unlink(v, l0[i][k]).(free := v.free - {l0[i][k]});
  }

  lemma TakenIsLoose(m0: seq<Cell>, mx: seq<Cell>, h0: seq<int>, h1: seq<int>, s0: set<int>,
                     l0: seq<seq<int>>, X: set<int>, i: nat, k: nat)
    requires Loose(m0, h0, s0, l0, X) && i < CLASSES && k < |l0[i]|
    requires CutOut(m0, mx, l0[i][k], At(l0[i], k - 1), At(l0[i], k + 1))
    requires Linked(mx, Firsts(l0[i := Without(l0[i], k)]), l0[i := Without(l0[i], k)])
    requires l0[i][k] in s0 && HeadAt(m0, l0[i][k]) && HeadsMoved(h0, h1, l0, i, k, ClassOf(Size(m0, l0[i][k])))
    ensures HeadAt(mx, l0[i][k]) && IsFree(m0, l0[i][k])
    ensures var c, l1 := l0[i][k], l0[i := Without(l0[i], k)];
            var m1 := SetFree(mx, c, false);
            && Loose(m1, h1, s0, l1, X - {c}) && Kept(m0, s0, m1, s0, {c})
            && c in Frees(m0, s0) && View(m1, h1, s0, l1) == Taken(View(m0, h0, s0, l0), c)
            && Blocks(m1, s0) == Blocks(m0, s0)[c := Block(Size(m0, c), false)]
  {
    var c, l1 := l0[i][k], l0[i := Without(l0[i], k)];
    CutTaken(m0, mx, Firsts(l0), Firsts(l1), s0, l0, X, i, k);
    ListedWhere(m0, h0, s0, l0, X, i, k);
    var m1 := SetFree(mx, c, false);
    TakenView(m0, h0, h1, s0, l0, X, m1, i, k);
    TakenExcuses(m0, m1, s0, s0, l0, X, i, k);
    hide Firsts, Kept, CutOut, Blocks, Frees, View, Taken, Filed, Linked;
  }

  lemma TakenExcuses(m0: seq<Cell>, m1: seq<Cell>, s0: set<int>, s1: set<int>, l0: seq<seq<int>>, X: set<int>, i: nat, k: nat)
    requires |l0| == CLASSES && Disjoint(l0) && i < CLASSES && k < |l0[i]| && s0 - {l0[i][k]} <= s1 <= s0
    requires forall a | a in X :: a in l0[15] && HeadAt(m0, a) && ClassOf(Size(m0, a)) == 16
    requires forall a | a in l0[15] :: a in s0
    requires forall a | a in s1 :: HeadAt(m0, a) && HeadAt(m1, a) && Size(m1, a) == Size(m0, a)
    ensures forall a | a in X - {l0[i][k]} ::
              a in l0[i := Without(l0[i], k)][15] && HeadAt(m1, a) && ClassOf(Size(m1, a)) == 16
  {
    WithoutDisjoint(l0, i, k);
  }

  lemma TakenFrees(m0: seq<Cell>, m1: seq<Cell>, s: set<int>, c: int)
    requires forall b | b in s :: HeadAt(m0, b) && HeadAt(m1, b) && Size(m1, b) == Size(m0, b)
    requires c in s && !IsFree(m1, c) && forall b | b in s && b != c :: IsFree(m1, b) == IsFree(m0, b)
    ensures Frees(m1, s) == Frees(m0, s) - {c}
    ensures Blocks(m1, s) == Blocks(m0, s)[c := Block(Size(m0, c), false)]
  {
    assert forall b | b in s :: End(m1, b) == End(m0, b);
  }

  lemma ExcuseAlso(m: seq<Cell>, heads: seq<int>, starts: set<int>, lists: seq<seq<int>>, X: set<int>, c: int)
    requires Consistent(m, heads, starts, lists, X)
    ensures Consistent(m, heads, starts, lists, X + {c})
  {
  }

  lemma NoMerge(v: Sweep, cur: int)
    requires cur in v.free && v.free[cur] !in v.free
    ensures Merge(v, cur) == v
  {
  }

  /** Nodes are never NULL, so a walk that arrives there is past the last one. */
  lemma FirstOrNone(m: seq<Cell>, starts: set<int>, lists: seq<seq<int>>, X: set<int>, i: nat, k: nat)
    requires Consistent(m, Firsts(lists), starts, lists, X) && i < CLASSES && k <= |lists[i]| && At(lists[i], k) == NULL
    ensures k == |lists[i]|
  {
    assert Chain(m, Firsts(lists)[i], lists[i]);
    assert k < |lists[i]| ==> HeadAt(m, lists[i][k]);
  }

  lemma LooseLinked(m: seq<Cell>, heads: seq<int>, starts: set<int>, lists: seq<seq<int>>, X: set<int>)
    requires Loose(m, heads, starts, lists, X)
    ensures |heads| == CLASSES && Linked(m, Firsts(lists), lists)
  {
  }

  /** Moving the break up by a live block changes nothing else. */
  lemma ExtendedIsLoose(m: seq<Cell>, heads: seq<int>, starts: set<int>, lists: seq<seq<int>>, X: set<int>, b: Meta)
    requires Loose(m, heads, starts, lists, X) && b.size >= 1 && !b.free
    ensures var m1, s1 := m + NewBlock(b), starts + {|m|};
            && Loose(m1, heads, s1, lists, X) && |m| !in starts && m1[|m|] == Head(b)
            && Kept(m, starts, m1, s1, {|m|}) && (forall a | a in starts :: m1[a] == m[a])
            && Blocks(m1, s1) == Blocks(m, starts)[|m| := Block(b.size, false)]
            && View(m1, heads, s1, lists) == View(m, heads, starts, lists).(brk := |m1|)
  {
    ExtendKept(m, Firsts(lists), starts, lists, X, b);
    var m1, s1 := m + NewBlock(b), starts + {|m|};
    ExtendedBlocks(m, starts, b, m1, s1);
    assert forall a | a in X :: a in starts;
    hide Firsts, Linked, Filed, Kept, Blocks, Frees, Tiled;
  }

  lemma ExtendedBlocks(m: seq<Cell>, starts: set<int>, b: Meta, m1: seq<Cell>, s1: set<int>)
    requires forall a | a in starts :: HeadAt(m, a) && HeadAt(m1, a) && m1[a] == m[a]
    requires s1 == starts + {|m|} && |m| !in starts && HeadAt(m1, |m|) && m1[|m|] == Head(b) && !b.free
    ensures Blocks(m1, s1) == Blocks(m, starts)[|m| := Block(b.size, false)]
    ensures Frees(m1, s1) == Frees(m, starts)
  {
  }

  /** A search that has to start at a wrong head is one of list 15, and sets nothing right. */
  lemma WrongHead(m: seq<Cell>, heads: seq<int>, starts: set<int>, lists: seq<seq<int>>, X: set<int>, i: nat, size: nat)
    requires Loose(m, heads, starts, lists, X) && i < CLASSES && (Sound(View(m, heads, starts, lists)) || i == 15)
    requires heads[i] != At(lists[i], 0) || heads[i] >= |m|
    ensures i == 15 && !Sound(View(m, heads, starts, lists)) && !Repaired(View(m, heads, starts, lists), size)
  {
    assert Chain(m, Firsts(lists)[i], lists[i]);
    assert lists[i] != [] ==> HeadAt(m, lists[i][0]);
  }

  /** If nothing in list 15 is large enough, nothing in it has outgrown it. */
  lemma NoFitNoRepair(m: seq<Cell>, heads: seq<int>, starts: set<int>, lists: seq<seq<int>>, X: set<int>, i: nat, size: nat)
    requires Loose(m, heads, starts, lists, X) && i == ClassOf(size) && (Sound(View(m, heads, starts, lists)) || i == 15)
    requires NoneFits(m, lists[i], size)
    ensures Repaired(View(m, heads, starts, lists), size) ==> Sound(View(m, heads, starts, lists))
  {
    var v := View(m, heads, starts, lists);
    ClassIff(size, 15);
    if i == 15 {
      forall a | a in v.low
        ensures a in v.free && !Over(v.free, a)
      {
        InFrees(m, starts, a);
      }
      assert forall j | 0 < j < |v.low| :: v.low[j] in v.low;
    }
  }

  /** What serving a request with the block at c of the request's list comes to. */
  lemma TakenServes(m0: seq<Cell>, s: set<int>, l0: seq<seq<int>>, m1: seq<Cell>, l1: seq<seq<int>>, c: int, size: nat,
                    v: Sweep, heads: seq<int>, X: set<int>)
    requires Loose(m0, heads, s, l0, X) && v == View(m0, heads, s, l0) && size > 0
    requires var i := ClassOf(size);
             && (Sound(v) || i == 15) && heads[i] == At(l0[i], 0) && c in l0[i] && HeadAt(m0, c) && Size(m0, c) >= size
             && (i >= 5 ==> Tightest(m0, l0[i], size, Size(m0, c))) && Chosen(m0, l0[i], size, c)
    requires |l1| == CLASSES && Tiled(m1, s) && |m1| == |m0| && l1 == DropAll(l0, c) && Kept(m0, s, m1, s, {c}) && c in s && !IsFree(m1, c)
    requires Blocks(m1, s) == Blocks(m0, s)[c := Block(Size(m0, c), false)]
    ensures c in v.free && (Sound(Taken(v, c)) <==> Sound(v) || Repaired(v, size))
    ensures Given(m0, s, m1, s, c, size) && Placed(m0, s, l0, m1, s, l1, c, size, true)
    ensures Sound(v) ==> HandedOut(m0, s, m1, s, l1, c, size, true)
  {
    var i := ClassOf(size);
    assert IsFree(m0, c) && c in s;
    FreeEnd(m0, s, c);
    TakenRepairs(m0, s, l0, c, size, v, heads, X);
    assert forall a | a in s :: Size(m1, a) == Size(m0, a) by {
      assert forall a | a in s :: Blocks(m1, s)[a].size == Blocks(m0, s)[a].size;
    }
    if Sound(v) {
      var k :| 0 <= k < |l0[i]| && l0[i][k] == c;
      ListedWhere(m0, heads, s, l0, X, i, k);
      SoundIsProper(m0, heads, s, l0, X);
      assert forall a | a in l1[i] :: a in l0[i] by { DropMembers(l0[i], c); }
      assert ClassOf(Size(m1, c)) == i;
      assert i >= 5 ==> Tightest(m1, l1[i], size, Size(m1, c));
    }
  }

  /** What a request leaves that finds v: all as it was, one block taken, or the break moved by a new one. */
  ghost predicate Answered(v: Sweep, w: Sweep, r: int, size: nat, reused: bool) {
    if r == NULL then w == v
    else if reused then r - META in v.free && w == Taken(v, r - META)
    else r == v.brk + META && w == v.(brk := r + size)
  }

  lemma Unanswered(v: Sweep, size: nat)
    ensures Answered(v, v, NULL, size, false)
  {
  }

  /** Blocks that a list holds are there for the search. */
  lemma HoldsFits(m: seq<Cell>, heads: seq<int>, starts: set<int>, lists: seq<seq<int>>, X: set<int>, is15: bool, size: nat)
    requires Loose(m, heads, starts, lists, X) && Holds(View(m, heads, starts, lists), is15, size)
    ensures !NoneFits(m, lists[if is15 then 15 else 16], size)
  {
    var v := View(m, heads, starts, lists);
    var z :| z in ListOf(v, is15) && Reaches(v, z, size);
    InFrees(m, starts, z);
  }

  /** The first block of L is large enough with its right neighbour, which is free and not the last block. */
  ghost predicate FirstWillDo(m: seq<Cell>, starts: set<int>, L: seq<int>, size: nat)
    requires forall a | a in starts :: HeadAt(m, a)
  {
    && L != [] && HeadAt(m, L[0])
    && var n := End(m, L[0]);
       n in starts && IsFree(m, n) && End(m, n) < |m| && size <= Size(m, L[0]) + META + Size(m, n)
  }

  /** Then a sweep of list 16 finds or makes a block that is large enough. */
  lemma FirstGrowsHolds(m: seq<Cell>, heads: seq<int>, starts: set<int>, lists: seq<seq<int>>, size: nat)
    requires Consistent(m, heads, starts, lists, {}) && FirstWillDo(m, starts, lists[16], size)
    ensures |heads| == CLASSES && Holds(SweepFrom(View(m, heads, starts, lists), false, 0), false, size)
  {
    var a, v := lists[16][0], View(m, heads, starts, lists);
    ProperIsLoose(m, heads, starts, lists);
    ViewWellFormed(m, heads, starts, lists, {});
    assert a in v.high;
    FreeEnd(m, starts, a);
    FreeEnd(m, starts, End(m, a));
    FirstMerges(v, false, size);
  }

  lemma {:induction false} DropMembers(L: seq<int>, c: int)
    ensures forall a | a in Drop(L, c) :: a in L
    decreases |L|
  {
    if L != [] { DropMembers(L[1..], c); }
  }

  lemma TakenRepairs(m0: seq<Cell>, s: set<int>, l0: seq<seq<int>>, c: int, size: nat, v: Sweep, heads: seq<int>, X: set<int>)
    requires Loose(m0, heads, s, l0, X) && v == View(m0, heads, s, l0) && c in v.free
    requires var i := ClassOf(size);
             && (Sound(v) || i == 15) && heads[i] == At(l0[i], 0) && c in l0[i] && HeadAt(m0, c) && Size(m0, c) >= size
             && (i >= 5 ==> Tightest(m0, l0[i], size, Size(m0, c)))
    ensures Sound(Taken(v, c)) <==> Sound(v) || Repaired(v, size)
  {
    ViewWellFormed(m0, heads, s, l0, X);
    if Sound(v) {
      TakenSound(v, c);
    } else {
      ClassIff(size, 15);
      InFrees(m0, s, c);
      forall a | a in v.low
        ensures a in v.free && v.free[a] == a + META + Size(m0, a)
      {
        InFrees(m0, s, a);
      }
      TakenSoundIff(v, c, size);
    }
  }

  lemma ZeroNotRepaired(m: seq<Cell>, heads: seq<int>, starts: set<int>, lists: seq<seq<int>>)
    requires Consistent(m, heads, starts, lists, {})
    ensures Readable(m, heads) && ClassOf(0) == 0
  {
  }

  /** Where each block is in the list of its class, the heads follow. */
  lemma HeadsFollow(lists: seq<seq<int>>, h0: seq<int>, h1: seq<int>, i: nat, l: nat)
    requires |lists| == CLASSES && i < CLASSES && l < |lists[i]| && h0 == Firsts(lists) && HeadsMoved(h0, h1, lists, i, l, i)
    ensures h1 == Firsts(lists[i := Without(lists[i], l)])
  {
    FirstsWithout(lists, i, l);
  }

  lemma ProperHeads(m: seq<Cell>, heads: seq<int>, starts: set<int>, lists: seq<seq<int>>)
    requires Consistent(m, heads, starts, lists, {})
    ensures |lists| == |heads| == CLASSES && heads[15] == At(lists[15], 0) && heads[16] == At(lists[16], 0)
  {
    ProperIsLoose(m, heads, starts, lists);
  }

  /** What unlinking the k-th node of a list, the block at c, starts from. */
  lemma NodeOfList(m: seq<Cell>, heads: seq<int>, starts: set<int>, lists: seq<seq<int>>, X: set<int>, i: nat, k: nat)
    requires Loose(m, heads, starts, lists, X) && i < CLASSES && k < |lists[i]|
    ensures lists[i][k] in starts && HeadAt(m, lists[i][k]) && IsFree(m, lists[i][k])
    ensures |heads| == CLASSES && Linked(m, Firsts(lists), lists)
    ensures lists[i := Without(lists[i], k)] == DropAll(lists, lists[i][k])
  {
    ListedWhere(m, heads, starts, lists, X, i, k);
    LooseLinked(m, heads, starts, lists, X);
    DropAllIs(lists, i, k);
  }

  lemma FoundInList(m: seq<Cell>, heads: seq<int>, starts: set<int>, lists: seq<seq<int>>, X: set<int>, i: nat, c: int) returns (k: nat)
    requires Loose(m, heads, starts, lists, X) && i < CLASSES && c in lists[i]
    ensures k < |lists[i]| && lists[i][k] == c && c in starts && HeadAt(m, c) && IsFree(m, c)
    ensures |heads| == CLASSES && Linked(m, Firsts(lists), lists)
    ensures lists[i := Without(lists[i], k)] == DropAll(lists, c)
  {
    k :| 0 <= k < |lists[i]| && lists[i][k] == c;
    NodeOfList(m, heads, starts, lists, X, i, k);
  }

  /** Where a search of list i walks: along the list, or from a head left behind to one absorbed block. */
  lemma WalkOf(m: seq<Cell>, heads: seq<int>, starts: set<int>, lists: seq<seq<int>>, X: set<int>, i: nat)
    requires Loose(m, heads, starts, lists, X) && HeadKnown(m, starts, lists, heads[15])
    requires i < CLASSES && (Sound(View(m, heads, starts, lists)) || i == 15)
    ensures var L := if heads[i] == At(lists[i], 0) then lists[i] else [heads[i]];
            && (heads[i] < |m| ==> Chain(m, heads[i], L))
            && (heads[i] == NULL ==> lists[i] == [] && heads[i] == At(lists[i], 0))
            && (heads[i] >= |m| ==> heads[i] != At(lists[i], 0))
            && (heads[i] != At(lists[i], 0) && heads[i] < |m| ==> HeadAt(m, heads[i]) && !IsFree(m, heads[i]))
            && forall a | a in lists[i] :: a in starts && HeadAt(m, a) && IsFree(m, a)
  {
    assert Chain(m, Firsts(lists)[i], lists[i]);
    if heads[i] == NULL { FirstOrNone(m, starts, lists, X, i, 0); }
    assert lists[i] != [] ==> HeadAt(m, lists[i][0]);
  }

  /** Writing to payloads does not change whether memory can be read as a heap, nor as which. */
  lemma CopyReadable(m: seq<Cell>, r: seq<Cell>, heads: seq<int>, starts: set<int>)
    requires Tiled(m, starts) && Tiled(r, starts) && SameLinksAt(m, r, starts)
    ensures Readable(r, heads) <==> Readable(m, heads)
    ensures forall l | Consistent(m, heads, starts, l, {}) :: Consistent(r, heads, starts, l, {})
  {
    forall s, l | Consistent(m, heads, s, l, {})
      ensures Consistent(r, heads, s, l, {})
    {
      SameHeadersRead(m, r, heads, starts, s, l);
    }
    forall s, l | Consistent(r, heads, s, l, {})
      ensures Consistent(m, heads, s, l, {})
    {
      SameHeadersRead(r, m, heads, starts, s, l);
    }
  }
}
