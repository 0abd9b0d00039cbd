/**
  What the allocator does when it does not sweep, as functions on the layout of the heap: the blocks, the
  order of the free lists, and the break. Addresses, headers, links and bytes are left out.
  */
module Layouts {
  import opened HeapMemory

  datatype Layout = Layout(blocks: map<int, Block>, lists: seq<seq<int>>, brk: int)

  ghost function LayoutOf(m: seq<Cell>, starts: set<int>, lists: seq<seq<int>>): Layout
    requires forall a | a in starts :: HeadAt(m, a)
  {
    Layout(Blocks(m, starts), lists, |m|)
  }

  function Behind(y: Layout, c: int): int
    requires c in y.blocks
  {
    c + META + y.blocks[c].size
  }

  /** The live block at c takes in its right neighbour, if that one is free. */
  ghost function Absorb(y: Layout, c: int): (z: Layout)
    requires c in y.blocks
    ensures c in z.blocks && |z.lists| == |y.lists|
  {
    var n := Behind(y, c);
    if n in y.blocks && y.blocks[n].free then
      Layout((y.blocks - {n})[c := Block(y.blocks[c].size + META + y.blocks[n].size, false)], DropAll(y.lists, n), y.brk)
    else y
  }

  /** Free, for a live block at c. */
  ghost function Release(y: Layout, c: int): Layout
    requires c in y.blocks && |y.lists| == CLASSES
  {
    var z := Absorb(y, c);
    var i := ClassOf(z.blocks[c].size);
    if i > 5 && Behind(z, c) == z.brk then Layout(z.blocks - {c}, z.lists, c)
    else Layout(z.blocks[c := Block(z.blocks[c].size, true)], z.lists[i := [c] + z.lists[i]], z.brk)
  }

  predicate Suits(y: Layout, a: int, size: nat) {
    a in y.blocks && y.blocks[a].size >= size
  }

  /** The first block of L that is large enough; NULL if there is none. */
  function FirstOf(y: Layout, L: seq<int>, size: nat): (c: int)
    ensures c == NULL || Suits(y, c, size)
  {
    if L == [] then NULL else if Suits(y, L[0], size) then L[0] else FirstOf(y, L[1..], size)
  }

  /** The smallest of them, and the first of that size. */
  function BestOf(y: Layout, L: seq<int>, size: nat): (c: int)
    ensures c == NULL || Suits(y, c, size)
  {
    if L == [] then NULL else
      var c := BestOf(y, L[1..], size);
      if Suits(y, L[0], size) && (c == NULL || y.blocks[L[0]].size <= y.blocks[c].size) then L[0] else c
  }

  function Find(y: Layout, size: nat): (c: int)
    requires |y.lists| == CLASSES
    ensures c == NULL || Suits(y, c, size)
  {
    var i := ClassOf(size);
    if i >= 5 then BestOf(y, y.lists[i], size) else FirstOf(y, y.lists[i], size)
  }

  /** Malloc, when it does not sweep: the layout afterwards, and the pointer returned. */
  ghost function Request(y: Layout, size: nat, granted: bool): (a: (Layout, int))
    requires |y.lists| == CLASSES
    ensures |a.0.lists| == CLASSES && forall c | c in y.blocks :: c in a.0.blocks
  {
    var c := Find(y, size);
    if size == 0 then (y, NULL)
    else if c != NULL then
      (Layout(y.blocks[c := Block(y.blocks[c].size, false)], DropAll(y.lists, c), y.brk), c + META)
    else if granted then (Layout(y.blocks[y.brk := Block(size, false)], y.lists, y.brk + META + size), y.brk + META)
    else (y, NULL)
  }

  /** Realloc of the live block at c, to a size other than 0. */
  ghost function Resize(y: Layout, c: int, size: nat, granted: bool): (Layout, int)
    requires c in y.blocks && |y.lists| == CLASSES
  {
    if y.blocks[c].size >= size then (y, c + META) else
      var z := Absorb(y, c);
      if z.blocks[c].size >= size then (z, c + META) else Relocate(z, c, size, granted)
  }

  /** Its last resort: a request, and if that succeeds the old block is freed. */
  ghost function Relocate(y: Layout, c: int, size: nat, granted: bool): (Layout, int)
    requires c in y.blocks && |y.lists| == CLASSES
  {
    var (w, r) := Request(y, size, granted);
    if r == NULL then (w, r) else (Release(w, c), r)
  }

  // ---- the search ----

  /** The nodes of L are free blocks, as the layout has them. */
  ghost predicate FreeNodes(y: Layout, m: seq<Cell>, L: seq<int>) {
    forall a | a in L :: HeadAt(m, a) && IsFree(m, a) && a in y.blocks && y.blocks[a].size == Size(m, a)
  }

  lemma {:induction false} FirstOfIs(y: Layout, m: seq<Cell>, L: seq<int>, size: nat, c: int)
    requires FreeNodes(y, m, L) && FirstAmong(m, L, size, c)
    ensures FirstOf(y, L, size) == c
    decreases |L|
  {
    if L != [] {
      var x := L[0];
      assert x in L;
      if Suits(y, x, size) {
        FirstIsFirst(m, L, size, c);
      } else {
        FirstOfTail(m, L, size, c);
        FirstOfIs(y, m, L[1..], size, c);
      }
    }
  }

  lemma FirstIsFirst(m: seq<Cell>, L: seq<int>, size: nat, c: int)
    requires L != [] && HeadAt(m, L[0]) && IsFree(m, L[0]) && Size(m, L[0]) >= size && FirstAmong(m, L, size, c)
    ensures c == L[0]
  {
    var x := L[0];
    assert x in L;
    forall k | 0 < k < |L|
      ensures !NoneAmong(m, L[..k], size)
    {
      assert L[..k][0] == x && x in L[..k];
    }
  }

  lemma FirstOfTail(m: seq<Cell>, L: seq<int>, size: nat, c: int)
    requires L != [] && HeadAt(m, L[0]) && !(IsFree(m, L[0]) && Size(m, L[0]) >= size) && FirstAmong(m, L, size, c)
    ensures FirstAmong(m, L[1..], size, c)
  {
    if c != NULL {
      var k :| 0 <= k < |L| && L[k] == c && HeadAt(m, c) && IsFree(m, c) && Size(m, c) >= size && NoneAmong(m, L[..k], size);
      assert k > 0;
      assert L[1..][k - 1] == c && L[1..][..k - 1] == L[..k][1..];
    }
  }

  lemma {:induction false} BestOfAt(y: Layout, m: seq<Cell>, L: seq<int>, size: nat)
    requires FreeNodes(y, m, L)
    ensures var c := BestOf(y, L, size);
            if c == NULL then NoneAmong(m, L, size) else exists k :: 0 <= k < |L| && L[k] == c && BestAt(m, L, size, k)
    decreases |L|
  {
    if L != [] {
      var x, M := L[0], L[1..];
      assert x in L && forall a | a in M :: a in L;
      assert forall a | a in L :: a == x || a in M;
      BestOfAt(y, m, M, size);
      var c := BestOf(y, M, size);
      assert forall j | 0 < j < |L| :: L[j] == M[j - 1];
      if BestOf(y, L, size) == x && Suits(y, x, size) && (c == NULL || y.blocks[x].size <= y.blocks[c].size) {
        assert BestAt(m, L, size, 0);
      } else if c != NULL {
        var k :| 0 <= k < |M| && M[k] == c && BestAt(m, M, size, k);
        assert BestAt(m, L, size, k + 1) && L[k + 1] == c;
      }
    }
  }

  lemma BestOfIs(y: Layout, m: seq<Cell>, L: seq<int>, size: nat, c: int)
    requires FreeNodes(y, m, L) && BestAmong(m, L, size, c)
    ensures BestOf(y, L, size) == c
  {
    BestOfAt(y, m, L, size);
    var d := BestOf(y, L, size);
    if c != NULL && d != NULL {
      var i :| 0 <= i < |L| && L[i] == c && BestAt(m, L, size, i);
      var j :| 0 <= j < |L| && L[j] == d && BestAt(m, L, size, j);
    }
  }

  lemma NoneFound(y: Layout, m: seq<Cell>, L: seq<int>, size: nat)
    requires FreeNodes(y, m, L) && NoneFits(m, L, size)
    ensures FirstOf(y, L, size) == NULL && BestOf(y, L, size) == NULL
  {
    FirstOfIs(y, m, L, size, NULL);
    BestOfIs(y, m, L, size, NULL);
  }

  lemma ListsFree(m: seq<Cell>, heads: seq<int>, starts: set<int>, lists: seq<seq<int>>, i: nat)
    requires Consistent(m, heads, starts, lists, {}) && i < CLASSES
    ensures FreeNodes(LayoutOf(m, starts, lists), m, lists[i])
  {
  }

  // ---- what the methods promise, as these functions ----

  lemma FoundIs(m: seq<Cell>, heads: seq<int>, starts: set<int>, lists: seq<seq<int>>, size: nat, c: int)
    requires Consistent(m, heads, starts, lists, {})
    requires var L := lists[ClassOf(size)]; if c == NULL then NoneFits(m, L, size) else Chosen(m, L, size, c)
    ensures Find(LayoutOf(m, starts, lists), size) == c
  {
    var y, L := LayoutOf(m, starts, lists), lists[ClassOf(size)];
    ListsFree(m, heads, starts, lists, ClassOf(size));
    hide FreeNodes, ClassOf, BestAmong, FirstAmong, NoneFits, LayoutOf;
    if c == NULL {
      NoneFound(y, m, L, size);
    } else if ClassOf(size) >= 5 {
      BestOfIs(y, m, L, size, c);
    } else {
      FirstOfIs(y, m, L, size, c);
    }
  }

  lemma PlacedIs(m0: seq<Cell>, heads: seq<int>, s0: set<int>, l0: seq<seq<int>>,
                 m1: seq<Cell>, s1: set<int>, l1: seq<seq<int>>, c: int, size: nat, granted: bool, reused: bool)
    requires Consistent(m0, heads, s0, l0, {}) && size > 0 && (forall a | a in s1 :: HeadAt(m1, a))
    requires Placed(m0, s0, l0, m1, s1, l1, c, size, reused) && (reused || (granted && NoneFits(m0, l0[ClassOf(size)], size)))
    ensures Request(LayoutOf(m0, s0, l0), size, granted) == (LayoutOf(m1, s1, l1), c + META)
  {
    assert reused ==> HeadAt(m0, c);
    FoundIs(m0, heads, s0, l0, size, if reused then c else NULL);
    hide Find, Blocks, ClassOf, DropAll, Chosen, NoneFits, Consistent;
    assert reused ==> Blocks(m0, s0)[c].size == Size(m0, c) by { BlockOf(m0, s0, c); }
  }

  lemma RefusedIs(m: seq<Cell>, heads: seq<int>, starts: set<int>, lists: seq<seq<int>>, size: nat, granted: bool)
    requires Consistent(m, heads, starts, lists, {})
    requires size == 0 || (!granted && NoneFits(m, lists[ClassOf(size)], size))
    ensures Request(LayoutOf(m, starts, lists), size, granted) == (LayoutOf(m, starts, lists), NULL)
  {
    if size > 0 { FoundIs(m, heads, starts, lists, size, NULL); }
  }

  lemma BlockOf(m: seq<Cell>, starts: set<int>, c: int)
    requires forall a | a in starts :: HeadAt(m, a)
    ensures c in Blocks(m, starts) <==> c in starts
    ensures c in starts ==> Blocks(m, starts)[c] == Block(Size(m, c), IsFree(m, c))
  {
  }

  lemma AbsorbIs(m: seq<Cell>, heads: seq<int>, starts: set<int>, lists: seq<seq<int>>, c: int)
    requires Consistent(m, heads, starts, lists, {}) && c in starts && !IsFree(m, c)
    ensures Absorb(LayoutOf(m, starts, lists), c)
            == Layout(AbsorbedBlocks(m, starts, c)[c := Block(MergedSize(m, starts, c), false)], DropAll(lists, End(m, c)), |m|)
  {
    var n := End(m, c);
    if !(n in starts && IsFree(m, n)) { NotDropped(m, heads, starts, lists, {}, n); }
    AbsorbShape(m, starts, lists, c);
  }

  lemma AbsorbShape(m: seq<Cell>, starts: set<int>, lists: seq<seq<int>>, c: int)
    requires (forall a | a in starts :: HeadAt(m, a)) && c in starts && !IsFree(m, c)
    requires var n := End(m, c); (n in starts && IsFree(m, n)) || DropAll(lists, n) == lists
    ensures Absorb(LayoutOf(m, starts, lists), c)
            == Layout(AbsorbedBlocks(m, starts, c)[c := Block(MergedSize(m, starts, c), false)], DropAll(lists, End(m, c)), |m|)
  {
    var n, B := End(m, c), Blocks(m, starts);
    BlockOf(m, starts, c);
    BlockOf(m, starts, n);
    hide DropAll, Blocks;
    assert B[c := B[c]] == B;
  }

  lemma GrownIs(m0: seq<Cell>, heads: seq<int>, s0: set<int>, l0: seq<seq<int>>,
                m1: seq<Cell>, s1: set<int>, l1: seq<seq<int>>, c: int)
    requires Consistent(m0, heads, s0, l0, {}) && c in s0 && !IsFree(m0, c) && (forall a | a in s1 :: HeadAt(m1, a))
    requires |m1| == |m0| && l1 == DropAll(l0, End(m0, c))
    requires Blocks(m1, s1) == AbsorbedBlocks(m0, s0, c)[c := Block(MergedSize(m0, s0, c), false)]
    ensures LayoutOf(m1, s1, l1) == Absorb(LayoutOf(m0, s0, l0), c)
  {
    AbsorbIs(m0, heads, s0, l0, c);
  }

  lemma CopiedIs(m0: seq<Cell>, m1: seq<Cell>, starts: set<int>, lists: seq<seq<int>>)
    requires SameLinksAt(m0, m1, starts)
    ensures LayoutOf(m1, starts, lists) == LayoutOf(m0, starts, lists)
  {
  }

  lemma FreedIs(m0: seq<Cell>, heads: seq<int>, s0: set<int>, l0: seq<seq<int>>,
                m1: seq<Cell>, s1: set<int>, l1: seq<seq<int>>, c: int)
    requires Consistent(m0, heads, s0, l0, {}) && c in s0 && !IsFree(m0, c) && (forall a | a in s1 :: HeadAt(m1, a))
    requires Freed(m0, s0, m1, s1, c) && FreedBlocks(m0, s0, l0, m1, s1, l1, c)
    ensures Release(LayoutOf(m0, s0, l0), c) == LayoutOf(m1, s1, l1)
  {
    AbsorbIs(m0, heads, s0, l0, c);
    var n, B := MergedSize(m0, s0, c), AbsorbedBlocks(m0, s0, c);
    UpdateAgain(B, c, Block(n, false), Block(n, true));
    hide Consistent, Absorb, Kept, Blocks, AbsorbedBlocks, MergedSize, DropAll;
  }

  // ---- freeing what was just requested ----

  /** All blocks lie below the break. */
  ghost predicate Bounded(y: Layout) {
    |y.lists| == CLASSES && forall a | a in y.blocks :: 0 <= a && Behind(y, a) <= y.brk
  }

  /**
    Freeing a new block at once undoes its request if it is large, and else leaves it first in its list;
    freeing a reused one moves it to the front of its list, unless it can absorb its neighbour or is
    large and last.
    */
  lemma RequestRelease(y: Layout, size: nat)
    requires Bounded(y) && size > 0
    ensures var (c, i, w) := (Find(y, size), ClassOf(size), Request(y, size, true).0);
            if c == NULL then
              Release(w, y.brk) == if i > 5 then y else Layout(y.blocks[y.brk := Block(size, true)], y.lists[i := [y.brk] + y.lists[i]], w.brk)
            else
              y.blocks[c].free && ClassOf(y.blocks[c].size) == i && !(i > 5 && Behind(y, c) == y.brk)
              && (Behind(y, c) in y.blocks ==> !y.blocks[Behind(y, c)].free) ==>
                Release(w, c) == Layout(y.blocks, DropAll(y.lists, c)[i := [c] + Drop(y.lists[i], c)], y.brk)
  {
    var (c, w) := (Find(y, size), Request(y, size, true).0);
    if c == NULL {
      assert y.brk !in y.blocks && Behind(w, y.brk) !in w.blocks;
      assert w.blocks - {y.brk} == y.blocks;
      assert w.blocks[y.brk := Block(size, true)] == y.blocks[y.brk := Block(size, true)];
    } else if y.blocks[c].free {
      assert w.blocks[c := Block(y.blocks[c].size, true)] == y.blocks;
    }
  }
}
