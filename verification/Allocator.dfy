/** The allocator: malloc, free and realloc over segregated free lists. */
module Allocators {
  import opened Bytes
  import opened HeapMemory
  import opened Sweeps
  import opened LooseHeaps
  import Layouts

  const SEARCH := 5
  const FREE := 5

  class Allocator {
    var mem: seq<Cell>            // the region up to sbrk(0); addresses count from its first byte
    const heads: array<int>       // freeList_head
    var defrag: nat
    ghost var starts: set<int>    // where the blocks start
    ghost var lists: seq<seq<int>> // what the free lists spell out
    ghost var outgrown: set<int>  // after a sweep: the blocks of list 15 that are too large for it

    /** Physical blocks tile the region and the 17 lists index exactly the free ones. */
    ghost predicate Valid()
      reads this, heads
    {
      Consistent(mem, heads[..], starts, lists, {})
    }

    /** What is left of that when a sweep may have upset lists 15 and 16. */
    ghost predicate Swept()
      reads this, heads
    {
      Loose(mem, heads[..], starts, lists, outgrown) && HeadKnown(mem, starts, lists, heads[15])
    }

    /** What a sweep works on. */
    ghost function Seen(): Sweep
      requires |lists| == heads.Length == CLASSES && forall a | a in starts :: HeadAt(mem, a)
      reads this, heads
    {
      View(mem, heads[..], starts, lists)
    }

    /** The blocks, the lists and the break, without addresses of headers, links and bytes. */
    ghost function Layout(): Layouts.Layout
      requires forall a | a in starts :: HeadAt(mem, a)
      reads this
    {
      Layouts.LayoutOf(mem, starts, lists)
    }

    ghost predicate Live(p: int)
      reads this
    {
      p - META in starts && HeadAt(mem, p - META) && !mem[p - META].m.free
    }

    constructor ()
      ensures Valid() && fresh(heads) && mem == [] && starts == {} && defrag == 0
      ensures forall i | 0 <= i < CLASSES :: lists[i] == []
    {
      mem := [];
      heads := new int[CLASSES](_ => NULL);
      defrag := 0;
      starts := {};
      lists := seq(CLASSES, _ => []);
      outgrown := {};
    }

    method GetIndex(size: nat) returns (index: nat)
      ensures index == ClassOf(size)
    {
      for i := 0 to 16
        invariant ClassOf(size) == ClassFrom(size, i)
      {
        if size <= BLOCK_SIZE[i] {
          return i;
        }
      }
      return 16;
    }

    /**
      Unlinks `cur`, the k-th node of list i. When it is first, the head that moves is that of its own
      class, whichever list it is in.
      */
    method RemoveBlock(cur: int, ghost i: nat, ghost k: nat)
      requires heads.Length == CLASSES && Linked(mem, Firsts(lists), lists)
      requires i < CLASSES && k < |lists[i]| && lists[i][k] == cur && HeadAt(mem, cur)
      modifies this`mem, this`lists, heads
      ensures lists == old(lists)[i := Without(old(lists)[i], k)] && Linked(mem, Firsts(lists), lists)
      ensures HeadsMoved(old(heads[..]), heads[..], old(lists), i, k, ClassOf(Size(old(mem), cur)))
      ensures CutOut(old(mem), mem, cur, At(old(lists)[i], k - 1), At(old(lists)[i], k + 1))
    {
      var index := GetIndex(Size(mem, cur));
      var prev, next := mem[cur].m.prev, mem[cur].m.next;
      assert Chain(mem, Firsts(lists)[i], lists[i]);
      assert k > 0 ==> HeadAt(mem, lists[i][k - 1]) && lists[i][k - 1] != cur by {
        assert k > 0 && lists[i][k - 1] == lists[i][k] ==> k - 1 == k;
      }
      assert k + 1 < |lists[i]| ==> HeadAt(mem, lists[i][k + 1]) && lists[i][k + 1] != cur by {
        assert k + 1 < |lists[i]| && lists[i][k + 1] == lists[i][k] ==> k + 1 == k;
      }
      assert 0 < k < |lists[i]| - 1 ==> lists[i][k - 1] != lists[i][k + 1];
      if prev != NULL && next != NULL {
        mem := SetNext(mem, prev, next);
        mem := SetPrev(mem, next, prev);
      } else if prev != NULL && next == NULL {
        mem := SetNext(mem, prev, NULL);
      } else if prev == NULL && next != NULL {
        heads[index] := next;
        mem := SetPrev(mem, next, NULL);
      } else {
        heads[index] := NULL;
      }
      mem := SetNext(mem, cur, NULL);
      mem := SetPrev(mem, cur, NULL);
      FirstsWithout(lists, i, k);
      CutLinked(old(mem), mem, Firsts(lists), Firsts(lists[i := Without(lists[i], k)]), lists, i, k);
      lists := lists[i := Without(lists[i], k)];
    }

    /** Links a block that is in no list in front of the list of its class. */
    method AddBlock(cur: int)
      requires Linked(mem, heads[..], lists)
      requires HeadAt(mem, cur)
      requires Unlisted(lists, cur)
      modifies this`mem, this`lists, heads
      ensures var i := ClassOf(Size(old(mem), cur));
              && lists == old(lists)[i := [cur] + old(lists)[i]]
              && PushedOn(old(mem), mem, cur, old(heads[i]))
      ensures Linked(mem, heads[..], lists)
    {
      var index := GetIndex(Size(mem, cur));
      assert Chain(mem, heads[..][index], lists[index]);
      if heads[index] == NULL {
        heads[index] := cur;
        mem := SetPrev(mem, cur, NULL);
        mem := SetNext(mem, cur, NULL);
      } else {
        assert lists[index][0] == heads[index] && lists[index][0] in lists[index];
        assert HeadAt(mem, lists[index][0]);
        mem := SetPrev(mem, heads[index], cur);
        mem := SetNext(mem, cur, heads[index]);
        mem := SetPrev(mem, cur, NULL);
        heads[index] := cur;
      }
      PushLinked(old(mem), mem, old(heads[..]), lists, index, cur);
      lists := lists[index := [cur] + lists[index]];
    }

    /** The first free block that is large enough, along the chain L from the head of the request's class. */
    method FirstFit(size: nat, ghost L: seq<int>) returns (r: int)
      requires heads.Length == CLASSES && Chain(mem, heads[ClassOf(size)], L)
      ensures FirstAmong(mem, L, size, r)
    {
      var index := GetIndex(size);
      ghost var k := 0;
      ChainNodes(mem, heads[index], L);
      hide Chain, ClassOf;
      if heads[index] == NULL { return NULL; }
      var cur := heads[index];
      while cur != NULL
        invariant 0 <= k <= |L| && cur == At(L, k)
        invariant NoneAmong(mem, L[..k], size)
        decreases |L| - k
      {
        assert L[..k + 1] == L[..k] + [L[k]];
        if IsFree(mem, cur) && Size(mem, cur) >= size {
          return cur;
        }
        cur := mem[cur].m.next;
        k := k + 1;
      }
      assert L[..k] == L;
      return NULL;
    }

    /** The smallest free block that is large enough, along the chain L from the head of the request's class. */
    method BestFit(size: nat, ghost L: seq<int>) returns (chosen: int)
      requires heads.Length == CLASSES && Chain(mem, heads[ClassOf(size)], L)
      ensures BestAmong(mem, L, size, chosen)
    {
      var index := GetIndex(size);
      ghost var k := 0;
      ChainNodes(mem, heads[index], L);
      BestOfNone(mem, L, size);
      hide Chain, ClassOf, BestAmong;
      chosen := NULL;
      if heads[index] == NULL { return; }
      var cur := heads[index];
      while cur != NULL
        invariant 0 <= k <= |L| && cur == At(L, k)
        invariant BestAmong(mem, L[..k], size, chosen)
        decreases |L| - k
      {
        BestGrows(mem, L, k, size, chosen);
        if IsFree(mem, cur) && Size(mem, cur) >= size {
          if chosen == NULL || Size(mem, chosen) > Size(mem, cur) {
            chosen := cur;
          }
        }
        cur := mem[cur].m.next;
        k := k + 1;
      }
      assert L[..k] == L;
    }

    /** As it is called, on blocks already marked live, splitting changes nothing. */
    method BlockSplitting(cur: int, size: nat)
      requires cur != NULL ==> HeadAt(mem, cur) && !IsFree(mem, cur)
    {
      if cur == NULL { return; }
      if !IsFree(mem, cur) { return; }
      assert false;
    }

    /**
      Folds the next block into the block at `cur` when that next block is free. `cur` itself may be
      live, or free and linked in some list; only a change of its class can then misfile it.
      */
    method CombineNext(cur: int, ghost X: set<int>) returns (ghost merged: bool, ghost i: nat, ghost l: nat)
      requires heads.Length == CLASSES && Consistent(mem, Firsts(lists), starts, lists, X) && cur in starts && cur in X
      requires forall a | a in X && a != cur :: a in lists[15]
      modifies this`mem, this`lists, this`starts, heads
      ensures cur in starts && Consistent(mem, Firsts(lists), starts, lists, if merged then X - {old(End(mem, cur))} else X)
      ensures merged <==> var n := old(End(mem, cur)); n in old(starts) && old(IsFree(mem, n))
      ensures merged ==>
                var n := old(End(mem, cur));
                && n != cur && starts == old(starts) - {n}
                && Size(mem, cur) == old(Size(mem, cur)) + META + old(Size(mem, n))
                && i < CLASSES && l < |old(lists)[i]| && old(lists)[i][l] == n
                && lists == old(lists)[i := Without(old(lists)[i], l)]
                && HeadsMoved(old(heads[..]), heads[..], old(lists), i, l, ClassOf(Size(old(mem), n)))
                && (n !in X ==> i == ClassOf(Size(old(mem), n)))
                && HeadAt(mem, n) && mem[n].m.next == NULL && mem[n].m.prev == NULL && !IsFree(mem, n)
      ensures !merged ==> mem == old(mem) && starts == old(starts) && lists == old(lists) && heads[..] == old(heads[..])
      ensures HeadsOnly(old(mem), mem, old(starts), |mem|) && |mem| == |old(mem)|
      ensures forall a | a in starts && a != cur ::
                HeadAt(old(mem), a) && Size(mem, a) == Size(old(mem), a) && IsFree(mem, a) == IsFree(old(mem), a)
      ensures IsFree(mem, cur) == old(IsFree(mem, cur))
    {
      hide Chain, Firsts, HeadsMoved;
      merged, i, l := false, 0, 0;
      var next := End(mem, cur);
      if next < |mem| && IsFree(mem, next) {
        merged := true;
        i := if next in X then 15 else ClassOf(Size(mem, next));
        l :| 0 <= l < |lists[i]| && lists[i][l] == next;
        Unfile(next, i, l, X);
        MergeConsistent(old(mem), mem, Firsts(old(lists)), Firsts(lists), starts, old(lists), X, cur, i, l);
        ghost var m := SetSize(SetFree(mem, next, false), cur, Size(old(mem), cur) + META + Size(old(mem), next));
        mem := SetFree(mem, next, false);
        mem := SetSize(mem, cur, Size(mem, cur) + META + Size(mem, next));
        assert mem == m;
        starts := starts - {next};
      }
    }

    method Unfile(cur: int, ghost i: nat, ghost l: nat, ghost X: set<int>)
      requires heads.Length == CLASSES && Consistent(mem, Firsts(lists), starts, lists, X)
      requires i < CLASSES && l < |lists[i]| && lists[i][l] == cur && cur in starts
      modifies this`mem, this`lists, heads
      ensures lists == old(lists)[i := Without(old(lists)[i], l)] && Linked(mem, Firsts(lists), lists)
      ensures HeadsMoved(old(heads[..]), heads[..], old(lists), i, l, ClassOf(Size(old(mem), cur)))
      ensures Relinked(old(mem), mem, starts)
      ensures forall a | a in starts :: HeadAt(old(mem), a) && HeadAt(mem, a) && Size(mem, a) == Size(old(mem), a)
      ensures mem[cur].m.next == NULL && mem[cur].m.prev == NULL
    {
      RemoveBlock(cur, i, l);
      CutRelinks(old(mem), mem, Firsts(old(lists)), starts, old(lists), X, i, l);
    }

    /** One turn of the sweep: merge `cur`, the k-th node of the list, with its right neighbour. */
    method SweepMerge(index: nat, cur: int, ghost k: nat)
      requires Swept() && 15 <= index < CLASSES && k < |lists[index]| && lists[index][k] == cur
      modifies this`mem, this`lists, this`starts, this`outgrown, heads
      ensures Swept() && cur in starts && cur in old(Seen()).free
      ensures Seen() == Merge(old(Seen()), cur) && Kept(old(mem), old(starts), mem, starts, {})
    {
      hide Chain, Kept, Stale, Merge, HeadsOnly, HeadsMoved;
      ListedWhere(mem, heads[..], starts, lists, outgrown, index, k);
      assert cur in lists[index];
      KeptSelf(mem, starts, {});
      FreeEnd(mem, starts, cur);
      if IsFree(mem, cur) {
        ExcuseAlso(mem, Firsts(lists), starts, lists, outgrown, cur);
        ghost var merged, i, l := CombineNext(cur, outgrown + {cur});
        if merged {
          SweepKept(old(mem), old(starts), mem, starts, cur);
          MergedIsLoose(old(mem), old(heads[..]), old(starts), old(lists), outgrown, mem, heads[..], starts, lists, cur, i, l);
          KnownMerged(old(mem), old(heads[..]), old(starts), old(lists), outgrown, mem, heads[..], starts, lists, cur, i, l);
          outgrown := Outgrown(mem, lists, outgrown, cur, old(End(mem, cur)));
        } else {
          NoMerge(old(Seen()), cur);
        }
      }
    }

    /** The end of a sweep: unlink the last block and give it back. */
    method SweepTrim(index: nat, cur: int, ghost k: nat)
      requires Swept() && index < CLASSES && k < |lists[index]| && lists[index][k] == cur
      requires HeadAt(mem, cur) && End(mem, cur) == |mem|
      modifies this`mem, this`lists, this`starts, this`outgrown, heads
      ensures Swept() && |mem| == cur && cur in old(Seen()).free
      ensures Seen() == Trim(old(Seen()), cur) && Kept(old(mem), old(starts), mem, starts, {})
    {
      hide Chain, Kept, Stale, Trim, HeadsMoved, Consistent, CutOut, Linked, HeadKnown, Firsts, Without, Frees;
      NodeOfList(mem, heads[..], starts, lists, outgrown, index, k);
      RemoveBlock(cur, index, k);
      ghost var m := SetFree(mem, cur, false)[..cur];
      TrimmedIsLoose(old(mem), mem, old(heads[..]), heads[..], starts, old(lists), outgrown, index, k);
      KnownTrimmed(old(mem), mem, old(heads[..]), heads[..], starts, old(lists), outgrown, index, k);
      mem := SetFree(mem, cur, false);
      mem := mem[..|mem| - (Size(mem, cur) + META)];
      starts := starts - {cur};
      outgrown := outgrown - {cur};
      assert mem == m;
    }

    /**
      Merges each block of one list with its right neighbour; gives the last block back. No live block is
      touched. What is left can be read as a heap if and only if the sweep was of list 16 or was safe.
      */
    method BlockCoalescing(index: nat)
      requires Valid() && 15 <= index < CLASSES
      modifies this`mem, this`lists, this`starts, this`outgrown, heads
      ensures Swept() && Kept(old(mem), old(starts), mem, starts, {})
      ensures Seen() == SweepFrom(old(Seen()), index == 15, 0)
      ensures SweptInto(old(Seen()), Seen(), index == 15) && |mem| <= |old(mem)|
      ensures Readable(mem, heads[..]) <==> index == 16 || SweepSafe(old(Frees(mem, starts)), |old(mem)|, old(lists)[15], 0)
      ensures Sound(Seen()) <==> Readable(mem, heads[..])
      ensures Readable(mem, heads[..]) ==> Valid()
    {
      hide Kept, Sound, SweepFrom, SweepSafe, SweptInto, Readable, Frees, WellFormed;
      outgrown := {};
      ProperIsLoose(mem, heads[..], starts, lists);
      ghost var v := Seen();
      ViewWellFormed(mem, heads[..], starts, lists, {});
      SweepList(index);
      SweepOutcome(v, index == 15);
      ReadableIff(mem, heads[..], starts, lists, outgrown);
      if Sound(Seen()) { SoundIsProper(mem, heads[..], starts, lists, outgrown); }
    }

    /** The turn of `cur`, the k-th node: afterwards either the sweep is over or `next` has its turn. */
    method SweepTurn(index: nat, cur: int, ghost k: nat) returns (over: bool, next: int, ghost k1: nat)
      requires Swept() && 15 <= index < CLASSES && k < |lists[index]| && lists[index][k] == cur
      modifies this`mem, this`lists, this`starts, this`outgrown, heads
      ensures Swept() && Kept(old(mem), old(starts), mem, starts, {})
      ensures over ==> Seen() == SweepFrom(old(Seen()), index == 15, k)
      ensures !over ==>
                && SweepFrom(Seen(), index == 15, k1) == SweepFrom(old(Seen()), index == 15, k)
                && k1 <= |lists[index]| && next == At(lists[index], k1) && |lists[index]| - k1 < |old(lists)[index]| - k
    {
      hide Kept, Stale, SweepFrom, Merge, Trim, Filed, HeadKnown, WellFormed, Disjoint, Frees;
      ghost var v := Seen();
      ViewWellFormed(mem, heads[..], starts, lists, outgrown);
      ghost var w, k' := NextTurn(v, index == 15, k);
      SweepMerge(index, cur, k);
      ghost var m0, s0 := mem, starts;
      assert lists[index] == ListOf(w, index == 15);
      assert Chain(mem, Firsts(lists)[index], lists[index]);
      EndInRegion(mem, starts, cur);
      InFrees(mem, starts, cur);
      over, next, k1 := End(mem, cur) >= |mem|, mem[cur].m.next, k' + 1;
      if over {
        SweepTrim(index, cur, k');
        KeptAlong(old(mem), old(starts), m0, s0, mem, starts);
      }
    }

    /** The loop of the sweep. */
    method SweepList(index: nat)
      requires Swept() && 15 <= index < CLASSES && heads[index] == At(lists[index], 0)
      modifies this`mem, this`lists, this`starts, this`outgrown, heads
      ensures Swept() && Kept(old(mem), old(starts), mem, starts, {})
      ensures Seen() == SweepFrom(old(Seen()), index == 15, 0)
    {
      hide Kept, SweepFrom, HeadKnown, Chain, Disjoint, Filed;
      ghost var k := 0;
      KeptSelf(mem, starts, {});
      if heads[index] == NULL {
        FirstOrNone(mem, starts, lists, outgrown, index, 0);
        SweepEnds(Seen(), index == 15, 0);
        return;
      }
      var cur := heads[index];
      while cur != NULL
        invariant Swept() && 0 <= k <= |lists[index]| && cur == At(lists[index], k)
        invariant SweepFrom(Seen(), index == 15, k) == SweepFrom(old(Seen()), index == 15, 0)
        invariant Kept(old(mem), old(starts), mem, starts, {})
        decreases |lists[index]| - k
      {
        ghost var m0, s0 := mem, starts;
        var over, next;
        over, next, k := SweepTurn(index, cur, k);
        KeptAlong(old(mem), old(starts), m0, s0, mem, starts);
        if over { return; }
        cur := next;
      }
      FirstOrNone(mem, starts, lists, outgrown, index, k);
      SweepEnds(Seen(), index == 15, k);
    }

    /** A request of this size sweeps a list first: every one of class 16, every seventh of class 15. */
    ghost predicate Sweeps(size: nat)
      reads this
    {
      ClassOf(size) == 16 || (ClassOf(size) == 15 && defrag >= 6)
    }

    /** When a request of this size would sweep list 15, the sweep is safe. */
    ghost predicate SweepReady(size: nat)
      requires Valid()
      reads this, heads
    {
      ClassOf(size) == 15 && defrag >= 6 ==> SweepSafe(Frees(mem, starts), |mem|, lists[15], 0)
    }

    /** What the sweep of such a request, if there is one, leaves to search. */
    ghost function SeenBySearch(size: nat): Sweep
      requires Valid()
      reads this, heads
    {
      if Sweeps(size) then SweepFrom(Seen(), ClassOf(size) == 15, 0) else Seen()
    }

    /** What that means for the blocks. */
    lemma SweptForSearch(size: nat)
      requires Valid()
      ensures SeenBySearch(size).brk <= |mem|
      ensures Sweeps(size) ==> SweptInto(Seen(), SeenBySearch(size), ClassOf(size) == 15)
    {
      ProperIsLoose(mem, heads[..], starts, lists);
      ViewWellFormed(mem, heads[..], starts, lists, {});
      SweepSweeps(Seen(), ClassOf(size) == 15);
    }

    /** The first block of list 16 will do once it has absorbed its free neighbour, which is not the last block. */
    ghost predicate FirstGrows(size: nat)
      requires Valid()
      reads this, heads
    {
      FirstWillDo(mem, starts, lists[16], size)
    }

    /** A request of this size leaves a heap: the sweep is safe, or the request sets right what it upset. */
    ghost predicate LeavesHeap(size: nat)
      requires Valid()
      reads this, heads
    {
      SweepReady(size) || Repaired(SeenBySearch(size), size)
    }

    /** Likewise when the live block at `cur` absorbs its free right neighbour before that request. */
    ghost predicate LeavesHeapAfterMerge(cur: int, size: nat)
      requires Valid() && HeadAt(mem, cur)
      reads this, heads
    {
      var n := End(mem, cur);
      var low, high := Drop(lists[15], n), Drop(lists[16], n);
      var v := Sweep(Frees(mem, starts) - {n}, |mem|, low, high, At(low, 0), At(high, 0));
      ClassOf(size) == 15 && defrag >= 6 ==> SweepSafe(v.free, v.brk, v.low, 0) || Repaired(SweepFrom(v, true, 0), size)
    }

    /** The sweeps a request triggers before it looks for a block. */
    method Defragment(size: nat, index: nat)
      requires Valid() && index == ClassOf(size)
      modifies this, heads
      ensures Swept() && Kept(old(mem), old(starts), mem, starts, {})
      ensures Seen() == old(SeenBySearch(size))
      ensures Sound(Seen()) <==> Readable(mem, heads[..])
      ensures Readable(mem, heads[..]) <==> old(SweepReady(size))
      ensures Readable(mem, heads[..]) ==> Valid()
      ensures !old(Sweeps(size)) ==> mem == old(mem) && starts == old(starts) && lists == old(lists)
      ensures defrag == if index != 15 then old(defrag) else if old(defrag) >= 6 then 0 else old(defrag) + 1
    {
      hide Kept, Consistent, Sound, SweepFrom, SweepSafe, Readable, Loose, HeadKnown, Frees;
      if index == 16 {
        BlockCoalescing(16);
        return;
      }
      if index == 15 {
        defrag := defrag + 1;
        if defrag > 6 {
          BlockCoalescing(15);
          defrag := 0;
          return;
        }
      }
      NoSweep();
    }

    /** A heap that was not swept is in order. */
    ghost method NoSweep()
      requires Valid()
      modifies this`outgrown
      ensures Swept() && Sound(Seen()) && Readable(mem, heads[..]) && Kept(mem, starts, mem, starts, {})
    {
      KeptSelf(mem, starts, {});
      outgrown := {};
      ProperIsLoose(mem, heads[..], starts, lists);
      ReadableIff(mem, heads[..], starts, lists, outgrown);
    }

    /** Searches the list of the request's class; `lost` when the head of the list lies beyond the break. */
    method Fit(size: nat, index: nat) returns (block: int, lost: bool)
      requires Swept() && index == ClassOf(size) && (Sound(Seen()) || index == 15)
      ensures lost <==> heads[index] >= |mem|
      ensures !lost && block == NULL && heads[index] == At(lists[index], 0) ==> NoneFits(mem, lists[index], size)
      ensures block != NULL ==>
                && !lost && heads[index] == At(lists[index], 0)
                && block in lists[index] && HeadAt(mem, block) && Size(mem, block) >= size
                && (index >= SEARCH ==> Tightest(mem, lists[index], size, Size(mem, block)))
                && Chosen(mem, lists[index], size, block)
    {
      block, lost := NULL, false;
      ghost var L := if heads[index] == At(lists[index], 0) then lists[index] else [heads[index]];
      WalkOf(mem, heads[..], starts, lists, outgrown, index);
      hide Chain, Consistent, Loose, HeadKnown, Frees, Sound, BestAmong, FirstAmong, Tightest;
      if heads[index] != NULL {
        if heads[index] >= |mem| { return NULL, true; }
        var c := GetIndex(size);
        if c >= SEARCH {
          block := BestFit(size, L);
        } else {
          block := FirstFit(size, L);
        }
        Searched(mem, lists[index], L, heads[index] == At(lists[index], 0), size, block, c >= SEARCH);
      }
    }

    /** Unlinks a free block of list `index` and marks it live. */
    method Take(block: int, ghost index: nat)
      requires Swept() && index < CLASSES && block in lists[index]
      modifies this`mem, this`lists, this`outgrown, heads
      ensures Loose(mem, heads[..], starts, lists, outgrown) && block in starts && !IsFree(mem, block)
      ensures IsFree(old(mem), block) && block in old(Seen()).free && Seen() == Taken(old(Seen()), block)
      ensures Kept(old(mem), starts, mem, starts, {block})
      ensures |mem| == |old(mem)| && Blocks(mem, starts) == Blocks(old(mem), starts)[block := Block(Size(old(mem), block), false)]
      ensures lists == DropAll(old(lists), block)
    {
      hide Chain, Kept, Consistent, CutOut, Linked, HeadKnown, Taken, Blocks, Firsts, DropAll, Without, Frees, HeadsMoved, Stale;
      ghost var k := FoundInList(mem, heads[..], starts, lists, outgrown, index, block);
      RemoveBlock(block, index, k);
      TakenIsLoose(old(mem), mem, old(heads[..]), heads[..], starts, old(lists), outgrown, index, k);
      mem := SetFree(mem, block, false);
      outgrown := outgrown - {block};
    }

    /** Moves the break up by one live block. */
    method Extend(size: nat) returns (r: int)
      requires Loose(mem, heads[..], starts, lists, outgrown) && size >= 1
      modifies this`mem, this`starts
      ensures Loose(mem, heads[..], starts, lists, outgrown)
      ensures r == |old(mem)| + META && |mem| == r + size && starts == old(starts) + {r - META} && r - META !in old(starts)
      ensures !IsFree(mem, r - META) && Size(mem, r - META) == size
      ensures Kept(old(mem), old(starts), mem, starts, {r - META})
      ensures Blocks(mem, starts) == Blocks(old(mem), old(starts))[r - META := Block(size, false)]
      ensures Seen() == old(Seen()).(brk := |mem|)
      ensures forall a | a in old(starts) :: mem[a] == old(mem)[a]
    {
      hide Kept, Firsts, Blocks, Linked;
      var b := Meta(size, false, NULL, NULL);
      ExtendedIsLoose(mem, heads[..], starts, lists, outgrown, b);
      r := |mem| + META;
      starts := starts + {|mem|};
      mem := mem + NewBlock(b);
    }

    /** The rest of a request, once the sweeps are done: take a fitting free block, or a new one. */
    method Serve(size: nat, index: nat, granted: bool) returns (r: int, ghost reused: bool, lost: bool)
      requires Swept() && size > 0 && index == ClassOf(size) && (Sound(Seen()) || index == 15)
      modifies this`mem, this`lists, this`starts, this`outgrown, heads
      ensures Loose(mem, heads[..], starts, lists, outgrown)
      ensures lost <==> old(heads[index]) >= |old(mem)|
      ensures lost ==> index == 15 && !old(Sound(Seen())) && !Repaired(old(Seen()), size)
      ensures r == NULL ==> mem == old(mem) && starts == old(starts) && lists == old(lists) && heads[..] == old(heads[..])
      ensures if r == NULL then !reused && (lost || !granted) else reused || granted
      ensures reused ==> |mem| == |old(mem)|
      ensures !lost && !reused && old(Sound(Seen())) ==> NoneFits(old(mem), old(lists)[index], size)
      ensures Answered(old(Seen()), Seen(), r, size, reused)
      ensures r != NULL ==>
                && !lost && Given(old(mem), old(starts), mem, starts, r - META, size)
                && Placed(old(mem), old(starts), old(lists), mem, starts, lists, r - META, size, reused)
      ensures r != NULL && old(Sound(Seen())) ==>
                HandedOut(old(mem), old(starts), mem, starts, lists, r - META, size, reused)
      ensures Readable(mem, heads[..]) <==> old(Sound(Seen())) || Repaired(old(Seen()), size)
      ensures Readable(mem, heads[..]) ==> Valid()
    {
      hide Kept, Repaired, Tightest, HandedOut, Given, Placed, Sound, HeadKnown, Chain, Disjoint, Filed, Answered, NoneFits;
      r, reused, lost := ServeLoose(size, index, granted);
      ReadableIff(mem, heads[..], starts, lists, outgrown);
      if Sound(Seen()) { SoundIsProper(mem, heads[..], starts, lists, outgrown); }
    }

    method ServeLoose(size: nat, index: nat, granted: bool) returns (r: int, ghost reused: bool, lost: bool)
      requires Swept() && size > 0 && index == ClassOf(size) && (Sound(Seen()) || index == 15)
      modifies this`mem, this`lists, this`starts, this`outgrown, heads
      ensures Loose(mem, heads[..], starts, lists, outgrown)
      ensures lost <==> old(heads[index]) >= |old(mem)|
      ensures lost ==> index == 15 && !old(Sound(Seen())) && !Repaired(old(Seen()), size)
      ensures r == NULL ==> mem == old(mem) && starts == old(starts) && lists == old(lists) && heads[..] == old(heads[..])
      ensures if r == NULL then !reused && (lost || !granted) else reused || granted
      ensures reused ==> |mem| == |old(mem)|
      ensures !lost && !reused && old(Sound(Seen())) ==> NoneFits(old(mem), old(lists)[index], size)
      ensures Answered(old(Seen()), Seen(), r, size, reused)
      ensures r != NULL ==>
                && !lost && Given(old(mem), old(starts), mem, starts, r - META, size)
                && Placed(old(mem), old(starts), old(lists), mem, starts, lists, r - META, size, reused)
      ensures r != NULL && old(Sound(Seen())) ==>
                HandedOut(old(mem), old(starts), mem, starts, lists, r - META, size, reused)
      ensures Sound(Seen()) <==> old(Sound(Seen())) || Repaired(old(Seen()), size)
    {
      hide Kept, Repaired, Tightest, HandedOut, Given, Placed, Blocks, Chain, Sound, HeadKnown, Frees, Chosen, Consistent, NoneFits;
      var block;
      block, lost := Search(size, index);
      if lost { return NULL, false, true; }
      if block != NULL {
        TakeForRequest(block, size, index);
        return block + META, true, false;
      }
      if !granted { return NULL, false, false; }
      r := ExtendForRequest(size, index);
      reused := false;
    }

    /** What the search comes to for the order of the lists. */
    method Search(size: nat, index: nat) returns (block: int, lost: bool)
      requires Swept() && size > 0 && index == ClassOf(size) && (Sound(Seen()) || index == 15)
      ensures lost <==> heads[index] >= |mem|
      ensures lost ==> index == 15 && !Sound(Seen()) && !Repaired(Seen(), size)
      ensures !lost && block == NULL ==>
                (Sound(Seen()) ==> NoneFits(mem, lists[index], size)) && (Repaired(Seen(), size) ==> Sound(Seen()))
      ensures block != NULL ==>
                && !lost && heads[index] == At(lists[index], 0)
                && block in lists[index] && HeadAt(mem, block) && Size(mem, block) >= size
                && (index >= SEARCH ==> Tightest(mem, lists[index], size, Size(mem, block)))
                && Chosen(mem, lists[index], size, block)
    {
      hide Repaired, Tightest, Chain, Sound, HeadKnown, Frees, Chosen;
      block, lost := Fit(size, index);
      if heads[index] != At(lists[index], 0) || heads[index] >= |mem| {
        WrongHead(mem, heads[..], starts, lists, outgrown, index, size);
      } else if block == NULL {
        NoFitNoRepair(mem, heads[..], starts, lists, outgrown, index, size);
      }
    }

    method TakeForRequest(block: int, size: nat, index: nat)
      requires Swept() && size > 0 && index == ClassOf(size) && (Sound(Seen()) || index == 15)
      requires heads[index] == At(lists[index], 0) && block in lists[index] && HeadAt(mem, block) && Size(mem, block) >= size
      requires index >= SEARCH ==> Tightest(mem, lists[index], size, Size(mem, block))
      requires Chosen(mem, lists[index], size, block)
      modifies this`mem, this`lists, this`outgrown, heads
      ensures Loose(mem, heads[..], starts, lists, outgrown)
      ensures Given(old(mem), starts, mem, starts, block, size)
      ensures Placed(old(mem), starts, old(lists), mem, starts, lists, block, size, true)
      ensures old(Sound(Seen())) ==> HandedOut(old(mem), starts, mem, starts, lists, block, size, true)
      ensures Sound(Seen()) <==> old(Sound(Seen())) || Repaired(old(Seen()), size)
      ensures Answered(old(Seen()), Seen(), block + META, size, true)
    {
      hide Kept, Sound, Repaired, Taken, Blocks, Tightest, HandedOut, Given, Placed, Chain, HeadKnown;
      ghost var v, m0, l0, h0, X := Seen(), mem, lists, heads[..], outgrown;
      Take(block, index);
      BlockSplitting(block, size);
      TakenServes(m0, starts, l0, mem, lists, block, size, v, h0, X);
    }

    method ExtendForRequest(size: nat, ghost index: nat) returns (r: int)
      requires Swept() && size > 0 && index == ClassOf(size)
      requires Sound(Seen()) ==> NoneFits(mem, lists[index], size)
      modifies this`mem, this`starts
      ensures Loose(mem, heads[..], starts, lists, outgrown) && r != NULL
      ensures Given(old(mem), old(starts), mem, starts, r - META, size)
      ensures Placed(old(mem), old(starts), lists, mem, starts, lists, r - META, size, false)
      ensures old(Sound(Seen())) ==> HandedOut(old(mem), old(starts), mem, starts, lists, r - META, size, false)
      ensures Sound(Seen()) <==> old(Sound(Seen()))
      ensures Answered(old(Seen()), Seen(), r, size, false)
    {
      r := Extend(size);
    }

    /**
      Between the old state and this one, a request was answered by r. Whether the heap is in order; what
      the search found and took; what was there to be found after a sweep; and without a sweep, what that
      comes to, block by block and as a function of the old layout.
      */
    twostate predicate Requested(size: nat, granted: bool, r: int, reused: bool, lost: bool)
      requires old(Valid()) && Tiled(mem, starts) && |lists| == heads.Length == CLASSES
      reads this, heads
    {
      && (Readable(mem, heads[..]) <==> old(LeavesHeap(size)))
      && (Readable(mem, heads[..]) ==> Valid())
      && (lost <==> ClassOf(size) == 15 && old(SeenBySearch(size)).h15 >= old(SeenBySearch(size)).brk)
      && (lost ==> !old(LeavesHeap(size)))
      && Answered(old(SeenBySearch(size)), Seen(), r, size, reused)
      && (old(Sweeps(size)) ==> SweptInto(old(Seen()), old(SeenBySearch(size)), ClassOf(size) == 15))
      && (ClassOf(size) == 16 && old(FirstGrows(size)) ==> r != NULL && reused && |mem| <= |old(mem)|)
      && (if r == NULL then !reused && (size == 0 || lost || !granted) else size > 0 && (reused || granted))
      && (r == NULL ==> Kept(old(mem), old(starts), mem, starts, {}))
      && (r == NULL && old(SweepReady(size)) ==> size == 0 || NoneFits(mem, lists[ClassOf(size)], size))
      && (r != NULL ==> Given(old(mem), old(starts), mem, starts, r - META, size))
      && (r != NULL && old(SweepReady(size)) ==> HandedOut(old(mem), old(starts), mem, starts, lists, r - META, size, reused))
      && (!old(Sweeps(size)) ==>
            && (Layout(), r) == Layouts.Request(old(Layout()), size, granted)
            && if r == NULL then mem == old(mem) && starts == old(starts) && lists == old(lists)
               else Placed(old(mem), old(starts), old(lists), mem, starts, lists, r - META, size, reused))
      && defrag == if size == 0 || ClassOf(size) != 15 then old(defrag) else if old(defrag) >= 6 then 0 else old(defrag) + 1
    }

    /**
      `granted` is the kernel's answer should the break have to move. A block from the lists is taken
      when one of the request's class is large enough; only otherwise does the region grow. No live block
      is touched. `lost` says that the search reads a header beyond the break; that takes an unsafe sweep.
      What is left can be read as a heap if and only if there was none, or the request set it right.
      */
    method Malloc(size: nat, granted: bool) returns (r: int, ghost reused: bool, lost: bool)
      requires Valid()
      modifies this, heads
      ensures Tiled(mem, starts) && |lists| == heads.Length == CLASSES
      ensures Requested(size, granted, r, reused, lost)
    {
      hide Repaired, Given, HandedOut, Placed, SweepSafe, SweepFrom, Chain, Disjoint, Filed, Kept, Answered, SweptInto, FirstWillDo,
        NoneFits, Readable;
      if size == 0 {
        KeptSelf(mem, starts, {});
        ZeroNotRepaired(mem, heads[..], starts, lists);
        Unanswered(Seen(), size);
        Layouts.RefusedIs(mem, heads[..], starts, lists, size, granted);
        return NULL, false, false;
      }
      r, reused, lost := Request(size, granted);
      if !old(Sweeps(size)) {
        if r != NULL {
          Layouts.PlacedIs(old(mem), old(heads[..]), old(starts), old(lists), mem, starts, lists, r - META, size, granted, reused);
        } else {
          Layouts.RefusedIs(mem, old(heads[..]), starts, lists, size, granted);
        }
      }
    }

    /** The same for a request that is not empty. */
    method Request(size: nat, granted: bool) returns (r: int, ghost reused: bool, lost: bool)
      requires Valid() && size > 0
      modifies this, heads
      ensures Readable(mem, heads[..]) <==> old(LeavesHeap(size))
      ensures Readable(mem, heads[..]) ==> Valid()
      ensures lost <==> ClassOf(size) == 15 && old(SeenBySearch(size)).h15 >= old(SeenBySearch(size)).brk
      ensures lost ==> !old(LeavesHeap(size))
      ensures Tiled(mem, starts) && |lists| == heads.Length == CLASSES
      ensures Answered(old(SeenBySearch(size)), Seen(), r, size, reused)
      ensures old(Sweeps(size)) ==> SweptInto(old(Seen()), old(SeenBySearch(size)), ClassOf(size) == 15)
      ensures ClassOf(size) == 16 && old(FirstGrows(size)) ==> r != NULL && reused && |mem| <= |old(mem)|
      ensures r == NULL ==> Kept(old(mem), old(starts), mem, starts, {})
      ensures r == NULL ==> lost || !granted
      ensures r == NULL && old(SweepReady(size)) ==> NoneFits(mem, lists[ClassOf(size)], size)
      ensures r != NULL ==> Given(old(mem), old(starts), mem, starts, r - META, size)
      ensures r != NULL && old(SweepReady(size)) ==> HandedOut(old(mem), old(starts), mem, starts, lists, r - META, size, reused)
      ensures !old(Sweeps(size)) ==>
                if r == NULL then mem == old(mem) && starts == old(starts) && lists == old(lists)
                else Placed(old(mem), old(starts), old(lists), mem, starts, lists, r - META, size, reused)
      ensures if r == NULL then !reused else reused || granted
      ensures !old(Sweeps(size)) && !reused ==> NoneFits(old(mem), old(lists)[ClassOf(size)], size)
      ensures defrag == if ClassOf(size) != 15 then old(defrag) else if old(defrag) >= 6 then 0 else old(defrag) + 1
    {
      hide Kept, Repaired, Tightest, HandedOut, Given, Placed, Sound, HeadKnown, Chain, Disjoint, Filed, SweepSafe, SweepFrom,
        Readable, NoneFits, Firsts, Frees, Answered, SweptInto, FirstWillDo;
      SweptForSearch(size);
      var index := GetIndex(size);
      ghost var grows := index == 16 && FirstGrows(size);
      if grows { FirstGrowsHolds(mem, heads[..], starts, lists, size); }
      Defragment(size, index);
      if grows { HoldsFits(mem, heads[..], starts, lists, outgrown, false, size); }
      ghost var m0, s0 := mem, starts;
      r, reused, lost := Serve(size, index, granted);
      if r != NULL {
        ServedLater(old(mem), old(starts), m0, s0, mem, starts, lists, r - META, size, reused);
      }
    }

    /** Frees the block whose payload is at `ptr`. Null, a pointer beyond the break and a block already free are ignored. */
    method Free(ptr: int)
      requires Valid() && (ptr == NULL || ptr >= |mem| || ptr - META in starts)
      modifies this`mem, this`lists, this`starts, heads
      ensures Valid()
      ensures ptr == NULL || ptr >= |old(mem)| || IsFree(old(mem), ptr - META) ==>
                mem == old(mem) && starts == old(starts) && lists == old(lists)
      ensures !(ptr == NULL || ptr >= |old(mem)| || IsFree(old(mem), ptr - META)) ==>
                && Freed(old(mem), old(starts), mem, starts, ptr - META)
                && FreedBlocks(old(mem), old(starts), old(lists), mem, starts, lists, ptr - META)
                && Layout() == Layouts.Release(old(Layout()), ptr - META)
    {
      if ptr == NULL || ptr >= |mem| { return; }
      var cur := ptr - META;
      if IsFree(mem, cur) { return; }
      FreeLive(cur);
    }

    method FreeLive(cur: int)
      requires Valid() && cur in starts && !IsFree(mem, cur)
      modifies this`mem, this`lists, this`starts, heads
      ensures Valid()
      ensures Freed(old(mem), old(starts), mem, starts, cur)
      ensures FreedBlocks(old(mem), old(starts), old(lists), mem, starts, lists, cur)
      ensures Layout() == Layouts.Release(old(Layout()), cur)
    {
      FreeBlock(cur);
      Layouts.FreedIs(old(mem), old(heads[..]), old(starts), old(lists), mem, starts, lists, cur);
    }

    method FreeBlock(cur: int)
      requires Valid() && cur in starts && !IsFree(mem, cur)
      modifies this`mem, this`lists, this`starts, heads
      ensures Valid()
      ensures Freed(old(mem), old(starts), mem, starts, cur)
      ensures FreedBlocks(old(mem), old(starts), old(lists), mem, starts, lists, cur)
    {
      hide Kept, Chain, Disjoint, Filed, DropAll, Blocks, SamePayload;
      MergeLive(cur);
      ghost var m0, s0 := mem, starts;
      var index := GetIndex(Size(mem, cur));
      EndInRegion(mem, starts, cur);
      if index > FREE && cur + META + Size(mem, cur) >= |mem| {
        LiveTrimmed(mem, heads[..], starts, lists, cur);
        mem := mem[..|mem| - (Size(mem, cur) + META)];
        starts := starts - {cur};
        assert mem == m0[..cur];
      } else {
        ReturnToList(cur);
      }
      KeptTwice(old(mem), old(starts), m0, s0, mem, starts, cur);
      UpdateAgain(AbsorbedBlocks(old(mem), old(starts), cur), cur, Block(Size(m0, cur), false), Block(Size(m0, cur), true));
    }

    /** Marks a live block free and links it in. */
    method ReturnToList(cur: int)
      requires Consistent(mem, heads[..], starts, lists, {cur}) && cur in starts && !IsFree(mem, cur)
      modifies this`mem, this`lists, heads
      ensures Valid() && |mem| == |old(mem)|
      ensures Kept(old(mem), starts, mem, starts, {cur})
      ensures IsFree(mem, cur) && Size(mem, cur) == Size(old(mem), cur)
      ensures Blocks(mem, starts) == Blocks(old(mem), starts)[cur := Block(Size(old(mem), cur), true)]
      ensures var i := ClassOf(Size(old(mem), cur)); lists == old(lists)[i := [cur] + old(lists)[i]]
    {
      FlagConsistent(mem, heads[..], starts, lists, {cur}, cur, true);
      mem := SetFree(mem, cur, true);
      AddBlock(cur);
      PushFreed(old(mem), mem, old(heads[..]), heads[..], starts, old(lists), cur, ClassOf(Size(old(mem), cur)));
    }

    /** Folds a free right neighbour into a live block, keeping the payloads. */
    method MergeLive(cur: int)
      requires Valid() && cur in starts && !IsFree(mem, cur)
      modifies this`mem, this`lists, this`starts, heads
      ensures Valid() && Consistent(mem, heads[..], starts, lists, {cur})
      ensures |mem| == |old(mem)| && cur in starts && !IsFree(mem, cur)
      ensures Size(mem, cur) == MergedSize(old(mem), old(starts), cur)
      ensures Kept(old(mem), old(starts), mem, starts, {cur})
      ensures SamePayload(old(mem), mem, cur + META, cur + META, Size(old(mem), cur))
      ensures Frees(mem, starts) == old(Frees(mem, starts) - {End(mem, cur)})
      ensures lists == old(DropAll(lists, End(mem, cur)))
      ensures Blocks(mem, starts) == AbsorbedBlocks(old(mem), old(starts), cur)[cur := Block(Size(mem, cur), false)]
      ensures Layout() == Layouts.Absorb(old(Layout()), cur)
    {
      MergeBlock(cur);
      Layouts.GrownIs(old(mem), old(heads[..]), old(starts), old(lists), mem, starts, lists, cur);
    }

    method MergeBlock(cur: int)
      requires Valid() && cur in starts && !IsFree(mem, cur)
      modifies this`mem, this`lists, this`starts, heads
      ensures Valid() && Consistent(mem, heads[..], starts, lists, {cur})
      ensures |mem| == |old(mem)| && cur in starts && !IsFree(mem, cur)
      ensures Size(mem, cur) == MergedSize(old(mem), old(starts), cur)
      ensures Kept(old(mem), old(starts), mem, starts, {cur})
      ensures SamePayload(old(mem), mem, cur + META, cur + META, Size(old(mem), cur))
      ensures Frees(mem, starts) == old(Frees(mem, starts) - {End(mem, cur)})
      ensures lists == old(DropAll(lists, End(mem, cur)))
      ensures Blocks(mem, starts) == AbsorbedBlocks(old(mem), old(starts), cur)[cur := Block(Size(mem, cur), false)]
    {
      hide Chain, Kept, SamePayload, HeadsOnly, Frees, DropAll, Drop, HeadsMoved, Firsts, Blocks;
      ProperIsLoose(mem, heads[..], starts, lists);
      ExcuseAlso(mem, heads[..], starts, lists, {}, cur);
      assert {} + {cur} == {cur};
      ghost var merged, i, l := CombineNext(cur, {cur});
      MergeKept(old(mem), old(starts), mem, starts, cur);
      if merged {
        assert {cur} - {old(End(mem, cur))} == {cur};
        HeadsFollow(old(lists), old(heads[..]), heads[..], i, l);
        MergedFrees(old(mem), old(starts), mem, starts, cur);
        DropAllIs(old(lists), i, l);
      } else {
        NotDropped(mem, heads[..], starts, lists, {cur}, End(mem, cur));
      }
      AbsorbedIs(old(mem), old(starts), mem, starts, cur);
      NoExcuse(mem, heads[..], starts, lists, {cur}, cur);
      assert {cur} - {cur} == {};
    }

    /**
      Between the old state and this one, the live block at c was resized. Without a sweep, and whenever
      the block stays where it is, that is a function of the old layout; nothing at all changes when the
      block was large enough.
      */
    twostate predicate Resized(c: int, size: nat, granted: bool, r: int)
      requires old(Valid() && c in starts) && Valid()
      reads this, heads
    {
      var room := MergedSize(old(mem), old(starts), c);
      && (size == 0 ==>
            r == NULL && Freed(old(mem), old(starts), mem, starts, c) && Layout() == Layouts.Release(old(Layout()), c))
      && (0 < size <= Size(old(mem), c) ==>
            mem == old(mem) && starts == old(starts) && lists == old(lists) && heads[..] == old(heads[..]))
      && (size > 0 ==> (r == c + META <==> size <= room))
      && (size > 0 && (size <= room || !old(Sweeps(size))) ==> (Layout(), r) == Layouts.Resize(old(Layout()), c, size, granted))
      && (size > 0 && r != NULL ==> Reallocated(old(mem), old(starts), mem, starts, c, r - META, size))
      && (size > 0 && r == NULL ==>
            && !granted && c in starts && !IsFree(mem, c) && Size(mem, c) >= Size(old(mem), c)
            && Kept(old(mem), old(starts), mem, starts, {c})
            && SamePayload(old(mem), mem, c + META, c + META, Size(old(mem), c)))
      && defrag == if size <= room || ClassOf(size) != 15 then old(defrag) else if old(defrag) >= 6 then 0 else old(defrag) + 1
    }

    /**
      Resizes a live block: in place when it is already large enough or becomes so by absorbing a
      free right neighbour, otherwise by moving it.
      */
    method Realloc(ptr: int, size: nat, granted: bool) returns (r: int, ghost reused: bool, lost: bool)
      requires Valid() && (ptr == NULL || Live(ptr))
      requires ptr != NULL && size > MergedSize(mem, starts, ptr - META) ==> LeavesHeapAfterMerge(ptr - META, size)
      modifies this, heads
      ensures Tiled(mem, starts) && |lists| == heads.Length == CLASSES
      ensures ptr == NULL ==> Requested(size, granted, r, reused, lost)
      ensures ptr != NULL ==> Valid() && !lost && Resized(ptr - META, size, granted, r)
    {
      hide Given, HandedOut, Placed, Freed, FreedBlocks, Reallocated, SamePayload, Kept, Repaired, SweepFrom, SweepSafe,
        Answered, SweptInto, FirstWillDo, Frees, Readable, NoneFits, Layouts.LayoutOf, Layouts.Request, Layouts.Resize, Layouts.Release;
      reused, lost := false, false;
      if ptr == NULL {
        r, reused, lost := Malloc(size, granted);
        return;
      }
      EndInRegion(mem, starts, ptr - META);
      if size == 0 {
        Free(ptr);
        return NULL, false, false;
      }
      r := Resize(ptr - META, size, granted);
    }

    /** Reallocates a live block to a size that is not zero. */
    method Resize(cur: int, size: nat, granted: bool) returns (r: int)
      requires Valid() && cur in starts && !IsFree(mem, cur) && size > 0
      requires size > MergedSize(mem, starts, cur) ==> LeavesHeapAfterMerge(cur, size)
      modifies this, heads
      ensures Valid() && Resized(cur, size, granted, r)
    {
      hide Linked, Filed, Kept, SamePayload, Repaired, SweepFrom, SweepSafe, Frees, Blocks, AbsorbedBlocks,
        Layouts.Absorb, Layouts.Relocate;
      Layouts.BlockOf(mem, starts, cur);
      if Size(mem, cur) >= size {
        BlockSplitting(cur, size);
        SetLiveAgain(mem, cur);
        mem := SetFree(mem, cur, false);
        KeptSelf(mem, starts, {cur});
        StayComposes(old(mem), old(starts), mem, starts, cur, size);
        return cur + META;
      }
      MergeLive(cur);
      ghost var m1, s1 := mem, starts;
      Layouts.BlockOf(mem, starts, cur);
      if Size(mem, cur) >= size {
        SetLiveAgain(mem, cur);
        mem := SetFree(mem, cur, false);
        StayComposes(old(mem), old(starts), mem, starts, cur, size);
        return cur + META;
      }
      ProperHeads(mem, heads[..], starts, lists);
      r := Move(cur, size, granted);
      if r != NULL {
        MergeThenMove(old(mem), old(starts), m1, s1, mem, starts, cur, r - META, size);
      } else {
        MergeThenStuck(old(mem), old(starts), m1, s1, mem, starts, cur);
      }
    }

    /** Moves a live block that is too small: allocate, copy all its bytes, free. */
    method Move(cur: int, size: nat, granted: bool) returns (r: int)
      requires Valid() && cur in starts && !IsFree(mem, cur) && Size(mem, cur) < size && LeavesHeap(size)
      modifies this, heads
      ensures defrag == if ClassOf(size) != 15 then old(defrag) else if old(defrag) >= 6 then 0 else old(defrag) + 1
      ensures Valid()
      ensures !old(Sweeps(size)) ==> (Layout(), r) == Layouts.Relocate(old(Layout()), cur, size, granted)
      ensures r == NULL ==> !granted && Kept(old(mem), old(starts), mem, starts, {})
      ensures r != NULL ==> Reallocated(old(mem), old(starts), mem, starts, cur, r - META, size) && r != cur + META
    {
      hide Chain, SamePayload, SweepSafe, Repaired, SweepFrom, Disjoint, Filed, Given, Freed, FreedBlocks, Kept, Reallocated,
        Layouts.Request, Layouts.LayoutOf, Layouts.Release;
      var lost;
      r, lost := RequestAndCopy(cur, size, granted);
      if r == NULL { return; }
      ghost var m1, s1 := mem, starts;
      EndInRegion(mem, starts, cur);
      Free(cur + META);
      MoveComposes(old(mem), old(starts), m1, s1, mem, starts, cur, r - META, size);
    }

    /**
      The first half of a move, whatever the sweep of its request leaves behind: the new block holds all
      the bytes of the old one, which is still there, and no other live block has changed.
      */
    method RequestAndCopy(cur: int, size: nat, granted: bool) returns (r: int, lost: bool)
      requires Valid() && cur in starts && !IsFree(mem, cur) && Size(mem, cur) < size
      modifies this, heads
      ensures defrag == if ClassOf(size) != 15 then old(defrag) else if old(defrag) >= 6 then 0 else old(defrag) + 1
      ensures Tiled(mem, starts)
      ensures !old(Sweeps(size)) ==> (Layout(), r) == Layouts.Request(old(Layout()), size, granted)
      ensures Readable(mem, heads[..]) <==> old(LeavesHeap(size))
      ensures Readable(mem, heads[..]) ==> Valid()
      ensures lost ==> !old(LeavesHeap(size))
      ensures r == NULL ==> (lost || !granted) && Kept(old(mem), old(starts), mem, starts, {})
      ensures r != NULL ==>
                && Given(old(mem), old(starts), mem, starts, r - META, size)
                && r - META != cur && cur in starts && !IsFree(mem, cur) && Size(mem, cur) == Size(old(mem), cur)
                && SamePayload(old(mem), mem, cur + META, cur + META, Size(old(mem), cur))
                && SamePayload(old(mem), mem, cur + META, r, Size(old(mem), cur))
    {
      hide Chain, SweepSafe, Repaired, SweepFrom, HandedOut, Placed, Disjoint, Filed, Readable, SamePayload, NoneFits, SameLinksAt, Copied,
        Answered, SweptInto, FirstWillDo, Frees, Linked, Layouts.Request, Layouts.LayoutOf;
      ghost var reused;
      r, reused, lost := Malloc(size, granted);
      if r == NULL { return; }
      ghost var m1 := mem;
      GivenKeeps(old(mem), old(starts), mem, starts, cur, r - META, size);
      hide Kept, Tiled, Given;
      Copy(cur, r - META);
      CopyGiven(old(mem), old(starts), m1, mem, starts, cur, r - META, size);
    }

    /** Copies all the bytes of one block to the front of another. */
    method Copy(cur: int, to: int)
      requires Tiled(mem, starts) && cur in starts && to in starts && Size(mem, cur) <= Size(mem, to)
      modifies this`mem
      ensures Tiled(mem, starts) && SameLinksAt(old(mem), mem, starts) && Kept(old(mem), starts, mem, starts, {to})
      ensures SamePayload(old(mem), mem, cur + META, to + META, Size(old(mem), cur))
      ensures Readable(mem, heads[..]) <==> Readable(old(mem), heads[..])
      ensures old(Valid()) ==> Valid()
      ensures Layout() == old(Layout())
    {
      hide Kept, SamePayload, SameLinksAt, Linked, Filed, Readable;
      ghost var m := mem;
      EndInRegion(mem, starts, to);
      EndInRegion(mem, starts, cur);
      CopyKept(mem, starts, to, cur + META, Size(mem, cur));
      mem := Copied(mem, to + META, cur + META, Size(mem, cur));
      CopyReadable(m, mem, heads[..], starts);
      Layouts.CopiedIs(m, mem, starts, lists);
    }

    /** A client may write anywhere in a live payload. */
    method ClientWrite(p: int, k: nat, b: Byte)
      requires Valid() && Live(p) && k < Size(mem, p - META)
      modifies this`mem
      ensures Valid() && Kept(old(mem), starts, mem, starts, {p - META}) && SameLinksAt(old(mem), mem, starts)
      ensures p + k < |old(mem)| && mem == old(mem)[p + k := Raw(b)]
    {
      EndInRegion(mem, starts, p - META);
      WriteConsistent(mem, heads[..], starts, lists, p - META, k, b);
      mem := mem[p + k := Raw(b)];
    }
  }
}
