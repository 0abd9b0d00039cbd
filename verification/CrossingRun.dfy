/** A run of calls that ends in memory which is no heap: the seventh large request sweeps list 15. */
module CrossingRuns {
  import opened HeapMemory
  import opened Sweeps
  import opened LooseHeaps
  import opened Allocators

  lemma FreesOfBlocks(m: seq<Cell>, starts: set<int>)
    requires forall a | a in starts :: HeadAt(m, a)
    ensures Frees(m, starts) == map a | a in Blocks(m, starts) && Blocks(m, starts)[a].free :: a + META + Blocks(m, starts)[a].size
  {
  }

  /** Nothing is free: no list holds a block. */
  ghost predicate Full(h: Allocator)
    reads h
  {
    |h.lists| == CLASSES && forall i | 0 <= i < CLASSES :: h.lists[i] == []
  }

  /** While nothing is free, a request that triggers no sweep is served with a new block at the end. */
  method Grow(h: Allocator, size: nat) returns (r: int)
    requires h.Valid() && Full(h) && size > 0 && !h.Sweeps(size)
    modifies h, h.heads
    ensures h.Valid() && Full(h) && r == |old(h.mem)| + META && |h.mem| == r + size
    ensures Blocks(h.mem, h.starts) == Blocks(old(h.mem), old(h.starts))[r - META := Block(size, false)]
    ensures h.defrag == if ClassOf(size) == 15 then old(h.defrag) + 1 else old(h.defrag)
  {
    ghost var reused;
    var lost;
    r, reused, lost := h.Malloc(size, true);
  }

  /** Two free blocks side by side, of 262144 bytes each, then a live one; six large requests so far. */
  ghost predicate Laid(h: Allocator)
    reads h, h.heads
  {
    && h.Valid() && h.defrag == 6 && |h.mem| == 1324520 && h.lists[15] == [0, 262176]
    && Frees(h.mem, h.starts) == map[0 := 262176, 262176 := 524352]
  }

  /** The eight blocks, one behind the other. */
  ghost function Eight(): map<int, Block> {
    map[0 := Block(100, false), 132 := Block(262012, false), 262176 := Block(262144, false), 524352 := Block(8, false),
        524392 := Block(200000, false), 724424 := Block(200000, false), 924456 := Block(200000, false), 1124488 := Block(200000, false)]
  }

  method Fill() returns (h: Allocator)
    ensures fresh(h) && fresh(h.heads) && h.Valid() && Full(h) && h.defrag == 6 && |h.mem| == 1324520
    ensures Blocks(h.mem, h.starts) == Eight()
  {
    hide Chain, Disjoint, Filed;
    Classes();
    h := new Allocator();
    var a := Grow(h, 100);
    var b := Grow(h, 262012);
    var c := Grow(h, 262144);
    var d := Grow(h, 8);
    FillMore(h);
  }

  method FillMore(h: Allocator)
    requires h.Valid() && Full(h) && h.defrag == 2 && |h.mem| == 524392
    modifies h, h.heads
    ensures h.Valid() && Full(h) && h.defrag == 6 && |h.mem| == 1324520
    ensures Blocks(h.mem, h.starts) == Blocks(old(h.mem), old(h.starts))[524392 := Block(200000, false)]
              [724424 := Block(200000, false)][924456 := Block(200000, false)][1124488 := Block(200000, false)]
  {
    hide Chain, Disjoint, Filed, Blocks;
    Classes();
    var e := Grow(h, 200000);
    e := Grow(h, 200000);
    e := Grow(h, 200000);
    e := Grow(h, 200000);
  }

  /** Frees the live block at c, which ends up in list 15 and is not the last block. */
  method FreeLarge(h: Allocator, c: int, ghost B: map<int, Block>, ghost n: int, ghost size: nat)
    requires h.Valid() && Blocks(h.mem, h.starts) == B && c in B && !B[c].free && n == c + META + B[c].size
    requires size == if n in B && B[n].free then B[c].size + META + B[n].size else B[c].size
    requires ClassOf(size) == 15 && c + META + size < |h.mem|
    modifies h, h.heads
    ensures h.Valid() && h.defrag == old(h.defrag) && |h.mem| == |old(h.mem)|
    ensures Blocks(h.mem, h.starts) == (if n in B && B[n].free then B - {n} else B)[c := Block(size, true)]
    ensures h.lists[15] == [c] + Drop(old(h.lists)[15], n)
  {
    hide Chain, Disjoint, Filed, Kept;
    assert c in h.starts && !IsFree(h.mem, c) && B[c].size == Size(h.mem, c);
    assert n in B ==> n in h.starts && B[n].size == Size(h.mem, n) && B[n].free == IsFree(h.mem, n);
    assert n in h.starts ==> n in B;
    assert size == MergedSize(h.mem, h.starts, c);
    assert (if n in B && B[n].free then B - {n} else B) == AbsorbedBlocks(h.mem, h.starts, c);
    h.Free(c + META);
  }

  method LayOut() returns (h: Allocator)
    ensures fresh(h) && fresh(h.heads) && Laid(h)
  {
    hide Chain, Disjoint, Filed, Blocks, Frees, Drop;
    Classes();
    h := Fill();
    ghost var B := Eight();
    FreeLarge(h, 132, B, 262176, 262012);
    FreeLarge(h, 262176, B[132 := Block(262012, true)], 524352, 262144);
    FreeLarge(h, 0, B[132 := Block(262012, true)][262176 := Block(262144, true)], 132, 262144);
    FreesOfBlocks(h.mem, h.starts);
    LaidLists();
  }

  lemma LaidLists()
    ensures [0] + Drop([262176] + Drop([132] + Drop([], 262176), 524352), 132) == [0, 262176]
  {
    assert [132][1..] == [];
    assert [262176, 132][1..] == [132];
  }

  lemma Classes()
    ensures ClassOf(100) == 4 && ClassOf(8) == 0
    ensures ClassOf(262012) == 15 && ClassOf(262144) == 15 && ClassOf(200000) == 15
  {
    ClassIff(100, 4);
    ClassIff(8, 0);
    ClassIff(262012, 15);
    ClassIff(262144, 15);
    ClassIff(200000, 15);
  }

  /** The next large request merges the two blocks and leaves no heap behind. */
  method CrossingRun() returns (h: Allocator)
    ensures !Readable(h.mem, h.heads[..])
  {
    h := LayOut();
    Classes();
    CrossingSweep(h.heads[15], h.heads[16], h.lists[16]);
    ghost var reused;
    var r, lost;
    r, reused, lost := h.Malloc(200000, true);
  }

  /** What the sweep makes of the two blocks: one, too large for list 15, and first in it. */
  lemma CrossingSweep(h15: int, h16: int, high: seq<int>)
    ensures var v := Sweep(map[0 := 262176, 262176 := 524352], 1324520, [0, 262176], high, h15, h16);
            !SweepSafe(v.free, v.brk, v.low, 0) && !Repaired(SweepFrom(v, true, 0), 200000)
  {
    var v := Sweep(map[0 := 262176, 262176 := 524352], 1324520, [0, 262176], high, h15, h16);
    assert v.low[..0] == [];
    var w := Merge(v, 0);
    assert Drop([0, 262176], 262176) == [0] by {
      assert [0, 262176][1..] == [262176];
    }
    assert w.low == [0] && w.free[0] == 524352;
    SweepUnfolds(v, true, 0);
    SweepEnds(w, true, 1);
  }
}
