/**
  The memory an allocator works on: one flat region of cells that grows and shrinks at its end (the
  program break), holding block headers and payload bytes side by side, and 17 doubly linked lists
  threaded through the headers of the free blocks.
  */
module HeapMemory {

  import opened Bytes

  /** A block header. */
  datatype Meta = Meta(size: nat, free: bool, next: int, prev: int)

  /** One cell of the region. A header occupies META cells: a Head and the Pads behind it. */
  datatype Cell = Raw(b: Byte) | Head(m: Meta) | Pad | Junk

  const META := 32
  const NULL := -1
  const CLASSES := 17
  const BLOCK_SIZE: seq<nat> :=
    [8, 16, 32, 64, 128, 256, 512, 1024, 2048, 4096, 8192, 16384, 32768, 65536, 131072, 262144]

  /** The first class from `i` on whose bound admits `size`; 16 when no bound does. */
  function ClassFrom(size: nat, i: nat): (c: nat)
    requires i <= 16
    ensures i <= c <= 16
    decreases 16 - i
  {
    if i == 16 then 16 else if size <= BLOCK_SIZE[i] then i else ClassFrom(size, i + 1)
  }

  function ClassOf(size: nat): (c: nat)
    ensures c <= 16
  {
    ClassFrom(size, 0)
  }

  lemma {:induction false} ClassFromBounds(size: nat, i: nat)
    requires i <= 16
    requires i > 0 ==> BLOCK_SIZE[i - 1] < size
    ensures var c := ClassFrom(size, i);
            (c < 16 ==> size <= BLOCK_SIZE[c]) && (c > 0 ==> BLOCK_SIZE[c - 1] < size)
    decreases 16 - i
  {
    if i == 16 {
    } else if size <= BLOCK_SIZE[i] {
    } else {
      ClassFromBounds(size, i + 1);
    }
  }

  /** A class holds exactly the sizes above the previous bound and up to its own. */
  lemma ClassIff(size: nat, c: nat)
    requires c <= 16
    ensures ClassOf(size) == c <==>
            (c < 16 ==> size <= BLOCK_SIZE[c]) && (c > 0 ==> BLOCK_SIZE[c - 1] < size)
  {
    ClassFromBounds(size, 0);
    var d := ClassOf(size);
    if c < d {
      BoundsIncrease(c, d - 1);
    } else if d < c {
      BoundsIncrease(d, c - 1);
    }
  }

  lemma {:induction false} BoundsIncrease(i: nat, j: nat)
    requires i <= j < 16
    ensures BLOCK_SIZE[i] <= BLOCK_SIZE[j]
    decreases j - i
  {
    if i == j {
    } else {
      BoundsIncrease(i + 1, j);
    }
  }

  /** Any two sizes in one class between 8 and the last bound are within a factor of two. */
  lemma ClassDoubles(request: nat, size: nat)
    requires 8 < request <= 262144
    requires ClassOf(size) == ClassOf(request)
    ensures size < 2 * request
  {
    var c := ClassOf(request);
    ClassIff(request, c);
    ClassIff(size, c);
    ClassIff(request, 0);
    ClassIff(request, 16);
    assert BLOCK_SIZE[c] == 2 * BLOCK_SIZE[c - 1];
  }

  // ---- headers ----

  predicate HeadAt(mem: seq<Cell>, a: int) {
    0 <= a && a + META <= |mem| && mem[a].Head?
  }

  function Size(mem: seq<Cell>, a: int): nat
    requires HeadAt(mem, a)
  {
    mem[a].m.size
  }

  function IsFree(mem: seq<Cell>, a: int): bool
    requires HeadAt(mem, a)
  {
    mem[a].m.free
  }

  /** The address just behind the payload of the block at `a`. */
  function End(mem: seq<Cell>, a: int): int
    requires HeadAt(mem, a)
  {
    a + META + mem[a].m.size
  }

  function SetNext(mem: seq<Cell>, a: int, x: int): seq<Cell>
    requires HeadAt(mem, a)
  {
    mem[a := Head(mem[a].m.(next := x))]
  }

  function SetPrev(mem: seq<Cell>, a: int, x: int): seq<Cell>
    requires HeadAt(mem, a)
  {
    mem[a := Head(mem[a].m.(prev := x))]
  }

  function SetFree(mem: seq<Cell>, a: int, f: bool): seq<Cell>
    requires HeadAt(mem, a)
  {
    mem[a := Head(mem[a].m.(free := f))]
  }

  function SetSize(mem: seq<Cell>, a: int, n: nat): seq<Cell>
    requires HeadAt(mem, a)
  {
    mem[a := Head(mem[a].m.(size := n))]
  }

  /** What `sbrk` appends, once its header has been written: a header and indeterminate payload. */
  function NewBlock(m: Meta): (s: seq<Cell>)
    ensures |s| == META + m.size
    ensures s[0] == Head(m)
  {
    [Head(m)] + seq(META - 1, _ => Pad) + seq(m.size, _ => Junk)
  }

  // ---- the physical view: blocks tile the region ----

  /** The blocks starting at `starts` lie side by side from address 0 to the break. */
  ghost predicate Tiled(mem: seq<Cell>, starts: set<int>) {
    && (|mem| > 0 ==> 0 in starts)
    && (forall a | a in starts :: HeadAt(mem, a) && Size(mem, a) >= 1)
    && (forall a {:trigger End(mem, a)} | a in starts :: End(mem, a) == |mem| || End(mem, a) in starts)
    && (forall a, b {:trigger End(mem, a), b in starts} | a in starts && b in starts && a < b :: End(mem, a) <= b)
  }

  lemma {:induction false} EndInRegion(mem: seq<Cell>, starts: set<int>, a: int)
    requires Tiled(mem, starts) && a in starts
    ensures End(mem, a) <= |mem|
  {
    if End(mem, a) != |mem| {
      assert HeadAt(mem, End(mem, a));
    }
  }

  /** Header cells at `starts` may have been relinked; everything else is as before. */
  ghost predicate Relinked(m0: seq<Cell>, m1: seq<Cell>, starts: set<int>) {
    && |m0| == |m1|
    && (forall x {:trigger m1[x]} {:trigger m0[x]} | 0 <= x < |m0| ::
          if x in starts then
            m0[x].Head? && m1[x].Head? && m0[x].m.size == m1[x].m.size && m0[x].m.free == m1[x].m.free
          else m0[x] == m1[x])
  }

  lemma RelinkedTiled(m0: seq<Cell>, m1: seq<Cell>, starts: set<int>)
    requires Tiled(m0, starts) && Relinked(m0, m1, starts)
    ensures Tiled(m1, starts)
  {
    forall a | a in starts
      ensures HeadAt(m1, a) && Size(m1, a) == Size(m0, a) && End(m1, a) == End(m0, a)
    {
      assert HeadAt(m0, a);
    }
  }

  /** Folding the next block into `a` keeps the tiling. */
  lemma MergeTiled(m0: seq<Cell>, m1: seq<Cell>, starts: set<int>, a: int)
    requires Tiled(m0, starts) && a in starts && End(m0, a) in starts
    requires |m1| == |m0|
    requires HeadAt(m1, a) && Size(m1, a) == Size(m0, a) + META + Size(m0, End(m0, a))
    requires forall b | b in starts && b != a :: HeadAt(m1, b) && Size(m1, b) == Size(m0, b)
    ensures Tiled(m1, starts - {End(m0, a)})
  {
    var n := End(m0, a);
    assert n > a;
    forall b | b in starts - {n}
      ensures End(m1, b) == |m1| || End(m1, b) in starts - {n}
    {
      if b != a {
        assert End(m1, b) == End(m0, b);
        assert b < a || a < b;
        if a < b { assert n <= b; }
      } else {
        assert End(m1, a) == End(m0, n);
        assert HeadAt(m0, n);
      }
    }
    forall b, c | b in starts - {n} && c in starts - {n} && b < c
      ensures End(m1, b) <= c
    {
      if b == a {
        assert n <= c;
        assert End(m0, n) <= c;
      } else {
        assert End(m1, b) == End(m0, b);
      }
    }
  }

  /** Giving the last block back keeps the tiling. */
  lemma TrimTiled(m0: seq<Cell>, starts: set<int>, a: int)
    requires Tiled(m0, starts) && a in starts && End(m0, a) == |m0|
    ensures Tiled(m0[..a], starts - {a})
    ensures forall b | b in starts && b != a :: HeadAt(m0[..a], b) && m0[..a][b] == m0[b]
  {
    var m1 := m0[..a];
    assert 0 <= a < |m0| by { assert HeadAt(m0, a); }
    forall b | b in starts && b != a
      ensures HeadAt(m1, b) && m1[b] == m0[b] && End(m0, b) <= a
    {
      LastBlock(m0, starts, a, b);
    }
    assert forall b | b in starts - {a} :: End(m1, b) == End(m0, b);
    assert forall b | b in starts - {a} :: End(m1, b) == |m1| || End(m1, b) in starts - {a};
  }

  lemma LastBlock(mem: seq<Cell>, starts: set<int>, a: int, b: int)
    requires Tiled(mem, starts) && a in starts && End(mem, a) == |mem|
    requires b in starts && b != a
    ensures End(mem, b) <= a
  {
    assert HeadAt(mem, b);
  }

  /** Extending the break by one block keeps the tiling. */
  lemma ExtendTiled(m0: seq<Cell>, starts: set<int>, m: Meta)
    requires Tiled(m0, starts) && m.size >= 1
    ensures Tiled(m0 + NewBlock(m), starts + {|m0|})
    ensures |m0| !in starts
  {
    hide NewBlock;
    var m1 := m0 + NewBlock(m);
    assert m1[|m0|] == Head(m);
    forall b | b in starts
      ensures HeadAt(m1, b) && m1[b] == m0[b] && End(m0, b) <= |m0| && b < |m0|
    {
      EndInRegion(m0, starts, b);
    }
    assert |m0| > 0 ==> 0 in starts;
    LastAdded(m0, m1, starts);
  }

  lemma LastAdded(m0: seq<Cell>, m1: seq<Cell>, starts: set<int>)
    requires Tiled(m0, starts) && |m0| <= |m1| && (|m0| > 0 ==> 0 in starts)
    requires HeadAt(m1, |m0|) && Size(m1, |m0|) >= 1 && End(m1, |m0|) == |m1|
    requires forall b | b in starts :: HeadAt(m1, b) && m1[b] == m0[b] && End(m0, b) <= |m0| && b < |m0|
    ensures Tiled(m1, starts + {|m0|})
  {
    assert forall b | b in starts :: End(m1, b) == End(m0, b);
  }

  /** A memory is tiled in one way only. */
  lemma {:induction false} TilingUnique(mem: seq<Cell>, s: set<int>, t: set<int>)
    requires Tiled(mem, s) && Tiled(mem, t)
    ensures s == t
  {
    TilingSubset(mem, s, t);
    TilingSubset(mem, t, s);
  }

  lemma TilingSubset(mem: seq<Cell>, s: set<int>, t: set<int>)
    requires Tiled(mem, s) && Tiled(mem, t)
    ensures s <= t
  {
    forall x | x in s
      ensures x in t
    {
      assert HeadAt(mem, x);
      var a := 0;
      while a < x
        invariant a in s && a in t && a <= x
        decreases x - a
      {
        assert End(mem, a) <= x;
        a := End(mem, a);
        assert HeadAt(mem, x);
      }
    }
  }

  // ---- the list view: chains threaded through headers ----

  function At(L: seq<int>, k: int): int {
    if 0 <= k < |L| then L[k] else NULL
  }

  function Without(L: seq<int>, k: nat): seq<int>
    requires k < |L|
  {
    L[..k] + L[k + 1..]
  }

  /** Starting at `head`, the next and prev fields spell out exactly the list L. */
  ghost predicate Chain(mem: seq<Cell>, head: int, L: seq<int>) {
    && head == At(L, 0)
    && forall k {:trigger mem[L[k]]} {:trigger HeadAt(mem, L[k])} | 0 <= k < |L| ::
         HeadAt(mem, L[k]) && mem[L[k]].m.next == At(L, k + 1) && mem[L[k]].m.prev == At(L, k - 1)
  }

  /** What a walk along a chain needs at each node. */
  lemma ChainNodes(mem: seq<Cell>, head: int, L: seq<int>)
    requires Chain(mem, head, L)
    ensures head == At(L, 0)
    ensures forall k {:trigger L[k]} | 0 <= k < |L| :: HeadAt(mem, L[k]) && L[k] != NULL && mem[L[k]].m.next == At(L, k + 1)
  {
    assert forall k {:trigger L[k]} | 0 <= k < |L| :: HeadAt(mem, L[k]);
  }

  ghost predicate Disjoint(lists: seq<seq<int>>) {
    forall i, j, k, l {:trigger lists[i][k], lists[j][l]}
      | 0 <= i < |lists| && 0 <= j < |lists| && 0 <= k < |lists[i]| && 0 <= l < |lists[j]| && lists[i][k] == lists[j][l] ::
      i == j && k == l
  }

  ghost predicate Unlisted(lists: seq<seq<int>>, a: int) {
    forall j | 0 <= j < |lists| :: a !in lists[j]
  }

  /** Each list head leads along its own chain, and no address is linked twice. */
  ghost predicate Linked(mem: seq<Cell>, heads: seq<int>, lists: seq<seq<int>>) {
    && |heads| == |lists| == CLASSES
    && (forall i | 0 <= i < CLASSES :: Chain(mem, heads[i], lists[i]))
    && Disjoint(lists)
  }

  /** The next fields determine the list: two readings of one chain agree. */
  lemma ChainUnique(mem: seq<Cell>, head: int, L: seq<int>, M: seq<int>)
    requires Chain(mem, head, L) && Chain(mem, head, M)
    ensures L == M
  {
    ChainNotLonger(mem, head, L, M);
    ChainNotLonger(mem, head, M, L);
    ChainPrefix(mem, head, L, M, |L|);
    assert L == L[..|L|] && M == M[..|M|];
  }

  lemma ChainNotLonger(mem: seq<Cell>, head: int, L: seq<int>, M: seq<int>)
    requires Chain(mem, head, L) && Chain(mem, head, M)
    ensures |M| <= |L|
  {
    if |L| < |M| {
      assert HeadAt(mem, M[|L|]);
      ChainPrefix(mem, head, L, M, |L|);
    }
  }

  lemma {:induction false} ChainPrefix(mem: seq<Cell>, head: int, L: seq<int>, M: seq<int>, n: nat)
    requires Chain(mem, head, L) && Chain(mem, head, M) && n <= |L| && n <= |M|
    ensures L[..n] == M[..n] && At(L, n) == At(M, n)
  {
    if n == 0 {
    } else {
      ChainPrefix(mem, head, L, M, n - 1);
      assert L[n - 1] == M[n - 1] by {
        assert At(L, n - 1) == At(M, n - 1);
      }
      assert HeadAt(mem, L[n - 1]);
      assert mem[L[n - 1]].m.next == At(L, n);
      assert mem[M[n - 1]].m.next == At(M, n);
      assert L[..n] == L[..n - 1] + [L[n - 1]];
      assert M[..n] == M[..n - 1] + [M[n - 1]];
    }
  }

  /** m1 is m0 with the node `cur` cut out between its neighbours p and n. */
  ghost predicate CutOut(m0: seq<Cell>, m1: seq<Cell>, cur: int, p: int, n: int) {
    && |m0| == |m1|
    && (forall x {:trigger m1[x]} {:trigger m0[x]} | 0 <= x < |m0| ::
          if x == cur then
            m0[x].Head? && m1[x] == Head(m0[x].m.(next := NULL, prev := NULL))
          else if x == p then
            m0[x].Head? && m1[x] == Head(m0[x].m.(next := n))
          else if x == n then
            m0[x].Head? && m1[x] == Head(m0[x].m.(prev := p))
          else m1[x] == m0[x])
  }

  lemma CutChain(m0: seq<Cell>, m1: seq<Cell>, h0: int, h1: int, L: seq<int>, k: nat)
    requires Chain(m0, h0, L) && k < |L| && Disjoint([L])
    requires CutOut(m0, m1, L[k], At(L, k - 1), At(L, k + 1))
    requires h1 == if k == 0 then At(L, 1) else h0
    ensures Chain(m1, h1, Without(L, k))
  {
    var M := Without(L, k);
    assert forall i, j | 0 <= i < |L| && 0 <= j < |L| && L[i] == L[j] :: i == j by {
      forall i, j | 0 <= i < |L| && 0 <= j < |L| && L[i] == L[j]
        ensures i == j
      {
        assert [L][0][i] == [L][0][j];
      }
    }
    assert h1 == At(M, 0);
    forall j | 0 <= j < |M|
      ensures HeadAt(m1, M[j]) && m1[M[j]].m.next == At(M, j + 1) && m1[M[j]].m.prev == At(M, j - 1)
    {
      var o := if j < k then j else j + 1;
      assert M[j] == L[o] && HeadAt(m0, L[o]);
      assert o != k && L[o] != L[k];
      assert m0[L[o]].m.next == At(L, o + 1) && m0[L[o]].m.prev == At(L, o - 1);
      assert k > 0 ==> HeadAt(m0, L[k - 1]);
      assert k + 1 < |L| ==> HeadAt(m0, L[k + 1]);
    }
  }

  lemma CutOther(m0: seq<Cell>, m1: seq<Cell>, h: int, L: seq<int>, cur: int, p: int, n: int)
    requires Chain(m0, h, L) && CutOut(m0, m1, cur, p, n)
    requires cur !in L && p !in L && n !in L
    ensures Chain(m1, h, L)
  {
    forall j | 0 <= j < |L|
      ensures HeadAt(m1, L[j]) && m1[L[j]] == m0[L[j]]
    {
      assert HeadAt(m0, L[j]);
      assert L[j] in L;
    }
  }

  lemma WithoutDisjoint(lists: seq<seq<int>>, i: nat, k: nat)
    requires Disjoint(lists) && i < |lists| && k < |lists[i]|
    ensures Disjoint(lists[i := Without(lists[i], k)])
    ensures forall j, a | 0 <= j < |lists| ::
              a in lists[i := Without(lists[i], k)][j] <==> a in lists[j] && a != lists[i][k]
  {
    var L, M := lists[i], Without(lists[i], k);
    var next := lists[i := M];
    assert forall l | 0 <= l < |M| :: M[l] == L[if l < k then l else l + 1];
    forall a, b, c, d
      | 0 <= a < |next| && 0 <= b < |next| && 0 <= c < |next[a]| && 0 <= d < |next[b]| && next[a][c] == next[b][d]
      ensures a == b && c == d
    {
      var c', d' := if a == i && c >= k then c + 1 else c, if b == i && d >= k then d + 1 else d;
      assert lists[a][c'] == lists[b][d'];
    }
    forall j, a | 0 <= j < |lists|
      ensures a in next[j] <==> a in lists[j] && a != L[k]
    {
      if a in next[j] {
        var l :| 0 <= l < |next[j]| && next[j][l] == a;
        assert lists[j][if j == i && l >= k then l + 1 else l] == a;
        assert a == lists[i][k] ==> j == i && (if j == i && l >= k then l + 1 else l) == k;
      }
      if a in lists[j] && a != L[k] {
        var l :| 0 <= l < |lists[j]| && lists[j][l] == a;
        assert next[j][if j == i && l > k then l - 1 else l] == a;
      }
    }
  }

  /** Cutting a node out of its list, with the head moved on when the node was first. */
  lemma CutLinked(m0: seq<Cell>, m1: seq<Cell>, h0: seq<int>, h1: seq<int>,
                  lists: seq<seq<int>>, i: nat, k: nat)
    requires Linked(m0, h0, lists) && i < CLASSES && k < |lists[i]|
    requires CutOut(m0, m1, lists[i][k], At(lists[i], k - 1), At(lists[i], k + 1))
    requires h1 == if k == 0 then h0[i := At(lists[i], 1)] else h0
    ensures Linked(m1, h1, lists[i := Without(lists[i], k)])
  {
    var L := lists[i];
    var cur, p, n := L[k], At(L, k - 1), At(L, k + 1);
    WithoutDisjoint(lists, i, k);
    assert Disjoint([L]) by {
      assert forall a, b | 0 <= a < |L| && 0 <= b < |L| && L[a] == L[b] :: lists[i][a] == lists[i][b];
    }
    CutChain(m0, m1, h0[i], h1[i], L, k);
    forall j | 0 <= j < CLASSES && j != i
      ensures Chain(m1, h1[j], lists[j])
    {
      forall l | 0 <= l < |lists[j]|
        ensures lists[j][l] != cur && lists[j][l] != p && lists[j][l] != n
      {
        assert HeadAt(m0, lists[j][l]);
        assert lists[i][k] == cur;
        if k > 0 { assert lists[i][k - 1] == p; }
        if k + 1 < |L| { assert lists[i][k + 1] == n; }
      }
      CutOther(m0, m1, h0[j], lists[j], cur, p, n);
    }
  }

  /** m1 is m0 with `cur` linked in front of the node h (or alone when h is NULL). */
  ghost predicate PushedOn(m0: seq<Cell>, m1: seq<Cell>, cur: int, h: int) {
    && |m0| == |m1|
    && (forall x {:trigger m1[x]} {:trigger m0[x]} | 0 <= x < |m0| ::
          if x == cur then
            m0[x].Head? && m1[x] == Head(m0[x].m.(next := h, prev := NULL))
          else if x == h then
            m0[x].Head? && m1[x] == Head(m0[x].m.(prev := cur))
          else m1[x] == m0[x])
  }

  lemma PushDisjoint(lists: seq<seq<int>>, i: nat, cur: int)
    requires Disjoint(lists) && i < |lists| && Unlisted(lists, cur)
    ensures Disjoint(lists[i := [cur] + lists[i]])
  {
    var next := lists[i := [cur] + lists[i]];
    forall a, b, c, d
      | 0 <= a < |next| && 0 <= b < |next| && 0 <= c < |next[a]| && 0 <= d < |next[b]| && next[a][c] == next[b][d]
      ensures a == b && c == d
    {
      var c', d' := if a == i then c - 1 else c, if b == i then d - 1 else d;
      if c' >= 0 { assert next[a][c] == lists[a][c'] && lists[a][c'] in lists[a]; }
      if d' >= 0 { assert next[b][d] == lists[b][d'] && lists[b][d'] in lists[b]; }
    }
  }

  lemma PushChain(m0: seq<Cell>, m1: seq<Cell>, h: int, L: seq<int>, cur: int)
    requires Chain(m0, h, L) && HeadAt(m0, cur) && cur !in L && PushedOn(m0, m1, cur, h)
    requires forall l | 0 < l < |L| :: L[l] != L[0]
    ensures Chain(m1, cur, [cur] + L)
  {
    var M := [cur] + L;
    forall l | 0 <= l < |M|
      ensures HeadAt(m1, M[l]) && m1[M[l]].m.next == At(M, l + 1) && m1[M[l]].m.prev == At(M, l - 1)
    {
      if l > 0 {
        assert M[l] == L[l - 1] && HeadAt(m0, L[l - 1]) && L[l - 1] in L;
      }
    }
  }

  lemma PushOther(m0: seq<Cell>, m1: seq<Cell>, h: int, L: seq<int>, cur: int, first: int)
    requires Chain(m0, h, L) && cur !in L && first !in L && PushedOn(m0, m1, cur, first)
    ensures Chain(m1, h, L)
  {
    forall l | 0 <= l < |L|
      ensures HeadAt(m1, L[l]) && m1[L[l]] == m0[L[l]]
    {
      assert HeadAt(m0, L[l]) && L[l] in L;
    }
  }

  /** Linking a block that is in no list in front of list i. */
  lemma PushLinked(m0: seq<Cell>, m1: seq<Cell>, h0: seq<int>, lists: seq<seq<int>>, i: nat, cur: int)
    requires Linked(m0, h0, lists) && i < CLASSES && HeadAt(m0, cur)
    requires Unlisted(lists, cur)
    requires PushedOn(m0, m1, cur, h0[i])
    ensures Linked(m1, h0[i := cur], lists[i := [cur] + lists[i]])
  {
    PushDisjoint(lists, i, cur);
    var L := lists[i];
    assert Chain(m0, h0[i], L);
    forall l | 0 < l < |L|
      ensures L[l] != L[0]
    {
      assert lists[i][l] == lists[i][0] ==> l == 0;
    }
    PushChain(m0, m1, h0[i], L, cur);
    forall j | 0 <= j < CLASSES && j != i
      ensures Chain(m1, h0[j], lists[j])
    {
      assert Chain(m0, h0[j], lists[j]);
      ChainNodes(m0, h0[j], lists[j]);
      forall l | 0 <= l < |lists[j]|
        ensures lists[j][l] != h0[i]
      {
        assert L != [] && lists[j][l] == lists[i][0] ==> i == j;
      }
      PushOther(m0, m1, h0[j], lists[j], cur, h0[i]);
    }
  }

  // ---- both views together ----

  /**
    The lists hold exactly the free blocks, each in the list of its size class. The blocks in X are
    excused from the class discipline.
    */
  ghost predicate Filed(mem: seq<Cell>, starts: set<int>, lists: seq<seq<int>>, X: set<int>)
    requires |lists| == CLASSES
    requires forall a | a in starts :: HeadAt(mem, a)
  {
    && (forall i, a {:trigger a in lists[i]} | 0 <= i < CLASSES && a in lists[i] ::
          a in starts && IsFree(mem, a) && (a !in X ==> ClassOf(Size(mem, a)) == i))
    && (forall a | a in starts && IsFree(mem, a) && a !in X :: a in lists[ClassOf(Size(mem, a))])
  }

  /** The whole heap invariant, with the blocks in X excused from the class discipline. */
  ghost predicate Consistent(mem: seq<Cell>, heads: seq<int>, starts: set<int>, lists: seq<seq<int>>, X: set<int>) {
    Tiled(mem, starts) && Linked(mem, heads, lists) && Filed(mem, starts, lists, X)
  }

  /**
    The live blocks outside P are the same as before, of the same sizes and with the same payloads.
    */
  ghost predicate Kept(m0: seq<Cell>, s0: set<int>, m1: seq<Cell>, s1: set<int>, P: set<int>)
    requires forall a | a in s0 :: HeadAt(m0, a)
    requires forall a | a in s1 :: HeadAt(m1, a)
  {
    && (forall a | a in s0 && !IsFree(m0, a) && a !in P ::
          && a in s1 && !IsFree(m1, a) && Size(m1, a) == Size(m0, a)
          && SamePayload(m0, m1, a + META, a + META, Size(m0, a)))
    && (forall a | a in s1 && !IsFree(m1, a) && a !in P :: a in s0 && !IsFree(m0, a))
  }

  /** The n cells from a1 on in m1 are the n cells from a0 on in m0. */
  ghost predicate SamePayload(m0: seq<Cell>, m1: seq<Cell>, a0: int, a1: int, n: nat) {
    && 0 <= a0 && a0 + n <= |m0| && 0 <= a1 && a1 + n <= |m1|
    && m1[a1..a1 + n] == m0[a0..a0 + n]
  }

  lemma KeptTransitive(m0: seq<Cell>, s0: set<int>, m1: seq<Cell>, s1: set<int>, m2: seq<Cell>, s2: set<int>,
                       P: set<int>, Q: set<int>)
    requires forall a | a in s0 :: HeadAt(m0, a)
    requires forall a | a in s1 :: HeadAt(m1, a)
    requires forall a | a in s2 :: HeadAt(m2, a)
    requires Kept(m0, s0, m1, s1, P) && Kept(m1, s1, m2, s2, Q)
    ensures Kept(m0, s0, m2, s2, P + Q)
  {
    forall a | a in s0 && !IsFree(m0, a) && a !in P + Q
      ensures a in s2 && !IsFree(m2, a) && Size(m2, a) == Size(m0, a)
      ensures SamePayload(m0, m2, a + META, a + META, Size(m0, a))
    {
      assert SamePayload(m0, m1, a + META, a + META, Size(m0, a));
      assert SamePayload(m1, m2, a + META, a + META, Size(m0, a));
    }
  }

  lemma KeptAlong(m0: seq<Cell>, s0: set<int>, m1: seq<Cell>, s1: set<int>, m2: seq<Cell>, s2: set<int>)
    requires forall a | a in s0 :: HeadAt(m0, a)
    requires forall a | a in s1 :: HeadAt(m1, a)
    requires forall a | a in s2 :: HeadAt(m2, a)
    requires Kept(m0, s0, m1, s1, {}) && Kept(m1, s1, m2, s2, {})
    ensures Kept(m0, s0, m2, s2, {})
  {
    KeptTransitive(m0, s0, m1, s1, m2, s2, {}, {});
  }

  /** Header cells at `starts` may differ in any field; the cells below `limit` are otherwise the same. */
  ghost predicate HeadsOnly(m0: seq<Cell>, m1: seq<Cell>, starts: set<int>, limit: int) {
    && 0 <= limit <= |m0| && limit <= |m1|
    && forall x {:trigger m1[x]} {:trigger m0[x]} | 0 <= x < limit && x !in starts :: m1[x] == m0[x]
  }

  /** A payload holds no block start, so writing headers leaves it alone. */
  lemma PayloadKept(m0: seq<Cell>, m1: seq<Cell>, starts: set<int>, limit: int, a: int)
    requires Tiled(m0, starts) && HeadsOnly(m0, m1, starts, limit)
    requires a in starts && End(m0, a) <= limit
    ensures SamePayload(m0, m1, a + META, a + META, Size(m0, a))
  {
    var lo, hi := a + META, End(m0, a);
    assert forall x | lo <= x < hi :: x !in starts;
    assert m1[lo..hi] == m0[lo..hi];
  }

  lemma KeptByHeads(m0: seq<Cell>, s0: set<int>, m1: seq<Cell>, s1: set<int>, limit: int, P: set<int>)
    requires Tiled(m0, s0) && Tiled(m1, s1) && HeadsOnly(m0, m1, s0, limit)
    requires forall a | a in s0 && !IsFree(m0, a) && a !in P ::
               a in s1 && !IsFree(m1, a) && Size(m1, a) == Size(m0, a) && End(m0, a) <= limit
    requires forall a | a in s1 && !IsFree(m1, a) && a !in P :: a in s0 && !IsFree(m0, a)
    ensures Kept(m0, s0, m1, s1, P)
  {
    forall a | a in s0 && !IsFree(m0, a) && a !in P
      ensures SamePayload(m0, m1, a + META, a + META, Size(m0, a))
    {
      PayloadKept(m0, m1, s0, limit, a);
    }
  }

  /** Cutting a free block out of its list only relinks headers, and leaves that one block unfiled. */
  lemma CutConsistent(m0: seq<Cell>, m1: seq<Cell>, h0: seq<int>, h1: seq<int>, starts: set<int>,
                      lists: seq<seq<int>>, X: set<int>, i: nat, k: nat)
    requires Consistent(m0, h0, starts, lists, X)
    requires i < CLASSES && k < |lists[i]|
    requires CutOut(m0, m1, lists[i][k], At(lists[i], k - 1), At(lists[i], k + 1))
    requires Linked(m1, h1, lists[i := Without(lists[i], k)])
    ensures Relinked(m0, m1, starts) && lists[i][k] in starts
    ensures Consistent(m1, h1, starts, lists[i := Without(lists[i], k)], X + {lists[i][k]})
    ensures Unlisted(lists[i := Without(lists[i], k)], lists[i][k])
  {
    CutRelinks(m0, m1, h0, starts, lists, X, i, k);
    RelinkedTiled(m0, m1, starts);
    WithoutDisjoint(lists, i, k);
    var b, next := lists[i][k], lists[i := Without(lists[i], k)];
    assert b in lists[i];
    forall j, a {:trigger a in next[j]} | 0 <= j < CLASSES && a in next[j]
      ensures a in starts && IsFree(m1, a) && (a !in X + {b} ==> ClassOf(Size(m1, a)) == j)
    {
      assert a in lists[j] && HeadAt(m0, a);
    }
    forall a | a in starts && IsFree(m1, a) && a !in X + {b}
      ensures a in next[ClassOf(Size(m1, a))]
    {
      assert HeadAt(m0, a);
      assert a in lists[ClassOf(Size(m0, a))];
    }
  }

  lemma CutRelinks(m0: seq<Cell>, m1: seq<Cell>, h0: seq<int>, starts: set<int>, lists: seq<seq<int>>,
                   X: set<int>, i: nat, k: nat)
    requires Consistent(m0, h0, starts, lists, X)
    requires i < CLASSES && k < |lists[i]|
    requires CutOut(m0, m1, lists[i][k], At(lists[i], k - 1), At(lists[i], k + 1))
    ensures Relinked(m0, m1, starts)
  {
    assert lists[i][k] in lists[i];
    assert k > 0 ==> lists[i][k - 1] in lists[i];
    assert k + 1 < |lists[i]| ==> lists[i][k + 1] in lists[i];
    forall x | x in starts
      ensures HeadAt(m0, x)
    {
    }
  }

  /** Linking the one unfiled free block into the list of its class completes the heap. */
  lemma PushConsistent(m0: seq<Cell>, m1: seq<Cell>, h0: seq<int>, h1: seq<int>, starts: set<int>,
                       lists: seq<seq<int>>, c: int, i: nat)
    requires Consistent(m0, h0, starts, lists, {c}) && c in starts && IsFree(m0, c)
    requires i == ClassOf(Size(m0, c)) && PushedOn(m0, m1, c, h0[i])
    requires Linked(m1, h1, lists[i := [c] + lists[i]])
    ensures Relinked(m0, m1, starts)
    ensures Consistent(m1, h1, starts, lists[i := [c] + lists[i]], {})
  {
    var next := lists[i := [c] + lists[i]];
    assert Relinked(m0, m1, starts) by {
      assert Chain(m0, h0[i], lists[i]);
      assert |lists[i]| > 0 ==> lists[i][0] in lists[i];
      forall x | x in starts
        ensures HeadAt(m0, x)
      {
      }
    }
    RelinkedTiled(m0, m1, starts);
    forall j, a {:trigger a in next[j]} | 0 <= j < CLASSES && a in next[j]
      ensures a in starts && IsFree(m1, a) && ClassOf(Size(m1, a)) == j
    {
      assert (a == c && j == i) || a in lists[j];
      assert HeadAt(m0, a);
      assert next[i][0] == c;
      if a == c {
        var l :| 0 <= l < |next[j]| && next[j][l] == c;
        assert next[i][0] == next[j][l];
      }
    }
    forall a | a in starts && IsFree(m1, a)
      ensures a in next[ClassOf(Size(m1, a))]
    {
      assert HeadAt(m0, a);
      if a == c {
        assert next[i][0] == c;
      } else {
        assert a in lists[ClassOf(Size(m0, a))];
      }
    }
  }

  /** The flag of a block that is in no list may change freely while it is the excused one. */
  lemma FlagConsistent(m: seq<Cell>, heads: seq<int>, starts: set<int>, lists: seq<seq<int>>, X: set<int>, c: int, f: bool)
    requires Consistent(m, heads, starts, lists, X) && c in X && c in starts
    requires Unlisted(lists, c)
    ensures Consistent(SetFree(m, c, f), heads, starts, lists, X)
  {
    var m1 := SetFree(m, c, f);
    forall a | a in starts
      ensures HeadAt(m1, a) && Size(m1, a) == Size(m, a) && End(m1, a) == End(m, a) && (a != c ==> m1[a] == m[a])
    {
      assert HeadAt(m, a);
    }
    SameLinksLinked(m, m1, heads, lists);
  }

  /** An excused block that is live, or in the right list, needs no excuse. */
  lemma NoExcuse(m: seq<Cell>, heads: seq<int>, starts: set<int>, lists: seq<seq<int>>, X: set<int>, c: int)
    requires Consistent(m, heads, starts, lists, X) && c in starts
    requires !IsFree(m, c) || c in lists[ClassOf(Size(m, c))]
    ensures Consistent(m, heads, starts, lists, X - {c})
  {
    forall j, a {:trigger a in lists[j]} | 0 <= j < CLASSES && a in lists[j] && a !in X - {c}
      ensures ClassOf(Size(m, a)) == j
    {
      if a == c {
        var i := ClassOf(Size(m, c));
        var k :| 0 <= k < |lists[i]| && lists[i][k] == c;
        var l :| 0 <= l < |lists[j]| && lists[j][l] == c;
        assert lists[i][k] == lists[j][l];
      }
    }
  }

  /** Giving back the last block, when it is in no list. */
  lemma TrimConsistent(m: seq<Cell>, heads: seq<int>, starts: set<int>, lists: seq<seq<int>>, X: set<int>, c: int)
    requires Consistent(m, heads, starts, lists, X) && c in starts && End(m, c) == |m|
    requires Unlisted(lists, c)
    ensures Consistent(m[..c], heads, starts - {c}, lists, X - {c})
    ensures forall b | b in starts && b != c :: HeadAt(m[..c], b) && m[..c][b] == m[b] && End(m, b) <= c
  {
    var m1 := m[..c];
    TrimTiled(m, starts, c);
    forall b | b in starts && b != c
      ensures End(m, b) <= c
    {
      LastBlock(m, starts, c, b);
    }
    forall i | 0 <= i < CLASSES
      ensures Chain(m1, heads[i], lists[i])
    {
      var L := lists[i];
      assert Chain(m, heads[i], L);
      forall k | 0 <= k < |L|
        ensures HeadAt(m1, L[k]) && m1[L[k]].m.next == At(L, k + 1) && m1[L[k]].m.prev == At(L, k - 1)
      {
        assert HeadAt(m, L[k]) && L[k] in lists[i];
      }
    }
  }

  /** Extending the break by a live block. */
  lemma ExtendConsistent(m: seq<Cell>, heads: seq<int>, starts: set<int>, lists: seq<seq<int>>, X: set<int>, b: Meta)
    requires Consistent(m, heads, starts, lists, X) && b.size >= 1 && !b.free
    ensures Consistent(m + NewBlock(b), heads, starts + {|m|}, lists, X)
    ensures |m| !in starts && HeadAt(m + NewBlock(b), |m|) && (m + NewBlock(b))[|m|] == Head(b)
    ensures HeadsOnly(m, m + NewBlock(b), starts, |m|)
  {
    var m1 := m + NewBlock(b);
    ExtendTiled(m, starts, b);
    assert m1[|m|] == Head(b);
    forall i | 0 <= i < CLASSES
      ensures Chain(m1, heads[i], lists[i])
    {
      var L := lists[i];
      assert Chain(m, heads[i], L);
      forall k | 0 <= k < |L|
        ensures HeadAt(m1, L[k]) && m1[L[k]].m.next == At(L, k + 1) && m1[L[k]].m.prev == At(L, k - 1)
      {
        assert HeadAt(m, L[k]);
      }
    }
    assert forall a | a in starts :: HeadAt(m, a) && m1[a] == m[a];
  }

  /** Links are the same; sizes and free flags may differ. */
  ghost predicate SameLinks(m0: seq<Cell>, m1: seq<Cell>) {
    && |m0| == |m1|
    && forall x {:trigger m1[x]} {:trigger m0[x]} | 0 <= x < |m0| && m0[x].Head? ::
         m1[x].Head? && m1[x].m.next == m0[x].m.next && m1[x].m.prev == m0[x].m.prev
  }

  lemma SameLinksLinked(m0: seq<Cell>, m1: seq<Cell>, heads: seq<int>, lists: seq<seq<int>>)
    requires Linked(m0, heads, lists) && SameLinks(m0, m1)
    ensures Linked(m1, heads, lists)
  {
    forall i | 0 <= i < CLASSES
      ensures Chain(m1, heads[i], lists[i])
    {
      var L := lists[i];
      assert Chain(m0, heads[i], L);
      forall k | 0 <= k < |L|
        ensures HeadAt(m1, L[k]) && m1[L[k]].m.next == At(L, k + 1) && m1[L[k]].m.prev == At(L, k - 1)
      {
        assert HeadAt(m0, L[k]);
      }
    }
  }

  /** The state after the free block behind `cur` was unlinked (mx, hx) and folded into `cur`. */
  lemma MergeConsistent(m0: seq<Cell>, mx: seq<Cell>, h0: seq<int>, hx: seq<int>, s0: set<int>,
                        l0: seq<seq<int>>, X: set<int>, cur: int, i: nat, l: nat)
    requires Consistent(m0, h0, s0, l0, X) && cur in X && cur in s0 && End(m0, cur) in s0
    requires i < CLASSES && l < |l0[i]| && l0[i][l] == End(m0, cur)
    requires Relinked(m0, mx, s0) && HeadAt(mx, cur) && HeadAt(mx, End(m0, cur))
    requires Linked(mx, hx, l0[i := Without(l0[i], l)])
    ensures var n := End(m0, cur);
            var m1 := SetSize(SetFree(mx, n, false), cur, Size(m0, cur) + META + Size(m0, n));
            && Consistent(m1, hx, s0 - {n}, l0[i := Without(l0[i], l)], X - {n})
            && HeadsOnly(m0, m1, s0, |m0|)
            && IsFree(m1, cur) == IsFree(m0, cur)
            && forall a | a in s0 && a != cur && a != n ::
                 HeadAt(m1, a) && Size(m1, a) == Size(m0, a) && IsFree(m1, a) == IsFree(m0, a)
  {
    var n, l1 := End(m0, cur), l0[i := Without(l0[i], l)];
    var m1 := SetSize(SetFree(mx, n, false), cur, Size(m0, cur) + META + Size(m0, n));
    assert n > cur;
    forall a | a in s0
      ensures HeadAt(m1, a)
      ensures a != cur ==> Size(m1, a) == Size(m0, a)
      ensures a != n ==> IsFree(m1, a) == IsFree(m0, a)
    {
      assert HeadAt(m0, a);
    }
    MergeTiled(m0, m1, s0, cur);
    SameLinksLinked(mx, m1, hx, l1);
    WithoutDisjoint(l0, i, l);
    forall j, a {:trigger a in l1[j]} | 0 <= j < CLASSES && a in l1[j]
      ensures a in s0 - {n} && IsFree(m1, a) && (a !in X ==> ClassOf(Size(m1, a)) == j)
    {
      assert a in l0[j];
    }
    forall a | a in s0 - {n} && IsFree(m1, a) && a !in X
      ensures a in l1[ClassOf(Size(m1, a))]
    {
      assert a in l0[ClassOf(Size(m0, a))];
    }
  }

  // ---- one sweep of a list, as far as the free blocks go ----

  /** The free blocks, with their ends. */
  ghost function Frees(m: seq<Cell>, starts: set<int>): map<int, int>
    requires forall a | a in starts :: HeadAt(m, a)
  {
    map a | a in starts && IsFree(m, a) :: End(m, a)
  }

  /** L without n, if n is in it. */
  function Drop(L: seq<int>, n: int): (r: seq<int>)
    ensures |r| == |L| - if n in L then 1 else 0
  {
    if L == [] then [] else if L[0] == n then L[1..] else [L[0]] + Drop(L[1..], n)
  }

  lemma {:induction false} DropAt(L: seq<int>, l: nat)
    requires l < |L| && forall a | 0 <= a < l :: L[a] != L[l]
    ensures Drop(L, L[l]) == Without(L, l)
    decreases l
  {
    if l > 0 {
      DropAt(L[1..], l - 1);
      assert L[1..][l - 1] == L[l];
      assert [L[0]] + Without(L[1..], l - 1) == Without(L, l);
    }
  }

  lemma {:induction false} DropAbsent(L: seq<int>, n: int)
    requires n !in L
    ensures Drop(L, n) == L
    decreases |L|
  {
    if L != [] {
      DropAbsent(L[1..], n);
    }
  }

  /** A merge takes the neighbour's entry out and, when `cur` is free, lets `cur` end where it ended. */
  lemma MergedFrees(m0: seq<Cell>, s0: set<int>, m1: seq<Cell>, s1: set<int>, cur: int)
    requires Tiled(m0, s0) && Tiled(m1, s1) && cur in s0 && End(m0, cur) in s0 && End(m0, cur) != cur
    requires s1 == s0 - {End(m0, cur)} && IsFree(m1, cur) == IsFree(m0, cur)
    requires IsFree(m0, End(m0, cur)) && Size(m1, cur) == Size(m0, cur) + META + Size(m0, End(m0, cur))
    requires forall b | b in s1 && b != cur :: Size(m1, b) == Size(m0, b) && IsFree(m1, b) == IsFree(m0, b)
    ensures var (F, n) := (Frees(m0, s0), End(m0, cur));
            Frees(m1, s1) == if IsFree(m0, cur) then F[cur := F[n]] - {n} else F - {n}
  {
    var n := End(m0, cur);
    var G := if IsFree(m0, cur) then Frees(m0, s0)[cur := Frees(m0, s0)[n]] - {n} else Frees(m0, s0) - {n};
    forall a
      ensures a in Frees(m1, s1) <==> a in G
      ensures a in G ==> Frees(m1, s1)[a] == G[a]
    {
      MergedFreesAt(m0, s0, m1, s1, cur, a);
    }
  }

  lemma MergedFreesAt(m0: seq<Cell>, s0: set<int>, m1: seq<Cell>, s1: set<int>, cur: int, a: int)
    requires (forall b | b in s0 :: HeadAt(m0, b)) && (forall b | b in s1 :: HeadAt(m1, b))
    requires cur in s0 && End(m0, cur) in s0 && End(m0, cur) != cur
    requires s1 == s0 - {End(m0, cur)} && IsFree(m1, cur) == IsFree(m0, cur)
    requires IsFree(m0, End(m0, cur)) && Size(m1, cur) == Size(m0, cur) + META + Size(m0, End(m0, cur))
    requires a in s1 && a != cur ==> Size(m1, a) == Size(m0, a) && IsFree(m1, a) == IsFree(m0, a)
    ensures var (F, n) := (Frees(m0, s0), End(m0, cur));
            var G := if IsFree(m0, cur) then F[cur := F[n]] - {n} else F - {n};
            (a in Frees(m1, s1) <==> a in G) && (a in G ==> Frees(m1, s1)[a] == G[a])
  {
  }

  /** Unlinking a node of one list drops it, wherever it was, from any list. */
  lemma DropFromList(lists: seq<seq<int>>, i: nat, l: nat, j: nat)
    requires Disjoint(lists) && i < |lists| && l < |lists[i]| && j < |lists|
    ensures lists[i := Without(lists[i], l)][j] == Drop(lists[j], lists[i][l])
  {
    if j == i {
      assert forall a | 0 <= a < l :: lists[i][a] != lists[i][l];
      DropAt(lists[i], l);
    } else {
      DropAbsent(lists[j], lists[i][l]);
    }
  }

  /** An address that is no free block's is in no list. */
  lemma NotDropped(m: seq<Cell>, heads: seq<int>, starts: set<int>, lists: seq<seq<int>>, X: set<int>, n: int)
    requires Consistent(m, heads, starts, lists, X) && !(n in starts && IsFree(m, n))
    ensures Frees(m, starts) - {n} == Frees(m, starts) && DropAll(lists, n) == lists
  {
    DropAllAbsent(lists, n);
  }

  /** What a merge of a free block with its neighbour keeps. */
  lemma SweepKept(m0: seq<Cell>, s0: set<int>, m1: seq<Cell>, s1: set<int>, cur: int)
    requires Tiled(m0, s0) && Tiled(m1, s1) && cur in s0 && cur in s1 && IsFree(m0, cur) && IsFree(m1, cur)
    requires |m1| == |m0| && HeadsOnly(m0, m1, s0, |m1|)
    requires s1 <= s0 && forall b | b in s0 && b !in s1 :: IsFree(m0, b)
    requires forall b | b in s1 && b != cur :: Size(m1, b) == Size(m0, b) && IsFree(m1, b) == IsFree(m0, b)
    ensures Kept(m0, s0, m1, s1, {})
  {
    forall a | a in s0 && !IsFree(m0, a)
      ensures a in s1 && !IsFree(m1, a) && Size(m1, a) == Size(m0, a) && End(m0, a) <= |m1|
    {
      EndInRegion(m0, s0, a);
    }
    KeptByHeads(m0, s0, m1, s1, |m1|, {});
  }

  lemma TrimKept(m0: seq<Cell>, s0: set<int>, m1: seq<Cell>, s1: set<int>, c: int)
    requires Tiled(m0, s0) && Tiled(m1, s1) && c in s0 && s1 == s0 - {c}
    requires End(m0, c) == |m0| && |m1| == c && HeadsOnly(m0, m1, s0, c)
    requires forall b | b in s1 :: Size(m1, b) == Size(m0, b) && IsFree(m1, b) == IsFree(m0, b)
    ensures Kept(m0, s0, m1, s1, if IsFree(m0, c) then {} else {c})
  {
    forall a | a in s1
      ensures End(m0, a) <= c
    {
      LastBlock(m0, s0, c, a);
    }
    KeptByHeads(m0, s0, m1, s1, c, if IsFree(m0, c) then {} else {c});
  }

  /** Unlinking the last block and giving it back. */
  lemma CutTrimmed(m0: seq<Cell>, mx: seq<Cell>, h0: seq<int>, hx: seq<int>, s0: set<int>,
                   l0: seq<seq<int>>, X: set<int>, i: nat, k: nat)
    requires Consistent(m0, h0, s0, l0, X)
    requires i < CLASSES && k < |l0[i]| && HeadAt(m0, l0[i][k]) && End(m0, l0[i][k]) == |m0|
    requires CutOut(m0, mx, l0[i][k], At(l0[i], k - 1), At(l0[i], k + 1))
    requires Linked(mx, hx, l0[i := Without(l0[i], k)])
    ensures HeadAt(mx, l0[i][k]) && End(mx, l0[i][k]) == |mx|
    ensures var c := l0[i][k];
            var m1 := SetFree(mx, c, false)[..c];
            && Consistent(m1, hx, s0 - {c}, l0[i := Without(l0[i], k)], X - {c})
            && Kept(m0, s0, m1, s0 - {c}, {})
            && forall b | b in s0 - {c} :: Size(m1, b) == Size(m0, b) && IsFree(m1, b) == IsFree(m0, b)
  {
    var c, l1 := l0[i][k], l0[i := Without(l0[i], k)];
    CutConsistent(m0, mx, h0, hx, s0, l0, X, i, k);
    FlagConsistent(mx, hx, s0, l1, X + {c}, c, false);
    var my := SetFree(mx, c, false);
    TrimConsistent(my, hx, s0, l1, X + {c}, c);
    assert X + {c} - {c} == X - {c};
    assert c in l0[i];
    forall b | b in s0 - {c}
      ensures Size(my[..c], b) == Size(m0, b) && IsFree(my[..c], b) == IsFree(m0, b)
    {
      assert HeadAt(m0, b);
    }
    TrimKept(m0, s0, my[..c], s0 - {c}, c);
  }

  /** Unlinking a free block and marking it live. */
  lemma CutTaken(m0: seq<Cell>, mx: seq<Cell>, h0: seq<int>, hx: seq<int>, s0: set<int>,
                 l0: seq<seq<int>>, X: set<int>, i: nat, k: nat)
    requires Consistent(m0, h0, s0, l0, X)
    requires i < CLASSES && k < |l0[i]|
    requires CutOut(m0, mx, l0[i][k], At(l0[i], k - 1), At(l0[i], k + 1))
    requires Linked(mx, hx, l0[i := Without(l0[i], k)])
    ensures HeadAt(mx, l0[i][k]) && l0[i][k] in s0 && IsFree(m0, l0[i][k])
    ensures var c := l0[i][k];
            var m1 := SetFree(mx, c, false);
            && Consistent(m1, hx, s0, l0[i := Without(l0[i], k)], X - {c})
            && Kept(m0, s0, m1, s0, {c})
            && forall a | a in s0 :: Size(m1, a) == Size(m0, a) && (a != c ==> IsFree(m1, a) == IsFree(m0, a))
  {
    var c, l1 := l0[i][k], l0[i := Without(l0[i], k)];
    CutConsistent(m0, mx, h0, hx, s0, l0, X, i, k);
    FlagConsistent(mx, hx, s0, l1, X + {c}, c, false);
    var m1 := SetFree(mx, c, false);
    NoExcuse(m1, hx, s0, l1, X + {c}, c);
    assert X + {c} - {c} == X - {c};
    assert c in l0[i];
    forall a | a in s0
      ensures Size(m1, a) == Size(m0, a) && (a != c ==> IsFree(m1, a) == IsFree(m0, a)) && End(m0, a) <= |m1|
    {
      EndInRegion(m0, s0, a);
    }
    KeptByHeads(m0, s0, m1, s0, |m1|, {c});
  }

  /** Extending the break by a live block leaves the other blocks alone. */
  lemma ExtendKept(m: seq<Cell>, heads: seq<int>, starts: set<int>, lists: seq<seq<int>>, X: set<int>, b: Meta)
    requires Consistent(m, heads, starts, lists, X) && b.size >= 1 && !b.free
    ensures Consistent(m + NewBlock(b), heads, starts + {|m|}, lists, X)
    ensures |m| !in starts && (m + NewBlock(b))[|m|] == Head(b)
    ensures Kept(m, starts, m + NewBlock(b), starts + {|m|}, {|m|})
    ensures forall a | a in starts :: (m + NewBlock(b))[a] == m[a]
  {
    ExtendConsistent(m, heads, starts, lists, X, b);
    forall a | a in starts
      ensures End(m, a) <= |m|
    {
      EndInRegion(m, starts, a);
    }
    KeptByHeads(m, starts, m + NewBlock(b), starts + {|m|}, |m|, {|m|});
  }

  /** What a merge into the live block `c` keeps: the other blocks, and the old payload of `c`. */
  lemma MergeKept(m0: seq<Cell>, s0: set<int>, m1: seq<Cell>, s1: set<int>, c: int)
    requires Tiled(m0, s0) && Tiled(m1, s1) && c in s0 && c in s1
    requires |m1| == |m0| && HeadsOnly(m0, m1, s0, |m1|)
    requires s1 <= s0 && forall b | b in s0 && b !in s1 :: IsFree(m0, b)
    requires forall b | b in s1 && b != c :: Size(m1, b) == Size(m0, b) && IsFree(m1, b) == IsFree(m0, b)
    ensures Kept(m0, s0, m1, s1, {c})
    ensures SamePayload(m0, m1, c + META, c + META, Size(m0, c))
  {
    forall a | a in s0
      ensures End(m0, a) <= |m1|
    {
      EndInRegion(m0, s0, a);
    }
    KeptByHeads(m0, s0, m1, s1, |m1|, {c});
    PayloadKept(m0, m1, s0, |m1|, c);
  }

  /** Giving back the live last block. */
  lemma LiveTrimmed(m: seq<Cell>, heads: seq<int>, starts: set<int>, lists: seq<seq<int>>, c: int)
    requires Consistent(m, heads, starts, lists, {c}) && c in starts && !IsFree(m, c) && End(m, c) == |m|
    ensures Consistent(m[..c], heads, starts - {c}, lists, {})
    ensures Kept(m, starts, m[..c], starts - {c}, {c})
    ensures Blocks(m[..c], starts - {c}) == Blocks(m, starts) - {c}
  {
    TrimConsistent(m, heads, starts, lists, {c}, c);
    TrimKept(m, starts, m[..c], starts - {c}, c);
  }

  /** Marking a live block free and linking it in. */
  lemma PushFreed(m0: seq<Cell>, m1: seq<Cell>, h0: seq<int>, h1: seq<int>, starts: set<int>,
                  lists: seq<seq<int>>, c: int, i: nat)
    requires Consistent(m0, h0, starts, lists, {c}) && c in starts && !IsFree(m0, c)
    requires i == ClassOf(Size(m0, c)) && PushedOn(SetFree(m0, c, true), m1, c, h0[i])
    requires Linked(m1, h1, lists[i := [c] + lists[i]])
    ensures Consistent(m1, h1, starts, lists[i := [c] + lists[i]], {})
    ensures Kept(m0, starts, m1, starts, {c})
    ensures IsFree(m1, c) && Size(m1, c) == Size(m0, c)
    ensures forall a | a in starts && a != c :: Size(m1, a) == Size(m0, a) && IsFree(m1, a) == IsFree(m0, a)
  {
    var mx := SetFree(m0, c, true);
    assert Unlisted(lists, c);
    FlagConsistent(m0, h0, starts, lists, {c}, c, true);
    PushConsistent(mx, m1, h0, h1, starts, lists, c, i);
    forall a | a in starts
      ensures Size(m1, a) == Size(m0, a) && (a != c ==> IsFree(m1, a) == IsFree(m0, a)) && End(m0, a) <= |m1|
      ensures IsFree(m1, c)
    {
      EndInRegion(m0, starts, a);
      assert HeadAt(mx, a);
    }
    KeptByHeads(m0, starts, m1, starts, |m1|, {c});
  }

  function Copied(m: seq<Cell>, dst: int, src: int, n: nat): (r: seq<Cell>)
    requires 0 <= dst && dst + n <= |m| && 0 <= src && src + n <= |m|
    ensures |r| == |m|
  {
    m[..dst] + m[src..src + n] + m[dst + n..]
  }

  /** r differs from m only inside the payload of the block at d. */
  ghost predicate PayloadOnly(m: seq<Cell>, r: seq<Cell>, d: int)
    requires HeadAt(m, d)
  {
    |r| == |m| && forall x | 0 <= x < |m| && !(d + META <= x < End(m, d)) :: r[x] == m[x]
  }

  lemma PayloadOnlyTiled(m: seq<Cell>, r: seq<Cell>, starts: set<int>, d: int)
    requires Tiled(m, starts) && d in starts && PayloadOnly(m, r, d)
    ensures Tiled(r, starts) && SameLinksAt(m, r, starts)
  {
    forall a | a in starts
      ensures HeadAt(r, a) && r[a] == m[a] && End(r, a) == End(m, a)
    {
      assert HeadAt(m, a);
    }
  }

  lemma PayloadOnlyKept(m: seq<Cell>, r: seq<Cell>, starts: set<int>, d: int)
    requires Tiled(m, starts) && d in starts && PayloadOnly(m, r, d) && SameLinksAt(m, r, starts)
    ensures Kept(m, starts, r, starts, {d})
  {
    forall a | a in starts && a != d
      ensures SamePayload(m, r, a + META, a + META, Size(m, a))
    {
      EndInRegion(m, starts, a);
      assert a < d || d < a;
      assert End(m, a) <= d || End(m, d) <= a;
      assert m[a + META..End(m, a)] == r[a + META..End(m, a)];
    }
  }

  /** Copying into a payload of `d` that is large enough, from anywhere. */
  lemma CopyKept(m: seq<Cell>, starts: set<int>, d: int, src: int, n: nat)
    requires Tiled(m, starts) && d in starts && n <= Size(m, d)
    requires 0 <= src && src + n <= |m| && d + META + n <= |m|
    ensures var r := Copied(m, d + META, src, n);
            && Tiled(r, starts) && SameLinksAt(m, r, starts)
            && Kept(m, starts, r, starts, {d})
            && SamePayload(m, r, src, d + META, n)
  {
    var r := Copied(m, d + META, src, n);
    assert PayloadOnly(m, r, d);
    assert r[d + META..d + META + n] == m[src..src + n];
    PayloadOnlyTiled(m, r, starts, d);
    PayloadOnlyKept(m, r, starts, d);
  }

  /** What the memory reads as depends on its headers alone. */
  lemma SameHeadersRead(m: seq<Cell>, r: seq<Cell>, heads: seq<int>, starts: set<int>, s: set<int>, l: seq<seq<int>>)
    requires Tiled(m, starts) && SameLinksAt(m, r, starts) && Consistent(m, heads, s, l, {})
    ensures Consistent(r, heads, s, l, {})
  {
    TilingUnique(m, starts, s);
    ListedLinked(m, r, heads, s, l);
  }

  /** Writing a byte into a payload. */
  lemma WriteConsistent(m: seq<Cell>, heads: seq<int>, starts: set<int>, lists: seq<seq<int>>, d: int, k: nat, b: Byte)
    requires Consistent(m, heads, starts, lists, {}) && d in starts && k < Size(m, d) && d + META + k < |m|
    ensures var r := m[d + META + k := Raw(b)];
            Consistent(r, heads, starts, lists, {}) && Kept(m, starts, r, starts, {d}) && SameLinksAt(m, r, starts)
  {
    var r := m[d + META + k := Raw(b)];
    assert PayloadOnly(m, r, d);
    PayloadOnlyTiled(m, r, starts, d);
    PayloadOnlyKept(m, r, starts, d);
    ListedLinked(m, r, heads, starts, lists);
  }

  ghost predicate SameLinksAt(m0: seq<Cell>, m1: seq<Cell>, starts: set<int>) {
    |m0| == |m1| && forall a | a in starts :: HeadAt(m0, a) && HeadAt(m1, a) && m1[a] == m0[a]
  }

  lemma ListedLinked(m0: seq<Cell>, m1: seq<Cell>, heads: seq<int>, starts: set<int>, lists: seq<seq<int>>)
    requires Consistent(m0, heads, starts, lists, {}) && SameLinksAt(m0, m1, starts)
    ensures Consistent(m1, heads, starts, lists, {})
  {
    forall i | 0 <= i < CLASSES
      ensures Chain(m1, heads[i], lists[i])
    {
      var L := lists[i];
      assert Chain(m0, heads[i], L);
      forall k | 0 <= k < |L|
        ensures HeadAt(m1, L[k]) && m1[L[k]].m.next == At(L, k + 1) && m1[L[k]].m.prev == At(L, k - 1)
      {
        assert HeadAt(m0, L[k]) && L[k] in lists[i];
      }
    }
    assert forall a | a in starts :: End(m1, a) == End(m0, a);
  }

  /** No block of list L is large enough for the request. */
  ghost predicate NoneFits(m: seq<Cell>, L: seq<int>, size: nat) {
    forall a | a in L :: HeadAt(m, a) && Size(m, a) < size
  }

  /** Among the blocks of L that are large enough, none is smaller than n. */
  ghost predicate Tightest(m: seq<Cell>, L: seq<int>, size: nat, n: nat) {
    forall a | a in L :: HeadAt(m, a) && (Size(m, a) >= size ==> n <= Size(m, a))
  }

  /** No free block of L is large enough. */
  ghost predicate NoneAmong(m: seq<Cell>, L: seq<int>, size: nat) {
    forall a | a in L :: HeadAt(m, a) && (IsFree(m, a) ==> Size(m, a) < size)
  }

  /** c is the first free block of L that is large enough, or NULL when there is none. */
  ghost predicate FirstAmong(m: seq<Cell>, L: seq<int>, size: nat, c: int) {
    if c == NULL then NoneAmong(m, L, size)
    else exists k :: 0 <= k < |L| && L[k] == c && HeadAt(m, c) && IsFree(m, c) && Size(m, c) >= size && NoneAmong(m, L[..k], size)
  }

  /** The k-th block of L is the smallest of the free ones that are large enough, and the first of that size. */
  ghost predicate BestAt(m: seq<Cell>, L: seq<int>, size: nat, k: nat)
    requires k < |L| && forall a | a in L :: HeadAt(m, a)
  {
    && IsFree(m, L[k]) && Size(m, L[k]) >= size
    && forall j | 0 <= j < |L| && IsFree(m, L[j]) && Size(m, L[j]) >= size ::
         Size(m, L[k]) < Size(m, L[j]) || (Size(m, L[k]) == Size(m, L[j]) && k <= j)
  }

  /** c is that block, or NULL when there is none. */
  ghost predicate BestAmong(m: seq<Cell>, L: seq<int>, size: nat, c: int) {
    && (forall a | a in L :: HeadAt(m, a))
    && (if c == NULL then NoneAmong(m, L, size) else exists k :: 0 <= k < |L| && L[k] == c && BestAt(m, L, size, k))
  }

  /** c is what the search for a request finds in L: the best fit in the classes from 5 on, the first in the others. */
  ghost predicate Chosen(m: seq<Cell>, L: seq<int>, size: nat, c: int) {
    if ClassOf(size) >= 5 then BestAmong(m, L, size, c) else FirstAmong(m, L, size, c)
  }

  lemma BestOfNone(m: seq<Cell>, L: seq<int>, size: nat)
    ensures BestAmong(m, L[..0], size, NULL)
    ensures L == [] ==> BestAmong(m, L, size, NULL)
  {
  }

  /** What becomes of the best block when one more is looked at. */
  lemma BestGrows(m: seq<Cell>, L: seq<int>, k: nat, size: nat, c: int)
    requires k < |L| && HeadAt(m, L[k]) && BestAmong(m, L[..k], size, c)
    ensures c != NULL ==> HeadAt(m, c)
    ensures var better := IsFree(m, L[k]) && Size(m, L[k]) >= size && (c == NULL || Size(m, c) > Size(m, L[k]));
            BestAmong(m, L[..k + 1], size, if better then L[k] else c)
  {
    var M, x := L[..k + 1], L[k];
    assert M == L[..k] + [x];
    assert forall a :: a in M <==> a in L[..k] || a == x;
    if c != NULL {
      var i :| 0 <= i < k && L[..k][i] == c && BestAt(m, L[..k], size, i);
      assert HeadAt(m, c) && M[i] == c;
      assert forall j | 0 <= j < k :: M[j] == L[..k][j];
      if IsFree(m, x) && Size(m, x) >= size && Size(m, c) > Size(m, x) {
        assert BestAt(m, M, size, k);
      } else {
        assert BestAt(m, M, size, i);
      }
    } else if IsFree(m, x) && Size(m, x) >= size {
      assert forall j | 0 <= j < k :: M[j] in L[..k];
      assert BestAt(m, M, size, k);
    }
  }

  /** What a search of L says of the list: L is the list, of free blocks, or `inOrder` is false and L is one block that is not free. */
  lemma Searched(m: seq<Cell>, list: seq<int>, L: seq<int>, inOrder: bool, size: nat, c: int, best: bool)
    requires if inOrder then L == list && forall a | a in list :: HeadAt(m, a) && IsFree(m, a)
             else |L| == 1 && HeadAt(m, L[0]) && !IsFree(m, L[0])
    requires if best then BestAmong(m, L, size, c) else FirstAmong(m, L, size, c)
    ensures inOrder && c == NULL ==> NoneFits(m, list, size)
    ensures c != NULL ==>
              && inOrder && c in list && HeadAt(m, c) && Size(m, c) >= size
              && (best ==> Tightest(m, list, size, Size(m, c)))
              && (if best then BestAmong(m, list, size, c) else FirstAmong(m, list, size, c))
  {
    if best && c != NULL {
      var k :| 0 <= k < |L| && L[k] == c && BestAt(m, L, size, k);
    }
  }

  /** The block at c was not live before, is now, is large enough, and no other live block changed. */
  ghost predicate Given(m0: seq<Cell>, s0: set<int>, m1: seq<Cell>, s1: set<int>, c: int, size: nat)
    requires forall a | a in s0 :: HeadAt(m0, a)
    requires forall a | a in s1 :: HeadAt(m1, a)
  {
    && c in s1 && !IsFree(m1, c) && Size(m1, c) >= size
    && (c in s0 ==> IsFree(m0, c))
    && Kept(m0, s0, m1, s1, {c})
  }

  /**
    The block at c was handed out for a request of `size` bytes, between the states (m0, s0) and
    (m1, s1): it was not live before, it is now, it is large enough, and no other live block changed.
    A reused block comes from the request's class and, in the best-fit classes, no smaller one in the
    list would have done; a new block has exactly the requested size.
    */
  ghost predicate HandedOut(m0: seq<Cell>, s0: set<int>, m1: seq<Cell>, s1: set<int>, lists: seq<seq<int>>,
                            c: int, size: nat, reused: bool)
    requires forall a | a in s0 :: HeadAt(m0, a)
    requires forall a | a in s1 :: HeadAt(m1, a)
    requires |lists| == CLASSES
  {
    var i := ClassOf(size);
    && size > 0 && Given(m0, s0, m1, s1, c, size)
    && (if reused then ClassOf(Size(m1, c)) == i && (i >= 5 ==> Tightest(m1, lists[i], size, Size(m1, c)))
        else Size(m1, c) == size && End(m1, c) == |m1| && NoneFits(m1, lists[i], size))
  }

  /** Between the first and the last class bound a request gets less than twice what it asked for. */
  lemma HandedOutDoubles(m0: seq<Cell>, s0: set<int>, m1: seq<Cell>, s1: set<int>, lists: seq<seq<int>>,
                         c: int, size: nat, reused: bool)
    requires forall a | a in s0 :: HeadAt(m0, a)
    requires forall a | a in s1 :: HeadAt(m1, a)
    requires |lists| == CLASSES
    requires HandedOut(m0, s0, m1, s1, lists, c, size, reused)
    requires 8 < size <= 262144
    ensures size <= Size(m1, c) < 2 * size
  {
    if reused { ClassDoubles(size, Size(m1, c)); }
  }

  lemma GivenLater(m0: seq<Cell>, s0: set<int>, mx: seq<Cell>, sx: set<int>, m1: seq<Cell>, s1: set<int>, c: int, size: nat)
    requires forall a | a in s0 :: HeadAt(m0, a)
    requires forall a | a in sx :: HeadAt(mx, a)
    requires forall a | a in s1 :: HeadAt(m1, a)
    requires Kept(m0, s0, mx, sx, {}) && Given(mx, sx, m1, s1, c, size)
    ensures Given(m0, s0, m1, s1, c, size)
  {
    KeptTransitive(m0, s0, mx, sx, m1, s1, {}, {c});
    assert {} + {c} == {c};
  }

  /** A sweep before the block is handed out takes nothing from what handing out promises. */
  lemma HandedOutLater(m0: seq<Cell>, s0: set<int>, mx: seq<Cell>, sx: set<int>, m1: seq<Cell>, s1: set<int>,
                       lists: seq<seq<int>>, c: int, size: nat, reused: bool)
    requires forall a | a in s0 :: HeadAt(m0, a)
    requires forall a | a in sx :: HeadAt(mx, a)
    requires forall a | a in s1 :: HeadAt(m1, a)
    requires |lists| == CLASSES
    requires Kept(m0, s0, mx, sx, {}) && HandedOut(mx, sx, m1, s1, lists, c, size, reused)
    ensures HandedOut(m0, s0, m1, s1, lists, c, size, reused)
  {
    KeptTransitive(m0, s0, mx, sx, m1, s1, {}, {c});
    assert {} + {c} == {c};
  }

  lemma ServedLater(m0: seq<Cell>, s0: set<int>, mx: seq<Cell>, sx: set<int>, m1: seq<Cell>, s1: set<int>,
                    lists: seq<seq<int>>, c: int, size: nat, reused: bool)
    requires forall a | a in s0 :: HeadAt(m0, a)
    requires forall a | a in sx :: HeadAt(mx, a)
    requires forall a | a in s1 :: HeadAt(m1, a)
    requires |lists| == CLASSES
    requires Kept(m0, s0, mx, sx, {}) && Given(mx, sx, m1, s1, c, size)
    ensures Given(m0, s0, m1, s1, c, size)
    ensures HandedOut(mx, sx, m1, s1, lists, c, size, reused) ==> HandedOut(m0, s0, m1, s1, lists, c, size, reused)
  {
    GivenLater(m0, s0, mx, sx, m1, s1, c, size);
    if HandedOut(mx, sx, m1, s1, lists, c, size, reused) {
      HandedOutLater(m0, s0, mx, sx, m1, s1, lists, c, size, reused);
    }
  }

  /** The size the block at c has once it has absorbed its right neighbour, if that one is free. */
  ghost function MergedSize(m: seq<Cell>, starts: set<int>, c: int): nat
    requires HeadAt(m, c)
    requires forall a | a in starts :: HeadAt(m, a)
  {
    var n := End(m, c);
    if n in starts && IsFree(m, n) then Size(m, c) + META + Size(m, n) else Size(m, c)
  }

  /**
    What freeing the live block at c does: no other live block changes, and the storage, with a free
    right neighbour absorbed, goes back to the kernel exactly when it is large and last; otherwise it
    stays as one free block.
    */
  ghost predicate Freed(m0: seq<Cell>, s0: set<int>, m1: seq<Cell>, s1: set<int>, c: int)
    requires forall a | a in s0 :: HeadAt(m0, a)
    requires forall a | a in s1 :: HeadAt(m1, a)
    requires c in s0
  {
    var n := MergedSize(m0, s0, c);
    && Kept(m0, s0, m1, s1, {c})
    && if ClassOf(n) > 5 && c + META + n == |m0| then |m1| == c && c !in s1
       else |m1| == |m0| && c in s1 && IsFree(m1, c) && Size(m1, c) == n
  }

  /**
    What reallocating the live block at c0 to `size` bytes, as the block at c1, does: c1 is live and
    large enough and starts with the old bytes of c0, as many as both sizes allow; c0 is gone unless
    it is c1; no other live block changes.
    */
  ghost predicate Reallocated(m0: seq<Cell>, s0: set<int>, m1: seq<Cell>, s1: set<int>, c0: int, c1: int, size: nat)
    requires forall a | a in s0 :: HeadAt(m0, a)
    requires forall a | a in s1 :: HeadAt(m1, a)
    requires c0 in s0
  {
    && c1 in s1 && !IsFree(m1, c1) && Size(m1, c1) >= size
    && SamePayload(m0, m1, c0 + META, c1 + META, if Size(m0, c0) < size then Size(m0, c0) else size)
    && (c1 != c0 ==> (c0 in s1 ==> IsFree(m1, c0)) && (c1 in s0 ==> IsFree(m0, c1)))
    && Kept(m0, s0, m1, s1, {c0, c1})
  }

  lemma PayloadChain(m0: seq<Cell>, m1: seq<Cell>, m2: seq<Cell>, a: int, b: int, c: int, n: nat, k: nat)
    requires SamePayload(m0, m1, a, b, n) && SamePayload(m1, m2, b, c, k)
    ensures SamePayload(m0, m2, a, c, if n < k then n else k)
  {
    var j := if n < k then n else k;
    assert m1[b..b + n][..j] == m1[b..b + j];
    assert m1[b..b + k][..j] == m1[b..b + j];
    assert m0[a..a + n][..j] == m0[a..a + j];
    assert m2[c..c + k][..j] == m2[c..c + j];
  }

  /** A block given out is none of those that were live before, and these are still there. */
  lemma GivenKeeps(m0: seq<Cell>, s0: set<int>, m1: seq<Cell>, s1: set<int>, c: int, d: int, size: nat)
    requires Tiled(m0, s0) && Tiled(m1, s1) && c in s0 && !IsFree(m0, c) && Size(m0, c) < size && Given(m0, s0, m1, s1, d, size)
    ensures c != d && d in s1 && !IsFree(m1, d) && c in s1 && !IsFree(m1, c) && Size(m1, c) == Size(m0, c) <= Size(m1, d)
  {
  }

  /** A block was given out (m1), and the payload of the live block at c copied into it (m2). */
  lemma CopyGiven(m0: seq<Cell>, s0: set<int>, m1: seq<Cell>, m2: seq<Cell>, s1: set<int>, c: int, d: int, size: nat)
    requires Tiled(m0, s0) && Tiled(m1, s1) && Tiled(m2, s1) && c in s0 && !IsFree(m0, c) && c != d
    requires Given(m0, s0, m1, s1, d, size) && SameLinksAt(m1, m2, s1) && Kept(m1, s1, m2, s1, {d})
    requires SamePayload(m1, m2, c + META, d + META, Size(m1, c))
    ensures Given(m0, s0, m2, s1, d, size)
    ensures c in s1 && !IsFree(m2, c) && Size(m2, c) == Size(m0, c)
    ensures SamePayload(m0, m2, c + META, c + META, Size(m0, c)) && SamePayload(m0, m2, c + META, d + META, Size(m0, c))
  {
    KeptTransitive(m0, s0, m1, s1, m2, s1, {d}, {d});
    assert {d} + {d} == {d};
    PayloadChain(m0, m1, m2, c + META, c + META, d + META, Size(m0, c), Size(m1, c));
  }

  /** Freeing another block leaves alone what was just copied into the block at d. */
  lemma CopyFreed(m0: seq<Cell>, m1: seq<Cell>, s1: set<int>, m2: seq<Cell>, s2: set<int>, c: int, d: int, a: int, n: nat)
    requires Tiled(m1, s1) && Tiled(m2, s2) && c in s1 && d in s1 && c != d && !IsFree(m1, d) && n <= Size(m1, d)
    requires SamePayload(m0, m1, a, d + META, n) && Freed(m1, s1, m2, s2, c)
    ensures d in s2 && !IsFree(m2, d) && Size(m2, d) == Size(m1, d)
    ensures c in s2 ==> IsFree(m2, c)
    ensures SamePayload(m0, m2, a, d + META, n)
  {
    PayloadChain(m0, m1, m2, a, d + META, d + META, n, Size(m1, d));
  }

  /** Moving a block: the new block was given out and the payload copied (m1), then the old block freed. */
  lemma MoveComposes(m0: seq<Cell>, s0: set<int>, m1: seq<Cell>, s1: set<int>, m2: seq<Cell>, s2: set<int>,
                     c: int, d: int, size: nat)
    requires Tiled(m0, s0) && Tiled(m1, s1) && Tiled(m2, s2)
    requires c in s0 && !IsFree(m0, c) && Size(m0, c) < size && c in s1 && c != d
    requires Given(m0, s0, m1, s1, d, size) && SamePayload(m0, m1, c + META, d + META, Size(m0, c))
    requires Freed(m1, s1, m2, s2, c)
    ensures Reallocated(m0, s0, m2, s2, c, d, size)
  {
    CopyFreed(m0, m1, s1, m2, s2, c, d, c + META, Size(m0, c));
    KeptTransitive(m0, s0, m1, s1, m2, s2, {d}, {c});
    assert {d} + {c} == {c, d};
  }

  /** A refused move leaves the block, its payload and all others as they were. */
  lemma MergeThenStuck(m0: seq<Cell>, s0: set<int>, m1: seq<Cell>, s1: set<int>, m2: seq<Cell>, s2: set<int>, c: int)
    requires Tiled(m0, s0) && Tiled(m1, s1) && Tiled(m2, s2)
    requires c in s0 && c in s1 && !IsFree(m1, c) && Size(m0, c) <= Size(m1, c)
    requires Kept(m0, s0, m1, s1, {c}) && SamePayload(m0, m1, c + META, c + META, Size(m0, c))
    requires Kept(m1, s1, m2, s2, {})
    ensures Kept(m0, s0, m2, s2, {c}) && c in s2 && !IsFree(m2, c) && Size(m2, c) >= Size(m0, c)
    ensures SamePayload(m0, m2, c + META, c + META, Size(m0, c))
  {
    KeptTransitive(m0, s0, m1, s1, m2, s2, {c}, {});
    assert {c} + {} == {c};
    PayloadChain(m0, m1, m2, c + META, c + META, c + META, Size(m0, c), Size(m1, c));
  }

  /** Absorbing the right neighbour first takes nothing from what moving promises. */
  lemma MergeThenMove(m0: seq<Cell>, s0: set<int>, m1: seq<Cell>, s1: set<int>, m2: seq<Cell>, s2: set<int>,
                      c0: int, c1: int, size: nat)
    requires Tiled(m0, s0) && Tiled(m1, s1) && Tiled(m2, s2)
    requires c0 in s0 && c0 in s1 && Size(m0, c0) <= Size(m1, c0) < size
    requires Kept(m0, s0, m1, s1, {c0}) && SamePayload(m0, m1, c0 + META, c0 + META, Size(m0, c0))
    requires Reallocated(m1, s1, m2, s2, c0, c1, size)
    ensures Reallocated(m0, s0, m2, s2, c0, c1, size)
  {
    PayloadChain(m0, m1, m2, c0 + META, c0 + META, c1 + META, Size(m0, c0), Size(m1, c0));
    KeptTransitive(m0, s0, m1, s1, m2, s2, {c0}, {c0, c1});
    assert {c0} + {c0, c1} == {c0, c1};
  }

  /** Marking a live block live again changes nothing. */
  lemma SetLiveAgain(m: seq<Cell>, c: int)
    requires HeadAt(m, c) && !IsFree(m, c)
    ensures SetFree(m, c, false) == m
  {
  }

  lemma KeptSelf(m: seq<Cell>, starts: set<int>, P: set<int>)
    requires Tiled(m, starts)
    ensures Kept(m, starts, m, starts, P)
    ensures forall a | a in starts :: SamePayload(m, m, a + META, a + META, Size(m, a))
  {
    forall a | a in starts
      ensures SamePayload(m, m, a + META, a + META, Size(m, a))
    {
      EndInRegion(m, starts, a);
    }
  }

  /** Staying put, on the old block or on the old block with its neighbour absorbed. */
  lemma StayComposes(m0: seq<Cell>, s0: set<int>, m1: seq<Cell>, s1: set<int>, c: int, size: nat)
    requires Tiled(m0, s0) && Tiled(m1, s1)
    requires c in s0 && c in s1 && !IsFree(m1, c) && size <= Size(m1, c)
    requires Kept(m0, s0, m1, s1, {c}) && SamePayload(m0, m1, c + META, c + META, Size(m0, c))
    ensures Reallocated(m0, s0, m1, s1, c, c, size)
  {
    assert {c, c} == {c};
    PayloadChain(m0, m1, m1, c + META, c + META, c + META, Size(m0, c), if Size(m0, c) < size then Size(m0, c) else size);
  }

  // ---- what there is, block by block ----

  datatype Block = Block(size: nat, free: bool)

  ghost function Blocks(m: seq<Cell>, starts: set<int>): map<int, Block>
    requires forall a | a in starts :: HeadAt(m, a)
  {
    map a | a in starts :: Block(Size(m, a), IsFree(m, a))
  }

  /** The lists without the block at c, wherever it was. */
  ghost function DropAll(lists: seq<seq<int>>, c: int): (r: seq<seq<int>>)
    ensures |r| == |lists| && forall j | 0 <= j < |lists| :: r[j] == Drop(lists[j], c)
  {
    seq(|lists|, j requires 0 <= j < |lists| => Drop(lists[j], c))
  }

  lemma DropAllIs(lists: seq<seq<int>>, i: nat, l: nat)
    requires Disjoint(lists) && i < |lists| && l < |lists[i]|
    ensures lists[i := Without(lists[i], l)] == DropAll(lists, lists[i][l])
  {
    forall j | 0 <= j < |lists|
      ensures lists[i := Without(lists[i], l)][j] == Drop(lists[j], lists[i][l])
    {
      DropFromList(lists, i, l, j);
    }
  }

  lemma DropAllAbsent(lists: seq<seq<int>>, c: int)
    requires Unlisted(lists, c)
    ensures DropAll(lists, c) == lists
  {
    forall j | 0 <= j < |lists|
      ensures Drop(lists[j], c) == lists[j]
    {
      DropAbsent(lists[j], c);
    }
  }

  /** The payloads of two live blocks, and of any two blocks, have no address in common. */
  lemma PayloadsDisjoint(mem: seq<Cell>, starts: set<int>, a: int, b: int, x: int)
    requires Tiled(mem, starts) && a in starts && b in starts && a != b
    requires a + META <= x < a + META + Size(mem, a)
    ensures 0 <= x < |mem| && x !in starts && !(b <= x < b + META + Size(mem, b))
  {
    EndInRegion(mem, starts, a);
    assert HeadAt(mem, a) && HeadAt(mem, b);
    if a < b {
      assert End(mem, a) <= b;
    } else {
      assert End(mem, b) <= a;
    }
  }

  /**
    What serving a request without a sweep does, block by block: the block at c, the one that the search
    finds in the list of the request's class, becomes live and leaves its list, or c is new behind all
    others; every other block, live or free, stays as it was.
    */
  ghost predicate Placed(m0: seq<Cell>, s0: set<int>, l0: seq<seq<int>>, m1: seq<Cell>, s1: set<int>, l1: seq<seq<int>>,
                         c: int, size: nat, reused: bool)
    requires forall a | a in s0 :: HeadAt(m0, a)
    requires forall a | a in s1 :: HeadAt(m1, a)
    requires |l0| == CLASSES
  {
    if reused then
      && c in s0 && c in l0[ClassOf(size)] && |m1| == |m0| && Chosen(m0, l0[ClassOf(size)], size, c)
      && Blocks(m1, s1) == Blocks(m0, s0)[c := Block(Size(m0, c), false)] && l1 == DropAll(l0, c)
    else
      && c == |m0| && |m1| == c + META + size
      && Blocks(m1, s1) == Blocks(m0, s0)[c := Block(size, false)] && l1 == l0
  }

  /** The blocks without the one that the block at c would absorb. */
  ghost function AbsorbedBlocks(m: seq<Cell>, starts: set<int>, c: int): map<int, Block>
    requires HeadAt(m, c) && forall a | a in starts :: HeadAt(m, a)
  {
    var n := End(m, c);
    if n in starts && IsFree(m, n) then Blocks(m, starts) - {n} else Blocks(m, starts)
  }

  lemma AbsorbedIs(m0: seq<Cell>, s0: set<int>, m1: seq<Cell>, s1: set<int>, c: int)
    requires forall a | a in s0 :: HeadAt(m0, a)
    requires forall a | a in s1 :: HeadAt(m1, a)
    requires c in s0 && c in s1 && IsFree(m1, c) == IsFree(m0, c) && End(m0, c) != c
    requires s1 == if End(m0, c) in s0 && IsFree(m0, End(m0, c)) then s0 - {End(m0, c)} else s0
    requires forall a | a in s1 && a != c :: Size(m1, a) == Size(m0, a) && IsFree(m1, a) == IsFree(m0, a)
    ensures Blocks(m1, s1) == AbsorbedBlocks(m0, s0, c)[c := Block(Size(m1, c), IsFree(m1, c))]
  {
  }

  lemma UpdateAgain(B: map<int, Block>, c: int, x: Block, y: Block)
    ensures B[c := x][c := y] == B[c := y] && B[c := x] - {c} == B - {c}
  {
  }

  lemma KeptTwice(m0: seq<Cell>, s0: set<int>, m1: seq<Cell>, s1: set<int>, m2: seq<Cell>, s2: set<int>, c: int)
    requires forall a | a in s0 :: HeadAt(m0, a)
    requires forall a | a in s1 :: HeadAt(m1, a)
    requires forall a | a in s2 :: HeadAt(m2, a)
    requires Kept(m0, s0, m1, s1, {c}) && Kept(m1, s1, m2, s2, {c})
    ensures Kept(m0, s0, m2, s2, {c})
  {
    KeptTransitive(m0, s0, m1, s1, m2, s2, {c}, {c});
    assert {c} + {c} == {c};
  }

  /** What freeing the live block at c does to the other blocks and to the lists. */
  ghost predicate FreedBlocks(m0: seq<Cell>, s0: set<int>, l0: seq<seq<int>>, m1: seq<Cell>, s1: set<int>, l1: seq<seq<int>>, c: int)
    requires forall a | a in s0 :: HeadAt(m0, a)
    requires forall a | a in s1 :: HeadAt(m1, a)
    requires c in s0 && |l0| == CLASSES
  {
    var size, B, L := MergedSize(m0, s0, c), AbsorbedBlocks(m0, s0, c), DropAll(l0, End(m0, c));
    if ClassOf(size) > 5 && c + META + size == |m0|
    then Blocks(m1, s1) == B - {c} && l1 == L
    else Blocks(m1, s1) == B[c := Block(size, true)] && l1 == L[ClassOf(size) := [c] + L[ClassOf(size)]]
  }
}
