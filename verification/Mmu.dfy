/** The memory management unit: a TLB over two-level page tables, demand paging and process switches. */
module Mmus {
  import opened Bytes
  import opened Pages
  import opened Options

  datatype Access = READ | WRITE | EXEC

  /** Addresses from `start` up to, not including, `end`. */
  datatype Segment = Segment(start: nat, end: nat, permissions: set<Access>, growsDown: bool)

  /** find_segment; address_in_segmentations says whether it finds one. */
  function FindSegment(segs: seq<Segment>, va: nat): Option<Segment> {
    if segs == [] then None
    else if segs[0].start <= va < segs[0].end then Some(segs[0])
    else FindSegment(segs[1..], va)
  }

  /** Any permission at all allows reading: line 92 of mmu.c joins the permissions and READ with &&. */
  predicate Readable(segs: seq<Segment>, va: nat) {
    va != 0 && FindSegment(segs, va).Some? && FindSegment(segs, va).value.permissions != {}
  }

  predicate Writable(segs: seq<Segment>, va: nat) {
    va != 0 && FindSegment(segs, va).Some? && WRITE in FindSegment(segs, va).value.permissions
  }

  const LAYOUT: seq<Segment> := [
    Segment(0xBFFFE000, 0xC07FE000, {READ, WRITE}, true),        // STACK
    Segment(0xC07FE000, 0xC07FE000, {READ, EXEC, WRITE}, true),  // MMAP
    Segment(0x08072000, 0x08072000, {READ, WRITE}, false),       // HEAP
    Segment(0x0805A000, 0x08072000, {READ, WRITE}, false),       // BSS
    Segment(0x08052000, 0x0805A000, {READ, WRITE}, false),       // DATA
    Segment(0x08048000, 0x08052000, {READ, EXEC}, false),        // TEXT
    Segment(PAGE_SIZE, 3 * PAGE_SIZE, {READ, WRITE}, false)]     // TESTING

  lemma FoundFirst(segs: seq<Segment>, va: nat)
    requires segs != []
    ensures FindSegment(segs, va) ==
            if segs[0].start <= va < segs[0].end then Some(segs[0]) else FindSegment(segs[1..], va)
  {
  }

  /** What a new process may write, and what else it may read; page 0 is in no segment. */
  lemma LayoutAllows(va: nat)
    ensures Writable(LAYOUT, va) <==>
            0x1000 <= va < 0x3000 || 0x08052000 <= va < 0x08072000 || 0xBFFFE000 <= va < 0xC07FE000
    ensures Readable(LAYOUT, va) <==> Writable(LAYOUT, va) || 0x08048000 <= va < 0x08052000
  {
    FoundFirst(LAYOUT, va);
    FoundFirst(LAYOUT[1..], va);
    FoundFirst(LAYOUT[2..], va);
    FoundFirst(LAYOUT[3..], va);
    FoundFirst(LAYOUT[4..], va);
    FoundFirst(LAYOUT[5..], va);
    FoundFirst(LAYOUT[6..], va);
  }

  /** The segments end with pages, so an access that stays in its page stays in its segment. */
  lemma AccessAllowed(va: nat, n: nat, k: nat)
    requires n + va % PAGE_SIZE <= PAGE_SIZE && k < n
    ensures Writable(LAYOUT, va) ==> Writable(LAYOUT, va + k)
    ensures Readable(LAYOUT, va) ==> Readable(LAYOUT, va + k)
  {
    LayoutAllows(va);
    LayoutAllows(va + k);
  }

  // ------------------------------------------------------------ pages and addresses

  /** Pages per directory entry, by the shift at line 38 of mmu.c: a power of two, at most one table's worth. */
  predicate Spread(spread: nat) {
    spread in {1, 2, 4, 8, 16, 32, 64, 128, 256, 512, 1024}
  }

  function Top(spread: nat, va: nat): nat
    requires Spread(spread)
  {
    va / PAGE_SIZE / spread
  }

  function Second(va: nat): nat {
    va / PAGE_SIZE % NUM_ENTRIES
  }

  /** The two table indices tell any two pages apart. */
  lemma PagesDiffer(spread: nat, a: nat, b: nat)
    requires Spread(spread) && Top(spread, a) == Top(spread, b) && Second(a) == Second(b)
    ensures a / PAGE_SIZE == b / PAGE_SIZE
  {
  }

  /** Byte `a` of the memory of process p, as the process sees it. */
  function ByteAt(m: Store, spread: nat, p: Pid, a: nat): Byte
    requires Spread(spread)
  {
    Data(m, p, Top(spread, a), Second(a))[a % PAGE_SIZE]
  }

  /** Every cached page of process `curr` is cached as the entry that the walk finds for it. */
  ghost predicate CacheOk(m: Store, spread: nat, curr: Pid, tlb: map<nat, Slot>)
    requires Spread(spread)
  {
    forall v | v in tlb :: CachedRight(m, spread, curr, v, tlb[v])
  }

  ghost predicate CachedRight(m: Store, spread: nat, curr: Pid, v: nat, s: Slot)
    requires Spread(spread)
  {
    IsPageSlot(m, curr, v / spread, v % NUM_ENTRIES, s)
  }

  /** Entries are cached, not frames: faults and evictions leave the cache right. */
  lemma CacheStays(m: Store, n: Store, spread: nat, curr: Pid, tlb: map<nat, Slot>)
    requires Spread(spread) && CacheOk(m, spread, curr, tlb)
    requires forall p: Pid, i: nat | HasTable(m, p, i) && p == curr :: HasTable(n, p, i) && FrameOf(n, Tab(p, i)) == FrameOf(m, Tab(p, i))
    ensures CacheOk(n, spread, curr, tlb)
  {
    forall v | v in tlb
      ensures CachedRight(n, spread, curr, v, tlb[v])
    {
      assert CachedRight(m, spread, curr, v, tlb[v]);
    }
  }

  function Spliced(page: PageBytes, off: nat, bytes: seq<Byte>): PageBytes
    requires off + |bytes| <= PAGE_SIZE
  {
    page[..off] + bytes + page[off + |bytes|..]
  }

  /** Between m and n, process p stored the bytes at `va` in its flat memory, and nothing else was stored. */
  ghost predicate Stored(spread: nat, m: Store, n: Store, p: Pid, va: nat, bytes: seq<Byte>)
    requires Spread(spread)
  {
    forall q: Pid, a: nat {:trigger ByteAt(n, spread, q, a)} ::
      ByteAt(n, spread, q, a) ==
      if q == p && va <= a < va + |bytes| then bytes[a - va] else ByteAt(m, spread, q, a)
  }

  lemma StoreShowsAt(m: Store, n: Store, spread: nat, p: Pid, va: nat, bytes: seq<Byte>, a: nat)
    requires Spread(spread) && va % PAGE_SIZE + |bytes| <= PAGE_SIZE
    requires Top(spread, a) == Top(spread, va) && Second(a) == Second(va)
    requires Data(n, p, Top(spread, va), Second(va)) == Spliced(Data(m, p, Top(spread, va), Second(va)), va % PAGE_SIZE, bytes)
    ensures ByteAt(n, spread, p, a) == if va <= a < va + |bytes| then bytes[a - va] else ByteAt(m, spread, p, a)
  {
    PagesDiffer(spread, a, va);
    assert a - va == a % PAGE_SIZE - va % PAGE_SIZE;
  }

  lemma SamePage(spread: nat, a: nat, va: nat, n: nat)
    requires Spread(spread) && va % PAGE_SIZE + n <= PAGE_SIZE && va <= a < va + n
    ensures Top(spread, a) == Top(spread, va) && Second(a) == Second(va)
  {
    assert a / PAGE_SIZE == va / PAGE_SIZE;
  }

  /** A store into one page of one process is a store into that process's flat memory. */
  lemma StoreShows(m: Store, n: Store, spread: nat, p: Pid, va: nat, bytes: seq<Byte>)
    requires Spread(spread) && va % PAGE_SIZE + |bytes| <= PAGE_SIZE
    requires Data(n, p, Top(spread, va), Second(va)) == Spliced(Data(m, p, Top(spread, va), Second(va)), va % PAGE_SIZE, bytes)
    requires forall q: Pid, a: nat, c: nat {:trigger Data(n, q, a, c)} | Pag(q, a, c) != Pag(p, Top(spread, va), Second(va)) ::
               Data(n, q, a, c) == Data(m, q, a, c)
    ensures Stored(spread, m, n, p, va, bytes)
  {
    forall q: Pid, a: nat
      ensures ByteAt(n, spread, q, a) ==
              if q == p && va <= a < va + |bytes| then bytes[a - va] else ByteAt(m, spread, q, a)
    {
      if q == p && Top(spread, a) == Top(spread, va) && Second(a) == Second(va) {
        StoreShowsAt(m, n, spread, p, va, bytes, a);
      } else {
        if va <= a < va + |bytes| { SamePage(spread, a, va, |bytes|); }
        assert Data(n, q, Top(spread, a), Second(a)) == Data(m, q, Top(spread, a), Second(a));
      }
    }
  }

  lemma StoredAfter(spread: nat, m: Store, n: Store, r: Store, p: Pid, va: nat, bytes: seq<Byte>)
    requires Spread(spread) && SameData(m, n) && Stored(spread, n, r, p, va, bytes)
    ensures Stored(spread, m, r, p, va, bytes)
  {
    forall q: Pid, a: nat
      ensures ByteAt(r, spread, q, a) ==
              if q == p && va <= a < va + |bytes| then bytes[a - va] else ByteAt(m, spread, q, a)
    {
      assert ByteAt(n, spread, q, a) == ByteAt(m, spread, q, a);
    }
  }

  /** Reading from the page is reading from flat memory. */
  lemma LoadShows(m: Store, spread: nat, p: Pid, va: nat, k: nat)
    requires Spread(spread) && va % PAGE_SIZE + k < PAGE_SIZE
    ensures ByteAt(m, spread, p, va + k) == Data(m, p, Top(spread, va), Second(va))[va % PAGE_SIZE + k]
  {
    assert (va + k) / PAGE_SIZE == va / PAGE_SIZE && (va + k) % PAGE_SIZE == va % PAGE_SIZE + k;
  }

  lemma SameBytes(m: Store, n: Store, spread: nat)
    requires Spread(spread) && SameData(m, n)
    ensures forall q: Pid, a: nat {:trigger ByteAt(n, spread, q, a)} :: ByteAt(n, spread, q, a) == ByteAt(m, spread, q, a)
  {
  }

  /** A kernel always finds a frame that is not out. */
  lemma FrameLeft(out: set<Frame>)
    ensures exists f: Frame :: f !in out
  {
    var bound := FrameBound(out);
    assert bound !in out;
  }

  ghost function FrameBound(out: set<Frame>): (bound: nat)
    ensures forall f | f in out :: f < bound
  {
    if out == {} then 0
    else
      var f :| f in out;
      var rest := FrameBound(out - {f});
      assert forall g | g in out :: g == f || g in out - {f};
      if f < rest then rest else f + 1
  }

  /** Between m and n tables may have been added and pages brought in, and no memory differs. */
  ghost predicate Keeps(m: Store, n: Store) {
    Inv(n) && KeepsTables(m, n) && SameData(m, n)
  }

  lemma SameKeeps(m: Store, n: Store)
    requires Inv(n) && SameTables(m, n) && SameData(m, n)
    ensures Keeps(m, n)
  {
    forall p: Pid, i: nat | HasTable(m, p, i)
      ensures HasTable(n, p, i) && FrameOf(n, Tab(p, i)) == FrameOf(m, Tab(p, i))
    {
      assert HasTable(n, p, i) == HasTable(m, p, i);
    }
  }

  lemma KeepsTwice(m: Store, n: Store, r: Store)
    requires Keeps(m, n) && Keeps(n, r)
    ensures Keeps(m, r)
  {
    forall p: Pid, i: nat | HasTable(m, p, i)
      ensures HasTable(r, p, i) && FrameOf(r, Tab(p, i)) == FrameOf(m, Tab(p, i))
    {
      assert HasTable(n, p, i);
    }
    forall p: Pid, i: nat, j: nat
      ensures Data(r, p, i, j) == Data(m, p, i, j)
    {
      assert Data(n, p, i, j) == Data(m, p, i, j);
    }
  }

  /** What an access to page (i, j) of p has to have set up: its table, and the page. */
  function Faults(m: Store, p: Pid, i: nat, j: nat): nat {
    (if HasTable(m, p, i) then 0 else 1) + (if Has(m, Pag(p, i, j)) then 0 else 1)
  }

  lemma TablesTwice(m: Store, n: Store, r: Store)
    requires KeepsTables(m, n) && SameTables(n, r)
    ensures KeepsTables(m, r)
  {
    forall p: Pid, i: nat | HasTable(m, p, i)
      ensures HasTable(r, p, i) && FrameOf(r, Tab(p, i)) == FrameOf(m, Tab(p, i))
    {
      assert HasTable(n, p, i);
      assert HasTable(r, p, i) == HasTable(n, p, i);
    }
  }

  /** The entry of page (i, j) of p; empty while there is no table for it. */
  function PageEntry(m: Store, p: Pid, i: nat, j: nat): Entry {
    if HasTable(m, p, i) && j < NUM_ENTRIES then EntryAt(m, PageSlot(m, p, i, j)) else EMPTY
  }

  /** What a use makes of an entry: it counts as accessed, and one that was not present gets a frame and all rights. */
  function Touched(e: Entry, frame: Frame): Entry {
    if e.present then e.(accessed := true)
    else e.(frame := frame, present := true, readWrite := true, userSupervisor := true, accessed := true)
  }

  /** A page that is on disk or nowhere stays so while the kernel evicts others. */
  lemma SlotStays(m: Store, n: Store, p: Pid, i: nat, j: nat, s: Slot)
    requires Inv(m) && Unnoticed(m, n) && IsPageSlot(m, p, i, j, s) && !EntryAt(m, s).present
    ensures IsPageSlot(n, p, i, j, s) && EntryAt(n, s) == EntryAt(m, s) && (s in n.swap <==> s in m.swap)
  {
    assert HasTable(n, p, i) == HasTable(m, p, i);
    assert Has(m, Tab(p, i));
    assert EntryAt(n, s) == EntryAt(m, s);
  }

  lemma DataTwice(m: Store, n: Store, r: Store)
    requires SameData(m, n) && SameData(n, r)
    ensures SameData(m, r)
  {
    forall p: Pid, i: nat, j: nat
      ensures Data(r, p, i, j) == Data(m, p, i, j)
    {
      assert Data(n, p, i, j) == Data(m, p, i, j);
    }
  }

  /** Memory that no process had is zero, and stays so while a process comes to have it. */
  lemma NewMemoryIsZero(m: Store, n: Store, r: Store, spread: nat, p: Pid)
    requires Spread(spread) && p !in m.dirs && SameData(m, n) && SameData(n, r)
    ensures SameData(m, r)
    ensures forall a: nat :: ByteAt(r, spread, p, a) == 0
  {
    DataTwice(m, n, r);
    forall a: nat
      ensures ByteAt(r, spread, p, a) == 0
    {
      assert Data(r, p, Top(spread, a), Second(a)) == Data(m, p, Top(spread, a), Second(a));
    }
  }

  /** A process that goes takes nothing out of another's cache. */
  lemma CacheOfOther(m: Store, n: Store, spread: nat, pid: Pid, curr: Pid, tlb: map<nat, Slot>)
    requires Spread(spread) && CacheOk(m, spread, curr, tlb) && curr != pid && n == WithoutProcess(m, pid)
    ensures CacheOk(n, spread, curr, tlb)
  {
    assert forall t :: EntryAt(n, t) == EntryAt(m, t);
    SameWalk(m, n, curr);
    CacheStays(m, n, spread, curr, tlb);
  }

  lemma NothingLeft(m: Store)
    requires Inv(m) && m.dirs == map[]
    ensures m.owner == map[] && m.swap == map[]
  {
    forall f | f in m.owner
      ensures m.owner[f].p in m.dirs
    {
      assert Has(m, m.owner[f]);
    }
    assert m.owner.Keys == {} && m.swap.Keys == {};
  }

  // ------------------------------------------------------------ the unit

  class Mmu {
    const spread: nat
    const maxPid: nat
    var currPid: Pid
    var tlb: map<nat, Slot>                 // by page number
    var pageDirectories: map<Pid, Frame>
    var segmentations: map<Pid, seq<Segment>>
    var numTlbMisses: nat
    var numPageFaults: nat
    var numSegmentationFaults: nat
    // the machine: contents of the frames, swap files, frames handed out by the kernel
    var phys: map<Frame, Contents>
    var swap: map<Slot, PageBytes>
    var owner: map<Frame, Place>

    function State(): Store
      reads this
    {
      Store(pageDirectories, phys, swap, owner)
    }

    ghost predicate Valid()
      reads this
    {
      && Spread(spread)
      && Inv(State())
      && CacheOk(State(), spread, currPid, tlb)
      && segmentations.Keys == pageDirectories.Keys
      && (forall p | p in pageDirectories :: p < maxPid)
    }

    constructor (spread: nat, maxPid: nat)
      requires Spread(spread)
      ensures Valid() && pageDirectories == map[] && owner == map[] && swap == map[]
      ensures this.spread == spread && this.maxPid == maxPid
      ensures numTlbMisses == numPageFaults == numSegmentationFaults == 0
    {
      this.spread, this.maxPid := spread, maxPid;
      currPid, tlb, pageDirectories, segmentations := 0, map[], map[], map[];
      numTlbMisses, numPageFaults, numSegmentationFaults := 0, 0, 0;
      phys, swap, owner := map[], map[], map[];
    }

    /** The kernel may first put some page of some process on disk; the frame it gives is zeroed. */
    method AskKernelForFrame() returns (f: Frame)
      requires Inv(State())
      modifies this`phys, this`swap, this`owner
      ensures Fresh(State(), f) && Unnoticed(old(State()), State())
    {
      ghost var before := State();
      UnnoticedNothing(before);
      if * {
        var s: Slot := *;
        if Resident(State(), s) { Evict(s); }
      }
      ghost var middle := State();
      FrameLeft(owner.Keys);
      f :| f !in owner;
      phys := phys - {f};
      ClearUnnoticed(middle, State(), f);
      UnnoticedTwice(before, middle, State());
    }

    method Evict(s: Slot)
      requires Inv(State()) && Resident(State(), s)
      modifies this`phys, this`swap, this`owner
      ensures State() == Evicted(old(State()), s) && Unnoticed(old(State()), State())
    {
      var m := State();
      var e := EntryAt(m, s);
      swap := swap[s := BytesAt(m, e.frame)];
      phys := SetEntry(m, s, e.(present := false)).phys;
      owner := owner - {e.frame};
      EvictUnnoticed(m, State(), s);
    }

    method ReturnFrameToKernel(f: Frame)
      requires f in owner
      modifies this`owner
      ensures owner == old(owner) - {f}
    {
      owner := owner - {f};
    }

    method ReadPageFromDisk(s: Slot, f: Frame)
      modifies this`phys
      ensures State() == FromDisk(old(State()), s, f)
    {
      if s in swap {
        phys := phys[f := Page(swap[s])];
      }
    }

    /** Lines 37-54 of mmu.c: the directory entry, its table if need be, and the entry in the table. */
    method WalkTables(v: nat) returns (s: Slot)
      requires Spread(spread) && Inv(State()) && currPid in pageDirectories && v / spread < NUM_ENTRIES
      modifies this`phys, this`swap, this`owner, this`numPageFaults
      ensures Keeps(old(State()), State())
      ensures IsPageSlot(State(), currPid, v / spread, v % NUM_ENTRIES, s)
      ensures HasTable(old(State()), currPid, v / spread) ==> State() == old(State()) && numPageFaults == old(numPageFaults)
      ensures !HasTable(old(State()), currPid, v / spread) ==>
                numPageFaults == old(numPageFaults) + 1 && EntryAt(State(), s) == EMPTY
    {
      var topLevel := v / spread;
      var pde := DirSlot(State(), currPid, topLevel);
      if !EntryAt(State(), pde).present {
        numPageFaults := numPageFaults + 1;
        AddTable(pde, currPid, topLevel);
      } else {
        SameKeeps(State(), State());
      }
      s := Slot(EntryAt(State(), pde).frame, v % NUM_ENTRIES);
    }

    method AddTable(pde: Slot, p: Pid, i: nat)
      requires Inv(State()) && p in pageDirectories && i < NUM_ENTRIES && !HasTable(State(), p, i)
      requires pde == DirSlot(State(), p, i)
      modifies this`phys, this`swap, this`owner
      ensures Keeps(old(State()), State())
      ensures HasTable(State(), p, i) && EntryAt(State(), pde).readWrite && EntryAt(State(), pde).userSupervisor
      ensures forall j :: EntryAt(State(), PageSlot(State(), p, i, j)) == EMPTY && PageSlot(State(), p, i, j) !in swap
    {
      ghost var before := State();
      var f := AskKernelForFrame();
      ghost var m := State();
      assert HasTable(m, p, i) == HasTable(before, p, i);
      assert Has(m, Dir(p));
      ReadPageFromDisk(pde, f);  // a directory entry has no swap file
      assert State() == m;
      var e := EntryAt(State(), pde).(frame := f, present := true, readWrite := true, userSupervisor := true);
      phys := SetEntry(State(), pde, e).phys;
      owner := owner[f := Tab(p, i)];
      TableAdded(m, State(), p, i, e);
      TableAddedPlaces(m, State(), p, i, e);
      TableAddedData(m, State(), p, i, e);
      SameKeeps(before, m);
      KeepsTwice(before, m, State());
    }

    /** Lines 58-64 of mmu.c: page (i, j) of p, which is not in memory, comes back from disk or starts as zeros. */
    method BringIn(s: Slot, p: Pid, i: nat, j: nat)
      requires Inv(State()) && IsPageSlot(State(), p, i, j, s) && !EntryAt(State(), s).present
      modifies this`phys, this`swap, this`owner
      ensures Keeps(old(State()), State())
      ensures IsPageSlot(State(), p, i, j, s)
      ensures EntryAt(State(), s) == EntryAt(old(State()), s).(
                frame := EntryAt(State(), s).frame, present := true, readWrite := true, userSupervisor := true)
      ensures AbsentBut(old(State()), State(), s) && KeepsPages(old(State()), State())
    {
      hide KeepsPages, AbsentStay, AbsentBut;
      ghost var before := State();
      var f := AskKernelForFrame();
      ghost var m := State();
      SlotStays(before, m, p, i, j, s);
      var e := EntryAt(State(), s).(frame := f, present := true, readWrite := true, userSupervisor := true);
      ReadPageFromDisk(s, f);
      phys := SetEntry(State(), s, e).phys;
      owner := owner[f := Pag(p, i, j)];
      PageLoaded(m, State(), p, i, j, s, e);
      PageLoadedData(m, State(), p, i, j, s, e);
      LoadedBut(before, m, State(), s, e, Pag(p, i, j));
      SameKeeps(before, m);
      SameKeeps(m, State());
      KeepsTwice(before, m, State());
      assert HasTable(State(), p, i);
    }

    /** tlb_add_pte may push out other entries. */
    method TlbAdd(v: nat, s: Slot)
      modifies this`tlb
      ensures v in tlb && tlb[v] == s
      ensures forall w | w in tlb && w != v :: w in old(tlb) && tlb[w] == old(tlb)[w]
    {
      var kept: set<nat> := *;
      tlb := (map w | w in tlb && w in kept :: tlb[w])[v := s];
    }

    method TlbFlush()
      modifies this`tlb
      ensures tlb == map[]
    {
      tlb := map[];
    }

    method SetFlags(s: Slot, e: Entry, ghost p: Pid, ghost i: nat, ghost j: nat)
      requires Inv(State()) && IsPageSlot(State(), p, i, j, s) && EntryAt(State(), s).present
      requires e.present && e.frame == EntryAt(State(), s).frame
      modifies this`phys
      ensures Keeps(old(State()), State())
      ensures IsPageSlot(State(), p, i, j, s) && EntryAt(State(), s) == e
    {
      ghost var m := State();
      phys := SetEntry(State(), s, e).phys;
      FlagsChange(m, State(), p, i, j, s, e);
      SameKeeps(m, State());
      assert HasTable(State(), p, i);
    }

    /** Lines 31-55 of mmu.c: from the cache, or else by the walk. */
    method FindEntry(v: nat) returns (s: Slot)
      requires Valid() && currPid in pageDirectories && v / spread < NUM_ENTRIES
      modifies this`phys, this`swap, this`owner, this`numTlbMisses, this`numPageFaults
      ensures Keeps(old(State()), State())
      ensures IsPageSlot(State(), currPid, v / spread, v % NUM_ENTRIES, s)
      ensures numTlbMisses == old(numTlbMisses) + (if v in tlb then 0 else 1)
      ensures numPageFaults == old(numPageFaults) + (if HasTable(old(State()), currPid, v / spread) then 0 else 1)
      ensures EntryAt(State(), s) == PageEntry(old(State()), currPid, v / spread, v % NUM_ENTRIES)
    {
      if v in tlb {
        s := tlb[v];
        assert CachedRight(State(), spread, currPid, v, s);
        SameKeeps(State(), State());
      } else {
        numTlbMisses := numTlbMisses + 1;
        s := WalkTables(v);
      }
    }

    /** Lines 57-66 of mmu.c. */
    method MakePresent(s: Slot, p: Pid, i: nat, j: nat)
      requires Inv(State()) && IsPageSlot(State(), p, i, j, s)
      modifies this`phys, this`swap, this`owner, this`numPageFaults
      ensures Keeps(old(State()), State())
      ensures IsPageSlot(State(), p, i, j, s)
      ensures EntryAt(State(), s) == Touched(EntryAt(old(State()), s), EntryAt(State(), s).frame)
      ensures numPageFaults == old(numPageFaults) + (if EntryAt(old(State()), s).present then 0 else 1)
    {
      ghost var before := State();
      SameKeeps(before, before);
      if !EntryAt(State(), s).present {
        numPageFaults := numPageFaults + 1;
        BringIn(s, p, i, j);
      }
      ghost var middle := State();
      SetFlags(s, EntryAt(State(), s).(accessed := true), p, i, j);
      KeepsTwice(before, middle, State());
    }

    /**
      The entry of the page of `va` in the current process, present when this returns. Whatever it took,
      no process's memory is different from before.
      */
    method GetTableEntry(va: nat) returns (s: Slot)
      requires Valid() && currPid in pageDirectories && Top(spread, va) < NUM_ENTRIES
      modifies this`phys, this`swap, this`owner, this`tlb, this`numTlbMisses, this`numPageFaults
      ensures Valid() && Keeps(old(State()), State())
      ensures IsPageSlot(State(), currPid, Top(spread, va), Second(va), s)
      ensures EntryAt(State(), s)
              == Touched(PageEntry(old(State()), currPid, Top(spread, va), Second(va)), EntryAt(State(), s).frame)
      ensures va / PAGE_SIZE in tlb
      ensures numTlbMisses == old(numTlbMisses) + (if va / PAGE_SIZE in old(tlb) then 0 else 1)
      ensures numPageFaults == old(numPageFaults) + Faults(old(State()), currPid, Top(spread, va), Second(va))
    {
      hide Touched, SameData, Inv;
      ghost var before := State();
      s := FindPresent(va);
      CacheStays(before, State(), spread, currPid, tlb);
      TlbAdd(va / PAGE_SIZE, s);
      assert CachedRight(State(), spread, currPid, va / PAGE_SIZE, s);
    }

    /** Lines 31-66 of mmu.c. */
    method FindPresent(va: nat) returns (s: Slot)
      requires Valid() && currPid in pageDirectories && Top(spread, va) < NUM_ENTRIES
      modifies this`phys, this`swap, this`owner, this`numTlbMisses, this`numPageFaults
      ensures Keeps(old(State()), State())
      ensures IsPageSlot(State(), currPid, Top(spread, va), Second(va), s)
      ensures EntryAt(State(), s)
              == Touched(PageEntry(old(State()), currPid, Top(spread, va), Second(va)), EntryAt(State(), s).frame)
      ensures numTlbMisses == old(numTlbMisses) + (if va / PAGE_SIZE in old(tlb) then 0 else 1)
      ensures numPageFaults == old(numPageFaults) + Faults(old(State()), currPid, Top(spread, va), Second(va))
    {
      hide Touched, SameData, Inv, CacheOk;
      ghost var before := State();
      s := FindEntry(va / PAGE_SIZE);
      ghost var middle := State();
      MakePresent(s, currPid, Top(spread, va), Second(va));
      KeepsTwice(before, middle, State());
    }

    /** Lines 79-82 of mmu.c. */
    method SwitchTo(pid: Pid)
      requires Valid()
      modifies this`currPid, this`tlb
      ensures Valid() && currPid == pid
      ensures tlb == if old(currPid) == pid then old(tlb) else map[]
    {
      if currPid != pid {
        TlbFlush();
        currPid := pid;
      }
    }

    /**
      A permitted read copies the flat memory of process `pid`; another counts a segmentation fault. No
      read changes any process's memory.
      */
    method Read(va: nat, pid: Pid, buffer: array<Byte>, numBytes: nat)
      requires Valid() && pid in pageDirectories && numBytes <= buffer.Length
      requires numBytes + va % PAGE_SIZE <= PAGE_SIZE
      requires Readable(segmentations[pid], va) ==> Top(spread, va) < NUM_ENTRIES
      modifies this`currPid, this`tlb, this`phys, this`swap, this`owner
      modifies this`numTlbMisses, this`numPageFaults, this`numSegmentationFaults, buffer
      ensures Valid() && Keeps(old(State()), State()) && currPid == pid
      ensures Readable(segmentations[pid], va) ==>
                forall k | 0 <= k < numBytes :: buffer[k] == ByteAt(old(State()), spread, pid, va + k)
      ensures !Readable(segmentations[pid], va) ==> buffer[..] == old(buffer[..])
      ensures buffer[numBytes..] == old(buffer[numBytes..])
      ensures numSegmentationFaults == old(numSegmentationFaults) + (if Readable(segmentations[pid], va) then 0 else 1)
      ensures numTlbMisses == old(numTlbMisses)
              + (if !Readable(segmentations[pid], va) || (pid == old(currPid) && va / PAGE_SIZE in old(tlb)) then 0 else 1)
      ensures numPageFaults == old(numPageFaults)
              + (if Readable(segmentations[pid], va) then Faults(old(State()), pid, Top(spread, va), Second(va)) else 0)
      ensures Readable(segmentations[pid], va) ==>
                va / PAGE_SIZE in tlb
                && var e := PageEntry(State(), pid, Top(spread, va), Second(va));
                   e == Touched(PageEntry(old(State()), pid, Top(spread, va), Second(va)), e.frame)
    {
      SwitchTo(pid);
      ghost var m := State();
      SameKeeps(m, m);
      var seg := FindSegment(segmentations[pid], va);
      if seg.None? || va == 0 {
        numSegmentationFaults := numSegmentationFaults + 1;
        return;
      }
      if seg.value.permissions == {} {
        numSegmentationFaults := numSegmentationFaults + 1;
        return;
      }
      var s := GetTableEntry(va);
      CopyOut(s, va, pid, buffer, numBytes);
    }

    method CopyOut(s: Slot, va: nat, ghost pid: Pid, buffer: array<Byte>, numBytes: nat)
      requires Spread(spread) && numBytes <= buffer.Length && numBytes + va % PAGE_SIZE <= PAGE_SIZE
      requires IsPageSlot(State(), pid, Top(spread, va), Second(va), s) && EntryAt(State(), s).present
      modifies buffer
      ensures forall k | 0 <= k < numBytes :: buffer[k] == ByteAt(State(), spread, pid, va + k)
      ensures buffer[numBytes..] == old(buffer[numBytes..])
    {
      var page := BytesAt(State(), EntryAt(State(), s).frame);
      forall k | 0 <= k < numBytes {
        buffer[k] := page[va % PAGE_SIZE + k];
      }
      assert page == Data(State(), pid, Top(spread, va), Second(va));
      forall k | 0 <= k < numBytes
        ensures buffer[k] == ByteAt(State(), spread, pid, va + k)
      {
        LoadShows(State(), spread, pid, va, k);
      }
    }

    /** A permitted write stores to the flat memory of process `pid` alone; another stores nothing. */
    method Write(va: nat, pid: Pid, buffer: array<Byte>, numBytes: nat)
      requires Valid() && pid in pageDirectories && numBytes <= buffer.Length
      requires numBytes + va % PAGE_SIZE <= PAGE_SIZE
      requires Writable(segmentations[pid], va) ==> Top(spread, va) < NUM_ENTRIES
      modifies this`currPid, this`tlb, this`phys, this`swap, this`owner
      modifies this`numTlbMisses, this`numPageFaults, this`numSegmentationFaults
      ensures Valid() && currPid == pid
      ensures Writable(segmentations[pid], va) ==> Stored(spread, old(State()), State(), pid, va, buffer[..numBytes])
      ensures !Writable(segmentations[pid], va) ==> State() == old(State())
      ensures numSegmentationFaults == old(numSegmentationFaults) + (if Writable(segmentations[pid], va) then 0 else 1)
      ensures numTlbMisses == old(numTlbMisses)
              + (if !Writable(segmentations[pid], va) || (pid == old(currPid) && va / PAGE_SIZE in old(tlb)) then 0 else 1)
      ensures numPageFaults == old(numPageFaults)
              + (if Writable(segmentations[pid], va) then Faults(old(State()), pid, Top(spread, va), Second(va)) else 0)
      ensures Writable(segmentations[pid], va) ==>
                va / PAGE_SIZE in tlb
                && var e := PageEntry(State(), pid, Top(spread, va), Second(va));
                   e == Touched(PageEntry(old(State()), pid, Top(spread, va), Second(va)), e.frame).(dirty := true)
    {
      hide Stored, Inv;
      SwitchTo(pid);
      var seg := FindSegment(segmentations[pid], va);
      if seg.None? || va == 0 {
        numSegmentationFaults := numSegmentationFaults + 1;
        return;
      }
      if WRITE !in seg.value.permissions {
        numSegmentationFaults := numSegmentationFaults + 1;
        return;
      }
      ghost var before := State();
      var s := GetTableEntry(va);
      ghost var middle := State();
      CopyIn(s, va, pid, buffer[..numBytes]);
      CacheStays(middle, State(), spread, currPid, tlb);
      StoredAfter(spread, before, middle, State(), pid, va, buffer[..numBytes]);
    }

    /** Lines 139-141 of mmu.c. */
    method CopyIn(s: Slot, va: nat, pid: Pid, bytes: seq<Byte>)
      requires Spread(spread) && Inv(State()) && |bytes| + va % PAGE_SIZE <= PAGE_SIZE
      requires IsPageSlot(State(), pid, Top(spread, va), Second(va), s) && EntryAt(State(), s).present
      modifies this`phys
      ensures IsPageSlot(State(), pid, Top(spread, va), Second(va), s)
      ensures EntryAt(State(), s) == EntryAt(old(State()), s).(dirty := true)
      ensures Inv(State()) && KeepsTables(old(State()), State()) && Stored(spread, old(State()), State(), pid, va, bytes)
    {
      ghost var m0 := State();
      ghost var i, j := Top(spread, va), Second(va);
      SetFlags(s, EntryAt(State(), s).(dirty := true), pid, i, j);
      ghost var m1 := State();
      assert Has(m1, Pag(pid, i, j));
      var f := EntryAt(State(), s).frame;
      phys := phys[f := Page(Spliced(BytesAt(State(), f), va % PAGE_SIZE, bytes))];
      BytesWritten(m1, State(), pid, i, j, BytesAt(State(), f));
      StoreShows(m1, State(), spread, pid, va, bytes);
      TablesTwice(m0, m1, State());
      StoredAfter(spread, m0, m1, State(), pid, va, bytes);
    }

    /**
      A process that is not live gets zeroed memory; every other process keeps its own. (BringIn and
      AddTable also look for swap files; the entries of a new process have none.)
      */
    method AddProcess(pid: Pid)
      requires Valid() && pid < maxPid && pid !in pageDirectories
      modifies this`pageDirectories, this`segmentations, this`phys, this`swap, this`owner
      ensures Valid() && SameData(old(State()), State())
      ensures pageDirectories.Keys == old(pageDirectories).Keys + {pid}
      ensures segmentations == old(segmentations)[pid := LAYOUT]
      ensures HasTable(State(), pid, 0) && Has(State(), Pag(pid, 0, 2)) && Somewhere(State(), PageSlot(State(), pid, 0, 1))
      ensures forall a: nat :: ByteAt(State(), spread, pid, a) == 0
    {
      ghost var m0 := State();
      var f := AddDirectory(pid);
      ghost var m1 := State();
      segmentations := segmentations[pid := LAYOUT];
      AddTable(Slot(f, 0), pid, 0);
      ghost var m2 := State();
      AddTestPages(pid);
      KeepsTwice(m1, m2, State());
      CacheStays(m1, State(), spread, currPid, tlb);
      NewMemoryIsZero(m0, m1, State(), spread, pid);
    }

    /** Lines 160-164 of mmu.c. */
    method AddDirectory(pid: Pid) returns (f: Frame)
      requires Valid() && pid !in pageDirectories
      modifies this`pageDirectories, this`phys, this`swap, this`owner
      ensures pageDirectories == old(pageDirectories)[pid := f]
      ensures Inv(State()) && SameData(old(State()), State()) && CacheOk(State(), spread, currPid, tlb)
      ensures forall i :: !HasTable(State(), pid, i)
    {
      ghost var m0 := State();
      f := AskKernelForFrame();
      ghost var m1 := State();
      pageDirectories := pageDirectories[pid := f];
      owner := owner[f := Dir(pid)];
      ProcessAdded(m1, State(), pid, f);
      SameKeeps(m0, m1);
      CacheStays(m0, m1, spread, currPid, tlb);
      CacheStays(m1, State(), spread, currPid, tlb);
      DataTwice(m0, m1, State());
    }

    /** Lines 225-232 of mmu.c. */
    method AddTestPages(pid: Pid)
      requires Inv(State()) && HasTable(State(), pid, 0)
      requires forall j: nat :: !EntryAt(State(), PageSlot(State(), pid, 0, j)).present
      modifies this`phys, this`swap, this`owner
      ensures Keeps(old(State()), State()) && HasTable(State(), pid, 0) && Has(State(), Pag(pid, 0, 2))
      ensures Somewhere(State(), PageSlot(State(), pid, 0, 1))
    {
      ghost var m := State();
      var t := EntryAt(State(), DirSlot(State(), pid, 0)).frame;
      assert Has(m, Tab(pid, 0));
      assert PageSlot(m, pid, 0, 2) == Slot(t, 2);
      BringIn(Slot(t, 1), pid, 0, 1);
      ghost var n := State();
      assert HasTable(n, pid, 0) && Has(n, Tab(pid, 0)) && Somewhere(n, Slot(t, 1));
      BringIn(Slot(t, 2), pid, 0, 2);
      KeepsTwice(m, n, State());
      assert HasTable(State(), pid, 0);
    }

    /** Every frame of process `pid`, and no other, goes back to the kernel, each once. */
    method RemoveProcess(pid: Pid)
      requires Valid()
      modifies this`pageDirectories, this`segmentations, this`swap, this`owner, this`tlb
      ensures State() == WithoutProcess(old(State()), pid)
      ensures Valid() && segmentations == old(segmentations) - {pid}
      ensures tlb == if currPid == pid then map[] else old(tlb)
    {
      ghost var m := State();
      if pid in pageDirectories {
        ReturnFrames(pid);
      }
      pageDirectories := pageDirectories - {pid};
      segmentations := segmentations - {pid};
      if pid !in m.dirs { NothingToReturn(m, pid); }
      assert State() == WithoutProcess(m, pid);
      ProcessRemoved(m, State(), pid);
      if currPid == pid {
        TlbFlush();
      } else {
        CacheOfOther(m, State(), spread, pid, currPid, tlb);
      }
    }

    method ReturnFrames(pid: Pid)
      requires Inv(State()) && pid in pageDirectories
      modifies this`swap, this`owner
      ensures swap == WithoutProcess(old(State()), pid).swap
      ensures owner == WithoutProcess(old(State()), pid).owner
    {
      hide OwnerLeft, SwapLeft, Inv;
      ghost var m := State();
      var i := 0;
      ReturnNone(m, pid);
      while i < NUM_ENTRIES
        invariant i <= NUM_ENTRIES
        invariant owner == OwnerLeft(m, pid, i, 0) && swap == SwapLeft(m, pid, i, 0)
      {
        ReturnTableAndPages(DirSlot(State(), pid, i), m, pid, i);
        i := i + 1;
      }
      ReturnRest(m, pid);
      ReturnFrameToKernel(pageDirectories[pid]);
    }

    /** Lines 241-253 of mmu.c. */
    method ReturnTableAndPages(s: Slot, ghost m: Store, ghost pid: Pid, ghost i: nat)
      requires Inv(m) && pid in m.dirs && i < NUM_ENTRIES && s == DirSlot(m, pid, i) && phys == m.phys
      requires owner == OwnerLeft(m, pid, i, 0) && swap == SwapLeft(m, pid, i, 0)
      modifies this`swap, this`owner
      ensures owner == OwnerLeft(m, pid, i + 1, 0) && swap == SwapLeft(m, pid, i + 1, 0)
    {
      var pde := EntryAt(State(), s);
      assert pde == EntryAt(m, s);
      ReturnTable(m, pid, i);
      if pde.present {
        ReturnPages(pde.frame, m, pid, i);
        ReturnFrameToKernel(pde.frame);
      }
    }

    method ReturnPages(table: Frame, ghost m: Store, ghost pid: Pid, ghost i: nat)
      requires Inv(m) && HasTable(m, pid, i) && table == FrameOf(m, Tab(pid, i)) && phys == m.phys
      requires owner == OwnerLeft(m, pid, i, 0) && swap == SwapLeft(m, pid, i, 0)
      modifies this`swap, this`owner
      ensures owner == OwnerLeft(m, pid, i, NUM_ENTRIES) && swap == SwapLeft(m, pid, i, NUM_ENTRIES)
    {
      hide OwnerLeft, SwapLeft, Inv;
      var j := 0;
      while j < NUM_ENTRIES
        invariant j <= NUM_ENTRIES
        invariant owner == OwnerLeft(m, pid, i, j) && swap == SwapLeft(m, pid, i, j)
      {
        ReturnPageIfPresent(Slot(table, j), m, pid, i, j);
        j := j + 1;
      }
    }

    /** Lines 245-250 of mmu.c. */
    method ReturnPageIfPresent(s: Slot, ghost m: Store, ghost pid: Pid, ghost i: nat, ghost j: nat)
      requires Inv(m) && HasTable(m, pid, i) && j < NUM_ENTRIES && s == PageSlot(m, pid, i, j) && phys == m.phys
      requires owner == OwnerLeft(m, pid, i, j) && swap == SwapLeft(m, pid, i, j)
      modifies this`swap, this`owner
      ensures owner == OwnerLeft(m, pid, i, j + 1) && swap == SwapLeft(m, pid, i, j + 1)
    {
      var pte := EntryAt(State(), s);
      assert pte == EntryAt(m, s);
      ReturnPage(m, pid, i, j);
      ReturnPageSwap(m, pid, i, j);
      if pte.present {
        ReturnFrameToKernel(pte.frame);
      }
      swap := swap - {s};
    }

    /** mmu_delete: with the last process gone, the kernel has every frame back. */
    method Delete()
      requires Valid()
      modifies this
      ensures pageDirectories == map[] && owner == map[] && swap == map[]
    {
      var pid := 0;
      while pid < maxPid
        invariant pid <= maxPid && Valid()
        invariant forall p | p in pageDirectories :: p >= pid
      {
        RemoveProcess(pid);
        pid := pid + 1;
      }
      NothingLeft(State());
    }
  }
}
