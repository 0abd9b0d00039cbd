/**
  Page directories, page tables, frames and swap files: the physical side of virtual memory, and the
  page of bytes that each process sees through it.
  */
module Pages {
  import opened Bytes

  type Pid = nat
  type Frame = nat
  const PAGE_SIZE := 4096
  const NUM_ENTRIES := 1024

  type PageBytes = s: seq<Byte> | |s| == PAGE_SIZE witness Zeros(PAGE_SIZE)

  function Zeros(n: nat): (s: seq<Byte>)
    ensures |s| == n && forall k | 0 <= k < n :: s[k] == 0
  {
    if n == 0 then [] else Zeros(n - 1) + [0]
  }

  datatype Entry = Entry(frame: Frame, present: bool, readWrite: bool, userSupervisor: bool, accessed: bool, dirty: bool)

  const EMPTY := Entry(0, false, false, false, false, false)

  /** The address of an entry: the frame of the table it is in, and its index there. */
  datatype Slot = Slot(table: Frame, index: nat)

  /** What a frame was last written as. A frame written as one kind holds nothing of the other. */
  datatype Contents = Table(entries: map<nat, Entry>) | Page(bytes: PageBytes)

  /** What a frame serves as: a directory, a table of a directory, or a data page of a table. */
  datatype Place = Dir(p: Pid) | Tab(p: Pid, i: nat) | Pag(p: Pid, i: nat, j: nat)

  /**
    `phys` leaves out the frames that are still all zero. `swap` has a file per entry evicted so far.
    `owner` is the kernel's record of the frames handed out and not returned.
    */
  datatype Store = Store(
    dirs: map<Pid, Frame>,
    phys: map<Frame, Contents>,
    swap: map<Slot, PageBytes>,
    owner: map<Frame, Place>)

  function EntriesAt(m: Store, f: Frame): map<nat, Entry> {
    if f in m.phys && m.phys[f].Table? then m.phys[f].entries else map[]
  }

  function EntryAt(m: Store, s: Slot): Entry {
    if s.index in EntriesAt(m, s.table) then EntriesAt(m, s.table)[s.index] else EMPTY
  }

  function BytesAt(m: Store, f: Frame): PageBytes {
    if f in m.phys && m.phys[f].Page? then m.phys[f].bytes else Zeros(PAGE_SIZE)
  }

  function SetEntry(m: Store, s: Slot, e: Entry): Store {
    Store(m.dirs, m.phys[s.table := Table(EntriesAt(m, s.table)[s.index := e])], m.swap, m.owner)
  }

  function SetBytes(m: Store, f: Frame, b: PageBytes): Store {
    Store(m.dirs, m.phys[f := Page(b)], m.swap, m.owner)
  }

  // ------------------------------------------------------------ the walk

  function DirSlot(m: Store, p: Pid, i: nat): Slot
    requires p in m.dirs
  {
    Slot(m.dirs[p], i)
  }

  predicate HasTable(m: Store, p: Pid, i: nat) {
    p in m.dirs && i < NUM_ENTRIES && EntryAt(m, DirSlot(m, p, i)).present
  }

  function PageSlot(m: Store, p: Pid, i: nat, j: nat): Slot
    requires HasTable(m, p, i)
  {
    Slot(EntryAt(m, DirSlot(m, p, i)).frame, j)
  }

  predicate Has(m: Store, x: Place) {
    match x
    case Dir(p) => p in m.dirs
    case Tab(p, i) => HasTable(m, p, i)
    case Pag(p, i, j) => HasTable(m, p, i) && j < NUM_ENTRIES && EntryAt(m, PageSlot(m, p, i, j)).present
  }

  function FrameOf(m: Store, x: Place): Frame
    requires Has(m, x)
  {
    match x
    case Dir(p) => m.dirs[p]
    case Tab(p, i) => EntryAt(m, DirSlot(m, p, i)).frame
    case Pag(p, i, j) => EntryAt(m, PageSlot(m, p, i, j)).frame
  }

  /** Page (i, j) of process p as the process sees it: in its frame, in its swap file, or never touched. */
  function Data(m: Store, p: Pid, i: nat, j: nat): PageBytes {
    if !HasTable(m, p, i) || j >= NUM_ENTRIES then Zeros(PAGE_SIZE)
    else if Has(m, Pag(p, i, j)) then BytesAt(m, FrameOf(m, Pag(p, i, j)))
    else if PageSlot(m, p, i, j) in m.swap then m.swap[PageSlot(m, p, i, j)]
    else Zeros(PAGE_SIZE)
  }

  // ------------------------------------------------------------ the invariant

  /** Every directory, table and page in memory has a frame, recorded as serving exactly that place. */
  ghost predicate Placed(m: Store) {
    forall x {:trigger Has(m, x)} | Has(m, x) :: FrameOf(m, x) in m.owner && m.owner[FrameOf(m, x)] == x
  }

  /** No frame is out that serves nothing. */
  ghost predicate NoLeak(m: Store) {
    forall f {:trigger m.owner[f]} | f in m.owner :: Has(m, m.owner[f]) && FrameOf(m, m.owner[f]) == f
  }

  /** Data frames hold bytes, the others entries; swap files belong to entries of tables in use. */
  ghost predicate Typed(m: Store) {
    && (forall f {:trigger m.owner[f]} | f in m.owner && f in m.phys :: m.phys[f].Page? <==> m.owner[f].Pag?)
    && (forall s | s in m.swap :: s.table in m.owner && m.owner[s.table].Tab? && s.index < NUM_ENTRIES)
  }

  ghost predicate Inv(m: Store) {
    Placed(m) && NoLeak(m) && Typed(m)
  }

  /** Two places in memory never share a frame. */
  lemma DistinctFrames(m: Store, x: Place, y: Place)
    requires Inv(m) && Has(m, x) && Has(m, y)
    ensures FrameOf(m, x) == FrameOf(m, y) <==> x == y
  {
  }

  /** No process's memory differs between m and n. */
  ghost predicate SameData(m: Store, n: Store) {
    forall p: Pid, i: nat, j: nat {:trigger Data(n, p, i, j)} :: Data(n, p, i, j) == Data(m, p, i, j)
  }

  /** n has the directories of m, and its tables where they were. */
  ghost predicate KeepsTables(m: Store, n: Store) {
    && n.dirs == m.dirs
    && (forall p: Pid, i: nat {:trigger HasTable(n, p, i)} {:trigger HasTable(m, p, i)} | HasTable(m, p, i) ::
          HasTable(n, p, i) && FrameOf(n, Tab(p, i)) == FrameOf(m, Tab(p, i)))
  }

  /** n and m have exactly the same tables. */
  ghost predicate SameTables(m: Store, n: Store) {
    && n.dirs == m.dirs
    && (forall p: Pid, i: nat {:trigger HasTable(n, p, i)} {:trigger HasTable(m, p, i)} ::
          HasTable(n, p, i) == HasTable(m, p, i)
          && (HasTable(m, p, i) ==> EntryAt(n, DirSlot(n, p, i)) == EntryAt(m, DirSlot(m, p, i))))
  }

  /** Entry s belongs to table i of process p, at index j. */
  ghost predicate IsPageSlot(m: Store, p: Pid, i: nat, j: nat, s: Slot) {
    HasTable(m, p, i) && j < NUM_ENTRIES && s == PageSlot(m, p, i, j)
  }

  // ------------------------------------------------------------ one entry changes

  lemma SetEntryViews(m: Store, s: Slot, e: Entry)
    ensures forall t :: EntryAt(SetEntry(m, s, e), t) == if t == s then e else EntryAt(m, t)
    ensures forall f | f != s.table :: BytesAt(SetEntry(m, s, e), f) == BytesAt(m, f)
  {
  }

  /** Changing an entry of a table changes no other place. */
  lemma PageEntryChanges(m: Store, n: Store, p: Pid, i: nat, j: nat, s: Slot, e: Entry)
    requires Inv(m) && IsPageSlot(m, p, i, j, s) && n.dirs == m.dirs
    requires forall t :: EntryAt(n, t) == if t == s then e else EntryAt(m, t)
    ensures SameTables(m, n)
    ensures forall q: Pid, a: nat, b: nat | HasTable(n, q, a) && b < NUM_ENTRIES ::
              PageSlot(n, q, a, b) == PageSlot(m, q, a, b)
              && EntryAt(n, PageSlot(n, q, a, b)) == (if q == p && a == i && b == j then e else EntryAt(m, PageSlot(m, q, a, b)))
  {
    assert Has(m, Tab(p, i));
    forall q: Pid, a: nat
      ensures HasTable(n, q, a) == HasTable(m, q, a)
      ensures HasTable(m, q, a) ==> EntryAt(n, DirSlot(n, q, a)) == EntryAt(m, DirSlot(m, q, a))
    {
      if q in m.dirs {
        assert Has(m, Dir(q));
        assert DirSlot(m, q, a) != s;
      }
    }
    forall q: Pid, a: nat, b: nat | HasTable(n, q, a) && b < NUM_ENTRIES
      ensures PageSlot(n, q, a, b) == PageSlot(m, q, a, b)
      ensures PageSlot(m, q, a, b) == s ==> q == p && a == i && b == j
    {
      assert Has(m, Tab(q, a));
    }
  }

  /** The frames of pages differ from those of directories and tables, so their bytes stay. */
  lemma PageBytesStay(m: Store, s: Slot, e: Entry)
    requires Inv(m) && s.table in m.owner && !m.owner[s.table].Pag?
    ensures forall q: Pid, a: nat, b: nat | Has(m, Pag(q, a, b)) ::
              BytesAt(SetEntry(m, s, e), FrameOf(m, Pag(q, a, b))) == BytesAt(m, FrameOf(m, Pag(q, a, b)))
  {
    SetEntryViews(m, s, e);
  }

  /** The slot, as the kernel knows it, of a page in memory. */
  predicate Resident(m: Store, s: Slot) {
    && s.table in m.owner && m.owner[s.table].Tab? && s.index < NUM_ENTRIES
    && EntryAt(m, s).present && EntryAt(m, s).frame in m.owner
  }

  /** The page behind s goes to its swap file, and its frame back to the kernel. */
  function Evicted(m: Store, s: Slot): Store {
    var e := EntryAt(m, s);
    Store(m.dirs, SetEntry(m, s, e.(present := false)).phys, m.swap[s := BytesAt(m, e.frame)], m.owner - {e.frame})
  }

  /** n has the places of m, where they were, apart from x. */
  ghost predicate SamePlacesBut(m: Store, n: Store, x: Place) {
    forall y {:trigger Has(n, y)} {:trigger Has(m, y)} | y != x ::
      Has(n, y) == Has(m, y) && (Has(m, y) ==> FrameOf(n, y) == FrameOf(m, y))
  }

  lemma LosePlace(m: Store, n: Store, x: Place)
    requires Inv(m) && Has(m, x) && !Has(n, x) && SamePlacesBut(m, n, x) && n.owner == m.owner - {FrameOf(m, x)}
    ensures Placed(n) && NoLeak(n)
  {
    forall y | Has(n, y)
      ensures FrameOf(n, y) in n.owner && n.owner[FrameOf(n, y)] == y
    {
      assert Has(m, y);
    }
    forall f | f in n.owner
      ensures Has(n, n.owner[f]) && FrameOf(n, n.owner[f]) == f
    {
      assert Has(m, m.owner[f]);
    }
  }

  lemma GainPlace(m: Store, n: Store, x: Place, f: Frame)
    requires Inv(m) && !Has(m, x) && f !in m.owner
    requires Has(n, x) && FrameOf(n, x) == f && SamePlacesBut(m, n, x) && n.owner == m.owner[f := x]
    ensures Placed(n) && NoLeak(n)
  {
    forall y | Has(n, y)
      ensures FrameOf(n, y) in n.owner && n.owner[FrameOf(n, y)] == y
    {
      if y != x { assert Has(m, y); }
    }
    forall g | g in n.owner
      ensures Has(n, n.owner[g]) && FrameOf(n, n.owner[g]) == g
    {
      if g != f { assert Has(m, m.owner[g]); }
    }
  }

  /** A changed entry of a table concerns the place of its page alone. */
  lemma PagePlaceChanges(m: Store, n: Store, p: Pid, i: nat, j: nat, s: Slot, e: Entry)
    requires Inv(m) && IsPageSlot(m, p, i, j, s) && n.dirs == m.dirs
    requires forall t :: EntryAt(n, t) == if t == s then e else EntryAt(m, t)
    ensures SameTables(m, n) && SamePlacesBut(m, n, Pag(p, i, j))
    ensures IsPageSlot(n, p, i, j, s) && (Has(n, Pag(p, i, j)) <==> e.present)
    ensures e.present ==> FrameOf(n, Pag(p, i, j)) == e.frame
  {
    PageEntryChanges(m, n, p, i, j, s, e);
    assert HasTable(n, p, i);
    forall y | y != Pag(p, i, j)
      ensures Has(n, y) == Has(m, y) && (Has(m, y) ==> FrameOf(n, y) == FrameOf(m, y))
    {
      match y
      case Dir(q) =>
      case Tab(q, a) => assert HasTable(n, q, a) == HasTable(m, q, a);
      case Pag(q, a, b) => assert HasTable(n, q, a) == HasTable(m, q, a);
    }
  }

  /** Pages other than (p, i, j) keep their data when their frames and swap files keep theirs. */
  lemma OtherDataStays(m: Store, n: Store, p: Pid, i: nat, j: nat)
    requires SameTables(m, n) && SamePlacesBut(m, n, Pag(p, i, j))
    requires forall x | Has(m, x) && x.Pag? && x != Pag(p, i, j) :: BytesAt(n, FrameOf(m, x)) == BytesAt(m, FrameOf(m, x))
    requires HasTable(m, p, i)
    requires forall t | t != PageSlot(m, p, i, j) :: (t in n.swap <==> t in m.swap) && (t in m.swap ==> n.swap[t] == m.swap[t])
    requires Inv(m)
    ensures forall q: Pid, a: nat, b: nat {:trigger Data(n, q, a, b)} | Pag(q, a, b) != Pag(p, i, j) ::
              Data(n, q, a, b) == Data(m, q, a, b)
  {
    assert Has(m, Tab(p, i));
    forall q: Pid, a: nat, b: nat | Pag(q, a, b) != Pag(p, i, j)
      ensures Data(n, q, a, b) == Data(m, q, a, b)
    {
      assert HasTable(n, q, a) == HasTable(m, q, a);
      assert Has(n, Pag(q, a, b)) == Has(m, Pag(q, a, b));
      if HasTable(m, q, a) {
        assert Has(m, Tab(q, a));
        assert PageSlot(n, q, a, b) == PageSlot(m, q, a, b) != PageSlot(m, p, i, j);
      }
    }
  }

  lemma EvictTyped(m: Store, n: Store, s: Slot)
    requires Inv(m) && Resident(m, s) && n == Evicted(m, s)
    ensures Typed(n)
  {
    hide Placed, Has;
    assert Has(m, m.owner[s.table]);
    var Tab(p, i) := m.owner[s.table];
    ResidentFrame(m, s);
  }

  /** The frame of a page is not that of its table. */
  lemma ResidentFrame(m: Store, s: Slot)
    requires Inv(m) && Resident(m, s)
    ensures EntryAt(m, s).frame != s.table && m.owner[EntryAt(m, s).frame].Pag?
  {
    var Tab(p, i) := m.owner[s.table];
    assert Has(m, m.owner[s.table]) && Has(m, Pag(p, i, s.index));
  }

  lemma EvictKeepsInv(m: Store, n: Store, s: Slot)
    requires Inv(m) && Resident(m, s) && n == Evicted(m, s)
    ensures Inv(n) && SameTables(m, n) && SamePlacesBut(m, n, Pag(m.owner[s.table].p, m.owner[s.table].i, s.index))
    ensures !EntryAt(n, s).present
  {
    var Tab(p, i) := m.owner[s.table];
    assert Has(m, m.owner[s.table]) && Has(m, Pag(p, i, s.index));
    SetEntryViews(m, s, EntryAt(m, s).(present := false));
    PagePlaceChanges(m, n, p, i, s.index, s, EntryAt(m, s).(present := false));
    EvictTyped(m, n, s);
    hide Typed;
    LosePlace(m, n, Pag(p, i, s.index));
  }

  /** No process notices that a page of its own, or of another, goes to disk. */
  lemma EvictKeepsData(m: Store, n: Store, s: Slot)
    requires Inv(m) && Resident(m, s) && n == Evicted(m, s)
    ensures SameData(m, n)
  {
    var Tab(p, i) := m.owner[s.table];
    assert Has(m, m.owner[s.table]) && Has(m, Pag(p, i, s.index));
    EvictKeepsInv(m, n, s);
    PageBytesStay(m, s, EntryAt(m, s).(present := false));
    OtherDataStays(m, n, p, i, s.index);
    assert HasTable(n, p, i);
  }

  /** The kernel hands out a frame filled with zeros. */
  function Cleared(m: Store, f: Frame): Store {
    Store(m.dirs, m.phys - {f}, m.swap, m.owner)
  }

  lemma ClearKeeps(m: Store, n: Store, f: Frame)
    requires Inv(m) && f !in m.owner && n == Cleared(m, f)
    ensures Inv(n) && SameTables(m, n) && SameData(m, n)
  {
    forall x
      ensures Has(n, x) == Has(m, x) && (Has(m, x) ==> FrameOf(n, x) == FrameOf(m, x))
    {
      if x.p in m.dirs { assert Has(m, Dir(x.p)); }
      if !x.Dir? && HasTable(m, x.p, x.i) { assert Has(m, Tab(x.p, x.i)); }
    }
    forall p: Pid, i: nat
      ensures HasTable(n, p, i) == HasTable(m, p, i)
      ensures HasTable(m, p, i) ==> EntryAt(n, DirSlot(n, p, i)) == EntryAt(m, DirSlot(m, p, i))
    {
      if p in m.dirs { assert Has(m, Dir(p)); }
    }
    ClearKeepsData(m, n, f);
  }

  lemma ClearKeepsData(m: Store, n: Store, f: Frame)
    requires Inv(m) && f !in m.owner && n == Cleared(m, f) && SameTables(m, n)
    requires forall x :: Has(n, x) == Has(m, x) && (Has(m, x) ==> FrameOf(n, x) == FrameOf(m, x))
    ensures SameData(m, n)
  {
    forall p: Pid, i: nat, j: nat
      ensures Data(n, p, i, j) == Data(m, p, i, j)
    {
      assert HasTable(n, p, i) == HasTable(m, p, i);
      assert Has(n, Pag(p, i, j)) == Has(m, Pag(p, i, j));
    }
  }

  /** What is neither in memory nor on disk when the kernel evicts a page is so afterwards. */
  ghost predicate AbsentStay(m: Store, n: Store) {
    forall t: Slot {:trigger EntryAt(n, t)} | t.table in m.owner && m.owner[t.table].Tab? && !EntryAt(m, t).present ::
      EntryAt(n, t) == EntryAt(m, t) && (t in n.swap <==> t in m.swap)
  }

  /** The page behind entry t is in memory or on disk. */
  predicate Somewhere(m: Store, t: Slot) {
    EntryAt(m, t).present || t in m.swap
  }

  /** No page of a table in use has got lost. */
  ghost predicate KeepsPages(m: Store, n: Store) {
    forall t: Slot {:trigger Somewhere(n, t)} | t.table in m.owner && m.owner[t.table].Tab? && Somewhere(m, t) :: Somewhere(n, t)
  }

  /** The kernel's work between m and n shows nowhere but in what is in memory and what on disk. */
  ghost predicate Unnoticed(m: Store, n: Store) {
    Inv(n) && SameTables(m, n) && SameData(m, n) && AbsentStay(m, n) && KeepsPages(m, n)
  }

  lemma UnnoticedNothing(m: Store)
    requires Inv(m)
    ensures Unnoticed(m, m)
  {
  }

  lemma UnnoticedTwice(m: Store, n: Store, r: Store)
    requires Inv(m) && Unnoticed(m, n) && Unnoticed(n, r)
    ensures Unnoticed(m, r)
  {
    forall p: Pid, i: nat
      ensures HasTable(r, p, i) == HasTable(m, p, i)
      ensures HasTable(m, p, i) ==> EntryAt(r, DirSlot(r, p, i)) == EntryAt(m, DirSlot(m, p, i))
    {
      assert HasTable(n, p, i) == HasTable(m, p, i);
    }
    forall p: Pid, i: nat, j: nat
      ensures Data(r, p, i, j) == Data(m, p, i, j)
    {
      assert Data(n, p, i, j) == Data(m, p, i, j);
    }
    forall f | f in m.owner && m.owner[f].Tab?
      ensures f in n.owner && n.owner[f].Tab?
    {
      TableStays(m, n, f);
    }
    assert KeepsPages(m, r) by {
      forall t: Slot | t.table in m.owner && m.owner[t.table].Tab? && Somewhere(m, t)
        ensures Somewhere(r, t)
      {
        assert Somewhere(n, t);
      }
    }
    assert AbsentStay(m, r) by {
      forall t: Slot | t.table in m.owner && m.owner[t.table].Tab? && !EntryAt(m, t).present
        ensures EntryAt(r, t) == EntryAt(m, t) && (t in r.swap <==> t in m.swap)
      {
        assert EntryAt(n, t) == EntryAt(m, t);
      }
    }
  }

  lemma TableStays(m: Store, n: Store, f: Frame)
    requires Inv(m) && Inv(n) && SameTables(m, n) && f in m.owner && m.owner[f].Tab?
    ensures f in n.owner && n.owner[f] == m.owner[f]
  {
    var Tab(p, i) := m.owner[f];
    assert Has(m, m.owner[f]);
    assert HasTable(n, p, i);
    assert Has(n, Tab(p, i));
  }

  /** A page of any process may go to disk unnoticed, even by that process. */
  lemma EvictUnnoticed(m: Store, n: Store, s: Slot)
    requires Inv(m) && Resident(m, s) && n == Evicted(m, s)
    ensures Unnoticed(m, n)
  {
    EvictKeepsInv(m, n, s);
    EvictKeepsData(m, n, s);
    SetEntryViews(m, s, EntryAt(m, s).(present := false));
  }

  lemma ClearUnnoticed(m: Store, n: Store, f: Frame)
    requires Inv(m) && f !in m.owner && n == Cleared(m, f)
    ensures Unnoticed(m, n)
  {
    ClearKeeps(m, n, f);
  }

  /** A frame just handed out: zero, and recorded nowhere yet. */
  ghost predicate Fresh(m: Store, f: Frame) {
    f !in m.owner && f !in m.phys
  }

  /** Directory entry i of p comes to refer to a zeroed frame, its table. */
  function WithTable(m: Store, p: Pid, i: nat, e: Entry): Store
    requires p in m.dirs
  {
    Store(m.dirs, SetEntry(m, DirSlot(m, p, i), e).phys, m.swap, m.owner[e.frame := Tab(p, i)])
  }

  lemma TableAddedPlaces(m: Store, n: Store, p: Pid, i: nat, e: Entry)
    requires Inv(m) && Fresh(m, e.frame) && e.present && p in m.dirs && i < NUM_ENTRIES && !HasTable(m, p, i)
    requires n == WithTable(m, p, i, e)
    ensures HasTable(n, p, i) && FrameOf(n, Tab(p, i)) == e.frame && SamePlacesBut(m, n, Tab(p, i))
    ensures forall t | t != DirSlot(m, p, i) :: EntryAt(n, t) == EntryAt(m, t)
  {
    var s := DirSlot(m, p, i);
    SetEntryViews(m, s, e);
    assert forall t :: EntryAt(n, t) == if t == s then e else EntryAt(m, t);
    assert Has(m, Dir(p));
    forall x | x != Tab(p, i)
      ensures Has(n, x) == Has(m, x) && (Has(m, x) ==> FrameOf(n, x) == FrameOf(m, x))
    {
      if x.p in m.dirs { assert Has(m, Dir(x.p)); }
      if !x.Dir? && HasTable(m, x.p, x.i) { assert Has(m, Tab(x.p, x.i)); }
    }
  }

  lemma TableAdded(m: Store, n: Store, p: Pid, i: nat, e: Entry)
    requires Inv(m) && Fresh(m, e.frame) && e.present && p in m.dirs && i < NUM_ENTRIES && !HasTable(m, p, i)
    requires n == WithTable(m, p, i, e)
    ensures HasTable(n, p, i) && FrameOf(n, Tab(p, i)) == e.frame && KeepsTables(m, n) && Inv(n)
  {
    TableAddedPlaces(m, n, p, i, e);
    assert Has(m, Dir(p));
    forall q: Pid, a: nat | HasTable(m, q, a)
      ensures HasTable(n, q, a) && FrameOf(n, Tab(q, a)) == FrameOf(m, Tab(q, a))
    {
      assert Has(m, Tab(q, a)) && Has(n, Tab(q, a));
    }
    GainPlace(m, n, Tab(p, i), e.frame);
  }

  lemma TableAddedData(m: Store, n: Store, p: Pid, i: nat, e: Entry)
    requires Inv(m) && Fresh(m, e.frame) && e.present && p in m.dirs && i < NUM_ENTRIES && !HasTable(m, p, i)
    requires n == WithTable(m, p, i, e)
    ensures SameData(m, n)
  {
    TableAddedPlaces(m, n, p, i, e);
    var s := DirSlot(m, p, i);
    assert Has(m, Dir(p));
    SetEntryViews(m, s, e);
    forall q: Pid, a: nat, b: nat
      ensures Data(n, q, a, b) == Data(m, q, a, b)
    {
      assert Has(n, Tab(q, a)) == Has(m, Tab(q, a)) || (q == p && a == i);
      assert Has(n, Pag(q, a, b)) == Has(m, Pag(q, a, b));
      if q == p && a == i {
        assert PageSlot(n, q, a, b) == Slot(e.frame, b) && Slot(e.frame, b) !in m.swap;
      } else if HasTable(m, q, a) {
        assert PageSlot(n, q, a, b) == PageSlot(m, q, a, b);
        PageBytesStay(m, s, e);
      }
    }
  }

  /** read_page_from_disk: frame f gets the contents of the swap file of s, if there is one. */
  function FromDisk(m: Store, s: Slot, f: Frame): Store {
    if s in m.swap then SetBytes(m, f, m.swap[s]) else m
  }

  /** Entry s gets frame e.frame, filled from disk. */
  function Loaded(m: Store, s: Slot, e: Entry, x: Place): Store {
    Store(m.dirs, SetEntry(FromDisk(m, s, e.frame), s, e).phys, m.swap, m.owner[e.frame := x])
  }

  lemma LoadedViews(m: Store, n: Store, s: Slot, e: Entry, x: Place)
    requires Fresh(m, e.frame) && e.frame != s.table && n == Loaded(m, s, e, x)
    ensures forall t :: EntryAt(n, t) == if t == s then e else EntryAt(m, t)
    ensures forall f | f != s.table && f != e.frame :: BytesAt(n, f) == BytesAt(m, f)
    ensures BytesAt(n, e.frame) == if s in m.swap then m.swap[s] else Zeros(PAGE_SIZE)
    ensures e.frame in n.phys ==> n.phys[e.frame].Page?
    ensures n.phys[s.table].Table?
    ensures forall f | f != s.table && f != e.frame :: (f in n.phys <==> f in m.phys) && (f in m.phys ==> n.phys[f] == m.phys[f])
  {
    var r := FromDisk(m, s, e.frame);
    assert forall t :: EntryAt(r, t) == EntryAt(m, t);
    SetEntryViews(r, s, e);
  }

  lemma PageLoaded(m: Store, n: Store, p: Pid, i: nat, j: nat, s: Slot, e: Entry)
    requires Inv(m) && Fresh(m, e.frame) && IsPageSlot(m, p, i, j, s) && !EntryAt(m, s).present && e.present
    requires n == Loaded(m, s, e, Pag(p, i, j))
    ensures Inv(n) && SameTables(m, n) && SamePlacesBut(m, n, Pag(p, i, j))
    ensures Has(n, Pag(p, i, j)) && EntryAt(n, s) == e
  {
    assert Has(m, Tab(p, i));
    LoadedViews(m, n, s, e, Pag(p, i, j));
    PagePlaceChanges(m, n, p, i, j, s, e);
    GainPlace(m, n, Pag(p, i, j), e.frame);
  }

  /** A page that comes back in is the page that went out. */
  lemma PageLoadedData(m: Store, n: Store, p: Pid, i: nat, j: nat, s: Slot, e: Entry)
    requires Inv(m) && Fresh(m, e.frame) && IsPageSlot(m, p, i, j, s) && !EntryAt(m, s).present && e.present
    requires n == Loaded(m, s, e, Pag(p, i, j))
    ensures SameData(m, n)
  {
    assert Has(m, Tab(p, i));
    LoadedViews(m, n, s, e, Pag(p, i, j));
    PagePlaceChanges(m, n, p, i, j, s, e);
    OtherDataStays(m, n, p, i, j);
    assert HasTable(n, p, i);
  }

  /** Of all pages, only the one that was loaded has become present, and none has got lost. */
  lemma LoadedBut(before: Store, m: Store, n: Store, s: Slot, e: Entry, x: Place)
    requires Unnoticed(before, m) && Fresh(m, e.frame) && e.frame != s.table && n == Loaded(m, s, e, x) && e.present
    ensures KeepsPages(before, n) && AbsentBut(before, n, s)
  {
    LoadedViews(m, n, s, e, x);
    forall t: Slot | t.table in before.owner && before.owner[t.table].Tab? && Somewhere(before, t)
      ensures Somewhere(n, t)
    {
      assert Somewhere(m, t);
    }
    forall t: Slot | t != s && t.table in before.owner && before.owner[t.table].Tab? && !EntryAt(before, t).present
      ensures !EntryAt(n, t).present
    {
      assert EntryAt(m, t) == EntryAt(before, t);
    }
  }

  /** No entry but s has become present. */
  ghost predicate AbsentBut(m: Store, n: Store, s: Slot) {
    forall t: Slot | t != s && t.table in m.owner && m.owner[t.table].Tab? && !EntryAt(m, t).present :: !EntryAt(n, t).present
  }

  /** Only flags of an entry in use change. */
  lemma FlagsChange(m: Store, n: Store, p: Pid, i: nat, j: nat, s: Slot, e: Entry)
    requires Inv(m) && IsPageSlot(m, p, i, j, s) && EntryAt(m, s).present && n == SetEntry(m, s, e)
    requires e.present && e.frame == EntryAt(m, s).frame
    ensures Inv(n) && SameTables(m, n) && SameData(m, n) && SamePlacesBut(m, n, Pag(p, i, j))
    ensures Has(n, Pag(p, i, j)) && EntryAt(n, s) == e
  {
    assert Has(m, Tab(p, i)) && Has(m, Pag(p, i, j));
    SetEntryViews(m, s, e);
    PagePlaceChanges(m, n, p, i, j, s, e);
    SamePlacesInv(m, n);
    PageBytesStay(m, s, e);
    OtherDataStays(m, n, p, i, j);
    assert HasTable(n, p, i);
  }

  /** Where n has the entries of m, and a process its directory, the walk finds the same. */
  lemma SameWalk(m: Store, n: Store, q: Pid)
    requires forall t :: EntryAt(n, t) == EntryAt(m, t)
    requires (q in n.dirs <==> q in m.dirs) && (q in m.dirs ==> n.dirs[q] == m.dirs[q])
    ensures forall x: Place | x.p == q :: Has(n, x) == Has(m, x) && (Has(m, x) ==> FrameOf(n, x) == FrameOf(m, x))
    ensures forall i {:trigger HasTable(n, q, i)} {:trigger HasTable(m, q, i)} :: HasTable(n, q, i) == HasTable(m, q, i)
  {
    forall i: nat
      ensures HasTable(n, q, i) == HasTable(m, q, i)
      ensures HasTable(m, q, i) ==> DirSlot(n, q, i) == DirSlot(m, q, i)
    {
    }
    forall x: Place | x.p == q
      ensures Has(n, x) == Has(m, x) && (Has(m, x) ==> FrameOf(n, x) == FrameOf(m, x))
    {
      assert !x.Dir? ==> HasTable(n, q, x.i) == HasTable(m, q, x.i);
    }
  }

  lemma SameWalkData(m: Store, n: Store, q: Pid)
    requires Inv(m)
    requires forall t :: EntryAt(n, t) == EntryAt(m, t)
    requires (q in n.dirs <==> q in m.dirs) && (q in m.dirs ==> n.dirs[q] == m.dirs[q])
    requires n.phys == m.phys
    requires forall t: Slot | t.table in m.owner && m.owner[t.table].p == q :: (t in n.swap <==> t in m.swap) && (t in m.swap ==> n.swap[t] == m.swap[t])
    ensures forall a: nat, b: nat {:trigger Data(n, q, a, b)} :: Data(n, q, a, b) == Data(m, q, a, b)
  {
    SameWalk(m, n, q);
    forall a: nat, b: nat
      ensures Data(n, q, a, b) == Data(m, q, a, b)
    {
      assert HasTable(n, q, a) == HasTable(m, q, a);
      assert Has(n, Pag(q, a, b)) == Has(m, Pag(q, a, b));
      assert Has(m, Tab(q, a)) == HasTable(m, q, a);
    }
  }

  /** Storing to a page that is in memory changes that page of that process, and nothing else. */
  lemma BytesWritten(m: Store, n: Store, p: Pid, i: nat, j: nat, b: PageBytes)
    requires Inv(m) && Has(m, Pag(p, i, j)) && n == SetBytes(m, FrameOf(m, Pag(p, i, j)), b)
    ensures Inv(n) && SameTables(m, n) && Data(n, p, i, j) == b
    ensures forall q: Pid, a: nat, c: nat {:trigger Data(n, q, a, c)} | Pag(q, a, c) != Pag(p, i, j) ::
              Data(n, q, a, c) == Data(m, q, a, c)
  {
    assert forall t :: EntryAt(n, t) == EntryAt(m, t);
    forall x
      ensures Has(n, x) == Has(m, x) && (Has(m, x) ==> FrameOf(n, x) == FrameOf(m, x))
    {
      SameWalk(m, n, x.p);
    }
    SamePlacesInv(m, n);
    assert Typed(n);
    hide Placed, NoLeak, Typed;
    forall q: Pid, a: nat
      ensures HasTable(n, q, a) == HasTable(m, q, a)
    {
      SameWalk(m, n, q);
    }
    OtherDataStays(m, n, p, i, j);
    assert HasTable(n, p, i) && Has(n, Pag(p, i, j));
  }

  lemma SamePlacesInv(m: Store, n: Store)
    requires Inv(m) && n.owner == m.owner
    requires forall x :: Has(n, x) == Has(m, x) && (Has(m, x) ==> FrameOf(n, x) == FrameOf(m, x))
    ensures Placed(n) && NoLeak(n)
  {
    forall f | f in n.owner
      ensures Has(n, n.owner[f]) && FrameOf(n, n.owner[f]) == f
    {
      assert Has(m, m.owner[f]);
    }
  }

  // ------------------------------------------------------------ processes come and go

  function WithProcess(m: Store, p: Pid, f: Frame): Store {
    Store(m.dirs[p := f], m.phys, m.swap, m.owner[f := Dir(p)])
  }

  lemma ProcessAdded(m: Store, n: Store, p: Pid, f: Frame)
    requires Inv(m) && Fresh(m, f) && p !in m.dirs && n == WithProcess(m, p, f)
    ensures Inv(n) && SameData(m, n)
    ensures forall i :: !HasTable(n, p, i)
    ensures forall q: Pid, a: nat | HasTable(m, q, a) :: HasTable(n, q, a) && FrameOf(n, Tab(q, a)) == FrameOf(m, Tab(q, a))
  {
    assert forall t :: EntryAt(n, t) == EntryAt(m, t);
    assert forall i: nat :: !EntryAt(n, Slot(f, i)).present;
    forall x | x != Dir(p)
      ensures Has(n, x) == Has(m, x) && (Has(m, x) ==> FrameOf(n, x) == FrameOf(m, x))
    {
      if x.p != p { SameWalk(m, n, x.p); }
    }
    GainPlace(m, n, Dir(p), f);
    forall q: Pid, a: nat | HasTable(m, q, a)
      ensures HasTable(n, q, a) && FrameOf(n, Tab(q, a)) == FrameOf(m, Tab(q, a))
    {
      SameWalk(m, n, q);
      assert Has(m, Tab(q, a));
    }
    forall q: Pid, a: nat, b: nat
      ensures Data(n, q, a, b) == Data(m, q, a, b)
    {
      if q != p { SameWalkData(m, n, q); }
    }
  }

  /** Process p gone: every frame it had is back with the kernel, its swap files are deleted. */
  function WithoutProcess(m: Store, p: Pid): Store {
    Store(
      m.dirs - {p},
      m.phys,
      map s | s in m.swap && !(s.table in m.owner && m.owner[s.table].p == p) :: m.swap[s],
      map f | f in m.owner && m.owner[f].p != p :: m.owner[f])
  }

  lemma ProcessRemoved(m: Store, n: Store, p: Pid)
    requires Inv(m) && n == WithoutProcess(m, p)
    ensures Inv(n)
    ensures forall q: Pid, a: nat, b: nat {:trigger Data(n, q, a, b)} ::
              Data(n, q, a, b) == if q == p then Zeros(PAGE_SIZE) else Data(m, q, a, b)
  {
    assert forall t :: EntryAt(n, t) == EntryAt(m, t);
    forall x
      ensures Has(n, x) <==> Has(m, x) && x.p != p
      ensures Has(n, x) ==> FrameOf(n, x) == FrameOf(m, x)
    {
      if x.p != p { SameWalk(m, n, x.p); }
    }
    assert NoLeak(n) by {
      forall f | f in n.owner
        ensures Has(n, n.owner[f]) && FrameOf(n, n.owner[f]) == f
      {
        assert Has(m, m.owner[f]);
      }
    }
    forall q: Pid, a: nat, b: nat
      ensures Data(n, q, a, b) == if q == p then Zeros(PAGE_SIZE) else Data(m, q, a, b)
    {
      if q != p { SameWalkData(m, n, q); }
    }
  }

  // ------------------------------------------------------------ taking a process apart

  /** What has gone back to the kernel when entry j of table i of process p is next. */
  predicate Returned(x: Place, p: Pid, i: nat, j: nat) {
    x.p == p && (x.Tab? || x.Pag?) && (x.i < i || (x.Pag? && x.i == i && x.j < j))
  }

  function OwnerLeft(m: Store, p: Pid, i: nat, j: nat): map<Frame, Place> {
    map f | f in m.owner && !Returned(m.owner[f], p, i, j) :: m.owner[f]
  }

  predicate SwapReturned(m: Store, s: Slot, p: Pid, i: nat, j: nat) {
    s.table in m.owner && m.owner[s.table].Tab? && Returned(Pag(m.owner[s.table].p, m.owner[s.table].i, s.index), p, i, j)
  }

  function SwapLeft(m: Store, p: Pid, i: nat, j: nat): map<Slot, PageBytes> {
    map s | s in m.swap && !SwapReturned(m, s, p, i, j) :: m.swap[s]
  }

  lemma ReturnNone(m: Store, p: Pid)
    ensures OwnerLeft(m, p, 0, 0) == m.owner && SwapLeft(m, p, 0, 0) == m.swap
  {
  }

  lemma SwapAt(m: Store, p: Pid, i: nat, j: nat, s: Slot)
    requires Inv(m) && HasTable(m, p, i) && s in m.swap
    ensures SwapReturned(m, s, p, i, j + 1) <==> SwapReturned(m, s, p, i, j) || s == PageSlot(m, p, i, j)
  {
    assert Has(m, Tab(p, i));
    assert Has(m, m.owner[s.table]);
  }

  lemma ReturnPageSwap(m: Store, p: Pid, i: nat, j: nat)
    requires Inv(m) && HasTable(m, p, i) && j < NUM_ENTRIES
    ensures SwapLeft(m, p, i, j + 1) == SwapLeft(m, p, i, j) - {PageSlot(m, p, i, j)}
  {
    hide Inv, SwapReturned;
    forall s | s in m.swap
      ensures SwapReturned(m, s, p, i, j + 1) <==> SwapReturned(m, s, p, i, j) || s == PageSlot(m, p, i, j)
    {
      SwapAt(m, p, i, j, s);
    }
  }

  lemma ReturnPage(m: Store, p: Pid, i: nat, j: nat)
    requires Inv(m) && HasTable(m, p, i) && j < NUM_ENTRIES
    ensures if Has(m, Pag(p, i, j))
            then var f := FrameOf(m, Pag(p, i, j));
                 f in OwnerLeft(m, p, i, j) && OwnerLeft(m, p, i, j + 1) == OwnerLeft(m, p, i, j) - {f}
            else OwnerLeft(m, p, i, j + 1) == OwnerLeft(m, p, i, j)
  {
    assert forall f | f in m.owner :: m.owner[f] == Pag(p, i, j) <==> Has(m, Pag(p, i, j)) && f == FrameOf(m, Pag(p, i, j));
  }

  lemma ReturnTable(m: Store, p: Pid, i: nat)
    requires Inv(m) && i < NUM_ENTRIES
    ensures if HasTable(m, p, i)
            then var f := FrameOf(m, Tab(p, i));
                 f in OwnerLeft(m, p, i, NUM_ENTRIES) && OwnerLeft(m, p, i + 1, 0) == OwnerLeft(m, p, i, NUM_ENTRIES) - {f}
                 && SwapLeft(m, p, i + 1, 0) == SwapLeft(m, p, i, NUM_ENTRIES)
            else OwnerLeft(m, p, i + 1, 0) == OwnerLeft(m, p, i, 0) && SwapLeft(m, p, i + 1, 0) == SwapLeft(m, p, i, 0)
  {
    assert Has(m, Tab(p, i)) == HasTable(m, p, i);
    forall f | f in m.owner
      ensures m.owner[f].Pag? ==> m.owner[f].j < NUM_ENTRIES && HasTable(m, m.owner[f].p, m.owner[f].i)
      ensures m.owner[f] == Tab(p, i) <==> Has(m, Tab(p, i)) && f == FrameOf(m, Tab(p, i))
    {
      assert Has(m, m.owner[f]);
    }
  }

  lemma ReturnRest(m: Store, p: Pid)
    requires Inv(m) && p in m.dirs
    ensures m.dirs[p] in OwnerLeft(m, p, NUM_ENTRIES, 0)
    ensures WithoutProcess(m, p).owner == OwnerLeft(m, p, NUM_ENTRIES, 0) - {m.dirs[p]}
    ensures WithoutProcess(m, p).swap == SwapLeft(m, p, NUM_ENTRIES, 0)
  {
    assert Has(m, Dir(p));
    forall f | f in m.owner
      ensures !m.owner[f].Dir? ==> m.owner[f].i < NUM_ENTRIES
      ensures m.owner[f] == Dir(p) <==> f == m.dirs[p]
    {
      assert Has(m, m.owner[f]);
    }
  }

  lemma NothingToReturn(m: Store, p: Pid)
    requires Inv(m) && p !in m.dirs
    ensures WithoutProcess(m, p) == m
  {
    forall f | f in m.owner
      ensures m.owner[f].p != p
    {
      assert Has(m, m.owner[f]);
    }
  }
}
