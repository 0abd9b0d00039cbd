/** Whole runs of a client that keeps notes of what it has written where. */
module HeapRuns {
  import opened Bytes
  import opened HeapMemory
  import opened Sweeps
  import opened LooseHeaps
  import opened Allocators

  /** `granted` is the kernel's answer should the break have to move. */
  datatype Call =
    | Request(size: nat, granted: bool)
    | Release(p: int)
    | Resize(p: int, size: nat, granted: bool)
    | Put(p: int, k: nat, b: Byte)

  /** For a pointer in use: the size asked for, and the bytes written so far. */
  datatype Note = Note(size: nat, bytes: map<nat, Byte>)

  type Notes = map<int, Note>

  /** The client's notes after a call that returned r. It makes no call on a pointer it has no note of. */
  function After(notes: Notes, c: Call, r: int): Notes {
    match c
    case Request(size, _) => if r == NULL then notes else notes[r := Note(size, map[])]
    case Release(p) => notes - {p}
    case Resize(p, size, _) =>
      if p !in notes then notes
      else if size == 0 then notes - {p}
      else if r == NULL then notes
      else (notes - {p})[r := Note(size, map k | k in notes[p].bytes && k < size :: notes[p].bytes[k])]
    case Put(p, k, b) =>
      if p in notes && k < notes[p].size then notes[p := notes[p].(bytes := notes[p].bytes[k := b])] else notes
  }

  /** The block at pointer p is live, as large as asked for, and holds the bytes noted. */
  ghost predicate Holds(m: seq<Cell>, starts: set<int>, p: int, note: Note) {
    && p - META in starts && HeadAt(m, p - META) && !IsFree(m, p - META) && Size(m, p - META) >= note.size
    && p + note.size <= |m|
    && forall k | k in note.bytes :: k < note.size && m[p + k] == Raw(note.bytes[k])
  }

  /** All notes are true. */
  ghost predicate Agrees(m: seq<Cell>, starts: set<int>, notes: Notes) {
    forall p | p in notes :: Holds(m, starts, p, notes[p])
  }

  lemma KeptHolds(m0: seq<Cell>, s0: set<int>, m1: seq<Cell>, s1: set<int>, P: set<int>, p: int, note: Note)
    requires Tiled(m0, s0) && Tiled(m1, s1) && Kept(m0, s0, m1, s1, P) && p - META !in P && Holds(m0, s0, p, note)
    ensures Holds(m1, s1, p, note)
  {
    MovedHolds(m0, m1, s1, p, p, note, note.size, Size(m0, p - META));
  }

  /** The first n bytes of the noted block are found again in the live block at q. */
  lemma MovedHolds(m0: seq<Cell>, m1: seq<Cell>, s1: set<int>, p: int, q: int, note: Note, size: nat, n: nat)
    requires Tiled(m1, s1) && SamePayload(m0, m1, p, q, n) && (n >= note.size || n >= size)
    requires forall k | k in note.bytes :: k < note.size && p + k < |m0| && 0 <= p && m0[p + k] == Raw(note.bytes[k])
    requires q - META in s1 && !IsFree(m1, q - META) && Size(m1, q - META) >= size
    ensures Holds(m1, s1, q, Note(size, map k | k in note.bytes && k < size :: note.bytes[k]))
    ensures size == note.size ==> Holds(m1, s1, q, note)
  {
    EndInRegion(m1, s1, q - META);
    forall k | k in note.bytes && k < size
      ensures m1[q + k] == Raw(note.bytes[k])
    {
      assert m1[q..q + n][k] == m0[p..p + n][k];
    }
  }

  lemma AgreesAt(m: seq<Cell>, starts: set<int>, notes: Notes, p: int)
    requires Agrees(m, starts, notes) && p in notes
    ensures Live(m, starts, p)
  {
    assert Holds(m, starts, p, notes[p]);
  }

  lemma KeptAgrees(m0: seq<Cell>, s0: set<int>, m1: seq<Cell>, s1: set<int>, P: set<int>, notes: Notes)
    requires Tiled(m0, s0) && Tiled(m1, s1) && Kept(m0, s0, m1, s1, P) && Agrees(m0, s0, notes)
    ensures forall p | p in notes && p - META !in P :: Holds(m1, s1, p, notes[p])
  {
    forall p | p in notes && p - META !in P
      ensures Holds(m1, s1, p, notes[p])
    {
      KeptHolds(m0, s0, m1, s1, P, p, notes[p]);
    }
  }

  // ------------------------------------------------------------ what each call does to true notes

  lemma RequestAgrees(m0: seq<Cell>, s0: set<int>, m1: seq<Cell>, s1: set<int>, notes: Notes, size: nat, granted: bool, r: int)
    requires Tiled(m0, s0) && Tiled(m1, s1) && Agrees(m0, s0, notes)
    requires if r == NULL then Kept(m0, s0, m1, s1, {}) else Given(m0, s0, m1, s1, r - META, size)
    ensures Agrees(m1, s1, After(notes, Request(size, granted), r))
  {
    KeptAgrees(m0, s0, m1, s1, if r == NULL then {} else {r - META}, notes);
    if r != NULL { EndInRegion(m1, s1, r - META); }
  }

  lemma ReleaseAgrees(m0: seq<Cell>, s0: set<int>, m1: seq<Cell>, s1: set<int>, notes: Notes, p: int)
    requires Tiled(m0, s0) && Tiled(m1, s1) && Agrees(m0, s0, notes) && Kept(m0, s0, m1, s1, {p - META})
    ensures Agrees(m1, s1, notes - {p})
  {
    KeptAgrees(m0, s0, m1, s1, {p - META}, notes);
  }

  lemma RefusedAgrees(m0: seq<Cell>, s0: set<int>, m1: seq<Cell>, s1: set<int>, notes: Notes, p: int)
    requires Tiled(m0, s0) && Tiled(m1, s1) && Agrees(m0, s0, notes) && p in notes && Holds(m0, s0, p, notes[p])
    requires Kept(m0, s0, m1, s1, {p - META}) && p - META in s1 && !IsFree(m1, p - META)
    requires SamePayload(m0, m1, p, p, Size(m0, p - META)) && Size(m1, p - META) >= Size(m0, p - META)
    ensures Agrees(m1, s1, notes)
  {
    KeptAgrees(m0, s0, m1, s1, {p - META}, notes);
    MovedHolds(m0, m1, s1, p, p, notes[p], notes[p].size, Size(m0, p - META));
  }

  lemma ReplacedAgrees(m: seq<Cell>, starts: set<int>, notes: Notes, p: int, r: int, note: Note)
    requires Holds(m, starts, r, note)
    requires forall q | q in notes && q != p && q != r :: Holds(m, starts, q, notes[q])
    ensures Agrees(m, starts, (notes - {p})[r := note])
  {
    hide Holds;
  }

  lemma ResizeAgrees(m0: seq<Cell>, s0: set<int>, m1: seq<Cell>, s1: set<int>, notes: Notes, p: int, size: nat, granted: bool, r: int)
    requires Tiled(m0, s0) && Tiled(m1, s1) && Agrees(m0, s0, notes) && p in notes && Holds(m0, s0, p, notes[p])
    requires Reallocated(m0, s0, m1, s1, p - META, r - META, size) && size > 0 && r != NULL
    ensures Agrees(m1, s1, After(notes, Resize(p, size, granted), r))
  {
    var note := Note(size, map k | k in notes[p].bytes && k < size :: notes[p].bytes[k]);
    KeptAgrees(m0, s0, m1, s1, {p - META, r - META}, notes);
    MovedHolds(m0, m1, s1, p, r, notes[p], size, if Size(m0, p - META) < size then Size(m0, p - META) else size);
    hide Holds, Agrees, Kept, Reallocated, Tiled;
    ReplacedAgrees(m1, s1, notes, p, r, note);
  }

  /** What a reallocation does: to nothing, to a block at r, or refused. */
  ghost predicate Resized(m0: seq<Cell>, s0: set<int>, m1: seq<Cell>, s1: set<int>, p: int, size: nat, r: int)
    requires forall a | a in s0 :: HeadAt(m0, a)
    requires forall a | a in s1 :: HeadAt(m1, a)
    requires p - META in s0
  {
    if size == 0 then Freed(m0, s0, m1, s1, p - META)
    else if r != NULL then Reallocated(m0, s0, m1, s1, p - META, r - META, size)
    else
      && Kept(m0, s0, m1, s1, {p - META}) && p - META in s1 && !IsFree(m1, p - META)
      && SamePayload(m0, m1, p, p, Size(m0, p - META)) && Size(m1, p - META) >= Size(m0, p - META)
  }

  lemma ResizedAgrees(m0: seq<Cell>, s0: set<int>, m1: seq<Cell>, s1: set<int>, notes: Notes, p: int, size: nat, granted: bool, r: int)
    requires Tiled(m0, s0) && Tiled(m1, s1) && Agrees(m0, s0, notes) && p in notes && Holds(m0, s0, p, notes[p])
    requires Resized(m0, s0, m1, s1, p, size, r)
    ensures Agrees(m1, s1, After(notes, Resize(p, size, granted), r))
  {
    if size == 0 {
      ReleaseAgrees(m0, s0, m1, s1, notes, p);
    } else if r == NULL {
      RefusedAgrees(m0, s0, m1, s1, notes, p);
    } else {
      ResizeAgrees(m0, s0, m1, s1, notes, p, size, granted, r);
    }
  }

  lemma PutHolds(m0: seq<Cell>, s: set<int>, m1: seq<Cell>, note: Note, p: int, k: nat, b: Byte)
    requires Holds(m0, s, p, note) && k < note.size && SameLinksAt(m0, m1, s) && 0 <= p && p + k < |m0| && m1 == m0[p + k := Raw(b)]
    ensures Holds(m1, s, p, note.(bytes := note.bytes[k := b]))
  {
  }

  lemma PutAgrees(m0: seq<Cell>, s: set<int>, m1: seq<Cell>, notes: Notes, p: int, k: nat, b: Byte, r: int)
    requires Tiled(m0, s) && Tiled(m1, s) && Agrees(m0, s, notes) && p in notes && Holds(m0, s, p, notes[p]) && k < notes[p].size
    requires Kept(m0, s, m1, s, {p - META}) && SameLinksAt(m0, m1, s) && 0 <= p && p + k < |m0| && m1 == m0[p + k := Raw(b)]
    ensures Agrees(m1, s, After(notes, Put(p, k, b), r))
  {
    hide Holds, Agrees, Kept, Tiled, SameLinksAt;
    var note := notes[p].(bytes := notes[p].bytes[k := b]);
    PutHolds(m0, s, m1, notes[p], p, k, b);
    KeptAgrees(m0, s, m1, s, {p - META}, notes);
    ReplacedAgrees(m1, s, notes, p, p, note);
    assert (notes - {p})[p := note] == notes[p := note];
  }

  // ------------------------------------------------------------ the calls

  /** The sweep that the call may run leaves a heap. */
  ghost predicate Ready(h: Allocator, notes: Notes, c: Call)
    requires h.Valid()
    reads h, h.heads
  {
    match c
    case Request(size, _) => h.LeavesHeap(size)
    case Resize(p, size, _) =>
      p in notes && p - META in h.starts && HeadAt(h.mem, p - META) && size > MergedSize(h.mem, h.starts, p - META) ==>
        h.LeavesHeapAfterMerge(p - META, size)
    case _ => true
  }

  lemma ReadyResize(h: Allocator, notes: Notes, p: int, size: nat, granted: bool)
    requires h.Valid() && p in notes && Live(h.mem, h.starts, p) && Ready(h, notes, Resize(p, size, granted))
    ensures size > MergedSize(h.mem, h.starts, p - META) ==> h.LeavesHeapAfterMerge(p - META, size)
  {
    hide Linked, Filed, SweepSafe, SweepFrom, Repaired, Drop, Frees, ClassOf;
  }

  /** A call of the client keeps its notes true. */
  method Make(h: Allocator, notes: Notes, c: Call) returns (r: int)
    requires h.Valid() && Agrees(h.mem, h.starts, notes) && Ready(h, notes, c)
    modifies h, h.heads
    ensures h.Valid() && Agrees(h.mem, h.starts, After(notes, c, r))
    ensures h.defrag <= old(h.defrag) + Large(c)
  {
    hide Agrees, Ready, Linked, Filed, Holds, Live;
    r := NULL;
    match c {
      case Request(size, granted) =>
        r := MakeRequest(h, notes, size, granted);
      case Release(p) =>
        if p in notes { MakeRelease(h, notes, p); } else { assert notes - {p} == notes; }
      case Resize(p, size, granted) =>
        if p in notes { r := MakeNotedResize(h, notes, p, size, granted); }
      case Put(p, k, b) =>
        if p in notes && k < notes[p].size { MakePut(h, notes, p, k, b); }
    }
  }

  method MakeRequest(h: Allocator, ghost notes: Notes, size: nat, granted: bool) returns (r: int)
    requires h.Valid() && Agrees(h.mem, h.starts, notes) && Ready(h, notes, Request(size, granted))
    modifies h, h.heads
    ensures h.Valid() && Agrees(h.mem, h.starts, After(notes, Request(size, granted), r))
    ensures h.defrag <= old(h.defrag) + if ClassOf(size) == 15 then 1 else 0
  {
    hide Agrees, Given, HandedOut, Placed, Kept, Chain, Disjoint, Filed, SweepSafe, SweepFrom, Repaired, Readable;
    ghost var m, s := h.mem, h.starts;
    ghost var reused;
    var lost;
    r, reused, lost := h.Malloc(size, granted);
    RequestAgrees(m, s, h.mem, h.starts, notes, size, granted, r);
  }

  method MakeRelease(h: Allocator, ghost notes: Notes, p: int)
    requires h.Valid() && Agrees(h.mem, h.starts, notes) && p in notes
    modifies h, h.heads
    ensures h.Valid() && Agrees(h.mem, h.starts, notes - {p}) && h.defrag == old(h.defrag)
  {
    ghost var m, s := h.mem, h.starts;
    assert Holds(m, s, p, notes[p]);
    EndInRegion(m, s, p - META);
    hide Agrees, FreedBlocks, Kept, Chain, Disjoint, Filed;
    h.Free(p);
    ReleaseAgrees(m, s, h.mem, h.starts, notes, p);
  }

  method MakeNotedResize(h: Allocator, ghost notes: Notes, p: int, size: nat, granted: bool) returns (r: int)
    requires h.Valid() && Agrees(h.mem, h.starts, notes) && p in notes && Ready(h, notes, Resize(p, size, granted))
    modifies h, h.heads
    ensures h.Valid() && Agrees(h.mem, h.starts, After(notes, Resize(p, size, granted), r))
    ensures h.defrag <= old(h.defrag) + if ClassOf(size) == 15 then 1 else 0
  {
    hide Agrees, Linked, Filed, Holds, After, Ready, SweepSafe, SweepFrom, Repaired, Drop, Frees, ClassOf;
    AgreesAt(h.mem, h.starts, notes, p);
    ReadyResize(h, notes, p, size, granted);
    r := MakeResize(h, notes, p, size, granted);
  }

  method MakeResize(h: Allocator, ghost notes: Notes, p: int, size: nat, granted: bool) returns (r: int)
    requires h.Valid() && Agrees(h.mem, h.starts, notes) && p in notes && Live(h.mem, h.starts, p)
    requires size > MergedSize(h.mem, h.starts, p - META) ==> h.LeavesHeapAfterMerge(p - META, size)
    modifies h, h.heads
    ensures h.Valid() && Agrees(h.mem, h.starts, After(notes, Resize(p, size, granted), r))
    ensures h.defrag <= old(h.defrag) + if ClassOf(size) == 15 then 1 else 0
  {
    ghost var m, s := h.mem, h.starts;
    assert Holds(m, s, p, notes[p]);
    hide Agrees, Resized, Linked, Filed, Holds, After, SweepSafe, SweepFrom, Repaired, Drop, Frees, MergedSize, ClassOf, Live;
    r := ReallocLive(h, p, size, granted);
    ResizedAgrees(m, s, h.mem, h.starts, notes, p, size, granted, r);
  }

  ghost predicate Live(m: seq<Cell>, starts: set<int>, p: int) {
    p - META in starts && HeadAt(m, p - META) && !IsFree(m, p - META)
  }

  method ReallocLive(h: Allocator, p: int, size: nat, granted: bool) returns (r: int)
    requires h.Valid() && Live(h.mem, h.starts, p)
    requires size > MergedSize(h.mem, h.starts, p - META) ==> h.LeavesHeapAfterMerge(p - META, size)
    modifies h, h.heads
    ensures h.Valid() && Resized(old(h.mem), old(h.starts), h.mem, h.starts, p, size, r)
    ensures h.defrag <= old(h.defrag) + if ClassOf(size) == 15 then 1 else 0
  {
    hide Freed, Kept, Chain, Disjoint, Filed, Reallocated, SamePayload, SweepSafe, SweepFrom, Repaired, Given, Readable, Drop, Frees;
    HeadAtZero(h.mem, h.starts, p - META);
    ghost var reused;
    var lost;
    r, reused, lost := h.Realloc(p, size, granted);
  }

  lemma HeadAtZero(m: seq<Cell>, starts: set<int>, a: int)
    requires Tiled(m, starts) && a in starts
    ensures a + META > 0
  {
    assert HeadAt(m, a);
  }

  method MakePut(h: Allocator, ghost notes: Notes, p: int, k: nat, b: Byte)
    requires h.Valid() && Agrees(h.mem, h.starts, notes) && p in notes && k < notes[p].size
    modifies h`mem
    ensures h.Valid() && Agrees(h.mem, h.starts, After(notes, Put(p, k, b), NULL))
  {
    ghost var m, s := h.mem, h.starts;
    assert Holds(m, s, p, notes[p]);
    hide Agrees, Kept, Chain, Disjoint, Filed, SameLinksAt;
    h.ClientWrite(p, k, b);
    PutAgrees(m, s, h.mem, notes, p, k, b, NULL);
  }

  /** The call may make a request of class 15. */
  function Large(c: Call): nat {
    if (c.Request? || c.Resize?) && ClassOf(c.size) == 15 then 1 else 0
  }

  function LargeCalls(calls: seq<Call>): nat {
    if calls == [] then 0 else Large(calls[0]) + LargeCalls(calls[1..])
  }

  function AfterAll(notes: Notes, calls: seq<Call>, answers: seq<int>): Notes
    requires |answers| == |calls|
    decreases |calls|
  {
    if calls == [] then notes else AfterAll(After(notes, calls[0], answers[0]), calls[1..], answers[1..])
  }

  /** As long as no list has been swept for six large calls, none has to be. */
  lemma FewAreReady(h: Allocator, notes: Notes, c: Call)
    requires h.Valid() && h.defrag + Large(c) <= 6
    ensures Ready(h, notes, c)
  {
  }

  /** The client's loop, on an allocator that is already in use. */
  method Continue(h: Allocator, notes: Notes, calls: seq<Call>) returns (answers: seq<int>)
    requires h.Valid() && Agrees(h.mem, h.starts, notes) && h.defrag + LargeCalls(calls) <= 6
    modifies h, h.heads
    ensures |answers| == |calls| && h.Valid() && Agrees(h.mem, h.starts, AfterAll(notes, calls, answers))
    decreases |calls|
  {
    if calls == [] { return []; }
    FewAreReady(h, notes, calls[0]);
    var r := Make(h, notes, calls[0]);
    var rest := Continue(h, After(notes, calls[0], r), calls[1..]);
    answers := [r] + rest;
  }

  /**
    In every run from a new allocator with at most six large calls, every block in use holds all that the
    client last wrote to it, whatever was requested, released, resized and written besides. With a
    seventh large call this can fail: see CrossingRun.
    */
  method Play(calls: seq<Call>) returns (h: Allocator, answers: seq<int>)
    requires LargeCalls(calls) <= 6
    ensures fresh(h) && h.Valid() && |answers| == |calls| && Agrees(h.mem, h.starts, AfterAll(map[], calls, answers))
  {
    h := new Allocator();
    answers := Continue(h, map[], calls);
  }
}
