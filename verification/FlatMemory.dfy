/** The memory that processes believe they have: bytes of their own, with no pages, frames or disk. */
module FlatMemory {
  import opened Bytes
  import opened Pages
  import opened Mmus

  datatype Call = Add(p: Pid) | Remove(p: Pid) | Load(p: Pid, va: nat, n: nat) | Save(p: Pid, va: nat, bytes: seq<Byte>)

  datatype Answer = Done | Fault | Got(bytes: seq<Byte>)

  /** Byte by byte, what each live process has stored since it was added. */
  type Flat = map<Pid, nat -> Byte>

  function FlatByte(flat: Flat, p: Pid, a: nat): Byte {
    if p in flat then flat[p](a) else 0
  }

  function FlatBytes(flat: Flat, p: Pid, va: nat, n: nat): (s: seq<Byte>)
    ensures |s| == n && forall k | 0 <= k < n :: s[k] == FlatByte(flat, p, va + k)
  {
    if n == 0 then [] else FlatBytes(flat, p, va, n - 1) + [FlatByte(flat, p, va + n - 1)]
  }

  function Saved(memory: nat -> Byte, va: nat, bytes: seq<Byte>): nat -> Byte {
    (a: nat) => if va <= a < va + |bytes| then bytes[a - va] else memory(a)
  }

  function After(flat: Flat, c: Call): Flat {
    match c
    case Add(p) => flat[p := (a: nat) => 0]
    case Remove(p) => flat - {p}
    case Load(_, _, _) => flat
    case Save(p, va, bytes) =>
      if p in flat && Writable(LAYOUT, va) then flat[p := Saved(flat[p], va, bytes)] else flat
  }

  function Answered(flat: Flat, c: Call): Answer {
    match c
    case Add(_) => Done
    case Remove(_) => Done
    case Load(p, va, n) =>
      if Readable(LAYOUT, va) then Got(FlatBytes(flat, p, va, n)) else Fault
    case Save(_, va, _) => if Writable(LAYOUT, va) then Done else Fault
  }

  /** What the unit demands of its caller: see the asserts at lines 75-76, 111-112, 159 and 236 of mmu.c. */
  predicate Legal(flat: Flat, c: Call, spread: nat, maxPid: nat)
    requires Spread(spread)
  {
    match c
    case Add(p) => p !in flat && p < maxPid
    case Remove(_) => true
    case Load(p, va, n) => p in flat && n + va % PAGE_SIZE <= PAGE_SIZE && (Readable(LAYOUT, va) ==> Top(spread, va) < NUM_ENTRIES)
    case Save(p, va, bytes) => p in flat && |bytes| + va % PAGE_SIZE <= PAGE_SIZE && (Writable(LAYOUT, va) ==> Top(spread, va) < NUM_ENTRIES)
  }

  predicate AllLegal(flat: Flat, calls: seq<Call>, spread: nat, maxPid: nat)
    requires Spread(spread)
    decreases |calls|
  {
    calls == [] || (Legal(flat, calls[0], spread, maxPid) && AllLegal(After(flat, calls[0]), calls[1..], spread, maxPid))
  }

  function Answers(flat: Flat, calls: seq<Call>): seq<Answer>
    decreases |calls|
  {
    if calls == [] then [] else [Answered(flat, calls[0])] + Answers(After(flat, calls[0]), calls[1..])
  }

  function AfterAll(flat: Flat, calls: seq<Call>): Flat
    decreases |calls|
  {
    if calls == [] then flat else AfterAll(After(flat, calls[0]), calls[1..])
  }

  /** c stores to byte `a` of p, or makes a new memory for p. */
  predicate Touches(c: Call, p: Pid, a: nat) {
    c == Add(p) || c == Remove(p) || (c.Save? && c.p == p && Writable(LAYOUT, c.va) && c.va <= a < c.va + |c.bytes|)
  }

  lemma UntouchedOnce(flat: Flat, c: Call, p: Pid, a: nat)
    requires !Touches(c, p, a)
    ensures FlatByte(After(flat, c), p, a) == FlatByte(flat, p, a)
  {
  }

  /** A byte changes only by its own process's stores to it. */
  lemma {:induction false} Untouched(flat: Flat, calls: seq<Call>, p: Pid, a: nat)
    requires forall k | 0 <= k < |calls| :: !Touches(calls[k], p, a)
    ensures FlatByte(AfterAll(flat, calls), p, a) == FlatByte(flat, p, a)
    decreases |calls|
  {
    if calls != [] {
      UntouchedOnce(flat, calls[0], p, a);
      Untouched(After(flat, calls[0]), calls[1..], p, a);
    }
  }

  /** A byte is what its own process last stored there, whatever was called since. */
  lemma {:induction false} LastStored(flat: Flat, calls: seq<Call>, k: nat, a: nat, spread: nat, maxPid: nat)
    requires Spread(spread) && AllLegal(flat, calls, spread, maxPid)
    requires k < |calls| && calls[k].Save? && Touches(calls[k], calls[k].p, a)
    requires forall j | k < j < |calls| :: !Touches(calls[j], calls[k].p, a)
    ensures FlatByte(AfterAll(flat, calls), calls[k].p, a) == calls[k].bytes[a - calls[k].va]
    decreases k
  {
    var next := After(flat, calls[0]);
    if k == 0 {
      Untouched(next, calls[1..], calls[0].p, a);
    } else {
      LastStored(next, calls[1..], k - 1, a, spread, maxPid);
    }
  }

  /** The k-th answer is that of the memory which the calls before it left. */
  lemma {:induction false} AnswerAt(flat: Flat, calls: seq<Call>, k: nat, spread: nat, maxPid: nat)
    requires Spread(spread) && AllLegal(flat, calls, spread, maxPid) && k < |calls|
    ensures |Answers(flat, calls)| == |calls|
    ensures Answers(flat, calls)[k] == Answered(AfterAll(flat, calls[..k]), calls[k])
    ensures AllLegal(flat, calls[..k], spread, maxPid)
    decreases |calls|
  {
    AnswersLength(flat, calls);
    if k > 0 {
      AnswerAt(After(flat, calls[0]), calls[1..], k - 1, spread, maxPid);
      assert calls[..k][1..] == calls[1..][..k - 1];
    }
  }

  lemma {:induction false} AnswersLength(flat: Flat, calls: seq<Call>)
    ensures |Answers(flat, calls)| == |calls|
    decreases |calls|
  {
    if calls != [] {
      AnswersLength(After(flat, calls[0]), calls[1..]);
    }
  }

  /**
    A permitted load returns, byte by byte, what the same process last stored there: its byte at a is
    the one that call j stored, if no call between the two stored there or made p's memory anew.
    */
  lemma LoadsLastStored(flat: Flat, calls: seq<Call>, j: nat, k: nat, a: nat, spread: nat, maxPid: nat)
    requires Spread(spread) && AllLegal(flat, calls, spread, maxPid)
    requires j < k < |calls| && calls[j].Save? && calls[k].Load? && calls[k].p == calls[j].p
    requires Touches(calls[j], calls[j].p, a) && forall i | j < i < k :: !Touches(calls[i], calls[j].p, a)
    requires Readable(LAYOUT, calls[k].va) && calls[k].va <= a < calls[k].va + calls[k].n
    ensures |Answers(flat, calls)| == |calls| && Answers(flat, calls)[k].Got?
    ensures var got := Answers(flat, calls)[k].bytes;
            |got| == calls[k].n && got[a - calls[k].va] == calls[j].bytes[a - calls[j].va]
  {
    AnswerAt(flat, calls, k, spread, maxPid);
    LastStored(flat, calls[..k], j, a, spread, maxPid);
  }

  /** Every process sees its flat memory. */
  ghost predicate Shows(m: Store, spread: nat, flat: Flat)
    requires Spread(spread)
  {
    forall p: Pid, a: nat {:trigger ByteAt(m, spread, p, a)} :: ByteAt(m, spread, p, a) == FlatByte(flat, p, a)
  }

  lemma ShowsSame(m: Store, n: Store, spread: nat, flat: Flat)
    requires Spread(spread) && Shows(m, spread, flat) && SameData(m, n)
    ensures Shows(n, spread, flat)
  {
    SameBytes(m, n, spread);
  }

  lemma AfterSave(flat: Flat, c: Call, p: Pid, a: nat)
    requires c.Save? && c.p in flat && Writable(LAYOUT, c.va)
    ensures FlatByte(After(flat, c), p, a) ==
            if p == c.p && c.va <= a < c.va + |c.bytes| then c.bytes[a - c.va] else FlatByte(flat, p, a)
  {
  }

  lemma ShowsSaved(m: Store, n: Store, spread: nat, flat: Flat, c: Call)
    requires Spread(spread) && Shows(m, spread, flat) && c.Save? && c.p in flat && Writable(LAYOUT, c.va)
    requires Stored(spread, m, n, c.p, c.va, c.bytes)
    ensures Shows(n, spread, After(flat, c))
  {
    forall p: Pid, a: nat
      ensures ByteAt(n, spread, p, a) == FlatByte(After(flat, c), p, a)
    {
      hide After, FlatByte, ByteAt, Writable;
      AfterSave(flat, c, p, a);
      assert ByteAt(m, spread, p, a) == FlatByte(flat, p, a);
    }
  }

  lemma ShowsAdded(m: Store, n: Store, spread: nat, flat: Flat, p: Pid)
    requires Spread(spread) && Shows(m, spread, flat) && SameData(m, n) && p !in flat
    ensures Shows(n, spread, After(flat, Add(p)))
  {
    ShowsSame(m, n, spread, flat);
    forall q: Pid, a: nat
      ensures ByteAt(n, spread, q, a) == FlatByte(After(flat, Add(p)), q, a)
    {
      assert ByteAt(n, spread, q, a) == FlatByte(flat, q, a);
    }
  }

  lemma ShowsRemoved(m: Store, n: Store, spread: nat, flat: Flat, p: Pid)
    requires Spread(spread) && Inv(m) && Shows(m, spread, flat) && n == WithoutProcess(m, p)
    ensures Shows(n, spread, After(flat, Remove(p)))
  {
    ProcessRemoved(m, n, p);
    forall q: Pid, a: nat
      ensures ByteAt(n, spread, q, a) == FlatByte(After(flat, Remove(p)), q, a)
    {
      assert ByteAt(m, spread, q, a) == FlatByte(flat, q, a);
    }
  }

  /** The unit's state stands for this flat memory. */
  ghost predicate Represents(mmu: Mmu, flat: Flat)
    reads mmu
  {
    && mmu.Valid()
    && mmu.segmentations.Keys == flat.Keys
    && (forall p | p in mmu.segmentations :: mmu.segmentations[p] == LAYOUT)
    && Shows(mmu.State(), mmu.spread, flat)
  }

  /** Each call answers and acts as on flat memory, whatever the TLB, the tables and the disk hold. */
  method Serve(mmu: Mmu, ghost flat: Flat, c: Call) returns (answer: Answer)
    requires Represents(mmu, flat) && Legal(flat, c, mmu.spread, mmu.maxPid)
    modifies mmu
    ensures answer == Answered(flat, c)
    ensures Represents(mmu, After(flat, c))
  {
    match c
    case Add(p) => answer := ServeAdd(mmu, flat, p);
    case Remove(p) => answer := ServeRemove(mmu, flat, p);
    case Load(p, va, n) => answer := ServeLoad(mmu, flat, p, va, n);
    case Save(p, va, bytes) => answer := ServeSave(mmu, flat, p, va, bytes);
  }

  method ServeAdd(mmu: Mmu, ghost flat: Flat, p: Pid) returns (answer: Answer)
    requires Represents(mmu, flat) && Legal(flat, Add(p), mmu.spread, mmu.maxPid)
    modifies mmu
    ensures answer == Done && Represents(mmu, After(flat, Add(p)))
  {
    hide Inv, Shows, SameData, ByteAt, CacheOk;
    ghost var m := mmu.State();
    mmu.AddProcess(p);
    ShowsAdded(m, mmu.State(), mmu.spread, flat, p);
    answer := Done;
  }

  method ServeRemove(mmu: Mmu, ghost flat: Flat, p: Pid) returns (answer: Answer)
    requires Represents(mmu, flat)
    modifies mmu
    ensures answer == Done && Represents(mmu, After(flat, Remove(p)))
  {
    hide Inv, Shows, SameData, ByteAt, CacheOk;
    ghost var m := mmu.State();
    mmu.RemoveProcess(p);
    ShowsRemoved(m, mmu.State(), mmu.spread, flat, p);
    answer := Done;
  }

  method ServeLoad(mmu: Mmu, ghost flat: Flat, p: Pid, va: nat, n: nat) returns (answer: Answer)
    requires Represents(mmu, flat) && Legal(flat, Load(p, va, n), mmu.spread, mmu.maxPid)
    modifies mmu
    ensures answer == Answered(flat, Load(p, va, n))
    ensures Represents(mmu, flat)
  {
    var faults := mmu.numSegmentationFaults;
    ghost var m := mmu.State();
    var buffer := new Byte[n];
    mmu.Read(va, p, buffer, n);
    ShowsSame(m, mmu.State(), mmu.spread, flat);
    if mmu.numSegmentationFaults != faults {
      return Fault;
    }
    assert buffer[..] == FlatBytes(flat, p, va, n) by {
      forall k | 0 <= k < n
        ensures buffer[k] == FlatByte(flat, p, va + k)
      {
        assert ByteAt(m, mmu.spread, p, va + k) == FlatByte(flat, p, va + k);
      }
    }
    answer := Got(buffer[..]);
  }

  method ServeSave(mmu: Mmu, ghost flat: Flat, p: Pid, va: nat, bytes: seq<Byte>) returns (answer: Answer)
    requires Represents(mmu, flat) && Legal(flat, Save(p, va, bytes), mmu.spread, mmu.maxPid)
    modifies mmu
    ensures answer == Answered(flat, Save(p, va, bytes))
    ensures Represents(mmu, After(flat, Save(p, va, bytes)))
  {
    hide Touched, PageEntry, Faults, Inv;
    var faults := mmu.numSegmentationFaults;
    var buffer := new Byte[|bytes|](k requires 0 <= k < |bytes| => bytes[k]);
    assert buffer[..|bytes|] == bytes;
    ghost var m := mmu.State();
    mmu.Write(va, p, buffer, |bytes|);
    if Writable(LAYOUT, va) {
      ShowsSaved(m, mmu.State(), mmu.spread, flat, Save(p, va, bytes));
    }
    answer := if mmu.numSegmentationFaults != faults then Fault else Done;
  }

  /** Over a whole run, the answers are those of flat memory. */
  method ServeAll(mmu: Mmu, ghost flat: Flat, calls: seq<Call>) returns (answers: seq<Answer>)
    requires Represents(mmu, flat) && AllLegal(flat, calls, mmu.spread, mmu.maxPid)
    modifies mmu
    ensures answers == Answers(flat, calls)
    ensures Represents(mmu, AfterAll(flat, calls))
    decreases |calls|
  {
    if calls == [] { return []; }
    var first := Serve(mmu, flat, calls[0]);
    var rest := ServeAll(mmu, After(flat, calls[0]), calls[1..]);
    answers := [first] + rest;
  }

  /** A new unit stands for the memory of no process. */
  method Create(spread: nat, maxPid: nat) returns (mmu: Mmu)
    requires Spread(spread)
    ensures fresh(mmu) && mmu.spread == spread && mmu.maxPid == maxPid && Represents(mmu, map[])
  {
    mmu := new Mmu(spread, maxPid);
  }

  /** From its creation on, and for every run of calls, the unit answers as flat memory does. */
  method ServeFromCreation(spread: nat, maxPid: nat, calls: seq<Call>) returns (answers: seq<Answer>)
    requires Spread(spread) && AllLegal(map[], calls, spread, maxPid)
    ensures answers == Answers(map[], calls)
  {
    var mmu := Create(spread, maxPid);
    answers := ServeAll(mmu, map[], calls);
  }
}
