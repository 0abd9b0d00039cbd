/** The blocking queue: a linked list under a monitor. */
module BoundedQueue {
  import opened Monitor
  import opened Runs

  datatype Op<X> = Push(x: X) | Pull

  /** A push waits while the queue is at its limit, if it has one; a pull while the queue is empty. */
  function QueueSpec<X>(max: int): Spec<seq<X>, Op<X>> {
    Spec([], (c: seq<X>, op: Op<X>) => Guard(max, c, op), (c: seq<X>, op: Op<X>) => Effect(c, op))
  }

  predicate Guard<X>(max: int, c: seq<X>, op: Op<X>) {
    match op
    case Push(_) => !(max > 0 && |c| == max)
    case Pull => |c| != 0
  }

  function Effect<X>(c: seq<X>, op: Op<X>): seq<X> {
    match op
    case Push(x) => c + [x]
    case Pull => if c == [] then [] else c[1..]
  }

  // ---- the linked list ----

  class QueueNode<X> {
    var data: X
    var next: QueueNode?<X>

    constructor (data: X)
      ensures this.data == data && next == null
    {
      this.data, next := data, null;
    }
  }

  class Queue<X> {
    var head: QueueNode?<X>
    var tail: QueueNode?<X>
    var size: int
    const maxSize: int
    ghost var nodes: seq<QueueNode<X>>

    /** The chain from `head` is `nodes`; `tail` matters only while the queue is not empty. */
    ghost predicate Valid()
      reads this, nodes
    {
      && size == |nodes| && (maxSize > 0 ==> size <= maxSize)
      && (forall i, j | 0 <= i < j < |nodes| :: nodes[i] != nodes[j])
      && head == (if nodes == [] then null else nodes[0])
      && (nodes != [] ==> tail == nodes[|nodes| - 1] && tail.next == null)
      && forall i, j {:trigger nodes[i], nodes[j]} | 0 <= i && j == i + 1 && j < |nodes| :: nodes[i].next == nodes[j]
    }

    ghost function Contents(): (c: seq<X>)
      reads this, nodes
    {
      seq(|nodes|, i requires 0 <= i < |nodes| reads this, nodes => nodes[i].data)
    }

    constructor (maxSize: int)
      ensures Valid() && Contents() == [] && this.maxSize == maxSize
    {
      this.maxSize := maxSize;
      head, tail, size := null, null, 0;
      nodes := [];
    }

    /** What a push does once it need not wait. */
    method Push(data: X)
      requires Valid() && Guard(maxSize, Contents(), Op.Push(data))
      modifies this, nodes
      ensures Valid() && Contents() == Effect(old(Contents()), Op.Push(data))
      ensures fresh(set n | n in nodes && n !in old(nodes))
    {
      var insert := new QueueNode(data);
      if head == null {
        head := insert;
        tail := insert;
      } else {
        tail.next := insert;
        tail := insert;
      }
      size := size + 1;
      nodes := nodes + [insert];
    }

    /** What a pull does once it need not wait; `tail` is left as it is, even on emptying. */
    method Pull() returns (data: X)
      requires Valid() && Guard(maxSize, Contents(), Op<X>.Pull)
      modifies this
      ensures Valid() && data == old(Contents()[0])
      ensures Contents() == Effect(old(Contents()), Op.Pull)
      ensures tail == old(tail) && nodes == old(nodes[1..])
    {
      var cur := head;
      data := cur.data;
      assert |nodes| > 1 ==> nodes[0].next == nodes[1];
      head := cur.next;
      size := size - 1;
      nodes := nodes[1..];
    }
  }

  // ---- what a run transfers ----

  function Pushed<X>(log: seq<(nat, Op<X>)>): seq<X> {
    if log == [] then [] else
      var (op, before) := (log[|log| - 1].1, Pushed(log[..|log| - 1]));
      if op.Push? then before + [op.x] else before
  }

  /** What the pulls returned. */
  function Pulled<X>(max: int, log: seq<(nat, Op<X>)>): seq<X> {
    if log == [] then [] else
      var (op, before) := (log[|log| - 1].1, Pulled(max, log[..|log| - 1]));
      var c := After(QueueSpec(max), log[..|log| - 1]);
      if op.Pull? && c != [] then before + [c[0]] else before
  }

  lemma {:induction false} Transfer<X>(max: int, log: seq<(nat, Op<X>)>)
    requires Served(QueueSpec(max), log)
    ensures Pulled(max, log) + After(QueueSpec(max), log) == Pushed(log)
    ensures max > 0 ==> |After(QueueSpec(max), log)| <= max
    decreases |log|
  {
    if log == [] {
    } else {
      var before := log[..|log| - 1];
      Transfer(max, before);
      var c := After(QueueSpec(max), before);
      var op := log[|log| - 1].1;
      assert Guard(max, c, op);
      assert After(QueueSpec(max), log) == Effect(c, op);
      if op.Pull? {
        assert Pulled(max, before) + c == Pulled(max, before) + [c[0]] + c[1..];
      } else {
        assert Pulled(max, before) + (c + [op.x]) == Pulled(max, before) + c + [op.x];
      }
    }
  }

  /**
    In every interleaving: nothing is lost, duplicated or reordered, the bound holds, and a thread
    sleeps in a push only while the queue is full, in a pull only while it is empty.
    */
  lemma EveryQueueRun<X>(max: int, threads: set<nat>, steps: seq<Step<Op<X>>>)
    requires Legal(Protocol(QueueSpec(max)), Start(QueueSpec(max), threads), steps)
    ensures var s := Run(Protocol(QueueSpec(max)), Start(QueueSpec(max), threads), steps);
            && Pulled(max, s.log) + s.shared == Pushed(s.log)
            && (max > 0 ==> |s.shared| <= max)
            && (forall t | t in s.pc && s.pc[t].Asleep? ::
                  if s.pc[t].op.Push? then max > 0 && |s.shared| == max else s.shared == [])
  {
    var spec := QueueSpec(max);
    EveryRun(spec, threads, steps);
    var s := Run(Protocol(spec), Start(spec, threads), steps);
    Transfer(max, s.log);
    forall t | t in s.pc && s.pc[t].Asleep?
      ensures if s.pc[t].op.Push? then max > 0 && |s.shared| == max else s.shared == []
    {
      assert !Guard(max, s.shared, s.pc[t].op);
    }
  }

  /** A pusher and a puller are never asleep at the same time. */
  lemma NotBothAsleep<X>(max: int, threads: set<nat>, steps: seq<Step<Op<X>>>, t: nat, u: nat)
    requires Legal(Protocol(QueueSpec(max)), Start(QueueSpec(max), threads), steps)
    ensures var s := Run(Protocol(QueueSpec(max)), Start(QueueSpec(max), threads), steps);
            !(t in s.pc && s.pc[t].Asleep? && s.pc[t].op.Push? && u in s.pc && s.pc[u].Asleep? && s.pc[u].op.Pull?)
  {
    EveryQueueRun(max, threads, steps);
  }

  /**
    The operations of a run, carried out on the linked list one after the other in the order in which
    they took effect: the list ends with the contents that the run shares, and the pulls return what
    the run's pulls returned.
    */
  method Replay<X>(max: int, log: seq<(nat, Op<X>)>) returns (q: Queue<X>, pulled: seq<X>)
    requires Served(QueueSpec(max), log)
    ensures fresh(q) && fresh(set n | n in q.nodes) && q.Valid() && q.maxSize == max
    ensures q.Contents() == After(QueueSpec(max), log) && pulled == Pulled(max, log)
    decreases |log|
  {
    if log == [] {
      q := new Queue(max);
      return q, [];
    }
    ghost var before := After(QueueSpec(max), log[..|log| - 1]);
    q, pulled := Replay(max, log[..|log| - 1]);
    var op := log[|log| - 1].1;
    assert Guard(max, before, op) && After(QueueSpec(max), log) == Effect(before, op);
    match op {
      case Push(x) => q.Push(x);
      case Pull =>
        var x := q.Pull();
        pulled := pulled + [x];
    }
  }
}
