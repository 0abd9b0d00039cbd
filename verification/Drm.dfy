/** The deadlock-avoiding resource manager as a protocol of interleaved steps. */
module Drm {
  import opened Graphs
  import opened CycleFinders
  import opened Options
  import opened Runs

  /** A vertex of the allocation graph: a thread or a drm. */
  datatype Node = T(t: nat) | D(d: nat)

  // ---- what the three critical sections do to the allocation graph ----

  /** A request edge, kept only when it closes no cycle; none for a thread that owns the drm. */
  ghost function Request(E: Edges<Node>, t: nat, d: nat): Edges<Node> {
    if (D(d), T(t)) in E then E
    else if Cyclic(E + {(T(t), D(d))}) then E - {(T(t), D(d))}
    else E + {(T(t), D(d))}
  }

  /** The request edge turned into an owner edge. */
  ghost function Grant(E: Edges<Node>, t: nat, d: nat): Edges<Node> {
    E - {(T(t), D(d))} + {(D(d), T(t))}
  }

  ghost function Release(E: Edges<Node>, t: nat, d: nat): Edges<Node> {
    E - {(D(d), T(t))}
  }

  /** The global graph `g`, with its vertices and adjacency vectors. */
  class AllocationGraph {
    var vertices: seq<Node>
    var adj: Adjacency<Node>

    ghost predicate Valid()
      reads this
    {
      Closed(adj) && (forall v | v in adj :: v in vertices) && (forall v | v in vertices :: v in adj)
    }

    ghost function E(): Edges<Node>
      reads this
    {
      EdgesOf(adj)
    }

    constructor ()
      ensures Valid() && E() == {}
    {
      vertices, adj := [], map[];
    }

    method AddVertex(v: Node)
      requires Valid()
      modifies this
      ensures Valid() && v in adj && adj.Keys == old(adj.Keys) + {v} && E() == old(E())
    {
      if v !in adj {
        vertices := vertices + [v];
        adj := adj[v := []];
      }
    }

    method AddEdge(u: Node, v: Node)
      requires Valid() && u in adj && v in adj
      modifies this`adj
      ensures Valid() && adj.Keys == old(adj.Keys) && E() == old(E()) + {(u, v)}
    {
      adj := adj[u := adj[u] + [v]];
    }

    method RemoveEdge(u: Node, v: Node)
      requires Valid() && u in adj
      modifies this`adj
      ensures Valid() && adj.Keys == old(adj.Keys) && E() == old(E()) - {(u, v)}
    {
      var kept: seq<Node> := [];
      for i := 0 to |adj[u]|
        invariant forall w :: w in kept <==> w in adj[u][..i] && w != v
      {
        assert adj[u][..i + 1] == adj[u][..i] + [adj[u][i]];
        if adj[u][i] != v { kept := kept + [adj[u][i]]; }
      }
      assert adj[u][..|adj[u]|] == adj[u];
      adj := adj[u := kept];
    }

    /** The first critical section of a wait: `queued` says whether the thread may go for the mutex. */
    method TryRequest(t: nat, d: nat) returns (queued: bool)
      requires Valid() && D(d) in adj
      modifies this
      ensures Valid() && adj.Keys == old(adj.Keys) + {T(t)}
      ensures E() == Request(old(E()), t, d)
      ensures queued <==> (D(d), T(t)) !in old(E()) && !Cyclic(old(E()) + {(T(t), D(d))})
    {
      AddVertex(T(t));
      if T(t) in adj[D(d)] {
        return false;
      }
      AddEdge(T(t), D(d));
      var finder := new CycleFinder(adj, vertices);
      var cyclic := finder.IsCyclic();
      if cyclic {
        RemoveEdge(T(t), D(d));
        return false;
      }
      return true;
    }

    /** The second critical section of a wait, entered holding the drm's mutex. */
    method TakeOwnership(t: nat, d: nat)
      requires Valid() && T(t) in adj && D(d) in adj
      modifies this`adj
      ensures Valid() && E() == Grant(old(E()), t, d)
    {
      RemoveEdge(T(t), D(d));
      AddEdge(D(d), T(t));
    }

    /** The critical section of a post: `released` says whether the thread owned the drm. */
    method GiveUp(t: nat, d: nat) returns (released: bool)
      requires Valid() && D(d) in adj
      modifies this`adj
      ensures Valid() && E() == Release(old(E()), t, d)
      ensures released <==> (D(d), T(t)) in old(E())
    {
      if T(t) !in adj[D(d)] {
        return false;
      }
      RemoveEdge(D(d), T(t));
      return true;
    }
  }

  // ---- the protocol ----

  /** Where a thread is: between calls, or inside drm_wait or drm_post on one drm. */
  datatype Pc =
    | Idle
    | AtWait(d: nat)     // about to lock the global mutex
    | Checking(d: nat)   // holds it, about to add its request
    | Queued(d: nat)     // has let it go, about to lock the drm's mutex
    | Grabbed(d: nat)    // holds the drm's mutex, about to lock the global one
    | Granting(d: nat)   // holds both
    | AtPost(d: nat)
    | Posting(d: nat)

  /** `mutex` maps each locked drm to the thread that holds its mutex. */
  datatype State = State(edges: Edges<Node>, mutex: map<nat, nat>, global: Option<nat>, pc: map<nat, Pc>)

  datatype Step =
    | CallWait(t: nat, d: nat)
    | CallPost(t: nat, d: nat)
    | EnterWait(t: nat)
    | Check(t: nat)
    | Grab(t: nat)
    | Reenter(t: nat)
    | Own(t: nat)
    | EnterPost(t: nat)
    | Post(t: nat)

  ghost predicate Enabled(s: State, step: Step) {
    && step.t in s.pc
    && var pc := s.pc[step.t];
       match step
       case CallWait(_, _) => pc.Idle?
       case CallPost(_, _) => pc.Idle?
       case EnterWait(_) => pc.AtWait? && s.global.None?
       case Check(_) => pc.Checking?
       case Grab(_) => pc.Queued? && pc.d !in s.mutex
       case Reenter(_) => pc.Grabbed? && s.global.None?
       case Own(_) => pc.Granting?
       case EnterPost(_) => pc.AtPost? && s.global.None?
       case Post(_) => pc.Posting?
  }

  ghost function Apply(s: State, step: Step): State
    requires Enabled(s, step)
  {
    var t := step.t;
    match step
    case CallWait(_, d) => s.(pc := s.pc[t := AtWait(d)])
    case CallPost(_, d) => s.(pc := s.pc[t := AtPost(d)])
    case EnterWait(_) => s.(global := Some(t), pc := s.pc[t := Checking(s.pc[t].d)])
    case Check(_) =>
      var d := s.pc[t].d;
      var queued := (D(d), T(t)) !in s.edges && !Cyclic(s.edges + {(T(t), D(d))});
      s.(edges := Request(s.edges, t, d), global := None, pc := s.pc[t := if queued then Queued(d) else Idle])
    case Grab(_) => s.(mutex := s.mutex[s.pc[t].d := t], pc := s.pc[t := Grabbed(s.pc[t].d)])
    case Reenter(_) => s.(global := Some(t), pc := s.pc[t := Granting(s.pc[t].d)])
    case Own(_) => s.(edges := Grant(s.edges, t, s.pc[t].d), global := None, pc := s.pc[t := Idle])
    case EnterPost(_) => s.(global := Some(t), pc := s.pc[t := Posting(s.pc[t].d)])
    case Post(_) =>
      var d := s.pc[t].d;
      if (D(d), T(t)) in s.edges then
        s.(edges := Release(s.edges, t, d), mutex := s.mutex - {d}, global := None, pc := s.pc[t := Idle])
      else s.(global := None, pc := s.pc[t := Idle])
  }

  ghost function Start(threads: set<nat>): State {
    State({}, map[], None, map t | t in threads :: Idle)
  }

  /** The thread's request for d is in the graph. */
  predicate Requesting(pc: Pc, d: nat) {
    pc == Queued(d) || pc == Grabbed(d) || pc == Granting(d)
  }

  /** Edges run between drms and known threads. */
  ghost predicate Bipartite(s: State) {
    forall e | e in s.edges :: (e.0.T? && e.1.D? && e.0.t in s.pc) || (e.0.D? && e.1.T? && e.1.t in s.pc)
  }

  /** A thread's request edges are those its position in drm_wait says. */
  ghost predicate Requests(s: State) {
    forall t, d {:trigger (T(t), D(d)) in s.edges} {:trigger Requesting(s.pc[t], d)} | t in s.pc ::
      (T(t), D(d)) in s.edges <==> Requesting(s.pc[t], d)
  }

  /** A drm's mutex is held by the thread that owns the drm, or by one between its lock and its grant. */
  ghost predicate Owners(s: State) {
    && (forall d | d in s.mutex :: s.mutex[d] in s.pc)
    && (forall t, d {:trigger Holds(s.mutex, d, t)} {:trigger (D(d), T(t)) in s.edges} {:trigger Taking(s.pc[t], d)}
          | t in s.pc :: Holds(s.mutex, d, t) <==> (D(d), T(t)) in s.edges || Taking(s.pc[t], d))
    && (forall t, d {:trigger (D(d), T(t)) in s.edges} {:trigger Taking(s.pc[t], d)}
          | t in s.pc && (D(d), T(t)) in s.edges :: !Taking(s.pc[t], d))
  }

  predicate Holds(mutex: map<nat, nat>, d: nat, t: nat) {
    d in mutex && mutex[d] == t
  }

  predicate Taking(pc: Pc, d: nat) {
    pc == Grabbed(d) || pc == Granting(d)
  }

  predicate InCriticalSection(pc: Pc) {
    pc.Checking? || pc.Granting? || pc.Posting?
  }

  ghost predicate GlobalHeld(s: State) {
    && (forall t | t in s.pc :: s.global == Some(t) <==> InCriticalSection(s.pc[t]))
    && (s.global.Some? ==> s.global.value in s.pc)
  }

  ghost predicate Inv(s: State) {
    !Cyclic(s.edges) && Bipartite(s) && Requests(s) && Owners(s) && GlobalHeld(s)
  }

  lemma StartInv(threads: set<nat>)
    ensures Inv(Start(threads))
  {
    forall p
      ensures !IsCycle<Node>({}, p)
    {
      if IsCycle<Node>({}, p) {
        CycleHasEdge<Node>({}, p);
      }
    }
  }

  /** Every step keeps the invariant. */
  lemma StepInv(s: State, step: Step)
    requires Inv(s) && Enabled(s, step)
    ensures Inv(Apply(s, step))
  {
    match step
    case CallWait(_, d) =>
    case CallPost(_, d) =>
    case EnterWait(_) =>
    case Check(t) => CheckInv(s, t);
    case Grab(t) => GrabInv(s, t);
    case Reenter(t) => ReenterInv(s, t);
    case Own(t) => OwnInv(s, t);
    case EnterPost(_) =>
    case Post(t) => PostInv(s, t);
  }

  lemma CheckInv(s: State, t: nat)
    requires Inv(s) && Enabled(s, Check(t))
    ensures Inv(Apply(s, Check(t)))
  {
    var d, s1 := s.pc[t].d, Apply(s, Check(t));
    RequestAcyclic(s.edges, t, d);
    assert (T(t), D(d)) !in s.edges;
    assert forall e | e != (T(t), D(d)) :: e in s1.edges <==> e in s.edges;
    assert Bipartite(s1);
    assert Requests(s1);
    assert Owners(s1);
  }

  lemma GrabInv(s: State, t: nat)
    requires Inv(s) && Enabled(s, Grab(t))
    ensures Inv(Apply(s, Grab(t)))
  {
  }

  lemma ReenterInv(s: State, t: nat)
    requires Inv(s) && Enabled(s, Reenter(t))
    ensures Inv(Apply(s, Reenter(t)))
  {
  }

  lemma OwnInv(s: State, t: nat)
    requires Inv(s) && Enabled(s, Own(t))
    ensures Inv(Apply(s, Own(t)))
  {
    var d, s1 := s.pc[t].d, Apply(s, Own(t));
    GrantAcyclic(s.edges, t, d);
    assert forall e | e != (T(t), D(d)) && e != (D(d), T(t)) :: e in s1.edges <==> e in s.edges;
    assert Bipartite(s1);
    assert Requests(s1);
    assert Owners(s1);
  }

  lemma PostInv(s: State, t: nat)
    requires Inv(s) && Enabled(s, Post(t))
    ensures Inv(Apply(s, Post(t)))
  {
    var d, s1 := s.pc[t].d, Apply(s, Post(t));
    AcyclicSubset(s.edges, Release(s.edges, t, d));
    assert forall e | e != (D(d), T(t)) :: e in s1.edges <==> e in s.edges;
    assert (D(d), T(t)) !in s1.edges;
    assert Bipartite(s1);
    assert Requests(s1);
    assert Owners(s1);
  }

  lemma AcyclicSubset(E: Edges<Node>, F: Edges<Node>)
    requires F <= E && !Cyclic(E)
    ensures !Cyclic(F)
  {
    if Cyclic(F) { CyclicMonotone(F, E); }
  }

  lemma RequestAcyclic(E: Edges<Node>, t: nat, d: nat)
    requires !Cyclic(E)
    ensures !Cyclic(Request(E, t, d))
  {
    AcyclicSubset(E, E - {(T(t), D(d))});
  }

  /** Turning a thread's only request edge round closes no cycle. */
  lemma GrantAcyclic(E: Edges<Node>, t: nat, d: nat)
    requires !Cyclic(E) && forall e | e in E && e.0 == T(t) :: e.1 == D(d)
    ensures !Cyclic(Grant(E, t, d))
  {
    var F := E - {(T(t), D(d))};
    AcyclicSubset(E, F);
    EdgeToSink(F, D(d), T(t));
  }

  // ---- whole runs ----

  ghost function Protocol(): Machine<State, Step> {
    Machine((s: State, step: Step) => Enabled(s, step), (s: State, step: Step) => if Enabled(s, step) then Apply(s, step) else s)
  }

  /** The invariant, with the threads the protocol started with. */
  ghost predicate Reached(s: State, threads: set<nat>) {
    Inv(s) && s.pc.Keys == threads
  }

  lemma EveryRun(threads: set<nat>, steps: seq<Step>)
    requires Legal(Protocol(), Start(threads), steps)
    ensures var s := Run(Protocol(), Start(threads), steps); Inv(s) && s.pc.Keys == threads
  {
    StartInv(threads);
    assert Start(threads).pc.Keys == threads;
    forall s, step | Reached(s, threads) && Enabled(s, step)
      ensures Reached(Apply(s, step), threads)
    {
      StepInv(s, step);
      assert Apply(s, step).pc.Keys == s.pc.Keys;
    }
    RunKeeps(Protocol(), (s: State) => Reached(s, threads), Start(threads), steps);
  }

  /**
    In every reachable state the allocation graph is acyclic, each drm has at most one owner edge,
    each thread at most one request edge, and a drm's mutex is held by exactly the thread that owns
    the drm or is about to.
    */
  lemma ReachableStates(threads: set<nat>, steps: seq<Step>)
    requires Legal(Protocol(), Start(threads), steps)
    ensures var s := Run(Protocol(), Start(threads), steps);
            && !Cyclic(s.edges)
            && (forall d, t, u | (D(d), T(t)) in s.edges && (D(d), T(u)) in s.edges :: t == u)
            && (forall t, d, e | (T(t), D(d)) in s.edges && (T(t), D(e)) in s.edges :: d == e)
            && (forall d, t | t in s.pc ::
                  Holds(s.mutex, d, t) <==> (D(d), T(t)) in s.edges || Taking(s.pc[t], d))
  {
    EveryRun(threads, steps);
    var s := Run(Protocol(), Start(threads), steps);
    forall d, t, u | (D(d), T(t)) in s.edges && (D(d), T(u)) in s.edges
      ensures t == u
    {
      assert t in s.pc && u in s.pc;
    }
    forall t, d, e | (T(t), D(d)) in s.edges && (T(t), D(e)) in s.edges
      ensures d == e
    {
      assert t in s.pc;
    }
  }

  // ---- what the calls achieve ----

  /**
    A thread comes to hold a drm's mutex by its own locking of it alone, and to own the drm by its own
    grant alone; it loses both by its own post of that drm alone.
    */
  lemma OwnStepsOnly(s: State, step: Step, u: nat, d: nat)
    requires Inv(s) && Enabled(s, step) && u in s.pc
    ensures var s1 := Apply(s, step);
            var posted := step == Post(u) && s.pc[u] == Posting(d) && (D(d), T(u)) in s.edges;
            && (Holds(s1.mutex, d, u) <==> (Holds(s.mutex, d, u) && !posted) || (step == Grab(u) && s.pc[u] == Queued(d)))
            && ((D(d), T(u)) in s1.edges <==> ((D(d), T(u)) in s.edges && !posted) || (step == Own(u) && s.pc[u] == Granting(d)))
            && (u != step.t ==> s1.pc[u] == s.pc[u])
  {
    hide Cyclic;
    if step.Post? && (D(s.pc[step.t].d), T(step.t)) in s.edges {
      assert Holds(s.mutex, s.pc[step.t].d, step.t);
    }
  }

  /** A post by a thread that does not own the drm changes nothing; one by its owner unlocks the mutex. */
  lemma PostUnlocksOwn(s: State, t: nat)
    requires Inv(s) && Enabled(s, Post(t))
    ensures var d, s1 := s.pc[t].d, Apply(s, Post(t));
            && s1.global == None && s1.pc == s.pc[t := Idle]
            && (if (D(d), T(t)) in s.edges
                then Holds(s.mutex, d, t) && s1.mutex == s.mutex - {d} && s1.edges == s.edges - {(D(d), T(t))}
                else s1.mutex == s.mutex && s1.edges == s.edges)
  {
  }

  /**
    A wait is refused exactly when the drm already leads to the thread: it owns the drm, or the owner
    waits for a drm that it owns, and so on. A refusal leaves no trace.
    */
  lemma RefusedIff(s: State, t: nat)
    requires Inv(s) && Enabled(s, Check(t))
    ensures var d, s1 := s.pc[t].d, Apply(s, Check(t));
            && (s1.pc[t] == Idle <==> Leads(s.edges, D(d), T(t)))
            && s1.pc[t] in {Idle, Queued(d)}
            && s1.edges == (if s1.pc[t] == Idle then s.edges else s.edges + {(T(t), D(d))})
  {
    var d := s.pc[t].d;
    EdgeClosesIff(s.edges, T(t), D(d));
    assert (T(t), D(d)) !in s.edges;
    if (D(d), T(t)) in s.edges {
      var p := [D(d), T(t)];
      assert Path(s.edges, p) && p[0] == D(d) && p[|p| - 1] == T(t);
    }
  }

  lemma RefusedRun(s: State, t: nat, d: nat)
    requires Inv(s) && t in s.pc && s.pc[t].Idle? && s.global.None? && Leads(s.edges, D(d), T(t))
    ensures var steps := [CallWait(t, d), EnterWait(t), Check(t)];
            Legal(Protocol(), s, steps) && Run(Protocol(), s, steps) == s
  {
    var s1 := Apply(s, CallWait(t, d));
    var s2 := Apply(s1, EnterWait(t));
    StepInv(s, CallWait(t, d));
    StepInv(s1, EnterWait(t));
    RefusedIff(s2, t);
    var s3 := Apply(s2, Check(t));
    assert s3.pc == s.pc;
    assert s3 == s;
    Steps3(s, CallWait(t, d), EnterWait(t), Check(t));
  }

  lemma Steps3(s: State, a: Step, b: Step, c: Step)
    requires Enabled(s, a) && Enabled(Apply(s, a), b) && Enabled(Apply(Apply(s, a), b), c)
    ensures Legal(Protocol(), s, [a, b, c]) && Run(Protocol(), s, [a, b, c]) == Apply(Apply(Apply(s, a), b), c)
  {
    var m, s1 := Protocol(), Apply(s, a);
    var s2 := Apply(s1, b);
    var s3 := Apply(s2, c);
    assert m.apply(s, a) == s1 && m.apply(s1, b) == s2 && m.apply(s2, c) == s3;
    assert [a, b, c][1..] == [b, c] && [b, c][1..] == [c] && [c][1..] == [];
    assert Legal(m, s3, []) && Run(m, s3, []) == s3;
    assert Legal(m, s2, [c]) && Run(m, s2, [c]) == s3;
    assert Legal(m, s1, [b, c]) && Run(m, s1, [b, c]) == s3;
  }

  /** Nothing leads on from a drm whose mutex is free. */
  lemma FreeLeadsNowhere(s: State, t: nat, d: nat)
    requires Inv(s) && d !in s.mutex
    ensures !Leads(s.edges, D(d), T(t))
  {
    forall p: seq<Node> | Path(s.edges, p) && p[0] == D(d)
      ensures p[|p| - 1] != T(t)
    {
      assert |p| > 1 ==> (p[0], p[1]) in s.edges;
    }
  }

  /** A wait for a drm that is free is granted, and changes nothing but who owns that drm. */
  lemma GrantedRun(s: State, t: nat, d: nat)
    requires Inv(s) && t in s.pc && s.pc[t].Idle? && s.global.None? && d !in s.mutex
    ensures var steps := [CallWait(t, d), EnterWait(t), Check(t)] + [Grab(t), Reenter(t), Own(t)];
            && Legal(Protocol(), s, steps)
            && Run(Protocol(), s, steps) == s.(edges := s.edges + {(D(d), T(t))}, mutex := s.mutex[d := t])
  {
    FreeLeadsNowhere(s, t, d);
    var s1 := Apply(s, CallWait(t, d));
    var s2 := Apply(s1, EnterWait(t));
    StepInv(s, CallWait(t, d));
    StepInv(s1, EnterWait(t));
    RefusedIff(s2, t);
    var s3 := Apply(s2, Check(t));
    assert (T(t), D(d)) !in s.edges;
    var s4 := Apply(s3, Grab(t));
    var s5 := Apply(s4, Reenter(t));
    var s6 := Apply(s5, Own(t));
    assert s6.pc == s.pc;
    assert s6.edges == s.edges + {(D(d), T(t))};
    Steps3(s, CallWait(t, d), EnterWait(t), Check(t));
    Steps3(s3, Grab(t), Reenter(t), Own(t));
    RunJoins(Protocol(), s, [CallWait(t, d), EnterWait(t), Check(t)], [Grab(t), Reenter(t), Own(t)]);
  }

  /** A post by the drm's owner frees the drm; one by any other thread changes nothing. */
  lemma PostRun(s: State, t: nat, d: nat)
    requires Inv(s) && t in s.pc && s.pc[t].Idle? && s.global.None?
    ensures var steps := [CallPost(t, d), EnterPost(t), Post(t)];
            && Legal(Protocol(), s, steps)
            && Run(Protocol(), s, steps)
               == if (D(d), T(t)) in s.edges then s.(edges := s.edges - {(D(d), T(t))}, mutex := s.mutex - {d}) else s
  {
    var s1 := Apply(s, CallPost(t, d));
    var s2 := Apply(s1, EnterPost(t));
    StepInv(s, CallPost(t, d));
    StepInv(s1, EnterPost(t));
    PostUnlocksOwn(s2, t);
    var s3 := Apply(s2, Post(t));
    assert s3.pc == s.pc;
    Steps3(s, CallPost(t, d), EnterPost(t), Post(t));
  }

  // ---- no deadlock ----

  ghost predicate Blocked(s: State, t: nat) {
    t in s.pc && s.pc[t].Queued? && s.pc[t].d in s.mutex
  }

  /** t is blocked on a drm whose mutex u holds. */
  ghost predicate WaitsFor(s: State, t: nat, u: nat) {
    Blocked(s, t) && s.mutex[s.pc[t].d] == u
  }

  ghost predicate WaitChain(s: State, c: seq<nat>) {
    |c| > 0 && forall i, j {:trigger c[i], c[j]} | 0 <= i && j == i + 1 && j < |c| :: WaitsFor(s, c[i], c[j])
  }

  ghost function Endpoints(E: Edges<Node>): (vs: set<Node>)
    ensures forall e | e in E :: e.0 in vs && e.1 in vs
  {
    (set e | e in E :: e.0) + (set e | e in E :: e.1)
  }

  lemma PathBound(E: Edges<Node>, p: seq<Node>)
    requires !Cyclic(E) && Path(E, p) && |p| >= 2
    ensures |p| <= |Endpoints(E)|
  {
    AcyclicDistinct(E, p);
    forall v | v in p
      ensures v in Endpoints(E)
    {
      var i :| 0 <= i < |p| && p[i] == v;
      if i + 1 < |p| {
        assert (p[i], p[i + 1]) in E;
      } else {
        assert (p[i - 1], p[i]) in E;
      }
    }
    DistinctBound(p, Endpoints(E));
  }

  /** The wait chain of a blocked thread, found by walking a path of the allocation graph with it. */
  lemma {:induction false} FollowWaits(s: State, p: seq<Node>, t: nat) returns (c: seq<nat>)
    requires Inv(s) && Blocked(s, t)
    requires Path(s.edges, p) && p[|p| - 1] == T(t) && (|p| == 1 || |p| <= |Endpoints(s.edges)|)
    ensures WaitChain(s, c) && c[0] == t && |c| >= 2
    ensures c[|c| - 1] in s.pc && !Blocked(s, c[|c| - 1])
    decreases |Endpoints(s.edges)| + 1 - |p|
  {
    hide Cyclic, Bipartite, GlobalHeld, Endpoints;
    var d := s.pc[t].d;
    var u := s.mutex[d];
    if !Blocked(s, u) {
      c := [t, u];
    } else {
      var q := p + [D(d), T(u)];
      assert (T(t), D(d)) in s.edges && (D(d), T(u)) in s.edges;
      forall i, j | 0 <= i && j == i + 1 && j < |q|
        ensures (q[i], q[j]) in s.edges
      {
        if j < |p| { assert (p[i], p[j]) in s.edges; }
      }
      PathBound(s.edges, q);
      var rest := FollowWaits(s, q, u);
      c := [t] + rest;
      forall i, j | 0 <= i && j == i + 1 && j < |c|
        ensures WaitsFor(s, c[i], c[j])
      {
        if i > 0 { assert WaitsFor(s, rest[i - 1], rest[j - 1]); }
      }
    }
  }

  /** From any blocked thread the chain of waits leads to a thread that is not blocked on any drm. */
  lemma NoCircularWait(threads: set<nat>, steps: seq<Step>, t: nat)
    requires Legal(Protocol(), Start(threads), steps) && Blocked(Run(Protocol(), Start(threads), steps), t)
    ensures var s := Run(Protocol(), Start(threads), steps);
            exists c :: WaitChain(s, c) && c[0] == t && c[|c| - 1] in s.pc && !Blocked(s, c[|c| - 1])
  {
    EveryRun(threads, steps);
    var s := Run(Protocol(), Start(threads), steps);
    var c := FollowWaits(s, [T(t)], t);
  }

  predicate IsCall(step: Step) {
    step.CallWait? || step.CallPost?
  }

  /** While some thread is inside a call and not blocked, a step of some call is enabled. */
  lemma CallsProgress(s: State, t: nat) returns (step: Step)
    requires Inv(s) && t in s.pc && !s.pc[t].Idle? && !Blocked(s, t)
    ensures Enabled(s, step) && !IsCall(step)
  {
    var u := if s.global.Some? then s.global.value else t;
    match s.pc[u]
    case AtWait(_) => step := EnterWait(u);
    case Checking(_) => step := Check(u);
    case Queued(_) => step := Grab(u);
    case Grabbed(_) => step := Reenter(u);
    case Granting(_) => step := Own(u);
    case AtPost(_) => step := EnterPost(u);
    case Posting(_) => step := Post(u);
  }

  /** When every thread is inside a call, in any reachable state, one of the calls can go on: no deadlock. */
  lemma NoDeadlock(threads: set<nat>, steps: seq<Step>) returns (step: Step)
    requires threads != {} && Legal(Protocol(), Start(threads), steps)
    requires var s := Run(Protocol(), Start(threads), steps); forall t | t in s.pc :: !s.pc[t].Idle?
    ensures Enabled(Run(Protocol(), Start(threads), steps), step) && !IsCall(step)
  {
    EveryRun(threads, steps);
    var s := Run(Protocol(), Start(threads), steps);
    var t :| t in threads;
    if Blocked(s, t) {
      var c := FollowWaits(s, [T(t)], t);
      step := CallsProgress(s, c[|c| - 1]);
    } else {
      step := CallsProgress(s, t);
    }
  }
}
