/** Dependency analysis of a makefile: the cycle check with its shared marks, then the build order. */
module Parmake {
  import opened Graphs
  import opened Sequences

  class Make {
    const deps: Adjacency<string>   // dependency_graph
    const targets: seq<string>      // graph_vertices( dependency_graph )
    var valid: set<string>          // the targets whose entry in valid_target is 1
    var visited: set<string>
    var visiting: set<string>
    var order: seq<string>          // the set `order`, in order of insertion
    ghost var path: seq<string>     // the targets whose cycle checks are still open
    ghost var done: seq<string>     // the targets whose cycle checks found nothing, for this root

    constructor (deps: Adjacency<string>, targets: seq<string>)
      requires Closed(deps) && (forall v | v in targets :: v in deps) && (forall v | v in deps :: v in targets)
      ensures this.deps == deps && this.targets == targets
      ensures WellFormed() && valid == {} && order == []
    {
      this.deps, this.targets := deps, targets;
      valid, visited, visiting, order := {}, {}, {}, [];
      path, done := [], [];
    }

    ghost predicate WellFormed() {
      Closed(deps) && (forall v | v in targets :: v in deps) && (forall v | v in deps :: v in targets)
    }

    /** The dependencies between real targets: the vertex "" stands for "build everything". */
    ghost function E(): (r: Edges<string>)
      ensures forall e :: e in r <==> e in EdgesOf(deps) && e.0 != "" && e.1 != ""
    {
      set e | e in EdgesOf(deps) && e.0 != "" && e.1 != ""
    }

    /** The dependencies between unmarked targets: a search goes no further than a marked one. */
    ghost function Unmarked(): (r: Edges<string>)
      reads this
      ensures forall e :: e in r <==> e in E() && e.0 !in valid && e.1 !in valid
    {
      set e | e in E() && e.0 !in valid && e.1 !in valid
    }

    /** Every mark is deserved. */
    ghost predicate MarksReachCycles()
      reads this
    {
      forall v | v in valid :: ReachesCycle(E(), v)
    }

    /**
      `visiting` is the open path and `visited` the finished targets; the unmarked dependencies of an
      unmarked finished target were finished before it.
      */
    ghost predicate Searching()
      reads this
    {
      && WellFormed() && MarksReachCycles()
      && visiting == Elements(path) && visited == Elements(done)
      && visiting <= deps.Keys && visited <= deps.Keys && "" !in visiting
      && (path != [] ==> Path(E(), path))
      && Finished(Unmarked(), done)
    }

    method DfsCycle(target: string) returns (found: bool)
      requires Searching() && target in deps
      requires path != [] && target != "" ==> (path[|path| - 1], target) in E()
      modifies this`valid, this`visited, this`visiting, this`path, this`done
      ensures MarksReachCycles() && old(valid) <= valid
      ensures found ==> target != "" && target in valid && Cyclic(E())
      ensures !found ==>
                && valid == old(valid) && Searching() && path == old(path)
                && old(visited) <= visited && (target == "" || target in valid || target in visited)
      decreases deps.Keys - visited - visiting, 1
    {
      if target in valid { return false; }
      if target == "" { return false; }
      if target in visiting {
        ghost var k :| 0 <= k < |path| && path[k] == target;
        ClosePath(E(), path, k);
        OnCycle(E(), path[k..] + [path[k]]);
        valid := valid + {target};
        return true;
      }
      if target in visited { return false; }
      found := Explore(target);
    }

    /** The search proper, from a target that is neither finished nor on the path. */
    method Explore(target: string) returns (found: bool)
      requires Searching() && target in deps && target != "" && target !in visiting + visited
      requires path != [] ==> (path[|path| - 1], target) in E()
      modifies this`valid, this`visited, this`visiting, this`path, this`done
      ensures MarksReachCycles() && old(valid) <= valid
      ensures found ==> target in valid && Cyclic(E())
      ensures !found ==>
                && valid == old(valid) && Searching() && path == old(path)
                && old(visited) <= visited && target in visited
      decreases deps.Keys - visited - visiting, 0
    {
      hide Finished, ReachesCycle, Cyclic, IsCycle;
      ghost var outer := path;
      visiting := visiting + {target};
      path := path + [target];
      var dependencies := deps[target];
      for i := 0 to |dependencies|
        invariant Searching() && valid == old(valid) && path == outer + [target]
        invariant old(visited) <= visited
        invariant forall j | 0 <= j < i && dependencies[j] != "" :: dependencies[j] in valid + visited
      {
        var neighbor := dependencies[i];
        assert neighbor != "" ==> (target, neighbor) in E();
        var r := DfsCycle(neighbor);
        if r {
          ReachFurther(E(), target, neighbor);
          valid := valid + {target};
          return true;
        }
      }
      FinishedAppend(Unmarked(), done, target);
      visiting := visiting - {target};
      visited := visited + {target};
      path, done := outer, done + [target];
      return false;
    }

    /** The first driver loop: a fresh search from every target, with the marks shared by all of them. */
    method CheckCycles() returns (cycle: bool)
      requires WellFormed() && valid == {}
      modifies this`valid, this`visited, this`visiting, this`path, this`done
      ensures cycle <==> Cyclic(E())
      ensures MarksReachCycles() && (cycle <==> valid != {})
      ensures forall p | IsCycle(E(), p) :: Meets(p, valid)
    {
      hide IsCycle, Cyclic, ReachesCycle;
      cycle := false;
      for i := 0 to |targets|
        invariant MarksReachCycles() && (cycle <==> valid != {})
        invariant cycle ==> Cyclic(E())
        invariant forall j, p | 0 <= j < i && IsCycle(E(), p) && p != [] && p[0] == targets[j] :: Meets(p, valid)
      {
        var r := CheckFrom(targets[i]);
        if r { cycle := true; }
      }
      forall p | IsCycle(E(), p)
        ensures Meets(p, valid)
      {
        CycleHasEdge(E(), p);
        assert p[0] in targets;
      }
      NoneMet(E(), valid);
    }

    /** One turn of it. */
    method CheckFrom(target: string) returns (r: bool)
      requires WellFormed() && MarksReachCycles() && target in deps
      modifies this`valid, this`visited, this`visiting, this`path, this`done
      ensures MarksReachCycles() && old(valid) <= valid
      ensures if r then valid != {} && Cyclic(E()) else valid == old(valid)
      ensures forall p | IsCycle(E(), p) && p[0] == target :: Meets(p, valid)
    {
      visited, visiting := {}, {};
      path, done := [], [];
      r := DfsCycle(target);
      forall p | IsCycle(E(), p) && p[0] == target
        ensures Meets(p, valid)
      {
        CycleCaught(target, r, p);
      }
    }

    /** A search leaves no unmarked cycle through the target that it starts from. */
    lemma CycleCaught(target: string, r: bool, p: seq<string>)
      requires WellFormed() && IsCycle(E(), p) && p[0] == target && (r ==> target in valid)
      requires !r ==> Searching() && (target == "" || target in valid || target in visited)
      ensures Meets(p, valid)
    {
      CycleHasEdge(E(), p);
      if !Meets(p, valid) {
        forall i, j | 0 <= i && j == i + 1 && j < |p|
          ensures (p[i], p[j]) in Unmarked()
        {
          assert p[i] in p && p[j] in p && (p[i], p[j]) in E();
        }
        FinishedAvoidsCycles(Unmarked(), done, p);
      }
    }

    /** Every listed target comes after its dependencies and is listed once. */
    ghost predicate Ordered()
      reads this
    {
      Distinct(order) && Finished(E(), order) && forall v | v in order :: v in deps && v != ""
    }

    /** Only acyclicity makes this walk end: a target is marked after its dependencies, not before. */
    method DfsTopologicalOrder(target: string, ghost outer: seq<string>)
      requires WellFormed() && Ordered() && target in deps && !Cyclic(E())
      requires outer == [] || Path(E(), outer)
      requires outer != [] && target != "" ==> (outer[|outer| - 1], target) in E()
      requires |outer| <= |deps|
      modifies this`order
      ensures Ordered() && old(order) <= order
      ensures target == "" || target in order
      decreases |deps| + 1 - |outer|, target != ""
    {
      if target == "" { return; }
      if target in order { return; }
      var neighbors := deps[target];
      ghost var here := outer + [target];
      PathFits(here);
      for i := 0 to |neighbors|
        invariant Ordered() && old(order) <= order
        invariant forall j | 0 <= j < i && neighbors[j] != "" :: neighbors[j] in order
      {
        assert neighbors[i] != "" ==> (target, neighbors[i]) in E();
        DfsTopologicalOrder(neighbors[i], here);
      }
      if target !in order {   // what set_add does
        FinishedAppend(E(), order, target);
        order := order + [target];
      }
    }

    lemma PathFits(p: seq<string>)
      requires WellFormed() && !Cyclic(E()) && Path(E(), p) && p[|p| - 1] in deps
      ensures |p| <= |deps|
    {
      AcyclicDistinct(E(), p);
      forall v | v in p
        ensures v in deps.Keys
      {
        var i :| 0 <= i < |p| && p[i] == v;
        if i + 1 < |p| { assert (p[i], p[i + 1]) in E(); }
      }
      DistinctBound(p, deps.Keys);
    }

    /** The second driver loop. */
    method BuildOrder()
      requires WellFormed() && !Cyclic(E()) && order == []
      modifies this`order
      ensures Ordered() && Elements(order) == deps.Keys - {""}
    {
      for i := 0 to |targets|
        invariant Ordered()
        invariant forall j | 0 <= j < i && targets[j] != "" :: targets[j] in order
      {
        DfsTopologicalOrder(targets[i], []);
      }
    }

    /** Either a cycle is reported, or every target is listed exactly once, after its dependencies. */
    method Analyse() returns (cycle: bool)
      requires WellFormed() && valid == {} && order == []
      modifies this
      ensures cycle <==> Cyclic(E())
      ensures MarksReachCycles() && (forall p | IsCycle(E(), p) :: Meets(p, valid))
      ensures !cycle ==> Distinct(order) && Elements(order) == deps.Keys - {""} && Finished(E(), order)
    {
      cycle := CheckCycles();
      if !cycle {
        BuildOrder();
      }
    }
  }

  /** Some target of p is marked. */
  ghost predicate Meets(p: seq<string>, valid: set<string>) {
    exists v :: v in p && v in valid
  }

  lemma NoneMet(E: Edges<string>, valid: set<string>)
    requires forall p | IsCycle(E, p) :: Meets(p, valid)
    ensures valid == {} ==> !Cyclic(E)
  {
  }

  lemma OnCycle(E: Edges<string>, c: seq<string>)
    requires IsCycle(E, c)
    ensures ReachesCycle(E, c[0])
  {
    var p := [c[0]];
    assert Path(E, p);
  }

  lemma ReachFurther(E: Edges<string>, u: string, v: string)
    requires (u, v) in E && ReachesCycle(E, v)
    ensures ReachesCycle(E, u)
  {
    var p, c :| Path(E, p) && p[0] == v && IsCycle(E, c) && p[|p| - 1] == c[0];
    var q := [u] + p;
    forall i, j | 0 <= i && j == i + 1 && j < |q|
      ensures (q[i], q[j]) in E
    {
      if i > 0 { assert (p[i - 1], p[j - 1]) in E; }
    }
    assert Path(E, q) && q[0] == u && q[|q| - 1] == c[0];
  }
}
