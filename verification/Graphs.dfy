/** Directed graphs as edge sets, and as the adjacency vectors that the programs walk. */
module Graphs {
  import opened Sequences

  type Edges<!V(==)> = set<(V, V)>

  ghost predicate Path<V>(E: Edges<V>, p: seq<V>) {
    |p| > 0 && forall i, j {:trigger p[i], p[j]} | 0 <= i && j == i + 1 && j < |p| :: (p[i], p[j]) in E
  }

  ghost predicate IsCycle<V>(E: Edges<V>, p: seq<V>) {
    |p| >= 2 && Path(E, p) && p[0] == p[|p| - 1]
  }

  ghost predicate Cyclic<V(!new)>(E: Edges<V>) {
    exists p :: IsCycle(E, p)
  }

  ghost predicate ReachesCycle<V(!new)>(E: Edges<V>, v: V) {
    exists p, c :: Path(E, p) && p[0] == v && IsCycle(E, c) && p[|p| - 1] == c[0]
  }

  /** Every edge leaving a listed vertex leads to one listed earlier. */
  ghost predicate Finished<V>(E: Edges<V>, order: seq<V>) {
    forall i, e | 0 <= i < |order| && e in E && e.0 == order[i] :: e.1 in order[..i]
  }

  ghost function Elements<V>(s: seq<V>): set<V> {
    set v | v in s
  }

  lemma FinishedAppend<V>(E: Edges<V>, order: seq<V>, v: V)
    requires Finished(E, order)
    requires forall e | e in E && e.0 == v :: e.1 in order
    ensures Finished(E, order + [v])
  {
    var next := order + [v];
    forall i, e | 0 <= i < |next| && e in E && e.0 == next[i]
      ensures e.1 in next[..i]
    {
      if i < |order| {
        assert next[i] == order[i] && next[..i] == order[..i];
      } else {
        assert next[..i] == order;
      }
    }
  }

  /** Along a path that starts in a finished order the positions strictly decrease. */
  lemma {:induction false} Descends<V>(E: Edges<V>, order: seq<V>, p: seq<V>, i: nat, k: nat)
    requires Finished(E, order) && Path(E, p) && i < |order| && order[i] == p[0] && k < |p|
    ensures k <= i && p[k] in order[..i + 1 - k]
  {
    if k == 0 {
      assert order[..i + 1][i] == p[0];
    } else {
      Descends(E, order, p, i, k - 1);
      var j :| 0 <= j < i + 2 - k && order[j] == p[k - 1];
      assert (p[k - 1], p[k]) in E;
      assert p[k] in order[..j];
    }
  }

  /** No cycle passes through a finished order. */
  lemma {:induction false} FinishedAvoidsCycles<V>(E: Edges<V>, order: seq<V>, p: seq<V>)
    requires Finished(E, order) && IsCycle(E, p)
    ensures p[0] !in order
  {
    if p[0] in order {
      var i :| 0 <= i < |order| && order[i] == p[0];
      NoCycleAt(E, order, p, i);
    }
  }

  lemma {:induction false} NoCycleAt<V>(E: Edges<V>, order: seq<V>, p: seq<V>, i: nat)
    requires Finished(E, order) && IsCycle(E, p)
    requires i < |order|
    ensures order[i] != p[0]
    decreases i
  {
    if order[i] == p[0] {
      var k := |p| - 1;
      Descends(E, order, p, i, k);
      var j :| 0 <= j < i + 1 - k && order[j] == p[k];
      NoCycleAt(E, order, p, j);
    }
  }

  lemma CycleHasEdge<V(!new)>(E: Edges<V>, p: seq<V>)
    requires IsCycle(E, p)
    ensures |p| >= 2 && (p[0], p[1]) in E
  {
  }

  /** A path that meets a vertex twice holds a cycle. */
  lemma RepeatIsCycle<V(!new)>(E: Edges<V>, p: seq<V>, i: nat, j: nat)
    requires Path(E, p) && i < j < |p| && p[i] == p[j]
    ensures IsCycle(E, p[i..j + 1])
  {
    var q := p[i..j + 1];
    forall k, l | 0 <= k && l == k + 1 && l < |q|
      ensures (q[k], q[l]) in E
    {
      assert q[k] == p[i + k] && q[l] == p[i + l];
    }
  }

  lemma AcyclicDistinct<V(!new)>(E: Edges<V>, p: seq<V>)
    requires !Cyclic(E) && Path(E, p)
    ensures Distinct(p)
  {
    forall i, j | 0 <= i < j < |p|
      ensures p[i] != p[j]
    {
      if p[i] == p[j] { RepeatIsCycle(E, p, i, j); }
    }
  }

  lemma CyclicMonotone<V(!new)>(E: Edges<V>, F: Edges<V>)
    requires E <= F && Cyclic(E)
    ensures Cyclic(F)
  {
    var p :| IsCycle(E, p);
    assert IsCycle(F, p);
  }

  lemma SinkNotOnCycle<V(!new)>(E: Edges<V>, v: V, p: seq<V>)
    requires IsCycle(E, p) && forall e | e in E :: e.0 != v
    ensures v !in p
  {
    forall i | 0 <= i < |p|
      ensures p[i] != v
    {
      var j := if i < |p| - 1 then i else 0;
      assert p[j] == p[i] && (p[j], p[j + 1]) in E;
    }
  }

  lemma CycleWithoutSink<V(!new)>(E: Edges<V>, u: V, v: V, p: seq<V>)
    requires IsCycle(E + {(u, v)}, p) && u != v
    requires forall e | e in E :: e.0 != v
    ensures IsCycle(E, p)
  {
    var F := E + {(u, v)};
    SinkNotOnCycle(F, v, p);
    forall i, j | 0 <= i && j == i + 1 && j < |p|
      ensures (p[i], p[j]) in E
    {
      assert (p[i], p[j]) in F && p[j] in p;
    }
  }

  /** An edge into a vertex that no edge leaves closes no cycle. */
  lemma EdgeToSink<V(!new)>(E: Edges<V>, u: V, v: V)
    requires !Cyclic(E) && u != v
    requires forall e | e in E :: e.0 != v
    ensures !Cyclic(E + {(u, v)})
  {
    forall p
      ensures !IsCycle(E + {(u, v)}, p)
    {
      if IsCycle(E + {(u, v)}, p) {
        CycleWithoutSink(E, u, v, p);
      }
    }
  }

  /** A path whose last vertex has an edge back into the path holds a cycle. */
  lemma ClosePath<V(!new)>(E: Edges<V>, p: seq<V>, i: nat)
    requires Path(E, p) && i < |p| && (p[|p| - 1], p[i]) in E
    ensures IsCycle(E, p[i..] + [p[i]])
    ensures Cyclic(E)
  {
    var c := p[i..] + [p[i]];
    forall j | 0 <= j < |c| - 1
      ensures (c[j], c[j + 1]) in E
    {
      assert c[j] == p[i + j];
      if j < |c| - 2 { assert c[j + 1] == p[i + j + 1]; }
    }
    assert IsCycle(E, c);
  }

  lemma SubPath<V>(E: Edges<V>, p: seq<V>, i: nat, j: nat)
    requires Path(E, p) && i < j <= |p|
    ensures Path(E, p[i..j])
  {
    var q := p[i..j];
    forall k, l | 0 <= k && l == k + 1 && l < |q|
      ensures (q[k], q[l]) in E
    {
      assert q[k] == p[i + k] && q[l] == p[i + l];
    }
  }

  lemma JoinPaths<V>(E: Edges<V>, p: seq<V>, q: seq<V>)
    requires Path(E, p) && Path(E, q) && p[|p| - 1] == q[0]
    ensures Path(E, p + q[1..])
  {
    var r := p + q[1..];
    forall i, j | 0 <= i && j == i + 1 && j < |r|
      ensures (r[i], r[j]) in E
    {
      if j >= |p| { assert r[j] == q[j - |p| + 1] && r[i] == q[i - |p| + 1]; }
    }
  }

  /** Whether v leads to u. */
  ghost predicate Leads<V(!new)>(E: Edges<V>, v: V, u: V) {
    exists p :: Path(E, p) && p[0] == v && p[|p| - 1] == u
  }

  /** A path from v to u need not use the edge from u to v. */
  lemma {:induction false} WithoutEdge<V(!new)>(E: Edges<V>, u: V, v: V, p: seq<V>)
    requires Path(E + {(u, v)}, p) && p[0] == v && p[|p| - 1] == u
    ensures Leads(E, v, u)
    decreases |p|
  {
    if i :| 0 <= i < |p| - 1 && (p[i], p[i + 1]) !in E {
      assert (p[i], p[i + 1]) in E + {(u, v)};
      SubPath(E + {(u, v)}, p, i + 1, |p|);
      WithoutEdge(E, u, v, p[i + 1..]);
    } else {
      assert Path(E, p);
    }
  }

  /** In an acyclic graph an edge closes a cycle exactly when it leads back to where it starts. */
  lemma EdgeClosesIff<V(!new)>(E: Edges<V>, u: V, v: V)
    requires !Cyclic(E)
    ensures Cyclic(E + {(u, v)}) <==> Leads(E, v, u)
  {
    var F := E + {(u, v)};
    if p :| Path(E, p) && p[0] == v && p[|p| - 1] == u {
      assert Path(F, p);
      ClosePath(F, p, 0);
    }
    if c :| IsCycle(F, c) {
      if i :| 0 <= i < |c| - 1 && (c[i], c[i + 1]) !in E {
        assert (c[i], c[i + 1]) in F;
        SubPath(F, c, i + 1, |c|);
        SubPath(F, c, 0, i + 1);
        JoinPaths(F, c[i + 1..], c[..i + 1]);
        WithoutEdge(E, u, v, c[i + 1..] + c[..i + 1][1..]);
      } else {
        assert IsCycle(E, c);
      }
    }
  }

  lemma {:induction false} DistinctBound<V>(p: seq<V>, S: set<V>)
    requires Distinct(p) && forall v | v in p :: v in S
    ensures |p| <= |S|
  {
    if p == [] {
    } else {
      var v := p[|p| - 1];
      var q := p[..|p| - 1];
      assert v in p;
      assert forall x | x in q :: x in p && x != v;
      DistinctBound(q, S - {v});
      assert |S - {v}| == |S| - 1;
    }
  }

  // ---- adjacency vectors ----

  type Adjacency<!V(==)> = map<V, seq<V>>

  /** Every neighbour is itself a vertex. */
  ghost predicate Closed<V>(adj: Adjacency<V>) {
    forall u | u in adj :: forall v | v in adj[u] :: v in adj
  }

  ghost function EdgesOf<V(!new)>(adj: Adjacency<V>): (E: Edges<V>)
    ensures forall u, v :: (u, v) in E <==> u in adj && v in adj[u]
  {
    set u, v | u in adj && v in adj[u] :: (u, v)
  }
}
