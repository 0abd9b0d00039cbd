/** Cycle detection by colouring depth-first search. */
module CycleFinders {
  import opened Graphs

  class CycleFinder<V(==,!new)> {
    const adj: Adjacency<V>
    const vertices: seq<V>
    var visited: set<V>
    var stacked: set<V>
    ghost var path: seq<V>   // the vertices whose calls are still open, outermost first
    ghost var done: seq<V>   // the vertices whose calls have returned, in that order

    constructor (adj: Adjacency<V>, vertices: seq<V>)
      ensures this.adj == adj && this.vertices == vertices
      ensures visited == {} && stacked == {} && path == [] && done == []
    {
      this.adj, this.vertices := adj, vertices;
      visited, stacked := {}, {};
      path, done := [], [];
    }

    ghost function E(): Edges<V> {
      EdgesOf(adj)
    }

    /** `stacked` is the open path, `visited` adds the vertices already finished. */
    ghost predicate Searching()
      reads this
    {
      && Closed(adj)
      && stacked == Elements(path) && visited == stacked + Elements(done) && visited <= adj.Keys
      && (path != [] ==> Path(E(), path))
      && Finished(E(), done)
    }

    method DFS(node: V) returns (found: bool)
      requires Searching() && node in adj && node !in visited
      requires path != [] ==> (path[|path| - 1], node) in E()
      modifies this
      ensures found ==> Cyclic(E())
      ensures !found ==>
                && Searching() && path == old(path) && stacked == old(stacked)
                && old(visited) <= visited && node in done
                && forall v | v in old(done) :: v in done
      decreases adj.Keys - visited
    {
      ghost var outer := path;
      visited := visited + {node};
      stacked := stacked + {node};
      path := path + [node];
      var neighbors := adj[node];
      for i := 0 to |neighbors|
        invariant Searching() && path == outer + [node] && stacked == old(stacked) + {node}
        invariant old(visited) + {node} <= visited
        invariant forall v | v in old(done) :: v in done
        invariant forall j | 0 <= j < i :: neighbors[j] in done
      {
        var neighbor := neighbors[i];
        assert (node, neighbor) in E();
        if neighbor !in visited {
          var r := DFS(neighbor);
          if r { return true; }
        } else if neighbor in stacked {
          ghost var k :| 0 <= k < |path| && path[k] == neighbor;
          ClosePath(E(), path, k);
          return true;
        }
      }
      FinishedAppend(E(), done, node);
      stacked := stacked - {node};
      path, done := outer, done + [node];
      return false;
    }

    /** One search from every vertex not yet visited decides whether the graph has a cycle. */
    method IsCyclic() returns (found: bool)
      requires visited == {} && stacked == {} && path == [] && done == []
      requires Closed(adj) && forall v | v in adj :: v in vertices
      requires forall v | v in vertices :: v in adj
      modifies this
      ensures found <==> Cyclic(E())
    {
      for i := 0 to |vertices|
        invariant Searching() && path == []
        invariant forall j | 0 <= j < i :: vertices[j] in done
      {
        var vertex := vertices[i];
        if vertex !in visited {
          var r := DFS(vertex);
          if r { return true; }
        }
      }
      forall p
        ensures !IsCycle(E(), p)
      {
        if IsCycle(E(), p) {
          assert (p[0], p[1]) in E();
          FinishedAvoidsCycles(E(), done, p);
        }
      }
      return false;
    }
  }
}
