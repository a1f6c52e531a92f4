// Depth-first cycle detection shared by the dependency graph and the menu ordering
// (crates/key-extension-api/src/validation.rs).
module DirectedCycle {

  type Node = string
  type Edges = map<Node, seq<Node>>

  // ---------- what a cycle is ----------

  ghost predicate HasEdge(edges: Edges, a: Node, b: Node) {
    a in edges && b in edges[a]
  }

  ghost predicate IsPath(edges: Edges, p: seq<Node>) {
    forall i :: 0 < i < |p| ==> HasEdge(edges, p[i - 1], p[i])
  }

  ghost predicate IsCycle(edges: Edges, p: seq<Node>) {
    |p| > 1 && IsPath(edges, p) && p[0] == p[|p| - 1]
  }

  ghost predicate HasCycle(edges: Edges) {
    exists p :: IsCycle(edges, p)
  }

  /** A rank that drops along every edge. */
  ghost predicate Ranks(edges: Edges, rank: map<Node, nat>) {
    forall a, b :: HasEdge(edges, a, b) ==> a in rank && b in rank && rank[b] < rank[a]
  }

  lemma {:induction false} RankDropsAlongPath(edges: Edges, rank: map<Node, nat>, p: seq<Node>, i: nat)
    requires Ranks(edges, rank) && IsPath(edges, p) && 0 < i < |p|
    ensures p[0] in rank && p[i] in rank && rank[p[i]] < rank[p[0]]
  {
    assert HasEdge(edges, p[i - 1], p[i]);
    if i > 1 {
      RankDropsAlongPath(edges, rank, p, i - 1);
    }
  }

  /** A ranked graph has no cycle. */
  lemma RankedIsAcyclic(edges: Edges, rank: map<Node, nat>)
    requires Ranks(edges, rank)
    ensures !HasCycle(edges)
  {
    if p :| IsCycle(edges, p) {
      RankDropsAlongPath(edges, rank, p, |p| - 1);
    }
  }

  // ---------- the search ----------

  ghost function AllNodes(edges: Edges): set<Node> {
    edges.Keys + set a, b | a in edges && b in edges[a] :: b
  }

  /** The search state: nodes on the current path and nodes that are finished. */
  class CycleSearch {
    const edges: Edges
    var visiting: set<Node>
    var visited: set<Node>
    ghost var rank: map<Node, nat>   // the order in which nodes finished

    constructor (edges: Edges)
      ensures this.edges == edges && visiting == {} && visited == {} && Finished()
    {
      this.edges := edges;
      visiting, visited, rank := {}, {}, map[];
    }

    /** Finished nodes lead only to nodes that finished earlier. */
    ghost predicate Finished()
      reads this
    {
      && rank.Keys == visited
      && visiting !! visited
      && (forall a :: a in visited ==> rank[a] < |visited|)
      && (forall a, b :: a in visited && HasEdge(edges, a, b) ==> b in visited && rank[b] < rank[a])
    }

    /** True only when a cycle exists; false leaves the node finished and the path as it was. */
    method Visit(node: Node, ghost path: seq<Node>) returns (cyclic: bool)
      requires Finished() && node in AllNodes(edges)
      requires IsPath(edges, path + [node]) && forall x :: x in visiting <==> x in path
      modifies this
      ensures cyclic ==> HasCycle(edges)
      ensures !cyclic ==> Finished() && visiting == old(visiting) && old(visited) + {node} <= visited
      decreases AllNodes(edges) - visiting - visited, 0
    {
      hide IsPath, HasCycle, AllNodes;
      if node in visiting {
        CloseCycle(edges, path, node);
        return true;
      }
      if node in visited {
        return false;
      }
      ghost var unseen := AllNodes(edges) - visiting - visited;
      visiting := visiting + {node};
      assert AllNodes(edges) - visiting - visited == unseen - {node};
      if node in edges {
        cyclic := VisitTargets(node, path + [node]);
        if cyclic {
          return true;
        }
      }
      Finish(node);
      return false;
    }

    /** All targets of a node on the path, in order, until one closes a cycle. */
    method VisitTargets(node: Node, ghost path: seq<Node>) returns (cyclic: bool)
      requires Finished() && node in edges && path != [] && path[|path| - 1] == node
      requires IsPath(edges, path) && forall x :: x in visiting <==> x in path
      modifies this
      ensures cyclic ==> HasCycle(edges)
      ensures !cyclic ==> Finished() && visiting == old(visiting) && old(visited) <= visited
      ensures !cyclic ==> forall b :: HasEdge(edges, node, b) ==> b in visited
      decreases AllNodes(edges) - visiting - visited, 1
    {
      hide IsPath, HasCycle, AllNodes;
      var targets := edges[node];
      for i := 0 to |targets|
        invariant Finished() && visiting == old(visiting) && old(visited) <= visited
        invariant forall j :: 0 <= j < i ==> targets[j] in visited
      {
        ExtendPath(edges, path, targets[i]);
        cyclic := Visit(targets[i], path);
        if cyclic {
          return true;
        }
      }
      return false;
    }

    /** Moves a node whose targets are all finished from the path to the finished nodes. */
    method Finish(node: Node)
      requires Finished() && node in visiting
      requires forall b :: HasEdge(edges, node, b) ==> b in visited
      modifies this
      ensures Finished() && visited == old(visited) + {node} && visiting == old(visiting) - {node}
    {
      rank := rank[node := |visited|];
      visiting := visiting - {node};
      visited := visited + {node};
    }
  }

  lemma ExtendPath(edges: Edges, path: seq<Node>, next: Node)
    requires path != [] && IsPath(edges, path) && HasEdge(edges, path[|path| - 1], next)
    ensures IsPath(edges, path + [next]) && next in AllNodes(edges)
  {
  }

  /** Meeting a node of the current path again closes a cycle. */
  lemma CloseCycle(edges: Edges, path: seq<Node>, node: Node)
    requires IsPath(edges, path + [node]) && node in path
    ensures HasCycle(edges)
  {
    var whole := path + [node];
    var i :| 0 <= i < |path| && path[i] == node;
    var cycle := whole[i..];
    forall k | 0 < k < |cycle| ensures HasEdge(edges, cycle[k - 1], cycle[k]) {
      assert HasEdge(edges, whole[i + k - 1], whole[i + k]);
    }
    assert IsCycle(edges, cycle);
  }

  /** True exactly when the edges contain a directed cycle; otherwise the finishing order ranks them. */
  method FindDirectedCycle(edges: Edges) returns (cyclic: bool, ghost rank: map<Node, nat>)
    ensures cyclic <==> HasCycle(edges)
    ensures !cyclic ==> Ranks(edges, rank) && edges.Keys <= rank.Keys
  {
    var search := new CycleSearch(edges);
    var keys := edges.Keys;
    rank := map[];
    while keys != {}
      invariant fresh(search) && search.edges == edges && search.Finished() && search.visiting == {}
      invariant keys <= edges.Keys && edges.Keys - keys <= search.visited
      decreases keys
    {
      var node :| node in keys;
      cyclic := search.Visit(node, []);
      if cyclic {
        return true, map[];
      }
      keys := keys - {node};
    }
    rank := search.rank;
    RankedIsAcyclic(edges, rank);
    return false, rank;
  }
}
