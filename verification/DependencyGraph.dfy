// Installed-extension dependencies and menu ordering: how the edge maps are built and what an
// accepted graph guarantees (crates/key-extension-api/src/validation.rs).
module DependencyGraph {
  import opened DirectedCycle

  datatype Dependency<Requirement> = Dependency(id: Node, requirement: Requirement, optional: bool)
  datatype Manifest<Requirement, Version> = Manifest(id: Node, version: Version,
      dependencies: seq<Dependency<Requirement>>)

  datatype Problem =
    | Duplicate(index: nat)
    | InvalidManifest(index: nat)
    | MissingDependency(index: nat, dependency: nat)
    | IncompatibleDependency(index: nat, dependency: nat)
    | DependencyCycle

  // ---------- specification ----------

  ghost predicate Installed<R, V>(manifests: seq<Manifest<R, V>>, id: Node) {
    exists i :: 0 <= i < |manifests| && manifests[i].id == id
  }

  /** Index of the last manifest with an ID; a later one replaces an earlier one in the map. */
  ghost predicate IsLast<R, V>(manifests: seq<Manifest<R, V>>, id: Node, i: nat) {
    && i < |manifests| && manifests[i].id == id
    && forall j :: i < j < |manifests| ==> manifests[j].id != id
  }

  ghost predicate DistinctIds<R, V>(manifests: seq<Manifest<R, V>>) {
    forall i, j :: 0 <= i < j < |manifests| ==> manifests[i].id != manifests[j].id
  }

  /** `a` depends on the installed `b`, optionally or not. */
  ghost predicate DependsOn<R, V>(manifests: seq<Manifest<R, V>>, a: Node, b: Node) {
    && Installed(manifests, b)
    && exists i ::
         0 <= i < |manifests| && manifests[i].id == a && NamesUpTo(manifests[i], |manifests[i].dependencies|, b)
  }

  /** One dependency is present where required, and compatible where present. */
  ghost predicate Satisfied<R, V>(manifests: seq<Manifest<R, V>>, matches: (R, V) -> bool, d: Dependency<R>) {
    if Installed(manifests, d.id) then
      forall i: nat :: IsLast(manifests, d.id, i) ==> matches(d.requirement, manifests[i].version)
    else d.optional
  }

  ghost predicate EdgesOf<R, V>(manifests: seq<Manifest<R, V>>, edges: Edges) {
    && (forall a :: a in edges <==> Installed(manifests, a))
    && (forall a, b :: HasEdge(edges, a, b) <==> DependsOn(manifests, a, b))
  }

  /** What the validator promises of an accepted set of manifests. */
  ghost predicate Sound<R, V>(manifests: seq<Manifest<R, V>>, matches: (R, V) -> bool, valid: Manifest<R, V> -> bool) {
    && WellFormed(manifests, valid)
    && AllSatisfied(manifests, matches, |manifests|)
    && (forall edges :: EdgesOf(manifests, edges) ==> !HasCycle(edges))
  }

  // ---------- the validator ----------

  /** The map holds exactly the installed manifests, the last one for each ID. */
  ghost predicate Indexes<R, V>(manifests: seq<Manifest<R, V>>, byId: map<Node, Manifest<R, V>>) {
    && (forall id :: id in byId <==> Installed(manifests, id))
    && (forall id, i: nat :: IsLast(manifests, id, i) ==> id in byId && byId[id] == manifests[i])
  }

  /** IDs are distinct and every manifest passes its own validation. */
  ghost predicate WellFormed<R, V>(manifests: seq<Manifest<R, V>>, valid: Manifest<R, V> -> bool) {
    DistinctIds(manifests) && forall i :: 0 <= i < |manifests| ==> valid(manifests[i])
  }

  /** The map of installed manifests, and the problems of the manifests one by one. */
  method IndexManifests<R, V>(manifests: seq<Manifest<R, V>>, valid: Manifest<R, V> -> bool)
    returns (byId: map<Node, Manifest<R, V>>, problems: seq<Problem>)
    ensures Indexes(manifests, byId)
    ensures problems == [] <==> WellFormed(manifests, valid)
  {
    byId, problems := map[], [];
    for index := 0 to |manifests|
      invariant Indexes(manifests[..index], byId)
      invariant problems == [] <==> WellFormed(manifests[..index], valid)
    {
      var manifest := manifests[index];
      hide Indexes, WellFormed;
      IndexesStep(manifests, index, byId);
      WellFormedStep(manifests, index, valid);
      InstalledIs(manifests[..index], byId);
      if manifest.id in byId {
        problems := problems + [Duplicate(index)];
      }
      byId := byId[manifest.id := manifest];
      if !valid(manifest) {
        problems := problems + [InvalidManifest(index)];
      }
    }
    assert manifests[..|manifests|] == manifests;
  }

  /** What one more manifest adds to the installed set. */
  lemma IndexStep<R, V>(manifests: seq<Manifest<R, V>>, index: nat)
    requires index < |manifests|
    ensures var before, after := manifests[..index], manifests[..index + 1];
            && (forall id :: Installed(after, id) <==> Installed(before, id) || id == manifests[index].id)
            && (forall id, i: nat :: IsLast(after, id, i) <==>
                  if id == manifests[index].id then i == index else IsLast(before, id, i))
            && (DistinctIds(after) <==> DistinctIds(before) && !Installed(before, manifests[index].id))
  {
    var before, after := manifests[..index], manifests[..index + 1];
    assert after == before + [manifests[index]];
    forall id ensures Installed(after, id) <==> Installed(before, id) || id == manifests[index].id {
      if Installed(before, id) {
        var i :| 0 <= i < |before| && before[i].id == id;
        assert after[i].id == id;
      }
      if id == manifests[index].id {
        assert after[index].id == id;
      }
    }
    if DistinctIds(after) {
      assert forall i :: 0 <= i < |before| ==> before[i] == after[i] && after[i].id != after[index].id;
    }
  }

  lemma InstalledIs<R, V>(manifests: seq<Manifest<R, V>>, byId: map<Node, Manifest<R, V>>)
    requires Indexes(manifests, byId)
    ensures forall id :: id in byId <==> Installed(manifests, id)
  {
  }

  lemma IndexesStep<R, V>(manifests: seq<Manifest<R, V>>, index: nat, byId: map<Node, Manifest<R, V>>)
    requires index < |manifests| && Indexes(manifests[..index], byId)
    ensures Indexes(manifests[..index + 1], byId[manifests[index].id := manifests[index]])
  {
    hide Installed, IsLast, DistinctIds;
    IndexStep(manifests, index);
    var before, after := manifests[..index], manifests[..index + 1];
    forall id, i: nat | IsLast(after, id, i)
      ensures i < |after| && (id != manifests[index].id ==> i < |before| && after[i] == before[i])
    {
      LastIsIndex(after, id, i);
      if id != manifests[index].id {
        LastIsIndex(before, id, i);
      }
    }
  }

  lemma LastIsIndex<R, V>(manifests: seq<Manifest<R, V>>, id: Node, i: nat)
    requires IsLast(manifests, id, i)
    ensures i < |manifests|
  {
  }

  lemma WellFormedStep<R, V>(manifests: seq<Manifest<R, V>>, index: nat, valid: Manifest<R, V> -> bool)
    requires index < |manifests|
    ensures WellFormed(manifests[..index + 1], valid) <==>
            WellFormed(manifests[..index], valid) && !Installed(manifests[..index], manifests[index].id)
            && valid(manifests[index])
  {
    hide Installed, IsLast, DistinctIds;
    IndexStep(manifests, index);
    var before, after := manifests[..index], manifests[..index + 1];
    assert after == before + [manifests[index]];
  }

  /** The first `count` dependencies of a manifest are satisfied. */
  ghost predicate SatisfiedUpTo<R, V>(manifests: seq<Manifest<R, V>>, matches: (R, V) -> bool, index: nat, count: nat)
    requires index < |manifests| && count <= |manifests[index].dependencies|
  {
    forall k :: 0 <= k < count ==> Satisfied(manifests, matches, manifests[index].dependencies[k])
  }

  ghost predicate AllSatisfied<R, V>(manifests: seq<Manifest<R, V>>, matches: (R, V) -> bool, upTo: nat)
    requires upTo <= |manifests|
  {
    forall i :: 0 <= i < upTo ==> SatisfiedUpTo(manifests, matches, i, |manifests[i].dependencies|)
  }

  /** One of the first `count` dependencies names `b`. */
  ghost predicate NamesUpTo<R, V>(manifest: Manifest<R, V>, count: nat, b: Node) {
    exists k :: 0 <= k < count && k < |manifest.dependencies| && manifest.dependencies[k].id == b
  }

  lemma NamesStep<R, V>(manifest: Manifest<R, V>, k: nat)
    requires k < |manifest.dependencies|
    ensures forall b :: NamesUpTo(manifest, k + 1, b) <==> NamesUpTo(manifest, k, b) || b == manifest.dependencies[k].id
  {
    assert NamesUpTo(manifest, k + 1, manifest.dependencies[k].id);
    forall b | NamesUpTo(manifest, k, b) ensures NamesUpTo(manifest, k + 1, b) {
      var j :| 0 <= j < k && manifest.dependencies[j].id == b;
      assert manifest.dependencies[j].id == b;
    }
  }

  /** One more target for a node. */
  function WithEdge(edges: Edges, a: Node, b: Node): (r: Edges)
    ensures forall x, y :: HasEdge(r, x, y) <==> HasEdge(edges, x, y) || (x == a && y == b)
  {
    edges[a := (if a in edges then edges[a] else []) + [b]]
  }

  /** The problems and edges that the dependencies of one manifest give. */
  method AddDependencies<R, V>(manifests: seq<Manifest<R, V>>, byId: map<Node, Manifest<R, V>>, matches: (R, V) -> bool,
                               index: nat, edges0: Edges, problems0: seq<Problem>)
    returns (edges: Edges, problems: seq<Problem>)
    requires index < |manifests|
    requires Indexes(manifests, byId)
    ensures edges.Keys == edges0.Keys + {manifests[index].id}
    ensures forall a, b :: HasEdge(edges, a, b) <==>
              HasEdge(edges0, a, b)
              || (a == manifests[index].id && Installed(manifests, b)
                  && NamesUpTo(manifests[index], |manifests[index].dependencies|, b))
    ensures problems == [] <==>
      problems0 == [] && SatisfiedUpTo(manifests, matches, index, |manifests[index].dependencies|)
  {
    var manifest := manifests[index];
    var owner := manifest.id;
    edges, problems := edges0, problems0;
    if owner !in edges {
      edges := edges[owner := []];
    }
    for k := 0 to |manifest.dependencies|
      invariant edges.Keys == edges0.Keys + {owner}
      invariant forall a, b :: HasEdge(edges, a, b) <==>
                  HasEdge(edges0, a, b) || (a == owner && Installed(manifests, b) && NamesUpTo(manifest, k, b))
      invariant problems == [] <==> problems0 == [] && SatisfiedUpTo(manifests, matches, index, k)
    {
      hide Satisfied, Installed, IsLast, NamesUpTo;
      var dependency := manifest.dependencies[k];
      NamesStep(manifest, k);
      if dependency.id !in byId {
        if !dependency.optional {
          problems := problems + [MissingDependency(index, k)];
        }
      } else {
        var target := byId[dependency.id];
        InstalledVersion(manifests, byId, matches, dependency);
        if !matches(dependency.requirement, target.version) {
          problems := problems + [IncompatibleDependency(index, k)];
        }
        edges := WithEdge(edges, owner, dependency.id);
      }
    }
  }

  lemma {:induction false} LastExists<R, V>(manifests: seq<Manifest<R, V>>, id: Node) returns (i: nat)
    requires Installed(manifests, id)
    ensures IsLast(manifests, id, i)
  {
    i := |manifests| - 1;
    while manifests[i].id != id
      invariant i < |manifests| && forall j :: i < j < |manifests| ==> manifests[j].id != id
      decreases i
    {
      i := i - 1;
    }
  }

  lemma InstalledVersion<R, V>(manifests: seq<Manifest<R, V>>, byId: map<Node, Manifest<R, V>>,
      matches: (R, V) -> bool, d: Dependency<R>)
    requires Indexes(manifests, byId)
    requires d.id in byId
    ensures Satisfied(manifests, matches, d) <==> matches(d.requirement, byId[d.id].version)
  {
    var i := LastExists(manifests, d.id);
  }

  /** No problem is reported exactly when the manifests are sound; the finishing order of the search
      then orders every extension after the installed extensions it depends on. */
  method ValidateDependencyGraph<R, V>(manifests: seq<Manifest<R, V>>, matches: (R, V) -> bool,
      valid: Manifest<R, V> -> bool)
    returns (problems: seq<Problem>, ghost rank: map<Node, nat>)
    ensures problems == [] <==> Sound(manifests, matches, valid)
    ensures problems == [] ==>
              forall a, b :: DependsOn(manifests, a, b) ==> a in rank && b in rank && rank[b] < rank[a]
  {
    hide Satisfied, Installed, IsLast, DistinctIds, HasCycle;
    var byId;
    byId, problems := IndexManifests(manifests, valid);
    var edges: Edges := map[];
    NothingYet(manifests, matches);
    for index := 0 to |manifests|
      invariant EdgesUpTo(manifests, index, edges)
      invariant problems == [] <==> WellFormed(manifests, valid) && AllSatisfied(manifests, matches, index)
    {
      ghost var edges0 := edges;
      edges, problems := AddDependencies(manifests, byId, matches, index, edges, problems);
      EdgesStep(manifests, index, edges0, edges);
    }
    AllEdges(manifests, edges);
    var cyclic;
    cyclic, rank := FindDirectedCycle(edges);
    SameEdgesSameCycles(manifests, edges);
    if cyclic {
      problems := problems + [DependencyCycle];
    }
  }

  lemma NothingYet<R, V>(manifests: seq<Manifest<R, V>>, matches: (R, V) -> bool)
    ensures EdgesUpTo(manifests, 0, map[]) && AllSatisfied(manifests, matches, 0)
  {
  }

  ghost predicate DependsUpTo<R, V>(manifests: seq<Manifest<R, V>>, index: nat, a: Node, b: Node) {
    exists i ::
      0 <= i < index && i < |manifests| && manifests[i].id == a
      && NamesUpTo(manifests[i], |manifests[i].dependencies|, b)
  }

  /** Edges of the first `index` manifests. */
  ghost predicate EdgesUpTo<R, V>(manifests: seq<Manifest<R, V>>, index: nat, edges: Edges)
    requires index <= |manifests|
  {
    && (forall a :: a in edges <==> Installed(manifests[..index], a))
    && (forall a, b :: HasEdge(edges, a, b) <==> Installed(manifests, b) && DependsUpTo(manifests, index, a, b))
  }

  lemma EdgesStep<R, V>(manifests: seq<Manifest<R, V>>, index: nat, edges0: Edges, edges: Edges)
    requires index < |manifests| && EdgesUpTo(manifests, index, edges0)
    requires edges.Keys == edges0.Keys + {manifests[index].id}
    requires forall a, b :: HasEdge(edges, a, b) <==>
              HasEdge(edges0, a, b)
              || (a == manifests[index].id && Installed(manifests, b)
                  && NamesUpTo(manifests[index], |manifests[index].dependencies|, b))
    ensures EdgesUpTo(manifests, index + 1, edges)
  {
    hide Installed, HasEdge;
    IndexStep(manifests, index);
  }

  lemma AllEdges<R, V>(manifests: seq<Manifest<R, V>>, edges: Edges)
    requires EdgesUpTo(manifests, |manifests|, edges)
    ensures EdgesOf(manifests, edges)
  {
    hide Installed, HasEdge;
    assert manifests[..|manifests|] == manifests;
  }

  /** The edge relation is determined, so every edge map of these manifests has the same cycles. */
  lemma SameEdgesSameCycles<R, V>(manifests: seq<Manifest<R, V>>, edges: Edges)
    requires EdgesOf(manifests, edges)
    ensures HasCycle(edges) <==> exists other :: EdgesOf(manifests, other) && HasCycle(other)
  {
    forall other | EdgesOf(manifests, other) && HasCycle(other) ensures HasCycle(edges) {
      var p :| IsCycle(other, p);
      forall i | 0 < i < |p| ensures HasEdge(edges, p[i - 1], p[i]) {
        assert HasEdge(other, p[i - 1], p[i]);
        assert DependsOn(manifests, p[i - 1], p[i]);
      }
      assert IsCycle(edges, p);
    }
  }

  // ---------- menu ordering ----------

  datatype OrderedItem = OrderedItem(id: Node, before: seq<Node>, after: seq<Node>)

  ghost predicate IsSibling(items: seq<OrderedItem>, id: Node) {
    exists i :: 0 <= i < |items| && items[i].id == id
  }

  /** Item `i` asks that `a` come before `b`, both being siblings. */
  ghost predicate Asks(items: seq<OrderedItem>, i: nat, a: Node, b: Node)
    requires i < |items|
  {
    || (items[i].id == a && b in items[i].before && IsSibling(items, b))
    || (items[i].id == b && a in items[i].after && IsSibling(items, a))
  }

  ghost predicate Precedes(items: seq<OrderedItem>, upTo: nat, a: Node, b: Node) {
    exists i :: 0 <= i < upTo && i < |items| && Asks(items, i, a, b)
  }

  /** Items that precede each other in a circle. */
  ghost predicate IsCircle(items: seq<OrderedItem>, p: seq<Node>) {
    |p| > 1 && p[0] == p[|p| - 1] && forall i :: 0 < i < |p| ==> Precedes(items, |items|, p[i - 1], p[i])
  }

  ghost predicate HasCircle(items: seq<OrderedItem>) {
    exists p :: IsCircle(items, p)
  }

  function Siblings(items: seq<OrderedItem>): (ids: set<Node>)
    ensures forall id :: id in ids <==> IsSibling(items, id)
  {
    set i | 0 <= i < |items| :: items[i].id
  }

  /** The edges that one item's constraints add; a target that is no sibling is an error instead. */
  method AddOrderEdges(items: seq<OrderedItem>, index: nat, edges0: Edges) returns (edges: Edges, strangers: nat)
    requires index < |items|
    ensures forall a, b :: HasEdge(edges, a, b) <==> HasEdge(edges0, a, b) || Asks(items, index, a, b)
    ensures strangers == 0 <==>
              (forall id :: id in items[index].before || id in items[index].after ==> IsSibling(items, id))
  {
    hide IsSibling, HasEdge;
    var item := items[index];
    var siblings := Siblings(items);
    edges, strangers := edges0, 0;
    for k := 0 to |item.before|
      invariant forall a, b :: HasEdge(edges, a, b) <==>
                  HasEdge(edges0, a, b) || (a == item.id && b in item.before[..k] && IsSibling(items, b))
      invariant strangers == 0 <==> forall id :: id in item.before[..k] ==> IsSibling(items, id)
    {
      assert item.before[..k + 1] == item.before[..k] + [item.before[k]];
      if item.before[k] !in siblings {
        strangers := strangers + 1;
      } else {
        edges := WithEdge(edges, item.id, item.before[k]);
      }
    }
    assert item.before[..|item.before|] == item.before;
    ghost var middle := edges;
    ghost var strangersBefore := strangers;
    for k := 0 to |item.after|
      invariant forall a, b :: HasEdge(edges, a, b) <==>
                  HasEdge(middle, a, b) || (b == item.id && a in item.after[..k] && IsSibling(items, a))
      invariant strangers == 0 <==> strangersBefore == 0 && forall id :: id in item.after[..k] ==> IsSibling(items, id)
    {
      assert item.after[..k + 1] == item.after[..k] + [item.after[k]];
      if item.after[k] !in siblings {
        strangers := strangers + 1;
      } else {
        edges := WithEdge(edges, item.after[k], item.id);
      }
    }
    assert item.after[..|item.after|] == item.after;
  }

  /** The ordering constraints of siblings conflict exactly when some items precede each other in a
      circle; otherwise a rank puts every item before the items it must precede. */
  method ValidateMenuOrder(items: seq<OrderedItem>) returns (conflict: bool, ghost rank: map<Node, nat>)
    ensures conflict <==> HasCircle(items)
    ensures !conflict ==>
              forall a, b :: Precedes(items, |items|, a, b) ==> a in rank && b in rank && rank[b] < rank[a]
    ensures !conflict ==> forall i, other :: 0 <= i < |items| && IsSibling(items, other) ==>
      && (other in items[i].before ==> {items[i].id, other} <= rank.Keys && rank[other] < rank[items[i].id])
      && (other in items[i].after ==> {items[i].id, other} <= rank.Keys && rank[items[i].id] < rank[other])
  {
    hide Asks, HasEdge;
    var edges: Edges := map[];
    NoEdges();
    for index := 0 to |items|
      invariant forall a, b :: HasEdge(edges, a, b) <==> Precedes(items, index, a, b)
    {
      ghost var edges0 := edges;
      var strangers;
      edges, strangers := AddOrderEdges(items, index, edges);
      PrecedesStep(items, index);
    }
    conflict, rank := FindDirectedCycle(edges);
    SameCircles(items, edges);
    forall i, other | 0 <= i < |items| && IsSibling(items, other)
      ensures other in items[i].before ==> Precedes(items, |items|, items[i].id, other)
      ensures other in items[i].after ==> Precedes(items, |items|, other, items[i].id)
    {
      AskedPrecede(items, i, other);
    }
  }

  lemma AskedPrecede(items: seq<OrderedItem>, i: nat, other: Node)
    requires i < |items| && IsSibling(items, other)
    ensures other in items[i].before ==> Precedes(items, |items|, items[i].id, other)
    ensures other in items[i].after ==> Precedes(items, |items|, other, items[i].id)
  {
    assert other in items[i].before ==> Asks(items, i, items[i].id, other);
    assert other in items[i].after ==> Asks(items, i, other, items[i].id);
  }

  lemma SameCircles(items: seq<OrderedItem>, edges: Edges)
    requires forall a, b :: HasEdge(edges, a, b) <==> Precedes(items, |items|, a, b)
    ensures HasCycle(edges) <==> HasCircle(items)
  {
    hide Asks, HasEdge, Precedes;
    if p: seq<Node> :| IsCircle(items, p) {
      assert IsCycle(edges, p);
    }
    if p :| IsCycle(edges, p) {
      assert IsCircle(items, p);
    }
  }

  lemma NoEdges()
    ensures forall a, b :: !HasEdge(map[], a, b)
  {
  }

  lemma PrecedesStep(items: seq<OrderedItem>, index: nat)
    requires index < |items|
    ensures forall a, b :: Precedes(items, index + 1, a, b) <==>
      Precedes(items, index, a, b) || Asks(items, index, a, b)
  {
    hide Asks;
  }
}
