/** What a graph keeps when it becomes a part of a merged graph, and what is exported of its dependencies
    (runtime/runtime_graph.py:182-230, 289-332). */
module GraphComponents {
  import opened Collections
  import opened TopologicalSort
  import opened RuntimeGraphs
  import opened ExecutionOrder
  import opened GraphMerge

  // ---- components --------------------------------------------------------------------------

  /** Some of the nodes, with all the nodes they depend on. */
  ghost predicate Component(c: map<Id, RuntimeOp>, nodes: map<Id, RuntimeOp>) {
    c.Keys <= nodes.Keys && forall n :: n in c ==> nodes[n] == c[n] && Enclosed(c, nodes, n)
  }

  ghost predicate Enclosed(c: map<Id, RuntimeOp>, nodes: map<Id, RuntimeOp>, n: Id)
    requires n in c
  {
    forall d :: d in c[n].dependencies && d in nodes ==> d in c
  }

  ghost function Identity(c: map<Id, RuntimeOp>): (r: map<Id, Id>) {
    map v | v in DepNodes(c) :: v
  }

  lemma ComponentEmbedsAt(c: map<Id, RuntimeOp>, nodes: map<Id, RuntimeOp>, v: Id)
    requires Component(c, nodes) && v in DepNodes(c)
    ensures EmbedsAt(DepGraph(c), DepGraph(nodes), Identity(c), v)
  {
    var f := Identity(c);
    assert f.Keys == DepNodes(c) && forall u :: u in f ==> f[u] == u;
    hide DepGraph, Preds, Nodes, DepNodes, Component, Identity, EmbedsAt, Elems;
    DepGraphNodes(c);
    DepGraphNodes(nodes);
    PredsAreDependencies(c, v);
    PredsAreDependencies(nodes, v);
    OutsideStaysOutside(c, nodes, v);
    PredsInDepNodes(c, v);
    assert Preds(DepGraph(nodes), v) == set u | u in Preds(DepGraph(c), v) :: f[u];
    EmbedsByImage(DepGraph(c), DepGraph(nodes), f, v);
  }

  /** The component's nodes are nodes of the whole, and its other ids are not. */
  lemma OutsideStaysOutside(c: map<Id, RuntimeOp>, nodes: map<Id, RuntimeOp>, v: Id)
    requires Component(c, nodes) && v in DepNodes(c)
    ensures v in c <==> v in nodes
    ensures v in c ==> nodes[v] == c[v]
    ensures v in DepNodes(nodes)
  {
    if v !in c {
      var n, d :| n in c && d in c[n].dependencies && d == v;
      assert Enclosed(c, nodes, n) && n in nodes && v in nodes[n].dependencies;
    }
  }

  lemma ComponentEmbeds(c: map<Id, RuntimeOp>, nodes: map<Id, RuntimeOp>)
    requires Component(c, nodes)
    ensures Embeds(DepGraph(c), DepGraph(nodes), Identity(c))
  {
    hide EmbedsAt, Component, DepGraph;
    forall v | v in Identity(c) {
      ComponentEmbedsAt(c, nodes, v);
    }
  }

  /** Keeping some elements keeps their relative positions. */
  lemma KeepPositions(s: seq<Id>, keep: set<Id>, a: Id, b: Id)
    requires Distinct(s) && a in s && b in s && a in keep && b in keep && Position(s, a) < Position(s, b)
    ensures Position(Keep(s, keep), a) < Position(Keep(s, keep), b)
  {
    hide Keep, Position, Distinct;
    var kept := Keep(s, keep);
    var p, q := Position(kept, a), Position(kept, b);
    if q < p {
      var j, i := KeepApart(s, keep, q, p);
      PositionIs(s, i);
      PositionIs(s, j);
      assert false;
    }
    assert kept[p] == a && kept[q] == b;
  }

  lemma KeepIsDistinct(s: seq<Id>, keep: set<Id>)
    requires Distinct(s)
    ensures Distinct(Keep(s, keep)) && Elems(Keep(s, keep)) == Elems(s) * keep
  {
    forall a, b | 0 <= a < b < |Keep(s, keep)| ensures Keep(s, keep)[a] != Keep(s, keep)[b] {
      var i, j := KeepApart(s, keep, a, b);
    }
  }

  lemma ComponentPrecedes(c: map<Id, RuntimeOp>, nodes: map<Id, RuntimeOp>, nodeOrder: seq<Id>, a: Id, b: Id)
    requires Component(c, nodes) && Distinct(nodeOrder) && Elems(nodeOrder) == nodes.Keys
    requires a in c && b in c && Precedes(nodes, nodeOrder, a, b)
    ensures Precedes(c, Keep(nodeOrder, c.Keys), a, b)
  {
    ComponentEmbeds(c, nodes);
    assert a in Elems(nodeOrder) && b in Elems(nodeOrder);
    var f := Identity(c);
    assert a in f && b in f && f[a] == a && f[b] == b;
    hide Embeds, Earlier, Identity, DepGraph, Component, Position, Keep;
    EmbeddingKeepsEarlier(DepGraph(c), DepGraph(nodes), f, a, b);
    EmbeddingKeepsEarlier(DepGraph(c), DepGraph(nodes), f, b, a);
    if Position(nodeOrder, a) < Position(nodeOrder, b) {
      KeepPositions(nodeOrder, c.Keys, a, b);
    }
  }

  /** The order of a component is the order of the whole, restricted to it. */
  lemma ComponentKeepsOrder(c: map<Id, RuntimeOp>, nodes: map<Id, RuntimeOp>, nodeOrder: seq<Id>, order: seq<Id>,
                            part: seq<Id>)
    requires Component(c, nodes) && Distinct(nodeOrder) && Elems(nodeOrder) == nodes.Keys
    requires IsOrder(nodes, nodeOrder, order) && IsOrder(c, Keep(nodeOrder, c.Keys), part)
    ensures part == Keep(order, c.Keys)
  {
    var kept := Keep(nodeOrder, c.Keys);
    KeepIsDistinct(nodeOrder, c.Keys);
    assert Elems(kept) == c.Keys;
    OrderAscends(nodes, nodeOrder, order);
    OrderIsTopological(nodes, nodeOrder, order);
    OrderAscends(c, kept, part);
    OrderIsTopological(c, kept, part);
    KeepIsDistinct(order, c.Keys);
    hide IsOrder, Precedes, Distinct, Elems, Component, Keep;
    var a := Keep(order, c.Keys);
    forall i, j | 0 <= i < j < |a| ensures Precedes(c, kept, a[i], a[j]) {
      var p, q := KeepApart(order, c.Keys, i, j);
      KeptAt(order, c.Keys, i);
      KeptAt(order, c.Keys, j);
      ComponentPrecedes(c, nodes, nodeOrder, a[i], a[j]);
    }
    forall x, y ensures !(Precedes(c, kept, x, y) && Precedes(c, kept, y, x)) {
      PrecedesAsymmetric(c, kept, x, y);
    }
    AscendingUnique(a, part, (x, y) => Precedes(c, kept, x, y));
  }

  lemma KeptAt(s: seq<Id>, keep: set<Id>, i: nat)
    requires i < |Keep(s, keep)|
    ensures Keep(s, keep)[i] in keep
  {
  }

  // ---- merged graphs -----------------------------------------------------------------------

  /** No graph depends on another's nodes. */
  ghost predicate NoForeign(graphs: seq<Named>) {
    forall i, j, n :: 0 <= i < |graphs| && 0 <= j < |graphs| && i != j && n in graphs[i].graph.nodes ==>
      Elems(graphs[i].graph.nodes[n].dependencies) !! graphs[j].graph.nodes.Keys
  }

  lemma MergedComponent(graphs: seq<Named>, m: Merged, i: nat)
    requires IsUnion(graphs, m) && NoForeign(graphs) && i < |graphs|
    ensures Component(graphs[i].graph.nodes, m.graph.nodes)
  {
    var c, nodes := graphs[i].graph.nodes, m.graph.nodes;
    var parts := NodeMaps(graphs);
    assert parts[i] == c;
    forall n | n in c ensures n in nodes && nodes[n] == c[n] && Enclosed(c, nodes, n) {
      assert n in parts[i];
      forall d | d in c[n].dependencies && d in nodes ensures d in c {
        var j :| 0 <= j < |parts| && d in parts[j] && parts[j][d] == nodes[d];
        assert d in Elems(c[n].dependencies);
      }
    }
  }

  lemma KeepSnoc(s: seq<Id>, x: Id, keep: set<Id>)
    ensures Keep(s + [x], keep) == Keep(s, keep) + if x in keep then [x] else []
  {
    assert (s + [x])[..|s|] == s;
  }

  lemma KeepNone(keep: set<Id>)
    ensures Keep([], keep) == []
  {
  }

  lemma {:induction false} KeepAppend(a: seq<Id>, b: seq<Id>, keep: set<Id>)
    ensures Keep(a + b, keep) == Keep(a, keep) + Keep(b, keep)
  {
    hide Keep;
    if b == [] {
      assert a + b == a;
      KeepNone(keep);
    } else {
      var n := |b| - 1;
      KeepAppend(a, b[..n], keep);
      KeepSnoc(a + b[..n], b[n], keep);
      KeepSnoc(b[..n], b[n], keep);
      assert a + b == a + b[..n] + [b[n]] && b == b[..n] + [b[n]];
    }
  }

  lemma {:induction false} KeepAll(s: seq<Id>, keep: set<Id>)
    ensures Elems(s) <= keep ==> Keep(s, keep) == s
    ensures Elems(s) !! keep ==> Keep(s, keep) == []
  {
    if s != [] {
      var n := |s| - 1;
      assert s[n] in Elems(s) && Elems(s[..n]) <= Elems(s);
      KeepAll(s[..n], keep);
    }
  }

  lemma {:induction false} JoinedNone(graphs: seq<Named>, keep: set<Id>)
    requires forall j :: 0 <= j < |graphs| ==> Elems(graphs[j].graph.nodeOrder) !! keep
    ensures Keep(JoinedOrder(graphs), keep) == []
  {
    if graphs != [] {
      var n := |graphs| - 1;
      JoinedNone(graphs[..n], keep);
      KeepAppend(JoinedOrder(graphs[..n]), graphs[n].graph.nodeOrder, keep);
      KeepAll(graphs[n].graph.nodeOrder, keep);
    }
  }

  lemma {:induction false} JoinedParts(graphs: seq<Named>, i: nat)
    requires AllValid(graphs) && Apart(graphs) && i < |graphs|
    ensures Keep(JoinedOrder(graphs), graphs[i].graph.nodes.Keys) == graphs[i].graph.nodeOrder
  {
    var n, keep := |graphs| - 1, graphs[i].graph.nodes.Keys;
    var last := graphs[n].graph;
    assert last.Valid() && Elems(last.nodeOrder) == last.nodes.Keys;
    assert i < n ==> keep !! last.nodes.Keys;
    hide Keep, Distinct, RuntimeGraph.Valid;
    KeepAppend(JoinedOrder(graphs[..n]), last.nodeOrder, keep);
    KeepAll(last.nodeOrder, keep);
    if i < n {
      assert AllValid(graphs[..n]) && Apart(graphs[..n]);
      JoinedParts(graphs[..n], i);
    } else {
      OthersApart(graphs, n);
      JoinedNone(graphs[..n], keep);
    }
  }

  lemma OthersApart(graphs: seq<Named>, n: nat)
    requires AllValid(graphs) && Apart(graphs) && n < |graphs|
    ensures forall j :: 0 <= j < n ==> Elems(graphs[j].graph.nodeOrder) !! graphs[n].graph.nodes.Keys
  {
    forall j | 0 <= j < n ensures Elems(graphs[j].graph.nodeOrder) == graphs[j].graph.nodes.Keys {
      assert graphs[j].graph.Valid();
    }
  }

  lemma {:induction false} JoinedDistinct(graphs: seq<Named>)
    requires AllValid(graphs) && Apart(graphs)
    ensures Distinct(JoinedOrder(graphs))
    ensures forall x :: x in JoinedOrder(graphs) <==> exists i :: 0 <= i < |graphs| && x in graphs[i].graph.nodes
  {
    if graphs != [] {
      var n := |graphs| - 1;
      var front, last := JoinedOrder(graphs[..n]), graphs[n].graph;
      assert last.Valid() && AllValid(graphs[..n]) && Apart(graphs[..n]);
      JoinedDistinct(graphs[..n]);
      forall x ensures x in last.nodeOrder <==> x in last.nodes {
        assert x in Elems(last.nodeOrder) <==> x in last.nodeOrder;
      }
      forall x | x in front ensures x !in last.nodeOrder {
        var i :| 0 <= i < n && x in graphs[..n][i].graph.nodes;
        assert graphs[i].graph.nodes.Keys !! graphs[n].graph.nodes.Keys;
      }
      DistinctJoin(front, last.nodeOrder);
      forall x ensures x in JoinedOrder(graphs) <==> exists i :: 0 <= i < |graphs| && x in graphs[i].graph.nodes {
        if i :| 0 <= i < |graphs| && x in graphs[i].graph.nodes {
          assert i < n ==> x in graphs[..n][i].graph.nodes;
        }
        if i :| 0 <= i < n && x in graphs[..n][i].graph.nodes {
          assert x in graphs[i].graph.nodes;
        }
      }
    }
  }

  /** A merged graph lists every node once, and keeps the order of each of its graphs. */
  lemma MergingKeepsOrders(graphs: seq<Named>, m: Merged, order: seq<Id>, i: nat, part: seq<Id>)
    requires AllValid(graphs) && Apart(graphs) && IsUnion(graphs, m) && NoForeign(graphs) && i < |graphs|
    requires IsOrder(m.graph.nodes, m.graph.nodeOrder, order)
    requires IsOrder(graphs[i].graph.nodes, graphs[i].graph.nodeOrder, part)
    ensures Distinct(m.graph.nodeOrder) && Elems(m.graph.nodeOrder) == m.graph.nodes.Keys
    ensures Keep(order, graphs[i].graph.nodes.Keys) == part
  {
    MergedComponent(graphs, m, i);
    JoinedParts(graphs, i);
    JoinedDistinct(graphs);
    MergedNodes(graphs, m);
    hide Component, IsUnion, IsOrder, Keep, AllValid, Apart, NoForeign, JoinedOrder;
    assert m.graph.nodeOrder == JoinedOrder(graphs) by { UnionOrder(graphs, m); }
    ComponentKeepsOrder(graphs[i].graph.nodes, m.graph.nodes, m.graph.nodeOrder, order, part);
  }

  lemma {:induction false} ReleasedTogether(graphs: seq<Named>, n: nat) returns (k: nat)
    requires n <= |graphs| && forall i :: 0 <= i < n ==> !Cyclic(DepGraph(graphs[i].graph.nodes))
    ensures forall i :: 0 <= i < n ==> Released(graphs[i].graph.nodes, k)
  {
    hide Released, DepGraph, Cyclic;
    if n == 0 {
      k := 0;
    } else {
      var before := ReleasedTogether(graphs, n - 1);
      var own := ReleasedSometime(graphs[n - 1].graph.nodes);
      k := before + own;
      forall i | 0 <= i < n ensures Released(graphs[i].graph.nodes, k) {
        StaysReleased(graphs[i].graph.nodes, if i < n - 1 then before else own, k);
      }
    }
  }

  /** Every node is released after `k` rounds. */
  ghost predicate Released(nodes: map<Id, RuntimeOp>, k: nat) {
    DepNodes(nodes) <= Done(DepGraph(nodes), k)
  }

  lemma ReleasedSometime(nodes: map<Id, RuntimeOp>) returns (k: nat)
    requires !Cyclic(DepGraph(nodes))
    ensures Released(nodes, k)
  {
    AcyclicIff(DepGraph(nodes));
    DepGraphFacts(nodes);
    k :| Done(DepGraph(nodes), k) == Nodes(DepGraph(nodes));
  }

  lemma StaysReleased(nodes: map<Id, RuntimeOp>, j: nat, k: nat)
    requires Released(nodes, j) && j <= k
    ensures Released(nodes, k)
  {
    DoneGrows(DepGraph(nodes), j, k);
    hide Done, DepGraph;
  }

  lemma ReleasedIsAcyclic(nodes: map<Id, RuntimeOp>, k: nat)
    requires Released(nodes, k)
    ensures !Cyclic(DepGraph(nodes))
  {
    DepGraphFacts(nodes);
    DoneInNodes(DepGraph(nodes), k);
    hide DepGraph, Cyclic;
    assert Done(DepGraph(nodes), k) == Nodes(DepGraph(nodes));
    AcyclicIff(DepGraph(nodes));
  }

  lemma DoneInNodes(g: map<Id, set<Id>>, k: nat)
    ensures Done(g, k) <= Nodes(g)
  {
  }

  /** A component is released together with the whole. */
  lemma ComponentReleased(c: map<Id, RuntimeOp>, nodes: map<Id, RuntimeOp>, k: nat)
    requires Component(c, nodes)
    ensures forall v :: v in DepNodes(c) ==> v in DepNodes(nodes)
    ensures forall v :: v in DepNodes(c) ==> (v in Done(DepGraph(c), k) <==> v in Done(DepGraph(nodes), k))
  {
    ComponentEmbeds(c, nodes);
    var f := Identity(c);
    assert f.Keys == DepNodes(c) && forall v :: v in f ==> f[v] == v;
    hide DepGraph, DepNodes, Identity, Embeds, Component;
    forall v | v in DepNodes(c)
      ensures v in DepNodes(nodes) && (v in Done(DepGraph(c), k) <==> v in Done(DepGraph(nodes), k))
    {
      OutsideStaysOutside(c, nodes, v);
      EmbeddingKeepsLayer(DepGraph(c), DepGraph(nodes), f, k, v);
    }
  }

  lemma MergedDepNodes(graphs: seq<Named>, m: Merged, v: Id) returns (i: nat)
    requires IsUnion(graphs, m) && AllValid(graphs) && Apart(graphs) && v in DepNodes(m.graph.nodes)
    ensures i < |graphs| && v in DepNodes(graphs[i].graph.nodes)
  {
    var nodes := m.graph.nodes;
    var n := v;
    if v !in nodes {
      n :| n in nodes && v in nodes[n].dependencies;
    }
    var parts := NodeMaps(graphs);
    i :| 0 <= i < |parts| && n in parts[i] && parts[i][n] == nodes[n];
    assert graphs[i].graph.nodes[n] == nodes[n];
  }

  /** Merging makes no cycle and hides none: the merged graph has an order exactly when each of its graphs has. */
  lemma MergedOrderExistsIff(graphs: seq<Named>, m: Merged)
    requires AllValid(graphs) && Apart(graphs) && IsUnion(graphs, m) && NoForeign(graphs)
    ensures (exists order :: IsOrder(m.graph.nodes, m.graph.nodeOrder, order)) <==>
            forall i :: 0 <= i < |graphs| ==> HasOrder(graphs[i].graph)
  {
    OrderExistsIff(m.graph.nodes, m.graph.nodeOrder);
    forall i | 0 <= i < |graphs| ensures HasOrder(graphs[i].graph) <==> !Cyclic(DepGraph(graphs[i].graph.nodes)) {
      OrderExistsIff(graphs[i].graph.nodes, graphs[i].graph.nodeOrder);
    }
    hide IsOrder, HasOrder, Cyclic, DepGraph;
    if !Cyclic(DepGraph(m.graph.nodes)) {
      forall i | 0 <= i < |graphs| ensures !Cyclic(DepGraph(graphs[i].graph.nodes)) {
        PartIsAcyclic(graphs, m, i);
      }
    }
    if forall i :: 0 <= i < |graphs| ==> !Cyclic(DepGraph(graphs[i].graph.nodes)) {
      UnionIsAcyclic(graphs, m);
    }
  }

  ghost predicate HasOrder(g: RuntimeGraph) {
    exists order :: IsOrder(g.nodes, g.nodeOrder, order)
  }

  lemma PartIsAcyclic(graphs: seq<Named>, m: Merged, i: nat)
    requires AllValid(graphs) && Apart(graphs) && IsUnion(graphs, m) && NoForeign(graphs) && i < |graphs|
    requires !Cyclic(DepGraph(m.graph.nodes))
    ensures !Cyclic(DepGraph(graphs[i].graph.nodes))
  {
    var k := ReleasedSometime(m.graph.nodes);
    MergedComponent(graphs, m, i);
    ComponentReleased(graphs[i].graph.nodes, m.graph.nodes, k);
    hide Component, IsUnion, AllValid, Apart, NoForeign, DepGraph, DepNodes, Done, Cyclic;
    assert Released(graphs[i].graph.nodes, k);
    ReleasedIsAcyclic(graphs[i].graph.nodes, k);
  }

  lemma UnionIsAcyclic(graphs: seq<Named>, m: Merged)
    requires AllValid(graphs) && Apart(graphs) && IsUnion(graphs, m) && NoForeign(graphs)
    requires forall i :: 0 <= i < |graphs| ==> !Cyclic(DepGraph(graphs[i].graph.nodes))
    ensures !Cyclic(DepGraph(m.graph.nodes))
  {
    var k := ReleasedTogether(graphs, |graphs|);
    hide Component, IsUnion, AllValid, Apart, NoForeign, DepGraph, DepNodes, Done, Cyclic;
    forall v | v in DepNodes(m.graph.nodes) ensures v in Done(DepGraph(m.graph.nodes), k) {
      var i := MergedDepNodes(graphs, m, v);
      assert Released(graphs[i].graph.nodes, k);
      MergedComponent(graphs, m, i);
      ComponentReleased(graphs[i].graph.nodes, m.graph.nodes, k);
    }
    ReleasedIsAcyclic(m.graph.nodes, k);
  }

  lemma UnionOrder(graphs: seq<Named>, m: Merged)
    requires IsUnion(graphs, m)
    ensures m.graph.nodeOrder == JoinedOrder(graphs)
  {
  }

  lemma MergedNodes(graphs: seq<Named>, m: Merged)
    requires IsUnion(graphs, m) && AllValid(graphs) && Apart(graphs)
    ensures Elems(m.graph.nodeOrder) == m.graph.nodes.Keys
  {
    JoinedDistinct(graphs);
    var parts := NodeMaps(graphs);
    forall x ensures x in m.graph.nodes <==> exists i :: 0 <= i < |graphs| && x in graphs[i].graph.nodes {
      if x in m.graph.nodes {
        var i :| 0 <= i < |parts| && x in parts[i] && parts[i][x] == m.graph.nodes[x];
        assert x in graphs[i].graph.nodes;
      }
      if i :| 0 <= i < |graphs| && x in graphs[i].graph.nodes {
        assert x in parts[i];
      }
    }
  }

  // ---- ids that never became nodes ---------------------------------------------------------

  /** The exported `dependsOn` of a node: its dependencies and the node of its condition, as far as they
      are nodes. */
  function DependsOn(nodes: map<Id, RuntimeOp>, n: Id): (r: seq<Id>)
    requires n in nodes
    ensures forall d :: d in r <==> d in nodes && (d in nodes[n].dependencies || IsCondition(nodes[n], d))
  {
    var op := nodes[n];
    var all :=
      if op.condition.Some? && op.condition.value.node !in op.dependencies
      then op.dependencies + [op.condition.value.node] else op.dependencies;
    Keep(all, nodes.Keys)
  }

  predicate IsCondition(op: RuntimeOp, d: Id) {
    op.condition.Some? && op.condition.value.node == d
  }

  /** The graph without dependencies on ids that are no nodes. */
  ghost function Stripped(nodes: map<Id, RuntimeOp>): (r: map<Id, RuntimeOp>)
    ensures r.Keys == nodes.Keys
  {
    map n | n in nodes :: nodes[n].(dependencies := Keep(nodes[n].dependencies, nodes.Keys))
  }

  lemma {:induction false} KeepTwice(s: seq<Id>, keep: set<Id>)
    ensures Keep(Keep(s, keep), keep) == Keep(s, keep)
  {
    if s != [] {
      var n := |s| - 1;
      KeepTwice(s[..n], keep);
      KeepAppend(Keep(s[..n], keep), if s[n] in keep then [s[n]] else [], keep);
    }
  }

  /** Ids that never became nodes do not show in the exported dependencies. */
  lemma ExportIgnoresOthers(nodes: map<Id, RuntimeOp>, n: Id)
    requires n in nodes
    ensures DependsOn(Stripped(nodes), n) == DependsOn(nodes, n)
  {
    var op, keep := nodes[n], nodes.Keys;
    var deps := op.dependencies;
    KeepTwice(deps, keep);
    if op.condition.Some? {
      var c := op.condition.value.node;
      KeepAppend(deps, [c], keep);
      KeepAppend(Keep(deps, keep), [c], keep);
    }
  }
}
