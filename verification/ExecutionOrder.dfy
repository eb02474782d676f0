/** The order in which a runtime graph's nodes run (runtime/runtime_graph.py:182-230), and what renaming
    and merging do to it (232-332). */
module ExecutionOrder {
  import opened Collections
  import opened TopologicalSort
  import opened RuntimeGraphs

  // ---- the dependency graph ----------------------------------------------------------------

  /** The nodes and everything they depend on; an id that is no node is kept as a source of edges. */
  ghost function DepNodes(nodes: map<Id, RuntimeOp>): (r: set<Id>) {
    nodes.Keys + set n, d | n in nodes && d in nodes[n].dependencies :: d
  }

  ghost function Dependents(nodes: map<Id, RuntimeOp>, dep: Id): (r: set<Id>) {
    set n | n in nodes && dep in nodes[n].dependencies
  }

  ghost function DepGraph(nodes: map<Id, RuntimeOp>): (r: map<Id, set<Id>>) {
    map v | v in DepNodes(nodes) :: Dependents(nodes, v)
  }

  lemma DepGraphFacts(nodes: map<Id, RuntimeOp>)
    ensures Nodes(DepGraph(nodes)) == DepNodes(nodes)
    ensures forall u, v :: Edge(DepGraph(nodes), u, v) <==> v in nodes && u in nodes[v].dependencies
  {
  }

  /** `order_index.get(node_id, len(order_index))`. */
  function OrderKey(order: seq<Id>): (r: Id -> int) {
    id => Position(order, id)
  }

  /** The sorted dependency graph without the ids that are no nodes. */
  ghost predicate IsOrder(nodes: map<Id, RuntimeOp>, nodeOrder: seq<Id>, order: seq<Id>) {
    exists s :: IsLayeredSort(DepGraph(nodes), Some(OrderKey(nodeOrder)), s) && order == Keep(s, nodes.Keys)
  }

  method DependencyGraph(nodes: map<Id, RuntimeOp>, nodeOrder: seq<Id>) returns (g: map<Id, set<Id>>, keys: seq<Id>)
    requires Distinct(nodeOrder) && Elems(nodeOrder) == nodes.Keys
    ensures g == DepGraph(nodes) && Distinct(keys) && Elems(keys) == g.Keys
  {
    g := map n | n in nodes :: {};
    keys := nodeOrder;
    assert Elems(nodeOrder[..0]) == {};
    for i := 0 to |nodeOrder|
      invariant Built(nodes, Elems(nodeOrder[..i]), g) && Distinct(keys) && Elems(keys) == g.Keys
    {
      ElemsSnoc(nodeOrder, i);
      var n := nodeOrder[i];
      assert n in Elems(nodeOrder);
      hide Built, Elems;
      ghost var before := g;
      g, keys := AddDependencies(n, nodes[n].dependencies, g, keys);
      BuiltNext(nodes, Elems(nodeOrder[..i]), n, before, g);
    }
    assert nodeOrder[..|nodeOrder|] == nodeOrder;
    BuiltAll(nodes, g);
  }

  ghost function DepsOf(nodes: map<Id, RuntimeOp>, some: set<Id>): (r: set<Id>) {
    set n, d | n in some && n in nodes && d in nodes[n].dependencies :: d
  }

  ghost function DependentsIn(nodes: map<Id, RuntimeOp>, some: set<Id>, dep: Id): (r: set<Id>) {
    set n | n in some && n in nodes && dep in nodes[n].dependencies
  }

  /** The graph after the nodes of `some` were added. */
  ghost predicate Built(nodes: map<Id, RuntimeOp>, some: set<Id>, g: map<Id, set<Id>>) {
    g.Keys == nodes.Keys + DepsOf(nodes, some) && forall v :: v in g ==> g[v] == DependentsIn(nodes, some, v)
  }

  lemma BuiltAll(nodes: map<Id, RuntimeOp>, g: map<Id, set<Id>>)
    requires Built(nodes, nodes.Keys, g)
    ensures g == DepGraph(nodes)
  {
    assert g.Keys == DepNodes(nodes);
    forall v | v in g ensures g[v] == Dependents(nodes, v) {
    }
  }

  /** The edges from `added` to `n` are in. */
  ghost predicate Extended(before: map<Id, set<Id>>, g: map<Id, set<Id>>, added: set<Id>, n: Id) {
    g.Keys == before.Keys + added &&
    forall v :: v in g ==> g[v] == (if v in before then before[v] else {}) + (if v in added then {n} else {})
  }

  lemma BuiltNext(nodes: map<Id, RuntimeOp>, some: set<Id>, n: Id, before: map<Id, set<Id>>, g: map<Id, set<Id>>)
    requires Built(nodes, some, before) && n in nodes && n !in some
    requires Extended(before, g, Elems(nodes[n].dependencies), n)
    ensures Built(nodes, some + {n}, g)
  {
    DepsOfNext(nodes, some, n);
    forall v | v in g ensures g[v] == DependentsIn(nodes, some + {n}, v) {
      DependentsInNext(nodes, some, n, v);
      assert v !in before ==> DependentsIn(nodes, some, v) == {};
    }
  }

  lemma DepsOfNext(nodes: map<Id, RuntimeOp>, some: set<Id>, n: Id)
    requires n in nodes
    ensures DepsOf(nodes, some + {n}) == DepsOf(nodes, some) + Elems(nodes[n].dependencies)
  {
    forall d | d in Elems(nodes[n].dependencies) ensures d in DepsOf(nodes, some + {n}) {
      assert n in some + {n} && d in nodes[n].dependencies;
    }
    forall d | d in DepsOf(nodes, some) ensures d in DepsOf(nodes, some + {n}) {
      var x :| x in some && x in nodes && d in nodes[x].dependencies;
      assert x in some + {n};
    }
  }

  lemma DependentsInNext(nodes: map<Id, RuntimeOp>, some: set<Id>, n: Id, v: Id)
    requires n in nodes
    ensures DependentsIn(nodes, some + {n}, v) ==
            DependentsIn(nodes, some, v) + if v in Elems(nodes[n].dependencies) then {n} else {}
    ensures v !in DepsOf(nodes, some) ==> DependentsIn(nodes, some, v) == {}
  {
    if x :| x in DependentsIn(nodes, some, v) {
      assert x in some && v in nodes[x].dependencies;
    }
  }

  lemma ExtendedNext(before: map<Id, set<Id>>, g: map<Id, set<Id>>, added: set<Id>, n: Id, d: Id)
    requires Extended(before, g, added, n)
    ensures Extended(before, g[d := (if d in g then g[d] else {}) + {n}], added + {d}, n)
  {
  }

  /** One node's loop over its dependencies. */
  method AddDependencies(n: Id, deps: seq<Id>, before: map<Id, set<Id>>, known: seq<Id>)
    returns (g: map<Id, set<Id>>, keys: seq<Id>)
    requires Distinct(known) && Elems(known) == before.Keys
    ensures Extended(before, g, Elems(deps), n) && Distinct(keys) && Elems(keys) == g.Keys
  {
    g, keys := before, known;
    assert Elems(deps[..0]) == {} && Extended(before, g, {}, n);
    hide Extended, Distinct, Elems;
    for j := 0 to |deps|
      invariant Distinct(keys) && Elems(keys) == g.Keys && Extended(before, g, Elems(deps[..j]), n)
    {
      ElemsSnoc(deps, j);
      var d := deps[j];
      ExtendedNext(before, g, Elems(deps[..j]), n, d);
      if d !in g {
        NewKey(keys, d);
        keys := keys + [d];
      }
      g := g[d := (if d in g then g[d] else {}) + {n}];
    }
    assert deps[..|deps|] == deps;
  }

  lemma NewKey(keys: seq<Id>, d: Id)
    requires Distinct(keys) && d !in Elems(keys)
    ensures Distinct(keys + [d]) && Elems(keys + [d]) == Elems(keys) + {d}
  {
    ElemsAppend(keys, [d]);
    forall i | 0 <= i < |keys| ensures keys[i] != d {
      assert keys[i] in Elems(keys);
    }
  }

  /** `topological_order`. */
  method TopologicalOrder(g: RuntimeGraph) returns (r: Result<seq<Id>, Error>)
    requires g.Valid()
    ensures r.Err? <==> Cyclic(DepGraph(g.nodes))
    ensures r.Ok? ==> IsOrder(g.nodes, g.nodeOrder, r.value)
  {
    var dependents, keys := DependencyGraph(g.nodes, g.nodeOrder);
    hide Cyclic, IsLayeredSort, DepGraph;
    var sorted := TopologicalSort.TopologicalSort(dependents, keys, Some(OrderKey(g.nodeOrder)));
    if sorted.Err? {
      return Err(sorted.error);
    }
    var order: seq<Id> := [];
    for i := 0 to |sorted.value|
      invariant order == Keep(sorted.value[..i], g.nodes.Keys)
    {
      assert sorted.value[..i + 1][..i] == sorted.value[..i];
      if sorted.value[i] in g.nodes {
        order := order + [sorted.value[i]];
      }
    }
    assert sorted.value[..|sorted.value|] == sorted.value;
    r := Ok(order);
  }

  /** An order exists exactly when the dependencies have no cycle. */
  lemma OrderExistsIff(nodes: map<Id, RuntimeOp>, nodeOrder: seq<Id>)
    ensures (exists order :: IsOrder(nodes, nodeOrder, order)) <==> !Cyclic(DepGraph(nodes))
  {
    SortExistsIff(DepGraph(nodes), Some(OrderKey(nodeOrder)));
    hide IsLayeredSort, DepGraph, Keep, OrderKey, Cyclic;
    if s :| IsLayeredSort(DepGraph(nodes), Some(OrderKey(nodeOrder)), s) {
      assert IsOrder(nodes, nodeOrder, Keep(s, nodes.Keys));
    }
  }

  // ---- what an order is --------------------------------------------------------------------

  /** Position `j` of the kept elements comes from a position of the whole, with the same elements before. */
  lemma {:induction false} KeepAt(s: seq<Id>, keep: set<Id>, j: nat) returns (i: nat)
    requires j < |Keep(s, keep)|
    ensures i < |s| && s[i] == Keep(s, keep)[j] && Keep(s[..i], keep) == Keep(s, keep)[..j]
  {
    var n := |s| - 1;
    if j < |Keep(s[..n], keep)| {
      i := KeepAt(s[..n], keep, j);
      assert s[..n][..i] == s[..i];
      assert Keep(s, keep)[..j] == Keep(s[..n], keep)[..j];
    } else {
      i := n;
    }
  }

  /** The kept positions are in the order of the whole. */
  lemma {:induction false} KeepApart(s: seq<Id>, keep: set<Id>, a: nat, b: nat) returns (i: nat, j: nat)
    requires a < b < |Keep(s, keep)|
    ensures i < j < |s| && s[i] == Keep(s, keep)[a] && s[j] == Keep(s, keep)[b]
  {
    j := KeepAt(s, keep, b);
    i := KeepAt(s[..j], keep, a);
  }

  /** Every node once, after all the nodes it depends on. */
  lemma OrderIsTopological(nodes: map<Id, RuntimeOp>, nodeOrder: seq<Id>, order: seq<Id>)
    requires IsOrder(nodes, nodeOrder, order)
    ensures Distinct(order) && Elems(order) == nodes.Keys
    ensures forall j, d :: 0 <= j < |order| && order[j] in nodes && d in nodes[order[j]].dependencies && d in nodes ==>
              d in order[..j]
  {
    var g, key := DepGraph(nodes), Some(OrderKey(nodeOrder));
    var s :| IsLayeredSort(g, key, s) && order == Keep(s, nodes.Keys);
    SortIsTopological(g, key, s);
    DepGraphFacts(nodes);
    hide IsLayeredSort, Keep, DepGraph, DepNodes;
    forall a, b | 0 <= a < b < |order| ensures order[a] != order[b] {
      var i, j := KeepApart(s, nodes.Keys, a, b);
    }
    forall x ensures x in Elems(order) <==> x in nodes {
      KeptIffNode(s, nodes.Keys, x);
      assert x in nodes ==> x in Elems(s);
    }
    forall j, d | 0 <= j < |order| && order[j] in nodes && d in nodes[order[j]].dependencies && d in nodes
      ensures d in order[..j]
    {
      var i := KeepAt(s, nodes.Keys, j);
      assert Edge(g, d, s[i]) && d in Preds(g, s[i]);
      KeptIffNode(s[..i], nodes.Keys, d);
    }
  }

  lemma KeptIffNode(s: seq<Id>, keep: set<Id>, x: Id)
    ensures x in Keep(s, keep) <==> x in s && x in keep
  {
  }

  /** The first comes in an earlier layer. */
  ghost predicate Earlier(g: map<Id, set<Id>>, a: Id, b: Id) {
    exists k: nat :: a in Done(g, k) && b !in Done(g, k)
  }

  /** The first comes in an earlier layer, or in the same layer at an earlier place of the given order. */
  ghost predicate Precedes(nodes: map<Id, RuntimeOp>, nodeOrder: seq<Id>, a: Id, b: Id) {
    var g := DepGraph(nodes);
    Earlier(g, a, b) || (!Earlier(g, b, a) && Position(nodeOrder, a) < Position(nodeOrder, b))
  }

  lemma EarlierAsymmetric(g: map<Id, set<Id>>, a: Id, b: Id)
    ensures !(Earlier(g, a, b) && Earlier(g, b, a))
  {
    forall j: nat, k: nat | a in Done(g, j) && b !in Done(g, j) && b in Done(g, k) && a !in Done(g, k) ensures false {
      if j <= k {
        DoneGrows(g, j, k);
      } else {
        DoneGrows(g, k, j);
      }
    }
  }

  lemma PrecedesAsymmetric(nodes: map<Id, RuntimeOp>, nodeOrder: seq<Id>, a: Id, b: Id)
    ensures !(Precedes(nodes, nodeOrder, a, b) && Precedes(nodes, nodeOrder, b, a))
  {
    EarlierAsymmetric(DepGraph(nodes), a, b);
    hide Earlier;
  }

  ghost predicate Ordered(nodes: map<Id, RuntimeOp>, nodeOrder: seq<Id>, order: seq<Id>) {
    forall i, j :: 0 <= i < j < |order| ==> Precedes(nodes, nodeOrder, order[i], order[j])
  }

  /** Sorted layers: two elements are in layers that ascend, or in one layer with ascending keys. */
  lemma {:induction false} FlattenAscends(g: map<Id, set<Id>>, key: Id -> int, layers: seq<seq<Id>>, i: nat, j: nat)
    requires AreLayers(g, Some(key), layers) && i < j < |Flatten(layers)|
    ensures var a, b := Flatten(layers)[i], Flatten(layers)[j];
      Earlier(g, a, b) || (!Earlier(g, b, a) && key(a) <= key(b))
  {
    var n := |layers| - 1;
    var front := Flatten(layers[..n]);
    assert AreLayers(g, Some(key), layers[..n]);
    if j < |front| {
      FlattenAscends(g, key, layers[..n], i, j);
    } else {
      var b := Flatten(layers)[j];
      assert b == layers[n][j - |front|] && b in Elems(layers[n]);
      if i < |front| {
        FlattenLayers(g, Some(key), layers[..n]);
        assert front[i] in Elems(front);
        assert front[i] in Done(g, n) && b !in Done(g, n);
      } else {
        var a := Flatten(layers)[i];
        assert a == layers[n][i - |front|] && a in Elems(layers[n]);
        SameLayer(g, n, b, a);
      }
    }
  }

  lemma SameLayer(g: map<Id, set<Id>>, n: nat, a: Id, b: Id)
    requires a in Layer(g, n) && b in Layer(g, n)
    ensures !Earlier(g, a, b)
  {
    forall k: nat | a in Done(g, k) ensures b in Done(g, k) {
      if k <= n {
        DoneGrows(g, k, n);
      } else {
        DoneGrows(g, n + 1, k);
      }
    }
  }

  lemma OrderAscends(nodes: map<Id, RuntimeOp>, nodeOrder: seq<Id>, order: seq<Id>)
    requires IsOrder(nodes, nodeOrder, order) && Elems(nodeOrder) == nodes.Keys
    ensures Ordered(nodes, nodeOrder, order)
  {
    OrderIsTopological(nodes, nodeOrder, order);
    var g, key := DepGraph(nodes), OrderKey(nodeOrder);
    var s :| IsLayeredSort(g, Some(key), s) && order == Keep(s, nodes.Keys);
    var layers :| IsLayering(g, Some(key), s, layers);
    forall a, b | 0 <= a < b < |order| ensures Precedes(nodes, nodeOrder, order[a], order[b]) {
      var i, j := KeepApart(s, nodes.Keys, a, b);
      FlattenAscends(g, key, layers, i, j);
      assert order[a] in Elems(order) && order[b] in Elems(order);
      DistinctPositions(nodeOrder, order[a], order[b]);
    }
  }

  lemma DistinctPositions(nodeOrder: seq<Id>, a: Id, b: Id)
    requires a in Elems(nodeOrder) && b in Elems(nodeOrder) && a != b
    ensures Position(nodeOrder, a) != Position(nodeOrder, b)
  {
  }

  // ---- orders of related graphs ------------------------------------------------------------

  /** Two arrangements of the same elements that ascend in one asymmetric relation are equal. */
  lemma {:induction false} AscendingUnique(a: seq<Id>, b: seq<Id>, before: (Id, Id) -> bool)
    requires Distinct(a) && Distinct(b) && Elems(a) == Elems(b)
    requires forall x, y :: !(before(x, y) && before(y, x))
    requires forall i, j :: 0 <= i < j < |a| ==> before(a[i], a[j])
    requires forall i, j :: 0 <= i < j < |b| ==> before(b[i], b[j])
    ensures a == b
  {
    DistinctSize(a);
    DistinctSize(b);
    if a != [] {
      assert a[0] in Elems(b) && b[0] in Elems(a);
      assert a[0] == b[0];
      SameTail(a, b);
      AscendingUnique(a[1..], b[1..], before);
      assert a == [a[0]] + a[1..] && b == [b[0]] + b[1..];
    }
  }

  /** A graph has one order, whatever the iteration order of its sets: ids that are no nodes tie with each
      other in the sort, but they are dropped from the result. */
  lemma OrderIsUnique(nodes: map<Id, RuntimeOp>, nodeOrder: seq<Id>, a: seq<Id>, b: seq<Id>)
    requires Elems(nodeOrder) == nodes.Keys && IsOrder(nodes, nodeOrder, a) && IsOrder(nodes, nodeOrder, b)
    ensures a == b
  {
    hide IsOrder, Precedes, Elems;
    OrderAscends(nodes, nodeOrder, a);
    OrderAscends(nodes, nodeOrder, b);
    OrderIsTopological(nodes, nodeOrder, a);
    OrderIsTopological(nodes, nodeOrder, b);
    forall x, y ensures !(Precedes(nodes, nodeOrder, x, y) && Precedes(nodes, nodeOrder, y, x)) {
      PrecedesAsymmetric(nodes, nodeOrder, x, y);
    }
    AscendingUnique(a, b, (x, y) => Precedes(nodes, nodeOrder, x, y));
  }

  /** Of an acyclic graph, whatever lists the nodes once and ascends is the order. */
  lemma AscendingIsOrder(nodes: map<Id, RuntimeOp>, nodeOrder: seq<Id>, s: seq<Id>)
    requires Elems(nodeOrder) == nodes.Keys && !Cyclic(DepGraph(nodes))
    requires Distinct(s) && Elems(s) == nodes.Keys && Ordered(nodes, nodeOrder, s)
    ensures IsOrder(nodes, nodeOrder, s)
  {
    OrderExistsIff(nodes, nodeOrder);
    var order :| IsOrder(nodes, nodeOrder, order);
    OrderAscends(nodes, nodeOrder, order);
    OrderIsTopological(nodes, nodeOrder, order);
    hide IsOrder, Precedes, Elems, DepGraph, Cyclic;
    forall x, y ensures !(Precedes(nodes, nodeOrder, x, y) && Precedes(nodes, nodeOrder, y, x)) {
      PrecedesAsymmetric(nodes, nodeOrder, x, y);
    }
    AscendingUnique(order, s, (x, y) => Precedes(nodes, nodeOrder, x, y));
  }

  /** `f` takes the node and its predecessors to a node and its predecessors. */
  ghost predicate EmbedsAt(g: map<Id, set<Id>>, h: map<Id, set<Id>>, f: map<Id, Id>, v: Id) {
    v in f && v in Nodes(g) && f[v] in Nodes(h) &&
    (forall u :: u in Preds(g, v) ==> u in f && f[u] in Preds(h, f[v])) &&
    forall w :: w in Preds(h, f[v]) ==> exists u :: u in f && f[u] == w && u in Preds(g, v)
  }

  ghost predicate Embeds(g: map<Id, set<Id>>, h: map<Id, set<Id>>, f: map<Id, Id>) {
    forall v :: v in f ==> EmbedsAt(g, h, f, v)
  }

  lemma {:induction false} EmbeddingKeepsLayer(g: map<Id, set<Id>>, h: map<Id, set<Id>>, f: map<Id, Id>, k: nat, v: Id)
    requires Embeds(g, h, f) && v in f
    ensures v in Done(g, k) <==> f[v] in Done(h, k)
    decreases k
  {
    assert EmbedsAt(g, h, f, v);
    if k > 0 {
      forall u | u in Preds(g, v) ensures f[u] in Preds(h, f[v]) && (u in Done(g, k - 1) <==> f[u] in Done(h, k - 1)) {
        EmbeddingKeepsLayer(g, h, f, k - 1, u);
      }
      forall w | w in Preds(h, f[v]) ensures exists u :: u in Preds(g, v) && f[u] == w {
        var u :| u in f && f[u] == w && u in Preds(g, v);
      }
    }
  }

  lemma EmbeddingKeepsEarlier(g: map<Id, set<Id>>, h: map<Id, set<Id>>, f: map<Id, Id>, a: Id, b: Id)
    requires Embeds(g, h, f) && a in f && b in f
    ensures Earlier(g, a, b) <==> Earlier(h, f[a], f[b])
  {
    forall k: nat ensures a in Done(g, k) <==> f[a] in Done(h, k) {
      EmbeddingKeepsLayer(g, h, f, k, a);
    }
    forall k: nat ensures b in Done(g, k) <==> f[b] in Done(h, k) {
      EmbeddingKeepsLayer(g, h, f, k, b);
    }
  }

  /** The predecessors of a node are its dependencies; an id that is no node has none. */
  lemma PredsAreDependencies(nodes: map<Id, RuntimeOp>, v: Id)
    ensures Preds(DepGraph(nodes), v) == if v in nodes then Elems(nodes[v].dependencies) else {}
  {
    forall u ensures u in Preds(DepGraph(nodes), v) <==> v in nodes && u in nodes[v].dependencies {
      DepGraphFacts(nodes);
      assert Edge(DepGraph(nodes), u, v) <==> u in Preds(DepGraph(nodes), v);
    }
  }

  // ---- renaming ----------------------------------------------------------------------------

  /** No id that is only a dependency is taken for a new name. */
  ghost predicate FreshNames(nodes: map<Id, RuntimeOp>, m: map<Id, Id>) {
    NoCapture(m, DepNodes(nodes))
  }

  ghost function RenamingOf(nodes: map<Id, RuntimeOp>, m: map<Id, Id>): (r: map<Id, Id>) {
    map v | v in DepNodes(nodes) :: Renamed(m, v)
  }

  lemma RenamedDependencies(nodes: map<Id, RuntimeOp>, m: map<Id, Id>, v: Id)
    requires m.Keys == nodes.Keys && Injective(m) && FreshNames(nodes, m) && v in DepNodes(nodes)
    ensures v in nodes ==> m[v] in RenameNodes(m, nodes)
    ensures v in nodes ==> RenameNodes(m, nodes)[m[v]].dependencies == RenamedAll(m, nodes[v].dependencies)
    ensures v !in nodes ==> v !in RenameNodes(m, nodes)
  {
    if v in nodes {
      RenamedNodeAt(m, nodes, v);
    } else {
      RenamedKeys(m, nodes);
      RenamedNodeKeys(m, nodes);
    }
  }

  lemma RenamedInDepNodes(nodes: map<Id, RuntimeOp>, m: map<Id, Id>, v: Id)
    requires m.Keys == nodes.Keys && Injective(m) && FreshNames(nodes, m) && v in DepNodes(nodes)
    ensures Renamed(m, v) in DepNodes(RenameNodes(m, nodes))
  {
    RenamedDependencies(nodes, m, v);
    if v !in nodes {
      var n, d :| n in nodes && d in nodes[n].dependencies && d == v;
      RenamedDependencies(nodes, m, n);
      var i :| 0 <= i < |nodes[n].dependencies| && nodes[n].dependencies[i] == v;
      assert RenamedAll(m, nodes[n].dependencies)[i] == v;
      assert v in RenameNodes(m, nodes)[m[n]].dependencies;
    }
  }

  lemma RenamedElemsOf(m: map<Id, Id>, ids: seq<Id>)
    ensures Elems(RenamedAll(m, ids)) == set u | u in Elems(ids) :: Renamed(m, u)
  {
    forall u | u in Elems(ids) ensures Renamed(m, u) in Elems(RenamedAll(m, ids)) {
      var i :| 0 <= i < |ids| && ids[i] == u;
      assert RenamedAll(m, ids)[i] == Renamed(m, u);
    }
    forall w | w in Elems(RenamedAll(m, ids)) ensures w in set u | u in Elems(ids) :: Renamed(m, u) {
      var i :| 0 <= i < |ids| && RenamedAll(m, ids)[i] == w;
      assert ids[i] in Elems(ids);
    }
  }

  lemma PredsInDepNodes(nodes: map<Id, RuntimeOp>, v: Id)
    ensures Preds(DepGraph(nodes), v) <= DepNodes(nodes)
  {
  }

  lemma RenamedPreds(nodes: map<Id, RuntimeOp>, m: map<Id, Id>, v: Id)
    requires m.Keys == nodes.Keys && Injective(m) && FreshNames(nodes, m) && v in DepNodes(nodes)
    ensures Preds(DepGraph(RenameNodes(m, nodes)), Renamed(m, v)) ==
            set u | u in Preds(DepGraph(nodes), v) :: Renamed(m, u)
  {
    hide DepGraph, RenameNodes, Injective, DepNodes, FreshNames, NoCapture, Preds, RenamedAll, Elems, RenameKeys;
    PredsAreDependencies(nodes, v);
    PredsAreDependencies(RenameNodes(m, nodes), Renamed(m, v));
    RenamedDependencies(nodes, m, v);
    if v in nodes {
      RenamedElemsOf(m, nodes[v].dependencies);
    }
  }

  /** A map that carries the predecessors of a node to those of its image. */
  lemma EmbedsByImage(g: map<Id, set<Id>>, h: map<Id, set<Id>>, f: map<Id, Id>, v: Id)
    requires v in f && v in Nodes(g) && f[v] in Nodes(h) && Preds(g, v) <= f.Keys
    requires Preds(h, f[v]) == set u | u in Preds(g, v) :: f[u]
    ensures EmbedsAt(g, h, f, v)
  {
    hide Nodes, Preds;
  }

  lemma RenamingEmbedsAt(nodes: map<Id, RuntimeOp>, m: map<Id, Id>, v: Id)
    requires m.Keys == nodes.Keys && Injective(m) && FreshNames(nodes, m) && v in DepNodes(nodes)
    ensures EmbedsAt(DepGraph(nodes), DepGraph(RenameNodes(m, nodes)), RenamingOf(nodes, m), v)
  {
    var f, g, h := RenamingOf(nodes, m), DepGraph(nodes), DepGraph(RenameNodes(m, nodes));
    assert f.Keys == DepNodes(nodes) && forall u :: u in f ==> f[u] == Renamed(m, u);
    hide DepGraph, RenameNodes, Injective, FreshNames, DepNodes, Preds, Nodes, RenamingOf, Renamed, EmbedsAt, RenameKeys;
    DepGraphNodes(nodes);
    DepGraphNodes(RenameNodes(m, nodes));
    RenamedInDepNodes(nodes, m, v);
    RenamedPreds(nodes, m, v);
    PredsInDepNodes(nodes, v);
    assert (set u | u in Preds(g, v) :: Renamed(m, u)) == set u | u in Preds(g, v) :: f[u];
    EmbedsByImage(g, h, f, v);
  }

  lemma DepGraphNodes(nodes: map<Id, RuntimeOp>)
    ensures Nodes(DepGraph(nodes)) == DepNodes(nodes)
  {
    DepGraphFacts(nodes);
  }

  lemma RenamingEmbeds(nodes: map<Id, RuntimeOp>, m: map<Id, Id>)
    requires m.Keys == nodes.Keys && Injective(m) && FreshNames(nodes, m)
    ensures Embeds(DepGraph(nodes), DepGraph(RenameNodes(m, nodes)), RenamingOf(nodes, m))
  {
    var f := RenamingOf(nodes, m);
    hide EmbedsAt, DepGraph, RenameNodes, Injective, FreshNames;
    forall v | v in f {
      RenamingEmbedsAt(nodes, m, v);
    }
  }

  lemma {:induction false} RenamedPosition(order: seq<Id>, m: map<Id, Id>, id: Id)
    requires Injective(m) && id in m && Elems(order) <= m.Keys
    ensures Position(RenamedAll(m, order), m[id]) == Position(order, id)
  {
    if order != [] {
      assert order[0] in Elems(order) && Elems(order[1..]) <= Elems(order);
      assert RenamedAll(m, order)[1..] == RenamedAll(m, order[1..]);
      RenamedPosition(order[1..], m, id);
    }
  }

  lemma RenamedPrecedes(nodes: map<Id, RuntimeOp>, nodeOrder: seq<Id>, m: map<Id, Id>, a: Id, b: Id)
    requires m.Keys == nodes.Keys && Injective(m) && FreshNames(nodes, m) && Elems(nodeOrder) == nodes.Keys
    requires a in nodes && b in nodes && Precedes(nodes, nodeOrder, a, b)
    ensures Precedes(RenameNodes(m, nodes), RenamedAll(m, nodeOrder), m[a], m[b])
  {
    RenamingEmbeds(nodes, m);
    var f := RenamingOf(nodes, m);
    RenamedPosition(nodeOrder, m, a);
    RenamedPosition(nodeOrder, m, b);
    assert a in f && b in f && f[a] == m[a] && f[b] == m[b];
    hide Embeds, Earlier, RenamingOf, DepGraph, RenameNodes, Injective, FreshNames, Position;
    EmbeddingKeepsEarlier(DepGraph(nodes), DepGraph(RenameNodes(m, nodes)), f, a, b);
    EmbeddingKeepsEarlier(DepGraph(nodes), DepGraph(RenameNodes(m, nodes)), f, b, a);
  }

  lemma RenamedElems(m: map<Id, Id>, ids: seq<Id>, nodes: map<Id, RuntimeOp>)
    requires m.Keys == nodes.Keys && Injective(m) && Elems(ids) == nodes.Keys
    ensures Elems(RenamedAll(m, ids)) == RenameNodes(m, nodes).Keys
    ensures Distinct(ids) ==> Distinct(RenamedAll(m, ids))
  {
    RenamedKeys(m, nodes);
    RenamedNodeKeys(m, nodes);
    hide RenameNodes, RenameKeys;
    assert forall i :: 0 <= i < |ids| ==> ids[i] in Elems(ids);
    forall y ensures y in Elems(RenamedAll(m, ids)) <==> y in m.Values {
      if y in m.Values {
        var x :| x in m && m[x] == y;
        assert x in Elems(ids);
        var i :| 0 <= i < |ids| && ids[i] == x;
        assert RenamedAll(m, ids)[i] == y;
      }
    }
  }

  /** Prefixing commutes with ordering: the order of the renamed graph is the renamed order. */
  lemma RenamingKeepsOrder(g: RuntimeGraph, m: map<Id, Id>, order: seq<Id>, renamed: seq<Id>)
    requires g.Valid() && m.Keys == g.nodes.Keys && Injective(m) && FreshNames(g.nodes, m)
    requires IsOrder(g.nodes, g.nodeOrder, order)
    requires IsOrder(Rename(g, m).nodes, Rename(g, m).nodeOrder, renamed)
    ensures renamed == RenamedAll(m, order)
  {
    var nodes, nodeOrder, moved := RenameNodes(m, g.nodes), RenamedAll(m, g.nodeOrder), RenamedAll(m, order);
    hide IsOrder, Precedes, Elems, RenameNodes, RenameKeys, Injective, FreshNames, Distinct, NoCapture;
    OrderIsTopological(g.nodes, g.nodeOrder, order);
    RenamedElems(m, g.nodeOrder, g.nodes);
    RenamedElems(m, order, g.nodes);
    RenamedAscends(g, m, order);
    OrderAscends(nodes, nodeOrder, renamed);
    OrderIsTopological(nodes, nodeOrder, renamed);
    forall x, y ensures !(Precedes(nodes, nodeOrder, x, y) && Precedes(nodes, nodeOrder, y, x)) {
      PrecedesAsymmetric(nodes, nodeOrder, x, y);
    }
    AscendingUnique(moved, renamed, (x, y) => Precedes(nodes, nodeOrder, x, y));
  }

  lemma RenamedAscends(g: RuntimeGraph, m: map<Id, Id>, order: seq<Id>)
    requires g.Valid() && m.Keys == g.nodes.Keys && Injective(m) && FreshNames(g.nodes, m)
    requires IsOrder(g.nodes, g.nodeOrder, order)
    ensures Ordered(RenameNodes(m, g.nodes), RenamedAll(m, g.nodeOrder), RenamedAll(m, order))
  {
    OrderAscends(g.nodes, g.nodeOrder, order);
    OrderIsTopological(g.nodes, g.nodeOrder, order);
    assert forall i :: 0 <= i < |order| ==> order[i] in Elems(order);
    hide IsOrder, Precedes, Elems, RenameNodes, Injective, FreshNames, Distinct;
    forall i, j | 0 <= i < j < |order|
      ensures Precedes(RenameNodes(m, g.nodes), RenamedAll(m, g.nodeOrder), m[order[i]], m[order[j]])
    {
      RenamedPrecedes(g.nodes, g.nodeOrder, m, order[i], order[j]);
    }
  }

  /** `with_node_prefix` keeps the order: its ids are the prefixed ids of the order before. */
  lemma PrefixKeepsOrder(g: RuntimeGraph, prefix: string, order: seq<Id>, prefixed: seq<Id>)
    requires g.Valid() && (prefix != "" ==> FreshNames(g.nodes, Prefixes(prefix, g.nodes.Keys)))
    requires IsOrder(g.nodes, g.nodeOrder, order)
    requires IsOrder(WithNodePrefix(g, prefix).nodes, WithNodePrefix(g, prefix).nodeOrder, prefixed)
    ensures prefixed == if prefix == "" then order else Prefixed(prefix, order)
  {
    hide IsOrder, FreshNames, Rename, Prefixes, RenamedAll, Prefixed, Distinct, Elems;
    if prefix == "" {
      OrderIsUnique(g.nodes, g.nodeOrder, order, prefixed);
    } else {
      PrefixesInjective(prefix, g.nodes.Keys);
      RenamingKeepsOrder(g, Prefixes(prefix, g.nodes.Keys), order, prefixed);
      OrderIsTopological(g.nodes, g.nodeOrder, order);
      PrefixedAll(prefix, g.nodes.Keys, order);
    }
  }
}
