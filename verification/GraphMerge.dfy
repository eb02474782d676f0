/** Merging runtime graphs into one (runtime/runtime_graph.py:289-332) and exporting their dependencies
    (182-203, runtime/runtime_ops.py:94-101). */
module GraphMerge {
  import opened Collections
  import opened TopologicalSort
  import opened RuntimeGraphs
  import opened ExecutionOrder

  datatype Named = Named(name: string, graph: RuntimeGraph)

  datatype Merged = Merged(graph: RuntimeGraph, mapping: map<Id, (string, string)>)

  // ---- merging -----------------------------------------------------------------------------

  ghost predicate AllValid(graphs: seq<Named>) {
    forall i :: 0 <= i < |graphs| ==> graphs[i].graph.Valid()
  }

  /** No node id occurs in two graphs. */
  ghost predicate Apart(graphs: seq<Named>) {
    forall i, j :: 0 <= i < j < |graphs| ==> graphs[i].graph.nodes.Keys !! graphs[j].graph.nodes.Keys
  }

  ghost function JoinedOrder(graphs: seq<Named>): (r: seq<Id>) {
    if graphs == [] then [] else JoinedOrder(graphs[..|graphs| - 1]) + graphs[|graphs| - 1].graph.nodeOrder
  }

  /** The map has exactly the entries of the graphs' maps. */
  ghost predicate Unites<V(!new)>(whole: map<Id, V>, parts: seq<map<Id, V>>) {
    (forall k :: k in whole ==> exists i :: 0 <= i < |parts| && k in parts[i] && parts[i][k] == whole[k]) &&
    forall i, k :: 0 <= i < |parts| && k in parts[i] ==> k in whole && whole[k] == parts[i][k]
  }

  ghost function NodeMaps(graphs: seq<Named>): (r: seq<map<Id, RuntimeOp>>)
    ensures |r| == |graphs|
  {
    seq(|graphs|, i requires 0 <= i < |graphs| => graphs[i].graph.nodes)
  }

  ghost function OutputMaps(graphs: seq<Named>): (r: seq<map<Id, string>>)
    ensures |r| == |graphs|
  {
    seq(|graphs|, i requires 0 <= i < |graphs| => graphs[i].graph.outputs)
  }

  ghost function PathMaps(graphs: seq<Named>): (r: seq<map<Id, string>>)
    ensures |r| == |graphs|
  {
    seq(|graphs|, i requires 0 <= i < |graphs| => graphs[i].graph.paths)
  }

  /** Each output node with the name of its graph and its output name. */
  function TaggedOutputs(g: Named): (r: map<Id, (string, string)>) {
    map n | n in g.graph.outputs :: (g.name, g.graph.outputs[n])
  }

  ghost function TaggedMaps(graphs: seq<Named>): (r: seq<map<Id, (string, string)>>)
    ensures |r| == |graphs|
  {
    seq(|graphs|, i requires 0 <= i < |graphs| => TaggedOutputs(graphs[i]))
  }

  /** The ids, behind the existing ones, that are not listed yet. */
  ghost function Extended(existing: seq<Id>, ids: seq<Id>): (r: seq<Id>)
    ensures existing <= r && Elems(r) == Elems(existing) + Elems(ids)
  {
    if ids == [] then existing
    else
      var n := |ids| - 1;
      var r := Extended(existing, ids[..n]);
      ElemsSnoc(ids, n);
      assert ids[..n + 1] == ids;
      ElemsAppend(r, [ids[n]]);
      if ids[n] in r then r else r + [ids[n]]
  }

  ghost function ListOf(lists: map<Id, seq<Id>>, op: Id): (r: Option<seq<Id>>) {
    if op in lists then Some(lists[op]) else None
  }

  ghost function Joined(a: Option<seq<Id>>, b: Option<seq<Id>>): (r: Option<seq<Id>>) {
    if b.None? then a else if a.None? then b else Some(Extended(a.value, b.value))
  }

  /** The runtime nodes of an operator, graph by graph. */
  ghost function JoinedList(graphs: seq<Named>, op: Id): (r: Option<seq<Id>>) {
    if graphs == [] then None
    else Joined(JoinedList(graphs[..|graphs| - 1], op), ListOf(graphs[|graphs| - 1].graph.dslToRuntime, op))
  }

  /** Each operator lists its runtime nodes of all graphs, in their order. */
  ghost predicate Collects(lists: map<Id, seq<Id>>, graphs: seq<Named>) {
    forall op :: ListOf(lists, op) == JoinedList(graphs, op)
  }

  /** The disjoint union of the graphs. */
  ghost predicate IsUnion(graphs: seq<Named>, m: Merged) {
    Unites(m.graph.nodes, NodeMaps(graphs)) && m.graph.nodeOrder == JoinedOrder(graphs) &&
    Unites(m.graph.outputs, OutputMaps(graphs)) && Unites(m.graph.paths, PathMaps(graphs)) &&
    Unites(m.mapping, TaggedMaps(graphs)) && Collects(m.graph.dslToRuntime, graphs)
  }

  lemma UnitesNext<V(!new)>(whole: map<Id, V>, parts: seq<map<Id, V>>, part: map<Id, V>)
    requires Unites(whole, parts) && whole.Keys !! part.Keys
    ensures Unites(whole + part, parts + [part])
  {
    forall k | k in whole + part
      ensures exists i :: 0 <= i < |parts + [part]| && k in (parts + [part])[i] && (parts + [part])[i][k] == (whole + part)[k]
    {
      if k in part {
        assert k in (parts + [part])[|parts|];
      } else {
        var i :| 0 <= i < |parts| && k in parts[i] && parts[i][k] == whole[k];
        assert k in (parts + [part])[i];
      }
    }
  }

  lemma UnitesKeys<V(!new), W(!new)>(a: map<Id, V>, parts: seq<map<Id, V>>, b: map<Id, W>, others: seq<map<Id, W>>)
    requires Unites(a, parts) && Unites(b, others) && |parts| == |others|
    requires forall i :: 0 <= i < |parts| ==> parts[i].Keys <= others[i].Keys
    ensures a.Keys <= b.Keys
  {
    forall k | k in a ensures k in b {
      var i :| 0 <= i < |parts| && k in parts[i] && parts[i][k] == a[k];
      assert k in others[i];
    }
  }

  /** The loop over one graph's nodes. */
  method AddNodes(nodes: map<Id, RuntimeOp>, order: seq<Id>, g: RuntimeGraph)
    returns (r: Result<(map<Id, RuntimeOp>, seq<Id>), Id>)
    requires g.Valid()
    ensures r.Ok? <==> nodes.Keys !! g.nodes.Keys
    ensures r.Ok? ==> r.value == (nodes + g.nodes, order + g.nodeOrder)
  {
    var all, joined := nodes, order;
    assert Elems(g.nodeOrder[..0]) == {} && Added(nodes, g, {}, all);
    for i := 0 to |g.nodeOrder|
      invariant joined == order + g.nodeOrder[..i] && Added(nodes, g, Elems(g.nodeOrder[..i]), all)
    {
      hide Added, Distinct;
      var n := g.nodeOrder[i];
      assert n in Elems(g.nodeOrder);
      ElemsSnoc(g.nodeOrder, i);
      AddedNext(nodes, g, Elems(g.nodeOrder[..i]), n, all);
      if n in all {
        return Err(n);
      }
      all, joined := all[n := g.nodes[n]], joined + [n];
    }
    assert g.nodeOrder[..|g.nodeOrder|] == g.nodeOrder;
    AddedAll(nodes, g, all);
    r := Ok((all, joined));
  }

  /** Some of the graph's nodes are new and are added. */
  ghost predicate Added(nodes: map<Id, RuntimeOp>, g: RuntimeGraph, some: set<Id>, all: map<Id, RuntimeOp>) {
    some <= g.nodes.Keys && nodes.Keys !! some && all.Keys == nodes.Keys + some &&
    (forall n :: n in nodes ==> all[n] == nodes[n]) && (forall n :: n in some ==> all[n] == g.nodes[n])
  }

  lemma AddedNext(nodes: map<Id, RuntimeOp>, g: RuntimeGraph, some: set<Id>, n: Id, all: map<Id, RuntimeOp>)
    requires Added(nodes, g, some, all) && n in g.nodes && n !in some
    ensures n in all <==> n in nodes
    ensures n !in nodes ==> Added(nodes, g, some + {n}, all[n := g.nodes[n]])
  {
  }

  lemma AddedAll(nodes: map<Id, RuntimeOp>, g: RuntimeGraph, all: map<Id, RuntimeOp>)
    requires Added(nodes, g, g.nodes.Keys, all)
    ensures nodes.Keys !! g.nodes.Keys && all == nodes + g.nodes
  {
  }

  /** The loop that extends an operator's runtime ids by those not yet listed. */
  method Extend(existing: seq<Id>, ids: seq<Id>) returns (r: seq<Id>)
    ensures r == Extended(existing, ids)
  {
    r := existing;
    for i := 0 to |ids|
      invariant r == Extended(existing, ids[..i])
    {
      assert ids[..i + 1][..i] == ids[..i];
      if ids[i] !in r {
        r := r + [ids[i]];
      }
    }
    assert ids[..|ids|] == ids;
  }

  method AddLists(lists: map<Id, seq<Id>>, more: map<Id, seq<Id>>) returns (r: map<Id, seq<Id>>)
    ensures forall op :: ListOf(r, op) == Joined(ListOf(lists, op), ListOf(more, op))
  {
    r := lists;
    var todo := more.Keys;
    while todo != {}
      invariant todo <= more.Keys
      invariant forall op :: op in todo ==> ListOf(r, op) == ListOf(lists, op)
      invariant forall op :: op !in todo ==> ListOf(r, op) == Joined(ListOf(lists, op), ListOf(more, op))
    {
      var op :| op in todo;
      todo := todo - {op};
      assert ListOf(r, op) == ListOf(lists, op);
      var ids := more[op];
      if op in r {
        ids := Extend(r[op], more[op]);
      }
      r := r[op := ids];
    }
  }

  /** `merge_runtime_graphs`: the disjoint union, unless a node id occurs twice. */
  method MergeRuntimeGraphs(graphs: seq<Named>) returns (r: Result<Merged, Id>)
    requires AllValid(graphs)
    ensures r.Ok? <==> Apart(graphs)
    ensures r.Ok? ==> IsUnion(graphs, r.value)
  {
    var m := Merged(RuntimeGraph(map[], [], map[], map[], map[]), map[]);
    NothingMerged(graphs, m);
    for i := 0 to |graphs|
      invariant Apart(graphs[..i]) && IsUnion(graphs[..i], m)
    {
      var g := graphs[i];
      assert g.graph.Valid();
      var added := AddNodes(m.graph.nodes, m.graph.nodeOrder, g.graph);
      ApartNext(graphs, i, m);
      if added.Err? {
        return Err(added.error);
      }
      var lists := AddLists(m.graph.dslToRuntime, g.graph.dslToRuntime);
      ghost var before := m;
      var outputs, paths := m.graph.outputs + g.graph.outputs, m.graph.paths + g.graph.paths;
      m := Merged(RuntimeGraph(added.value.0, added.value.1, outputs, paths, lists), m.mapping + TaggedOutputs(g));
      UnionNext(graphs, i, before, m);
    }
    assert graphs[..|graphs|] == graphs;
    r := Ok(m);
  }

  lemma NothingMerged(graphs: seq<Named>, m: Merged)
    requires m == Merged(RuntimeGraph(map[], [], map[], map[], map[]), map[])
    ensures Apart(graphs[..0]) && IsUnion(graphs[..0], m)
  {
  }

  lemma ApartNext(graphs: seq<Named>, i: nat, m: Merged)
    requires i < |graphs| && Apart(graphs[..i]) && IsUnion(graphs[..i], m)
    ensures Apart(graphs[..i + 1]) <==> m.graph.nodes.Keys !! graphs[i].graph.nodes.Keys
    ensures Apart(graphs) ==> Apart(graphs[..i + 1])
  {
    var parts := NodeMaps(graphs[..i]);
    assert forall j :: 0 <= j < i ==> parts[j] == graphs[j].graph.nodes;
    if m.graph.nodes.Keys !! graphs[i].graph.nodes.Keys {
      forall j | 0 <= j < i ensures graphs[j].graph.nodes.Keys !! graphs[i].graph.nodes.Keys {
        assert forall k :: k in parts[j] ==> k in m.graph.nodes;
      }
    }
    if Apart(graphs[..i + 1]) {
      forall k | k in m.graph.nodes ensures k !in graphs[i].graph.nodes {
        var j :| 0 <= j < |parts| && k in parts[j] && parts[j][k] == m.graph.nodes[k];
        assert graphs[..i + 1][j].graph.nodes.Keys !! graphs[..i + 1][i].graph.nodes.Keys;
      }
    }
  }

  lemma UnionNext(graphs: seq<Named>, i: nat, m: Merged, n: Merged)
    requires i < |graphs| && AllValid(graphs) && IsUnion(graphs[..i], m)
    requires m.graph.nodes.Keys !! graphs[i].graph.nodes.Keys
    requires n.graph.nodes == m.graph.nodes + graphs[i].graph.nodes
    requires n.graph.nodeOrder == m.graph.nodeOrder + graphs[i].graph.nodeOrder
    requires n.graph.outputs == m.graph.outputs + graphs[i].graph.outputs
    requires n.graph.paths == m.graph.paths + graphs[i].graph.paths
    requires n.mapping == m.mapping + TaggedOutputs(graphs[i])
    requires forall op ::
               ListOf(n.graph.dslToRuntime, op) == Joined(ListOf(m.graph.dslToRuntime, op), ListOf(graphs[i].graph.dslToRuntime, op))
    ensures IsUnion(graphs[..i + 1], n)
  {
    hide JoinedOrder, Collects, AllValid, Unites, NodeMaps, OutputMaps, PathMaps, TaggedMaps, TaggedOutputs, ListOf,
         Joined, RuntimeGraph.Valid;
    var g, some := graphs[i].graph, graphs[..i];
    MapsNext(graphs, i);
    PartKeys(graphs, i);
    KeysInNodes(some, m);
    UnitesNext(m.graph.nodes, NodeMaps(some), g.nodes);
    UnitesNext(m.graph.outputs, OutputMaps(some), g.outputs);
    UnitesNext(m.graph.paths, PathMaps(some), g.paths);
    UnitesNext(m.mapping, TaggedMaps(some), TaggedOutputs(graphs[i]));
    CollectsNext(graphs, i, m.graph.dslToRuntime, n.graph.dslToRuntime);
  }

  lemma MapsNext(graphs: seq<Named>, i: nat)
    requires i < |graphs|
    ensures NodeMaps(graphs[..i + 1]) == NodeMaps(graphs[..i]) + [graphs[i].graph.nodes]
    ensures OutputMaps(graphs[..i + 1]) == OutputMaps(graphs[..i]) + [graphs[i].graph.outputs]
    ensures PathMaps(graphs[..i + 1]) == PathMaps(graphs[..i]) + [graphs[i].graph.paths]
    ensures TaggedMaps(graphs[..i + 1]) == TaggedMaps(graphs[..i]) + [TaggedOutputs(graphs[i])]
    ensures JoinedOrder(graphs[..i + 1]) == JoinedOrder(graphs[..i]) + graphs[i].graph.nodeOrder
  {
    assert graphs[..i + 1][..i] == graphs[..i];
  }

  lemma PartKeys(graphs: seq<Named>, i: nat)
    requires i < |graphs| && AllValid(graphs)
    ensures AllValid(graphs[..i])
    ensures graphs[i].graph.outputs.Keys <= graphs[i].graph.nodes.Keys
    ensures graphs[i].graph.paths.Keys <= graphs[i].graph.nodes.Keys
    ensures TaggedOutputs(graphs[i]).Keys == graphs[i].graph.outputs.Keys
  {
    assert graphs[i].graph.Valid();
  }

  lemma KeysInNodes(graphs: seq<Named>, m: Merged)
    requires IsUnion(graphs, m) && AllValid(graphs)
    ensures m.graph.outputs.Keys <= m.graph.nodes.Keys && m.graph.paths.Keys <= m.graph.nodes.Keys
    ensures m.mapping.Keys <= m.graph.nodes.Keys
  {
    assert forall j :: 0 <= j < |graphs| ==> graphs[j].graph.Valid();
    hide Unites, Collects, JoinedOrder;
    UnitesKeys(m.graph.outputs, OutputMaps(graphs), m.graph.nodes, NodeMaps(graphs));
    UnitesKeys(m.graph.paths, PathMaps(graphs), m.graph.nodes, NodeMaps(graphs));
    UnitesKeys(m.mapping, TaggedMaps(graphs), m.graph.nodes, NodeMaps(graphs));
  }

  lemma CollectsNext(graphs: seq<Named>, i: nat, lists: map<Id, seq<Id>>, more: map<Id, seq<Id>>)
    requires i < |graphs| && Collects(lists, graphs[..i])
    requires forall op :: ListOf(more, op) == Joined(ListOf(lists, op), ListOf(graphs[i].graph.dslToRuntime, op))
    ensures Collects(more, graphs[..i + 1])
  {
    assert graphs[..i + 1][..i] == graphs[..i];
    hide ListOf, Joined;
  }

  // ---- the lists of the operators ------------------------------------------------------------

  /** Each operator lists nodes of its graph, each once. */
  ghost predicate OwnLists(g: RuntimeGraph) {
    forall op :: op in g.dslToRuntime ==> Distinct(g.dslToRuntime[op]) && Elems(g.dslToRuntime[op]) <= g.nodes.Keys
  }

  ghost predicate AllOwn(graphs: seq<Named>) {
    forall i :: 0 <= i < |graphs| ==> OwnLists(graphs[i].graph)
  }

  /** The operator's lists of all graphs, one behind the other. */
  ghost function Concatenated(graphs: seq<Named>, op: Id): (r: seq<Id>) {
    if graphs == [] then []
    else
      var last := ListOf(graphs[|graphs| - 1].graph.dslToRuntime, op);
      Concatenated(graphs[..|graphs| - 1], op) + if last.Some? then last.value else []
  }

  ghost predicate HasList(graphs: seq<Named>, op: Id) {
    exists i :: 0 <= i < |graphs| && op in graphs[i].graph.dslToRuntime
  }

  lemma {:induction false} ExtendedByNew(existing: seq<Id>, ids: seq<Id>)
    requires Distinct(ids) && Elems(existing) !! Elems(ids)
    ensures Extended(existing, ids) == existing + ids
  {
    if ids != [] {
      var n := |ids| - 1;
      ElemsSnoc(ids, n);
      assert ids[..n + 1] == ids == ids[..n] + [ids[n]];
      assert ids[n] in Elems(ids);
      ExtendedByNew(existing, ids[..n]);
      assert ids[n] !in existing by { assert ids[n] !in Elems(existing); }
    }
  }

  /** Every listed node belongs to one of the graphs. */
  lemma {:induction false} ConcatenatedNodes(graphs: seq<Named>, op: Id, x: Id)
    requires AllOwn(graphs) && x in Concatenated(graphs, op)
    ensures exists i :: 0 <= i < |graphs| && x in graphs[i].graph.nodes
  {
    var n := |graphs| - 1;
    var last := graphs[n].graph;
    assert OwnLists(last);
    if op in last.dslToRuntime && x in last.dslToRuntime[op] {
      assert x in Elems(last.dslToRuntime[op]);
    } else {
      ConcatenatedNodes(graphs[..n], op, x);
      var i :| 0 <= i < n && x in graphs[..n][i].graph.nodes;
      assert x in graphs[i].graph.nodes;
    }
  }

  lemma {:induction false} JoinedIsConcatenated(graphs: seq<Named>, op: Id)
    requires AllOwn(graphs) && Apart(graphs)
    ensures JoinedList(graphs, op) == if HasList(graphs, op) then Some(Concatenated(graphs, op)) else None
    ensures !HasList(graphs, op) ==> Concatenated(graphs, op) == []
  {
    if graphs != [] {
      var n := |graphs| - 1;
      var init, last := graphs[..n], ListOf(graphs[n].graph.dslToRuntime, op);
      assert forall i :: 0 <= i < n ==> init[i] == graphs[i];
      hide Distinct, Elems, Extended;
      JoinedIsConcatenated(init, op);
      assert HasList(graphs, op) <==> HasList(init, op) || last.Some?;
      assert OwnLists(graphs[n].graph);
      if last.Some? {
        forall x | x in Elems(Concatenated(init, op)) ensures x !in Elems(last.value) {
          assert x in Concatenated(init, op) by { InElems(Concatenated(init, op), x); }
          ConcatenatedNodes(init, op, x);
          var i :| 0 <= i < n && x in init[i].graph.nodes;
          assert graphs[i].graph.nodes.Keys !! graphs[n].graph.nodes.Keys;
        }
        ExtendedByNew(Concatenated(init, op), last.value);
        assert [] + last.value == last.value;
      } else {
        assert Concatenated(init, op) + [] == Concatenated(init, op);
      }
    }
  }

  lemma InElems(s: seq<Id>, x: Id)
    ensures x in Elems(s) <==> x in s
  {
  }

  /** In a union of graphs that list their own nodes, an operator's list is the concatenation of its lists, in the
      order of the graphs. */
  lemma ListsAreConcatenated(graphs: seq<Named>, m: Merged, op: Id)
    requires AllOwn(graphs) && Apart(graphs) && IsUnion(graphs, m)
    ensures op in m.graph.dslToRuntime <==> HasList(graphs, op)
    ensures op in m.graph.dslToRuntime ==> m.graph.dslToRuntime[op] == Concatenated(graphs, op)
  {
    hide Unites, AllOwn, Apart, JoinedList, JoinedOrder, Concatenated;
    JoinedIsConcatenated(graphs, op);
    assert ListOf(m.graph.dslToRuntime, op) == JoinedList(graphs, op);
  }

  // ---- the outputs -------------------------------------------------------------------------

  /** Each output node is mapped to the name of the graph that holds it and to the name that graph gives it; nothing
      else is mapped. */
  lemma OutputsTagged(graphs: seq<Named>, m: Merged, n: Id)
    requires IsUnion(graphs, m)
    ensures n in m.mapping <==> exists i :: 0 <= i < |graphs| && n in graphs[i].graph.outputs
    ensures forall i :: 0 <= i < |graphs| && n in graphs[i].graph.outputs ==>
              n in m.mapping && m.mapping[n].0 == graphs[i].name && m.mapping[n].1 == graphs[i].graph.outputs[n] &&
              n in m.graph.outputs && m.graph.outputs[n] == graphs[i].graph.outputs[n]
  {
    hide Collects, JoinedOrder;
    forall i | 0 <= i < |graphs| && n in graphs[i].graph.outputs
      ensures n in m.mapping && m.mapping[n] == (graphs[i].name, graphs[i].graph.outputs[n])
      ensures n in m.graph.outputs && m.graph.outputs[n] == graphs[i].graph.outputs[n]
    {
      assert n in TaggedMaps(graphs)[i] && n in OutputMaps(graphs)[i];
    }
    if n in m.mapping {
      var i :| 0 <= i < |graphs| && n in TaggedMaps(graphs)[i] && TaggedMaps(graphs)[i][n] == m.mapping[n];
      assert n in graphs[i].graph.outputs;
    }
  }
}
