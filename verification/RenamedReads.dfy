/** What renaming does to every field of every node: each reference becomes the new id of what it named, so that a
    renamed graph reads as the graph did (runtime/runtime_graph.py:232-290). */
module RenamedReads {
  import opened Collections
  import opened RuntimeGraphs
  import opened ExecutionOrder
  import NB = NodeBuilding

  /** The ids with the renamed ones replaced. */
  ghost function Image(m: map<Id, Id>, ids: set<Id>): (r: set<Id>) {
    set id | id in ids :: if id in m then m[id] else id
  }

  ghost predicate ImageOf(m: map<Id, Id>, before: seq<Id>, after: seq<Id>) {
    |after| == |before| && forall i :: 0 <= i < |before| ==> after[i] == if before[i] in m then m[before[i]] else before[i]
  }

  /** Every field of the node under its new name refers to the new names of what it referred to. */
  ghost predicate FieldsRenamed(m: map<Id, Id>, op: RuntimeOp, now: RuntimeOp) {
    now.task == op.task && Refs(now.data) == Image(m, Refs(op.data)) && Refs(now.model) == Image(m, Refs(op.model)) &&
    Refs(now.inference) == Image(m, Refs(op.inference)) && ImageOf(m, op.dependencies, now.dependencies) &&
    (now.output.Some? <==> op.output.Some?) && (now.condition.Some? <==> op.condition.Some?) &&
    (op.output.Some? ==> Refs(now.output.value) == Image(m, Refs(op.output.value))) &&
    (op.condition.Some? ==>
      now.condition.value.node == (if op.condition.value.node in m then m[op.condition.value.node] else op.condition.value.node) &&
      Refs(now.condition.value.rest) == Image(m, Refs(op.condition.value.rest)))
  }

  lemma RemapImage(v: Value, m: map<Id, Id>)
    ensures Refs(Remap(v, m)) == Image(m, Refs(v))
  {
    RemapRefs(v, m);
    hide Remap, Refs;
  }

  lemma OpRenamed(op: RuntimeOp, m: map<Id, Id>)
    ensures FieldsRenamed(m, op, RenameOp(op, m))
  {
    hide Remap, Refs, Image;
    RemapImage(op.data, m);
    RemapImage(op.model, m);
    RemapImage(op.inference, m);
    if op.output.Some? {
      RemapImage(op.output.value, m);
    }
    if op.condition.Some? {
      RemapImage(op.condition.value.rest, m);
    }
  }

  ghost predicate Renames(g: RuntimeGraph, m: map<Id, Id>) {
    g.Valid() && m.Keys == g.nodes.Keys && Injective(m)
  }

  /** The renamed graph has each node under its new name, with all its references renamed, and nothing else. */
  lemma NodesRenamed(g: RuntimeGraph, m: map<Id, Id>)
    requires Renames(g, m)
    ensures var h := Rename(g, m);
            h.nodes.Keys == m.Values &&
            forall id :: id in g.nodes ==> m[id] in h.nodes && FieldsRenamed(m, g.nodes[id], h.nodes[m[id]])
  {
    hide RenameOp, FieldsRenamed, Distinct, Elems, RenamedAll, RenameLists;
    var h := Rename(g, m);
    forall id | id in g.nodes ensures m[id] in h.nodes && FieldsRenamed(m, g.nodes[id], h.nodes[m[id]]) {
      RenamedAt(m, g.nodes, id);
      OpRenamed(g.nodes[id], m);
    }
    forall y | y in h.nodes ensures y in m.Values {
      var id := RenamedFrom(m, g.nodes, y);
    }
  }

  /** Outputs, paths, the node order and the lists of the operators follow. */
  lemma MapsRenamed(g: RuntimeGraph, m: map<Id, Id>)
    requires Renames(g, m)
    ensures var h := Rename(g, m);
            ImageOf(m, g.nodeOrder, h.nodeOrder) && h.outputs.Keys == Image(m, g.outputs.Keys) &&
            h.paths.Keys == Image(m, g.paths.Keys) && h.dslToRuntime.Keys == g.dslToRuntime.Keys
    ensures var h := Rename(g, m);
            (forall id :: id in g.outputs ==> id in m && m[id] in h.outputs && h.outputs[m[id]] == g.outputs[id]) &&
            (forall id :: id in g.paths ==> id in m && m[id] in h.paths && h.paths[m[id]] == g.paths[id]) &&
            forall op :: op in g.dslToRuntime ==> ImageOf(m, g.dslToRuntime[op], h.dslToRuntime[op])
  {
    hide RenameNodes, Distinct, Elems;
    KeysRenamed(m, g.outputs);
    KeysRenamed(m, g.paths);
    hide RenameKeys, Image, Injective;
  }

  lemma KeysRenamed(m: map<Id, Id>, values: map<Id, string>)
    requires values.Keys <= m.Keys && Injective(m)
    ensures RenameKeys(m, values).Keys == Image(m, values.Keys)
    ensures forall id :: id in values ==> m[id] in RenameKeys(m, values) && RenameKeys(m, values)[m[id]] == values[id]
  {
    forall id | id in values ensures m[id] in RenameKeys(m, values) && RenameKeys(m, values)[m[id]] == values[id] {
      RenamedAt(m, values, id);
    }
    forall y | y in RenameKeys(m, values) ensures y in Image(m, values.Keys) {
      var id := RenamedFrom(m, values, y);
    }
  }

  // ---- reads -------------------------------------------------------------------------------

  lemma ImageSubset(m: map<Id, Id>, a: set<Id>, b: set<Id>)
    requires Injective(m) && NoCapture(m, a + b)
    ensures Image(m, a) <= Image(m, b) <==> a <= b
  {
    if Image(m, a) <= Image(m, b) {
      forall x | x in a ensures x in b {
        var y := if x in m then m[x] else x;
        assert y in Image(m, a);
        var z :| z in b && y == if z in m then m[z] else z;
      }
    }
  }

  lemma ImageElems(m: map<Id, Id>, before: seq<Id>, after: seq<Id>)
    requires ImageOf(m, before, after)
    ensures Elems(after) == Image(m, Elems(before))
  {
    forall x | x in Elems(after) ensures x in Image(m, Elems(before)) {
      var i :| 0 <= i < |after| && after[i] == x;
      assert before[i] in Elems(before);
    }
    forall x | x in Image(m, Elems(before)) ensures x in Elems(after) {
      var d :| d in Elems(before) && x == if d in m then m[d] else d;
      var i :| 0 <= i < |before| && before[i] == d;
      assert after[i] == x;
    }
  }

  lemma NoCaptureMore(m: map<Id, Id>, some: set<Id>, all: set<Id>)
    requires NoCapture(m, all) && some <= all
    ensures NoCapture(m, some)
  {
  }

  /** A node of the renamed graph depends on all it reads exactly when it did before. */
  lemma CoveredIff(g: RuntimeGraph, m: map<Id, Id>, id: Id)
    requires Renames(g, m) && Unambiguous(g, m) && id in g.nodes
    ensures m[id] in Rename(g, m).nodes
    ensures NB.ReadsCovered(Rename(g, m).nodes[m[id]]) <==> NB.ReadsCovered(g.nodes[id])
  {
    var op, h := g.nodes[id], Rename(g, m);
    NodesRenamed(g, m);
    hide Refs, Image, Rename, NoCapture, Injective, RuntimeGraph.Valid;
    var now := h.nodes[m[id]];
    ImageElems(m, op.dependencies, now.dependencies);
    NoCaptureMore(m, Refs(op.data) + Elems(op.dependencies), OpRefs(op));
    ImageSubset(m, Refs(op.data), Elems(op.dependencies));
  }

  lemma ImageMember(m: map<Id, Id>, ids: set<Id>, x: Id)
    requires x in m && Injective(m) && NoCapture(m, ids)
    ensures m[x] in Image(m, ids) <==> x in ids
  {
    if m[x] in Image(m, ids) {
      var z :| z in ids && m[x] == if z in m then m[z] else z;
    }
  }

  /** Under their new names the nodes read what they read. */
  ghost predicate ReadAlike(m: map<Id, Id>, nodes: map<Id, RuntimeOp>, moved: map<Id, RuntimeOp>) {
    m.Keys == nodes.Keys && moved.Keys == m.Values && Injective(m) &&
    forall id, d :: id in nodes && d in nodes ==> (m[d] in Refs(moved[m[id]].data) <==> d in Refs(nodes[id].data))
  }

  lemma ReadsForth(m: map<Id, Id>, nodes: map<Id, RuntimeOp>, moved: map<Id, RuntimeOp>, order: seq<Id>, renamed: seq<Id>)
    requires ReadAlike(m, nodes, moved) && ImageOf(m, order, renamed) && NB.ReadsInOrder(nodes, order)
    requires forall j :: 0 <= j < |order| ==> order[j] in nodes
    ensures NB.ReadsInOrder(moved, renamed)
  {
    hide Refs;
    forall j, y | 0 <= j < |renamed| && renamed[j] in moved && y in Refs(moved[renamed[j]].data) && y in moved
      ensures y in renamed[..j]
    {
      var d := SourceOf(m, y);
      assert order[j] in nodes && d in Refs(nodes[order[j]].data);
      var k :| 0 <= k < j && order[k] == d;
      assert renamed[..j][k] == y;
    }
  }

  lemma ReadsBack(m: map<Id, Id>, nodes: map<Id, RuntimeOp>, moved: map<Id, RuntimeOp>, order: seq<Id>, renamed: seq<Id>)
    requires ReadAlike(m, nodes, moved) && ImageOf(m, order, renamed) && NB.ReadsInOrder(moved, renamed)
    requires forall j :: 0 <= j < |order| ==> order[j] in nodes
    ensures NB.ReadsInOrder(nodes, order)
  {
    hide Refs;
    forall j, d | 0 <= j < |order| && order[j] in nodes && d in Refs(nodes[order[j]].data) && d in nodes
      ensures d in order[..j]
    {
      assert renamed[j] == m[order[j]] && m[d] in Refs(moved[renamed[j]].data);
      assert m[d] in renamed[..j];
      var k :| 0 <= k < j && renamed[k] == m[d];
      SameSource(m, order[k], d);
      assert order[..j][k] == d;
    }
  }

  /** Reading order is kept: in the renamed order every read comes after the node it reads exactly when it did. */
  lemma OrderReadsIff(g: RuntimeGraph, m: map<Id, Id>, order: seq<Id>, renamed: seq<Id>)
    requires Renames(g, m) && Unambiguous(g, m) && Elems(order) <= g.nodes.Keys && ImageOf(m, order, renamed)
    ensures NB.ReadsInOrder(Rename(g, m).nodes, renamed) <==> NB.ReadsInOrder(g.nodes, order)
  {
    hide *;
    RenamesGives(g, m);
    Alike(g, m);
    Inside(order, g.nodes.Keys);
    var moved := Rename(g, m).nodes;
    if NB.ReadsInOrder(moved, renamed) {
      ReadsBack(m, g.nodes, moved, order, renamed);
    }
    if NB.ReadsInOrder(g.nodes, order) {
      ReadsForth(m, g.nodes, moved, order, renamed);
    }
  }

  lemma RenamesGives(g: RuntimeGraph, m: map<Id, Id>)
    requires Renames(g, m)
    ensures m.Keys == g.nodes.Keys && Injective(m) && g.outputs.Keys <= m.Keys && g.paths.Keys <= m.Keys
  {
    hide Injective, Distinct, Elems;
  }

  lemma Alike(g: RuntimeGraph, m: map<Id, Id>)
    requires Renames(g, m) && Unambiguous(g, m)
    ensures ReadAlike(m, g.nodes, Rename(g, m).nodes)
  {
    hide Refs, Rename, NoCapture, RuntimeGraph.Valid, FieldsRenamed, Unambiguous, Injective;
    RenamesGives(g, m);
    NodesRenamed(g, m);
    forall id, d | id in g.nodes && d in g.nodes
      ensures m[d] in Refs(Rename(g, m).nodes[m[id]].data) <==> d in Refs(g.nodes[id].data)
    {
      ReadRenamed(g, m, id, d);
    }
  }

  lemma Inside(order: seq<Id>, ids: set<Id>)
    requires Elems(order) <= ids
    ensures forall j :: 0 <= j < |order| ==> order[j] in ids
  {
    assert forall j :: 0 <= j < |order| ==> order[j] in Elems(order);
  }

  lemma SameSource(m: map<Id, Id>, a: Id, b: Id)
    requires Injective(m) && a in m && b in m && m[a] == m[b]
    ensures a == b
  {
  }

  lemma SourceOf(m: map<Id, Id>, y: Id) returns (x: Id)
    requires y in m.Values
    ensures x in m && m[x] == y
  {
    x :| x in m && m[x] == y;
  }

  lemma ReadRenamed(g: RuntimeGraph, m: map<Id, Id>, id: Id, d: Id)
    requires Renames(g, m) && Unambiguous(g, m) && id in g.nodes && d in g.nodes
    ensures m[id] in Rename(g, m).nodes
    ensures m[d] in Refs(Rename(g, m).nodes[m[id]].data) <==> d in Refs(g.nodes[id].data)
  {
    NodesRenamed(g, m);
    hide Refs, Image, Rename, NoCapture, Injective, RuntimeGraph.Valid;
    NoCaptureMore(m, Refs(g.nodes[id].data), OpRefs(g.nodes[id]));
    ImageMember(m, Refs(g.nodes[id].data), d);
  }

  // ---- prefixes ----------------------------------------------------------------------------

  /** The ids with the prefix before those that are nodes. */
  ghost function PrefixedIds(prefix: string, nodes: set<Id>, ids: set<Id>): (r: set<Id>) {
    set id | id in ids :: if id in nodes then prefix + "__" + id else id
  }

  lemma PrefixImage(prefix: string, nodes: set<Id>, ids: set<Id>)
    ensures Image(Prefixes(prefix, nodes), ids) == PrefixedIds(prefix, nodes, ids)
  {
  }

  /** `with_node_prefix` prefixes every reference to a node, in the data, specifications, output and condition of each
      node, and its dependencies; a graph whose nodes depend on all they read keeps that, and loses it no more. */
  lemma PrefixedReads(g: RuntimeGraph, prefix: string, id: Id)
    requires g.Valid() && prefix != "" && id in g.nodes && Unambiguous(g, Prefixes(prefix, g.nodes.Keys))
    ensures var op, h, nodes := g.nodes[id], WithNodePrefix(g, prefix), g.nodes.Keys;
            prefix + "__" + id in h.nodes &&
            var now := h.nodes[prefix + "__" + id];
            Refs(now.data) == PrefixedIds(prefix, nodes, Refs(op.data)) &&
            Refs(now.model) == PrefixedIds(prefix, nodes, Refs(op.model)) &&
            Refs(now.inference) == PrefixedIds(prefix, nodes, Refs(op.inference)) &&
            Elems(now.dependencies) == PrefixedIds(prefix, nodes, Elems(op.dependencies)) &&
            (now.output.Some? <==> op.output.Some?) && (now.condition.Some? <==> op.condition.Some?) &&
            (op.output.Some? ==> Refs(now.output.value) == PrefixedIds(prefix, nodes, Refs(op.output.value))) &&
            (op.condition.Some? ==>
              {now.condition.value.node} == PrefixedIds(prefix, nodes, {op.condition.value.node}) &&
              Refs(now.condition.value.rest) == PrefixedIds(prefix, nodes, Refs(op.condition.value.rest))) &&
            (NB.ReadsCovered(now) <==> NB.ReadsCovered(op))
  {
    var m := Prefixes(prefix, g.nodes.Keys);
    PrefixesInjective(prefix, g.nodes.Keys);
    NodesRenamed(g, m);
    CoveredIff(g, m, id);
    forall ids ensures Image(m, ids) == PrefixedIds(prefix, g.nodes.Keys, ids) {
      PrefixImage(prefix, g.nodes.Keys, ids);
    }
    var op, now := g.nodes[id], Rename(g, m).nodes[m[id]];
    ImageElems(m, op.dependencies, now.dependencies);
    if op.condition.Some? {
      assert Image(m, {op.condition.value.node}) == {now.condition.value.node} by { OneImage(m, op.condition.value.node); }
    }
    hide Refs, Image, PrefixedIds, Rename, NoCapture, Injective, RuntimeGraph.Valid, NB.ReadsCovered, Unambiguous, ImageOf;
  }

  lemma OneImage(m: map<Id, Id>, id: Id)
    ensures Image(m, {id}) == {if id in m then m[id] else id}
  {
  }

  /** In the prefixed order every read comes after the node it reads exactly when it did. */
  lemma PrefixedOrderReads(g: RuntimeGraph, prefix: string, order: seq<Id>)
    requires g.Valid() && prefix != "" && Elems(order) <= g.nodes.Keys && Unambiguous(g, Prefixes(prefix, g.nodes.Keys))
    ensures NB.ReadsInOrder(WithNodePrefix(g, prefix).nodes, Prefixed(prefix, order)) <==> NB.ReadsInOrder(g.nodes, order)
  {
    PrefixesInjective(prefix, g.nodes.Keys);
    Inside(order, g.nodes.Keys);
    hide Refs, Rename, NoCapture, Injective, RuntimeGraph.Valid, NB.ReadsInOrder, Unambiguous, Elems;
    OrderReadsIff(g, Prefixes(prefix, g.nodes.Keys), order, Prefixed(prefix, order));
  }
}
