/** Runtime graphs: execution order, exported dependencies, renaming and merging
    (runtime/runtime_graph.py:182-332, runtime/runtime_ops.py:78-107). */
module RuntimeGraphs {
  import opened Collections
  import opened TopologicalSort

  type Id = string

  // ---- specifications with embedded node references ----------------------------------------

  /** A JSON value; an object keeps its entries in order. */
  datatype Value = Text(text: string) | Scalar(repr: string) | List(items: seq<Value>) | Object(entries: seq<Entry>)

  datatype Entry = Entry(key: string, value: Value)

  /** A run condition: the node it looks at and the rest of the object. */
  datatype Condition = Condition(node: Id, rest: Value)

  datatype RuntimeOp = RuntimeOp(task: string, data: Value, model: Value, inference: Value, dependencies: seq<Id>,
                                 output: Option<Value>, condition: Option<Condition>)

  datatype RuntimeGraph = RuntimeGraph(nodes: map<Id, RuntimeOp>, nodeOrder: seq<Id>, outputs: map<Id, string>,
                                       paths: map<Id, string>, dslToRuntime: map<Id, seq<Id>>)
  {
    /** The order lists every node once; outputs and paths belong to nodes. */
    ghost predicate Valid() {
      Distinct(nodeOrder) && Elems(nodeOrder) == nodes.Keys && outputs.Keys <= nodes.Keys && paths.Keys <= nodes.Keys
    }
  }

  function Renamed(m: map<Id, Id>, id: Id): (r: Id) {
    if id in m then m[id] else id
  }

  function RenamedAll(m: map<Id, Id>, ids: seq<Id>): (r: seq<Id>)
    ensures |r| == |ids| && forall i :: 0 <= i < |ids| ==> r[i] == Renamed(m, ids[i])
  {
    seq(|ids|, i requires 0 <= i < |ids| => Renamed(m, ids[i]))
  }

  /** `remap`: text under the key `node` that names a node is renamed, everything else is kept. */
  function Remap(v: Value, m: map<Id, Id>): (r: Value) {
    match v
    case Text(_) => v
    case Scalar(_) => v
    case List(items) => List(seq(|items|, i requires 0 <= i < |items| => Remap(items[i], m)))
    case Object(entries) => Object(seq(|entries|, i requires 0 <= i < |entries| => RemapEntry(entries[i], m)))
  }

  function RemapEntry(e: Entry, m: map<Id, Id>): (r: Entry) {
    if e.key == "node" && e.value.Text? && e.value.text in m then Entry(e.key, Text(m[e.value.text]))
    else Entry(e.key, Remap(e.value, m))
  }

  /** The nodes a value refers to. */
  ghost function Refs(v: Value): (r: set<Id>) {
    match v
    case Text(_) => {}
    case Scalar(_) => {}
    case List(items) => set i, id | 0 <= i < |items| && id in Refs(items[i]) :: id
    case Object(entries) => set i, id | 0 <= i < |entries| && id in EntryRefs(entries[i]) :: id
  }

  ghost function EntryRefs(e: Entry): (r: set<Id>) {
    if e.key == "node" && e.value.Text? then {e.value.text} else Refs(e.value)
  }

  ghost predicate Injective(m: map<Id, Id>) {
    forall a, b :: a in m && b in m && m[a] == m[b] ==> a == b
  }

  ghost function Source(m: map<Id, Id>, y: Id): (r: Id)
    requires y in m.Values
    ensures r in m && m[r] == y
  {
    var x :| x in m && m[x] == y;
    x
  }

  ghost function Inverse(m: map<Id, Id>): (r: map<Id, Id>)
    requires Injective(m)
    ensures r.Keys == m.Values && forall id :: id in m ==> m[id] in r && r[m[id]] == id
  {
    map y | y in m.Values :: Source(m, y)
  }

  /** No id outside the map is taken for a new name. */
  ghost predicate NoCapture(m: map<Id, Id>, ids: set<Id>) {
    forall id :: id in ids && id !in m ==> id !in m.Values
  }

  lemma RenamedBack(m: map<Id, Id>, id: Id)
    requires Injective(m) && NoCapture(m, {id})
    ensures Renamed(Inverse(m), Renamed(m, id)) == id
  {
  }

  /** Renaming references is undone by the inverse renaming: nothing else changes and nothing is confused. */
  lemma {:induction false} RemapBack(v: Value, m: map<Id, Id>)
    requires Injective(m) && NoCapture(m, Refs(v))
    ensures Remap(Remap(v, m), Inverse(m)) == v
    decreases v
  {
    match v
    case Text(_) =>
    case Scalar(_) =>
    case List(items) =>
      forall i | 0 <= i < |items| ensures Remap(Remap(items[i], m), Inverse(m)) == items[i] {
        assert Refs(items[i]) <= Refs(v);
        RemapBack(items[i], m);
      }
      assert Remap(Remap(v, m), Inverse(m)).items == items;
    case Object(entries) =>
      forall i | 0 <= i < |entries| ensures RemapEntry(RemapEntry(entries[i], m), Inverse(m)) == entries[i] {
        assert EntryRefs(entries[i]) <= Refs(v);
        RemapEntryBack(entries[i], m);
      }
      assert Remap(Remap(v, m), Inverse(m)).entries == entries;
  }

  lemma {:induction false} RemapEntryBack(e: Entry, m: map<Id, Id>)
    requires Injective(m) && NoCapture(m, EntryRefs(e))
    ensures RemapEntry(RemapEntry(e, m), Inverse(m)) == e
    decreases e
  {
    if e.key == "node" && e.value.Text? {
      RenamedBack(m, e.value.text);
    } else {
      RemapBack(e.value, m);
      RemapShape(e.value, m);
    }
  }

  lemma RemapShape(v: Value, m: map<Id, Id>)
    ensures Remap(v, m).Text? <==> v.Text?
  {
  }

  /** The references of the renamed value are the renamed references. */
  lemma {:induction false} RemapRefs(v: Value, m: map<Id, Id>)
    ensures Refs(Remap(v, m)) == set id | id in Refs(v) :: Renamed(m, id)
    decreases v
  {
    match v
    case Text(_) =>
    case Scalar(_) =>
    case List(items) =>
      forall i | 0 <= i < |items| ensures Refs(Remap(items[i], m)) == set id | id in Refs(items[i]) :: Renamed(m, id) {
        RemapRefs(items[i], m);
      }
      ListRefs(items, m);
    case Object(entries) =>
      forall i | 0 <= i < |entries|
        ensures EntryRefs(RemapEntry(entries[i], m)) == set id | id in EntryRefs(entries[i]) :: Renamed(m, id)
      {
        RemapEntryRefs(entries[i], m);
      }
      ObjectRefs(entries, m);
  }

  lemma ListRefs(items: seq<Value>, m: map<Id, Id>)
    requires forall i :: 0 <= i < |items| ==> Refs(Remap(items[i], m)) == set id | id in Refs(items[i]) :: Renamed(m, id)
    ensures Refs(Remap(List(items), m)) == set id | id in Refs(List(items)) :: Renamed(m, id)
  {
    var a, b := Refs(Remap(List(items), m)), set id | id in Refs(List(items)) :: Renamed(m, id);
    forall x | x in a ensures x in b {
      var i :| 0 <= i < |items| && x in Refs(Remap(items[i], m));
    }
    forall x | x in b ensures x in a {
      var id :| id in Refs(List(items)) && Renamed(m, id) == x;
      var i :| 0 <= i < |items| && id in Refs(items[i]);
      assert x in Refs(Remap(List(items), m).items[i]);
    }
  }

  lemma ObjectRefs(entries: seq<Entry>, m: map<Id, Id>)
    requires forall i :: 0 <= i < |entries| ==>
      EntryRefs(RemapEntry(entries[i], m)) == set id | id in EntryRefs(entries[i]) :: Renamed(m, id)
    ensures Refs(Remap(Object(entries), m)) == set id | id in Refs(Object(entries)) :: Renamed(m, id)
  {
    var a, b := Refs(Remap(Object(entries), m)), set id | id in Refs(Object(entries)) :: Renamed(m, id);
    forall x | x in a ensures x in b {
      var i :| 0 <= i < |entries| && x in EntryRefs(RemapEntry(entries[i], m));
    }
    forall x | x in b ensures x in a {
      var id :| id in Refs(Object(entries)) && Renamed(m, id) == x;
      var i :| 0 <= i < |entries| && id in EntryRefs(entries[i]);
      assert x in EntryRefs(Remap(Object(entries), m).entries[i]);
    }
  }

  lemma {:induction false} RemapEntryRefs(e: Entry, m: map<Id, Id>)
    ensures EntryRefs(RemapEntry(e, m)) == set id | id in EntryRefs(e) :: Renamed(m, id)
    decreases e
  {
    if e.key == "node" && e.value.Text? {
      assert (set id | id in EntryRefs(e) :: Renamed(m, id)) == {Renamed(m, e.value.text)};
    } else {
      RemapRefs(e.value, m);
      RemapShape(e.value, m);
    }
  }

  // ---- renaming a graph --------------------------------------------------------------------

  function RenameOp(op: RuntimeOp, m: map<Id, Id>): (r: RuntimeOp) {
    op.(data := Remap(op.data, m), model := Remap(op.model, m), inference := Remap(op.inference, m),
        dependencies := RenamedAll(m, op.dependencies),
        output := if op.output.Some? then Some(Remap(op.output.value, m)) else None,
        condition := if op.condition.Some?
                     then Some(Condition(Renamed(m, op.condition.value.node), Remap(op.condition.value.rest, m)))
                     else None)
  }

  function RenameKeys<V>(m: map<Id, Id>, values: map<Id, V>): (r: map<Id, V>)
    requires values.Keys <= m.Keys && Injective(m)
  {
    map id | id in values :: m[id] := values[id]
  }

  lemma RenamedAt<V>(m: map<Id, Id>, values: map<Id, V>, id: Id)
    requires values.Keys <= m.Keys && Injective(m) && id in values
    ensures m[id] in RenameKeys(m, values) && RenameKeys(m, values)[m[id]] == values[id]
  {
  }

  lemma RenamedFrom<V>(m: map<Id, Id>, values: map<Id, V>, y: Id) returns (id: Id)
    requires values.Keys <= m.Keys && Injective(m) && y in RenameKeys(m, values)
    ensures id in values && m[id] == y
  {
    id :| id in values && m[id] == y;
  }

  function RenameNodes(m: map<Id, Id>, nodes: map<Id, RuntimeOp>): (r: map<Id, RuntimeOp>)
    requires nodes.Keys <= m.Keys && Injective(m)
    ensures r.Keys == RenameKeys(m, nodes).Keys
  {
    var moved := RenameKeys(m, nodes);
    map y | y in moved :: RenameOp(moved[y], m)
  }

  function RenameLists(m: map<Id, Id>, lists: map<Id, seq<Id>>): (r: map<Id, seq<Id>>)
    ensures r.Keys == lists.Keys && forall op :: op in lists ==> r[op] == RenamedAll(m, lists[op])
  {
    map op | op in lists :: RenamedAll(m, lists[op])
  }

  function Rename(g: RuntimeGraph, m: map<Id, Id>): (r: RuntimeGraph)
    requires m.Keys == g.nodes.Keys && Injective(m) && g.outputs.Keys <= m.Keys && g.paths.Keys <= m.Keys
  {
    RuntimeGraph(RenameNodes(m, g.nodes), RenamedAll(m, g.nodeOrder), RenameKeys(m, g.outputs),
                 RenameKeys(m, g.paths), RenameLists(m, g.dslToRuntime))
  }

  ghost function OpRefs(op: RuntimeOp): (r: set<Id>) {
    Refs(op.data) + Refs(op.model) + Refs(op.inference) + Elems(op.dependencies) +
    (if op.output.Some? then Refs(op.output.value) else {}) +
    (if op.condition.Some? then {op.condition.value.node} + Refs(op.condition.value.rest) else {})
  }

  /** The map takes no id the graph mentions for a new name. */
  ghost predicate Unambiguous(g: RuntimeGraph, m: map<Id, Id>) {
    (forall id :: id in g.nodes ==> NoCapture(m, OpRefs(g.nodes[id]))) &&
    forall op :: op in g.dslToRuntime ==> NoCapture(m, Elems(g.dslToRuntime[op]))
  }

  lemma RenamedAllBack(m: map<Id, Id>, ids: seq<Id>)
    requires Injective(m) && NoCapture(m, Elems(ids))
    ensures RenamedAll(Inverse(m), RenamedAll(m, ids)) == ids
  {
    forall i | 0 <= i < |ids| ensures RenamedAll(Inverse(m), RenamedAll(m, ids))[i] == ids[i] {
      assert ids[i] in Elems(ids);
      RenamedBack(m, ids[i]);
    }
  }

  lemma RenameOpBack(op: RuntimeOp, m: map<Id, Id>)
    requires Injective(m) && NoCapture(m, OpRefs(op))
    ensures RenameOp(RenameOp(op, m), Inverse(m)) == op
  {
    RemapBack(op.data, m);
    RemapBack(op.model, m);
    RemapBack(op.inference, m);
    RenamedAllBack(m, op.dependencies);
    if op.output.Some? {
      RemapBack(op.output.value, m);
    }
    if op.condition.Some? {
      RenamedBack(m, op.condition.value.node);
      RemapBack(op.condition.value.rest, m);
    }
  }

  lemma InverseAt(m: map<Id, Id>, y: Id)
    requires Injective(m) && y in m.Values
    ensures Inverse(m)[y] in m && m[Inverse(m)[y]] == y
  {
    var x :| x in m && m[x] == y;
    assert Inverse(m)[m[x]] == x;
  }

  lemma InverseInjective(m: map<Id, Id>)
    requires Injective(m)
    ensures Injective(Inverse(m))
  {
    var inverse := Inverse(m);
    forall a, b | a in inverse && b in inverse && inverse[a] == inverse[b] ensures a == b {
      InverseAt(m, a);
      InverseAt(m, b);
    }
  }

  lemma RenamedKeys<V>(m: map<Id, Id>, values: map<Id, V>)
    requires values.Keys <= m.Keys && Injective(m)
    ensures RenameKeys(m, values).Keys <= m.Values
    ensures values.Keys == m.Keys ==> RenameKeys(m, values).Keys == m.Values
  {
    forall y | y in m.Values && values.Keys == m.Keys ensures y in RenameKeys(m, values) {
      RenamedAt(m, values, Source(m, y));
    }
  }

  lemma RenameKeysBack<V>(m: map<Id, Id>, values: map<Id, V>)
    requires values.Keys <= m.Keys && Injective(m)
    ensures RenameKeys(m, values).Keys <= Inverse(m).Keys && Injective(Inverse(m))
    ensures RenameKeys(Inverse(m), RenameKeys(m, values)) == values
  {
    InverseInjective(m);
    RenamedKeys(m, values);
    var once := RenameKeys(m, values);
    var twice := RenameKeys(Inverse(m), once);
    hide RenameKeys, Injective;
    forall id | id in values ensures id in twice && twice[id] == values[id] {
      RenamedAt(m, values, id);
      RenamedAt(Inverse(m), once, m[id]);
    }
    forall id | id in twice ensures id in values {
      var y := RenamedFrom(Inverse(m), once, id);
      var x := RenamedFrom(m, values, y);
    }
  }

  lemma RenamedNodeAt(m: map<Id, Id>, nodes: map<Id, RuntimeOp>, id: Id)
    requires nodes.Keys <= m.Keys && Injective(m) && id in nodes
    ensures m[id] in RenameNodes(m, nodes) && RenameNodes(m, nodes)[m[id]] == RenameOp(nodes[id], m)
  {
    RenamedAt(m, nodes, id);
    hide RenameKeys, RenameOp;
  }

  lemma RenameNodesBack(m: map<Id, Id>, nodes: map<Id, RuntimeOp>)
    requires m.Keys == nodes.Keys && Injective(m) && forall id :: id in nodes ==> NoCapture(m, OpRefs(nodes[id]))
    ensures RenameNodes(m, nodes).Keys == Inverse(m).Keys && Injective(Inverse(m))
    ensures RenameNodes(Inverse(m), RenameNodes(m, nodes)) == nodes
  {
    hide *;
    InverseInjective(m);
    RenamedKeys(m, nodes);
    var once := RenameNodes(m, nodes);
    RenamedNodeKeys(m, nodes);
    InverseKeys(m);
    var twice := RenameNodes(Inverse(m), once);
    forall id | id in nodes ensures id in twice && twice[id] == nodes[id] {
      NodeBack(m, nodes, once, id);
    }
    forall id | id in twice ensures id in nodes {
      TwiceFrom(m, nodes, once, id);
    }
    assert twice.Keys == nodes.Keys;
  }

  lemma RenamedNodeKeys(m: map<Id, Id>, nodes: map<Id, RuntimeOp>)
    requires nodes.Keys <= m.Keys && Injective(m)
    ensures RenameNodes(m, nodes).Keys == RenameKeys(m, nodes).Keys
  {
  }

  lemma InverseKeys(m: map<Id, Id>)
    requires Injective(m)
    ensures Inverse(m).Keys == m.Values
  {
  }

  lemma NodeBack(m: map<Id, Id>, nodes: map<Id, RuntimeOp>, once: map<Id, RuntimeOp>, id: Id)
    requires m.Keys == nodes.Keys && Injective(m) && id in nodes && NoCapture(m, OpRefs(nodes[id]))
    requires Injective(Inverse(m)) && once == RenameNodes(m, nodes) && once.Keys <= Inverse(m).Keys
    ensures id in RenameNodes(Inverse(m), once) && RenameNodes(Inverse(m), once)[id] == nodes[id]
  {
    hide RenameNodes, RenameKeys, RenameOp, OpRefs, Injective, NoCapture;
    RenamedNodeAt(m, nodes, id);
    RenamedNodeAt(Inverse(m), once, m[id]);
    RenameOpBack(nodes[id], m);
  }

  lemma TwiceFrom(m: map<Id, Id>, nodes: map<Id, RuntimeOp>, once: map<Id, RuntimeOp>, id: Id)
    requires m.Keys == nodes.Keys && Injective(m) && Injective(Inverse(m)) && once.Keys <= m.Values
    requires id in RenameNodes(Inverse(m), once)
    ensures id in nodes
  {
    var y := RenamedFrom(Inverse(m), once, id);
    InverseAt(m, y);
  }

  lemma RenameListsBack(m: map<Id, Id>, lists: map<Id, seq<Id>>)
    requires Injective(m) && forall op :: op in lists ==> NoCapture(m, Elems(lists[op]))
    ensures RenameLists(Inverse(m), RenameLists(m, lists)) == lists
  {
    forall op | op in lists ensures RenamedAll(Inverse(m), RenamedAll(m, lists[op])) == lists[op] {
      RenamedAllBack(m, lists[op]);
    }
  }

  /** Renaming is an isomorphism: the inverse renaming gives the graph back, every embedded reference,
      dependency, condition and output included. */
  lemma RenameBack(g: RuntimeGraph, m: map<Id, Id>)
    requires g.Valid() && m.Keys == g.nodes.Keys && Injective(m) && Unambiguous(g, m)
    ensures var h := Rename(g, m);
      Inverse(m).Keys == h.nodes.Keys && Injective(Inverse(m)) && h.outputs.Keys <= h.nodes.Keys &&
      h.paths.Keys <= h.nodes.Keys && Rename(h, Inverse(m)) == g
  {
    hide RenameNodes, RenameKeys, RenamedAll, Injective, OpRefs, NoCapture, Inverse;
    RenameKeysBack(m, g.outputs);
    RenameKeysBack(m, g.paths);
    NodesSafe(m, Elems(g.nodeOrder));
    RenamedAllBack(m, g.nodeOrder);
    RenameNodesBack(m, g.nodes);
    RenameListsBack(m, g.dslToRuntime);
    hide RenameLists;
  }

  lemma NodesSafe(m: map<Id, Id>, ids: set<Id>)
    requires ids <= m.Keys
    ensures NoCapture(m, ids)
  {
  }

  // ---- prefixes ----------------------------------------------------------------------------

  function Prefixes(prefix: string, ids: set<Id>): (r: map<Id, Id>)
    ensures r.Keys == ids
  {
    map id | id in ids :: prefix + "__" + id
  }

  lemma PrefixesInjective(prefix: string, ids: set<Id>)
    ensures Injective(Prefixes(prefix, ids))
  {
    forall a: Id, b: Id | prefix + "__" + a == prefix + "__" + b ensures a == b {
      assert (prefix + "__" + a)[|prefix| + 2..] == a;
      assert (prefix + "__" + b)[|prefix| + 2..] == b;
    }
  }

  /** `with_node_prefix`. */
  function WithNodePrefix(g: RuntimeGraph, prefix: string): (r: RuntimeGraph)
    requires g.outputs.Keys <= g.nodes.Keys && g.paths.Keys <= g.nodes.Keys
  {
    if prefix == "" then g
    else
      PrefixesInjective(prefix, g.nodes.Keys);
      Rename(g, Prefixes(prefix, g.nodes.Keys))
  }

  function Prefixed(prefix: string, ids: seq<Id>): (r: seq<Id>)
    ensures |r| == |ids| && forall i :: 0 <= i < |ids| ==> r[i] == prefix + "__" + ids[i]
  {
    seq(|ids|, i requires 0 <= i < |ids| => prefix + "__" + ids[i])
  }

  /** Renaming `h` by `m` gives `g`. */
  ghost predicate Undoes(m: map<Id, Id>, h: RuntimeGraph, g: RuntimeGraph) {
    m.Keys == h.nodes.Keys && Injective(m) && h.outputs.Keys <= h.nodes.Keys && h.paths.Keys <= h.nodes.Keys &&
    Rename(h, m) == g
  }

  /** Prefixing only adds the prefix: every node has its prefixed id, in the same order, and removing the prefix gives
      the graph back. */
  lemma PrefixBack(g: RuntimeGraph, prefix: string)
    requires g.Valid() && prefix != "" && Unambiguous(g, Prefixes(prefix, g.nodes.Keys))
    ensures WithNodePrefix(g, prefix).nodeOrder == Prefixed(prefix, g.nodeOrder)
    ensures Injective(Prefixes(prefix, g.nodes.Keys))
    ensures Undoes(Inverse(Prefixes(prefix, g.nodes.Keys)), WithNodePrefix(g, prefix), g)
  {
    hide RenameNodes, RenameKeys, RenameLists, Injective, Unambiguous, RenamedAll, Prefixed, Distinct, Prefixes, Elems,
         Inverse;
    PrefixesInjective(prefix, g.nodes.Keys);
    RenameBack(g, Prefixes(prefix, g.nodes.Keys));
    PrefixedAll(prefix, g.nodes.Keys, g.nodeOrder);
  }

  lemma PrefixedAll(prefix: string, nodes: set<Id>, ids: seq<Id>)
    requires Elems(ids) <= nodes
    ensures RenamedAll(Prefixes(prefix, nodes), ids) == Prefixed(prefix, ids)
  {
    forall i | 0 <= i < |ids| ensures ids[i] in nodes {
      assert ids[i] in Elems(ids);
    }
  }
}
