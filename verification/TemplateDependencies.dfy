/** The scan of a template for the nodes it reads (runtime/runtime_graph.py:1508-1538), against the references that
    renaming would change. */
module TemplateDependencies {
  import opened Collections
  import opened RuntimeGraphs

  /** A template column: it reads a node, or carries data, or both. */
  datatype Column = Column(name: string, node: Option<Id>, path: string, data: Option<Data>)

  /** Column data: a dataframe or a nested template, which are looked into, or anything else, which is not. */
  datatype Data = Frame(columns: seq<Column>) | Template(columns: seq<Column>) | Other(value: Value)

  // ---- what a template reads ---------------------------------------------------------------

  /** The JSON form of a column. */
  function ColumnValue(c: Column): (r: Value)
    decreases c, 1
  {
    Object([Entry("label", Text(c.name))] + NodeEntries(c) + DataEntries(c))
  }

  function NodeEntries(c: Column): (r: seq<Entry>) {
    if c.node.Some? then [Entry("node", Text(c.node.value)), Entry("path", Text(c.path))] else []
  }

  function DataEntries(c: Column): (r: seq<Entry>)
    decreases c, 0
  {
    if c.data.Some? then [Entry("data", DataValue(c.data.value))] else []
  }

  function DataValue(d: Data): (r: Value) {
    match d
    case Frame(columns) =>
      Object([Entry("type", Text("dataframe")), Entry("columns", List(ColumnValues(columns)))])
    case Template(columns) =>
      Object([Entry("type", Text("graph_template")),
              Entry("template", Object([Entry("columns", List(ColumnValues(columns)))]))])
    case Other(value) => value
  }

  function ColumnValues(columns: seq<Column>): (r: seq<Value>)
    ensures |r| == |columns| && forall i :: 0 <= i < |columns| ==> r[i] == ColumnValue(columns[i])
  {
    seq(|columns|, i requires 0 <= i < |columns| => ColumnValue(columns[i]))
  }

  /** The nodes the scan finds, column by column. */
  ghost function Scanned(columns: seq<Column>): (r: set<Id>) {
    set i, id | 0 <= i < |columns| && id in ScannedIn(columns[i]) :: id
  }

  ghost function ScannedIn(c: Column): (r: set<Id>) {
    (if c.node.Some? then {c.node.value} else {}) +
    (if c.data.Some? && c.data.value.Frame? then Scanned(c.data.value.columns) else {}) +
    (if c.data.Some? && c.data.value.Template? then Scanned(c.data.value.columns) else {})
  }

  /** The references in data of other kinds, which the scan does not look into. */
  ghost function Unscanned(columns: seq<Column>): (r: set<Id>) {
    set i, id | 0 <= i < |columns| && id in UnscannedIn(columns[i]) :: id
  }

  ghost function UnscannedIn(c: Column): (r: set<Id>) {
    if c.data.None? then {}
    else
      match c.data.value
      case Frame(columns) => Unscanned(columns)
      case Template(columns) => Unscanned(columns)
      case Other(value) => Refs(value)
  }

  /** The references of a template, those that renaming would change, are the scanned and the unscanned ones. */
  lemma {:induction false} RefsOfColumns(columns: seq<Column>)
    ensures Refs(List(ColumnValues(columns))) == Scanned(columns) + Unscanned(columns)
    decreases columns
  {
    forall i | 0 <= i < |columns| ensures Refs(ColumnValue(columns[i])) == ScannedIn(columns[i]) + UnscannedIn(columns[i]) {
      RefsOfColumn(columns[i]);
    }
    var a, b := Refs(List(ColumnValues(columns))), Scanned(columns) + Unscanned(columns);
    forall id ensures id in a <==> id in b {
      if id in a {
        var i :| 0 <= i < |columns| && id in Refs(ColumnValues(columns)[i]);
        assert id in ScannedIn(columns[i]) || id in UnscannedIn(columns[i]);
      }
      if id in Scanned(columns) {
        var i :| 0 <= i < |columns| && id in ScannedIn(columns[i]);
        assert id in Refs(ColumnValues(columns)[i]);
      }
      if id in Unscanned(columns) {
        var i :| 0 <= i < |columns| && id in UnscannedIn(columns[i]);
        assert id in Refs(ColumnValues(columns)[i]);
      }
    }
  }

  lemma {:induction false} RefsOfColumn(c: Column)
    ensures Refs(ColumnValue(c)) == ScannedIn(c) + UnscannedIn(c)
    decreases c
  {
    RefsOfNode(c);
    OneRef(Entry("label", Text(c.name)));
    RefsAppend([Entry("label", Text(c.name))], NodeEntries(c));
    RefsAppend([Entry("label", Text(c.name))] + NodeEntries(c), DataEntries(c));
    if c.data.Some? {
      RefsOfData(c.data.value);
      OneRef(Entry("data", DataValue(c.data.value)));
      DataIsNotANode(DataValue(c.data.value));
      SplitReads(c);
    } else {
      NoRefs();
    }
  }

  lemma NoRefs()
    ensures Refs(Object([])) == {}
  {
  }

  lemma DataIsNotANode(v: Value)
    ensures EntryRefs(Entry("data", v)) == Refs(v)
  {
    assert "data"[0] != "node"[0];
  }

  lemma RefsOfNode(c: Column)
    ensures Refs(Object(NodeEntries(c))) == if c.node.Some? then {c.node.value} else {}
  {
    if c.node.Some? {
      var node, path := Entry("node", Text(c.node.value)), Entry("path", Text(c.path));
      RefsAppend([node], [path]);
      assert NodeEntries(c) == [node] + [path];
      OneRef(node);
      OneRef(path);
    } else {
      NoRefs();
    }
  }

  /** The references of column data. */
  ghost function DataRefs(d: Data): (r: set<Id>) {
    match d
    case Frame(columns) => Scanned(columns) + Unscanned(columns)
    case Template(columns) => Scanned(columns) + Unscanned(columns)
    case Other(value) => Refs(value)
  }

  lemma SplitReads(c: Column)
    requires c.data.Some?
    ensures ScannedIn(c) + UnscannedIn(c) == (if c.node.Some? then {c.node.value} else {}) + DataRefs(c.data.value)
  {
  }

  lemma {:induction false} RefsOfData(d: Data)
    ensures Refs(DataValue(d)) == DataRefs(d)
    decreases d
  {
    match d
    case Frame(columns) =>
      RefsOfColumns(columns);
      ColumnListRefs("dataframe", "columns", List(ColumnValues(columns)));
    case Template(columns) =>
      RefsOfColumns(columns);
      OneRef(Entry("columns", List(ColumnValues(columns))));
      ColumnListRefs("graph_template", "template", Object([Entry("columns", List(ColumnValues(columns)))]));
    case Other(_) =>
  }

  lemma ColumnListRefs(kind: string, key: string, v: Value)
    requires key != "node"
    ensures Refs(Object([Entry("type", Text(kind)), Entry(key, v)])) == Refs(v)
  {
    var a, b := Entry("type", Text(kind)), Entry(key, v);
    RefsAppend([a], [b]);
    assert [a, b] == [a] + [b];
    OneRef(a);
    OneRef(b);
    assert "type"[0] != "node"[0];
  }

  lemma RefsAppend(a: seq<Entry>, b: seq<Entry>)
    ensures Refs(Object(a + b)) == Refs(Object(a)) + Refs(Object(b))
  {
    forall id ensures id in Refs(Object(a + b)) <==> id in Refs(Object(a)) + Refs(Object(b)) {
      if id in Refs(Object(a)) {
        var i :| 0 <= i < |a| && id in EntryRefs(a[i]);
        assert id in EntryRefs((a + b)[i]);
      }
      if id in Refs(Object(b)) {
        var i :| 0 <= i < |b| && id in EntryRefs(b[i]);
        assert id in EntryRefs((a + b)[|a| + i]);
      }
    }
  }

  lemma OneRef(e: Entry)
    ensures Refs(Object([e])) == EntryRefs(e)
  {
    assert [e][0] == e;
  }

  lemma ThreeRefs(a: Entry, b: Entry, c: Entry)
    ensures Refs(Object([a, b, c])) == EntryRefs(a) + EntryRefs(b) + EntryRefs(c)
  {
    hide EntryRefs;
    RefsAppend([a], [b]);
    RefsAppend([a, b], [c]);
    assert [a, b] == [a] + [b] && [a, b, c] == [a, b] + [c];
    OneRef(a);
    OneRef(b);
    OneRef(c);
  }

  // ---- the scan ----------------------------------------------------------------------------

  /** `_collect_graph_template_dependencies`: the scanned nodes, each once. */
  method CollectDependencies(columns: seq<Column>) returns (deps: seq<Id>)
    ensures Distinct(deps) && Elems(deps) == Scanned(columns)
  {
    deps := VisitColumns(columns, []);
  }

  method VisitColumns(columns: seq<Column>, before: seq<Id>) returns (deps: seq<Id>)
    requires Distinct(before)
    ensures Distinct(deps) && before <= deps && Elems(deps) == Elems(before) + Scanned(columns)
    decreases columns
  {
    deps := before;
    NothingScanned();
    assert columns[..0] == [];
    for i := 0 to |columns|
      invariant Distinct(deps) && before <= deps && Elems(deps) == Elems(before) + Scanned(columns[..i])
    {
      ScannedNext(columns, i);
      deps := VisitColumn(columns[i], deps);
    }
    assert columns[..|columns|] == columns;
  }

  method VisitColumn(c: Column, before: seq<Id>) returns (deps: seq<Id>)
    requires Distinct(before)
    ensures Distinct(deps) && before <= deps && Elems(deps) == Elems(before) + ScannedIn(c)
    decreases c
  {
    deps := before;
    if c.node.Some? {
      deps := AddDependency(deps, c.node.value);
    }
    if c.data.Some? {
      match c.data.value {
        case Frame(columns) => deps := VisitColumns(columns, deps);
        case Template(columns) => deps := VisitColumns(columns, deps);
        case Other(_) =>
      }
    }
  }

  method AddDependency(before: seq<Id>, id: Id) returns (deps: seq<Id>)
    requires Distinct(before)
    ensures Distinct(deps) && before <= deps && Elems(deps) == Elems(before) + {id}
  {
    deps := before;
    assert id in before <==> id in Elems(before);
    if id !in deps {
      ElemsAppend(deps, [id]);
      deps := deps + [id];
    }
  }

  lemma NothingScanned()
    ensures Scanned([]) == {}
  {
  }

  lemma ScannedNext(columns: seq<Column>, i: nat)
    requires i < |columns|
    ensures Scanned(columns[..i + 1]) == Scanned(columns[..i]) + ScannedIn(columns[i])
  {
    forall id ensures id in Scanned(columns[..i + 1]) <==> id in Scanned(columns[..i]) + ScannedIn(columns[i]) {
      if id in Scanned(columns[..i + 1]) {
        var j :| 0 <= j < i + 1 && id in ScannedIn(columns[..i + 1][j]);
        assert j < i ==> id in ScannedIn(columns[..i][j]);
      }
      if id in Scanned(columns[..i]) {
        var j :| 0 <= j < i && id in ScannedIn(columns[..i][j]);
        assert id in ScannedIn(columns[..i + 1][j]);
      }
      if id in ScannedIn(columns[i]) {
        assert id in ScannedIn(columns[..i + 1][i]);
      }
    }
  }
}
