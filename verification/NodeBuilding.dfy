/** From a lowered program to a runtime node: its data, its dependencies, and the check that every operator was
    visited (runtime/runtime_graph.py:404-478, 644-769, 1314-1506). */
module NodeBuilding {
  import opened Collections
  import opened RuntimeGraphs
  import opened ExecutionOrder
  import opened TemplateDependencies
  import L = Lowering
  import O = Ops
  import T = Tracer

  // ---- JSON without node references --------------------------------------------------------

  /** No entry anywhere has the key `node`. */
  ghost predicate Plain(v: Value) {
    match v
    case Text(_) => true
    case Scalar(_) => true
    case List(items) => forall i :: 0 <= i < |items| ==> Plain(items[i])
    case Object(entries) => forall i :: 0 <= i < |entries| ==> entries[i].key != "node" && Plain(entries[i].value)
  }

  lemma {:induction false} PlainRefs(v: Value)
    requires Plain(v)
    ensures Refs(v) == {}
    decreases v
  {
    match v
    case Text(_) =>
    case Scalar(_) =>
    case List(items) =>
      forall i | 0 <= i < |items| ensures Refs(items[i]) == {} {
        PlainRefs(items[i]);
      }
    case Object(entries) =>
      forall i | 0 <= i < |entries| ensures EntryRefs(entries[i]) == {} {
        PlainRefs(entries[i].value);
      }
  }

  function One(key: string, v: Value): (r: Value)
    ensures key != "node" && Plain(v) ==> Plain(r)
  {
    Object([Entry(key, v)])
  }

  function Two(k1: string, v1: Value, k2: string, v2: Value): (r: Value)
    ensures k1 != "node" && Plain(v1) && k2 != "node" && Plain(v2) ==> Plain(r)
  {
    Object([Entry(k1, v1), Entry(k2, v2)])
  }

  function MessageValue(m: L.Msg): (r: Value)
    ensures Plain(r)
  {
    match m
    case Bare(text) => One("content", Text(text))
    case Packed(role, text) => Two("role", Text(O.RoleName(role)), "content", Text(text))
  }

  function MessagesValue(messages: seq<L.Msg>): (r: Value)
    ensures Plain(r)
  {
    List(seq(|messages|, i requires 0 <= i < |messages| => MessageValue(messages[i])))
  }

  function ArgValue(a: L.Arg): (r: Value)
    ensures Plain(r)
  {
    match a
    case One(text) => Text(text)
    case Many(messages) => MessagesValue(messages)
  }

  function Bindings(kwargs: seq<(string, string)>): (r: seq<Value>)
    ensures forall i :: 0 <= i < |r| ==> Plain(r[i])
  {
    seq(|kwargs|, i requires 0 <= i < |kwargs| => Two("label", Text(kwargs[i].0), "value", Text(kwargs[i].1)))
  }

  function StepValue(name: string, step: L.Step): (r: Value)
    ensures Plain(r)
  {
    match step
    case Template(template, kwargs) =>
      Object([Entry("label", Text(name)), Entry("template", Text(template)), Entry("arguments", List(Bindings(kwargs)))])
    case Function(code, args) =>
      var values := seq(|args|, i requires 0 <= i < |args| => ArgValue(args[i]));
      Object([Entry("label", Text(name)), Entry("function", Text(code)), Entry("arguments", List(values))])
  }

  function StepsValue(steps: seq<(string, L.Step)>): (r: Value)
    ensures Plain(r)
  {
    List(seq(|steps|, i requires 0 <= i < |steps| => StepValue(steps[i].0, steps[i].1)))
  }

  function ListSpec(items: seq<string>): (r: Value)
    ensures Plain(r)
  {
    Two("type", Text("list"), "items", List(seq(|items|, i requires 0 <= i < |items| => Text(items[i]))))
  }

  // ---- the template of a lowered program ---------------------------------------------------

  function ProgramColumns(p: L.Program): (r: seq<Column>)
    requires p.columns.Valid()
    ensures |r| == |p.columns.keys|
    ensures forall i :: 0 <= i < |r| ==> r[i] == ProgramColumn(p.columns.keys[i], p.columns.vals[p.columns.keys[i]])
  {
    seq(|p.columns.keys|, i requires 0 <= i < |p.columns.keys| =>
      ProgramColumn(p.columns.keys[i], p.columns.vals[p.columns.keys[i]]))
  }

  function ProgramColumn(name: string, c: L.Column): (r: Column) {
    match c
    case ListColumn(items) => Column(name, None, "", Some(Other(ListSpec(items))))
    case NodeColumn(node, path) => Column(name, Some(node), path, None)
  }

  function ProgramSteps(p: L.Program): (r: seq<(string, L.Step)>)
    requires p.steps.Valid()
  {
    seq(|p.steps.keys|, i requires 0 <= i < |p.steps.keys| => (p.steps.keys[i], p.steps.vals[p.steps.keys[i]]))
  }

  function TemplateSpec(columns: seq<Column>, format: Value): (r: Value) {
    Object([Entry("name", Text("format")), Entry("columns", List(ColumnValues(columns))),
            Entry("options", One("format", format))])
  }

  /** The LLM and retrieval ops among `ids`: those that become nodes a program reads. */
  ghost function Frontier(sc: O.Scope, ids: set<Id>): (r: set<Id>) {
    set x | x in ids && x in sc.g && (sc.g[x].Generator? || sc.g[x].RetrievalOp?)
  }

  /** A lowered program reads exactly the frontier of the ops its root reaches, and the scan misses nothing. */
  lemma ProgramReads(sc: O.Scope, root: Id, p: L.Program)
    requires T.IsLowering(sc, root, p)
    ensures p.columns.Valid() && p.steps.Valid()
    ensures Scanned(ProgramColumns(p)) == Frontier(sc, L.Reach(sc, root)) && Unscanned(ProgramColumns(p)) == {}
  {
    var stepIds :| T.LoweredBy(sc, root, p, stepIds);
    var done, columns := L.Reach(sc, root), ProgramColumns(p);
    hide O.Scope.Ranked, L.DistinctLabels, L.Reach, T.AllTrace, T.EarlierSteps;
    forall i | 0 <= i < |columns| ensures ScannedIn(columns[i]) <= Frontier(sc, done) && UnscannedIn(columns[i]) == {} {
      ProgramColumnReads(sc, done, p, i);
    }
    forall x | x in Frontier(sc, done) ensures x in Scanned(columns) {
      var i := FrontierIsScanned(sc, done, p, x);
    }
  }

  lemma ProgramColumnReads(sc: O.Scope, done: set<Id>, p: L.Program, i: nat)
    requires T.ColumnsExact(sc, p.columns, done) && i < |p.columns.keys|
    ensures ScannedIn(ProgramColumns(p)[i]) <= Frontier(sc, done) && UnscannedIn(ProgramColumns(p)[i]) == {}
  {
    hide L.ColumnsOf, L.HasColumn, ScannedIn, UnscannedIn, ProgramColumn;
    var l := p.columns.keys[i];
    assert l in p.columns.vals;
    var x :| x in done && L.HasColumn(sc, x, l);
    ColumnOwner(sc, x, l);
    ColumnReads(l, p.columns.vals[l]);
  }

  /** A leaf's column lists its items or reads the leaf's own node. */
  lemma ColumnOwner(sc: O.Scope, x: Id, l: string)
    requires L.HasColumn(sc, x, l)
    ensures x in sc.g && l in L.ColumnsOf(x, sc.g[x], sc.inputs)
    ensures ReadsOwner(sc, x, L.ColumnsOf(x, sc.g[x], sc.inputs)[l])
  {
  }

  ghost predicate ReadsOwner(sc: O.Scope, x: Id, c: L.Column) {
    c.NodeColumn? ==> c.node == x && x in sc.g && (sc.g[x].Generator? || sc.g[x].RetrievalOp?)
  }

  lemma ColumnReads(name: string, c: L.Column)
    ensures UnscannedIn(ProgramColumn(name, c)) == {}
    ensures ScannedIn(ProgramColumn(name, c)) == if c.NodeColumn? then {c.node} else {}
  {
    if c.ListColumn? {
      PlainRefs(ListSpec(c.items));
    }
  }

  lemma FrontierIsScanned(sc: O.Scope, done: set<Id>, p: L.Program, x: Id) returns (i: nat)
    requires T.ColumnsExact(sc, p.columns, done) && x in Frontier(sc, done)
    ensures i < |p.columns.keys| && x in ScannedIn(ProgramColumns(p)[i])
  {
    hide L.ColumnsOf, L.HasColumn, ScannedIn, UnscannedIn, ProgramColumn;
    var l := OutputColumn(sc, x);
    ColumnReads(l, p.columns.vals[l]);
    i :| 0 <= i < |p.columns.keys| && p.columns.keys[i] == l;
  }

  lemma OutputColumn(sc: O.Scope, x: Id) returns (l: string)
    requires x in Frontier(sc, {x})
    ensures L.HasColumn(sc, x, l) && x in sc.g && l in L.ColumnsOf(x, sc.g[x], sc.inputs)
    ensures L.ColumnsOf(x, sc.g[x], sc.inputs)[l].NodeColumn? && L.ColumnsOf(x, sc.g[x], sc.inputs)[l].node == x
  {
    l := if sc.g[x].Generator? then L.OutputLabel(x) else x;
  }

  lemma TemplateSpecRefs(columns: seq<Column>, format: Value)
    requires Plain(format)
    ensures Refs(TemplateSpec(columns, format)) == Scanned(columns) + Unscanned(columns)
  {
    var name, list, options := Entry("name", Text("format")), Entry("columns", List(ColumnValues(columns))),
        Entry("options", One("format", format));
    RefsOfColumns(columns);
    PlainRefs(One("format", format));
    ThreeRefs(name, list, options);
  }

  // ---- the node of one call ----------------------------------------------------------------

  /** A column as written in the workflow; a field of the wrong type reads as missing. */
  datatype Row = Row(name: Option<string>, data: Option<Data>, node: Option<Id>, path: Option<string>)
  {
    predicate Carries() {
      name.Some? && data.Some?
    }

    predicate Reads() {
      name.Some? && node.Some? && path.Some?
    }
  }

  /** A chat call renders its messages as traced, over an aggregate table, or row by row. */
  datatype Shape = Plainly | Aggregate(table: seq<Row>) | Rowwise(rows: seq<Row>, system: seq<string>, user: string)

  datatype Call = Call(id: Id, root: Id, shape: Shape, model: Value, inference: Value, condition: Option<Condition>)

  /** The labels a template's placeholders may be bound to; the regular expression is opaque. */
  type Placeholders = string -> seq<string>

  function RowColumn(row: Row): (r: seq<Column>) {
    if row.Carries() then [Column(row.name.value, None, "", row.data)]
    else if row.Reads() then [Column(row.name.value, row.node, row.path.value, None)]
    else []
  }

  function RowColumns(rows: seq<Row>): (r: seq<Column>) {
    if rows == [] then [] else RowColumns(rows[..|rows| - 1]) + RowColumn(rows[|rows| - 1])
  }

  /** The table of an aggregate call takes node columns only, and ignores their data. */
  function TableColumn(row: Row): (r: seq<Column>) {
    if row.Reads() then [Column(row.name.value, row.node, row.path.value, None)] else []
  }

  function TableColumns(rows: seq<Row>): (r: seq<Column>) {
    if rows == [] then [] else TableColumns(rows[..|rows| - 1]) + TableColumn(rows[|rows| - 1])
  }

  /** The nodes that row-wise columns name at the top level. */
  ghost function RowNodes(rows: seq<Row>): (r: set<Id>) {
    set i | 0 <= i < |rows| && rows[i].Reads() && !rows[i].Carries() :: rows[i].node.value
  }

  ghost function TableNodes(rows: seq<Row>): (r: set<Id>) {
    set i | 0 <= i < |rows| && rows[i].Reads() :: rows[i].node.value
  }

  /** The references inside the data that row-wise columns carry. */
  ghost function CarriedRefs(rows: seq<Row>): (r: set<Id>) {
    set i, id | 0 <= i < |rows| && rows[i].Carries() && id in DataRefs(rows[i].data.value) :: id
  }

  function MergedColumns(p: L.Program, table: seq<Row>): (r: seq<Column>)
    requires p.columns.Valid()
  {
    ProgramColumns(p) + [Column("df", None, "", Some(Frame(TableColumns(table))))]
  }

  /** A format step also binds the placeholders that name a column and are not bound yet. */
  function RenderedStep(step: L.Step, names: set<string>, placeholders: Placeholders): (r: L.Step) {
    match step
    case Template(template, kwargs) =>
      L.Template(template, kwargs + MoreBindings(placeholders(template), Labels(kwargs), names))
    case Function(_, _) => step
  }

  function Labels(kwargs: seq<(string, string)>): (r: set<string>) {
    set i | 0 <= i < |kwargs| :: kwargs[i].0
  }

  function MoreBindings(names: seq<string>, bound: set<string>, columns: set<string>): (r: seq<(string, string)>) {
    if names == [] then []
    else (if names[0] !in bound && names[0] in columns then [(names[0], names[0])] else []) +
         MoreBindings(names[1..], bound, columns)
  }

  function RenderedSteps(p: L.Program, placeholders: Placeholders): (r: seq<(string, L.Step)>)
    requires p.columns.Valid() && p.steps.Valid()
  {
    var names := p.columns.vals.Keys + {"df"};
    seq(|p.steps.keys|, i requires 0 <= i < |p.steps.keys| =>
      (p.steps.keys[i], RenderedStep(p.steps.vals[p.steps.keys[i]], names, placeholders)))
  }

  function FormatOf(steps: seq<(string, L.Step)>, messages: seq<L.Msg>): (r: Value)
    ensures Plain(r)
  {
    Two("steps", StepsValue(steps), "messages", MessagesValue(messages))
  }

  /** An aggregate template leaves out an empty step list. */
  function RenderedFormat(steps: seq<(string, L.Step)>, messages: seq<L.Msg>): (r: Value)
    ensures Plain(r)
  {
    if steps == [] then One("messages", MessagesValue(messages))
    else Two("messages", MessagesValue(messages), "steps", StepsValue(steps))
  }

  function GraphTemplate(template: Value): (r: Value) {
    Two("type", Text("graph_template"), "template", template)
  }

  function RowTable(columns: seq<Column>, messages: seq<L.Msg>): (r: Value) {
    Object([Entry("type", Text("dataframe")), Entry("columns", List(ColumnValues(columns))),
            Entry("messages", MessagesValue(messages))])
  }

  /** The messages of a row-wise call: its system messages, then the template of its rows. */
  function RowMessages(system: seq<string>, user: string): (r: seq<L.Msg>) {
    seq(|system|, i requires 0 <= i < |system| => L.Packed(O.System, system[i])) + [L.Packed(O.User, user)]
  }

  /** The data of the node of a call. */
  function DataOf(shape: Shape, p: L.Program, placeholders: Placeholders): (r: Value)
    requires p.columns.Valid() && p.steps.Valid()
  {
    match shape
    case Plainly => GraphTemplate(TemplateSpec(ProgramColumns(p), FormatOf(ProgramSteps(p), p.messages)))
    case Aggregate(table) =>
      GraphTemplate(TemplateSpec(MergedColumns(p, table), RenderedFormat(RenderedSteps(p, placeholders), p.messages)))
    case Rowwise(rows, system, user) => RowTable(RowColumns(rows), RowMessages(system, user))
  }

  /** What the dependencies of the node of a call are, given the ops its root reaches. */
  ghost function DepsOf(sc: O.Scope, shape: Shape, reached: set<Id>): (r: set<Id>) {
    match shape
    case Plainly => Frontier(sc, reached)
    case Aggregate(table) => Frontier(sc, reached) + TableNodes(table)
    case Rowwise(rows, _, _) => T.Generators(sc, reached) + RowNodes(rows)
  }

  /** `op` is the node of `call`: only the plain form keeps the run condition. */
  ghost predicate IsNodeOf(sc: O.Scope, call: Call, placeholders: Placeholders, op: RuntimeOp) {
    exists p :: T.IsTraced(sc, call.root, p) && IsNodeFrom(sc, call, placeholders, p, op)
  }

  ghost predicate IsNodeFrom(sc: O.Scope, call: Call, placeholders: Placeholders, p: L.Program, op: RuntimeOp) {
    sc.Ranked() && call.root in sc.g && p.columns.Valid() && p.steps.Valid() &&
    op.task == "inference" && op.output == None && op.data == DataOf(call.shape, p, placeholders) && op.model == call.model && op.inference == call.inference &&
    op.condition == (if call.shape.Plainly? then call.condition else None) &&
    Distinct(op.dependencies) && Elems(op.dependencies) == DepsOf(sc, call.shape, L.Reach(sc, call.root))
  }

  // ---- reads are dependencies --------------------------------------------------------------

  lemma {:induction false} RowRefs(rows: seq<Row>)
    ensures Scanned(RowColumns(rows)) + Unscanned(RowColumns(rows)) == RowNodes(rows) + CarriedRefs(rows)
  {
    if rows == [] {
    } else {
      hide Scanned, Unscanned, RowNodes, CarriedRefs, RowColumn;
      var init, last := rows[..|rows| - 1], rows[|rows| - 1];
      RowRefs(init);
      ReadsAppend(RowColumns(init), RowColumn(last));
      OneRowRefs(last);
      LastRow(rows);
      Regroup(Scanned(RowColumns(init)), Scanned(RowColumn(last)), Unscanned(RowColumns(init)), Unscanned(RowColumn(last)));
      Regroup(RowNodes(init), RowNodes([last]), CarriedRefs(init), CarriedRefs([last]));
    }
  }

  lemma Regroup(a: set<Id>, b: set<Id>, c: set<Id>, d: set<Id>)
    ensures (a + b) + (c + d) == (a + c) + (b + d)
  {
  }

  lemma LastRow(rows: seq<Row>)
    requires rows != []
    ensures RowNodes(rows) == RowNodes(rows[..|rows| - 1]) + RowNodes([rows[|rows| - 1]])
    ensures CarriedRefs(rows) == CarriedRefs(rows[..|rows| - 1]) + CarriedRefs([rows[|rows| - 1]])
    ensures TableNodes(rows) == TableNodes(rows[..|rows| - 1]) + TableNodes([rows[|rows| - 1]])
  {
    var init, last := rows[..|rows| - 1], [rows[|rows| - 1]];
    assert last[0] == rows[|rows| - 1];
    assert forall i :: 0 <= i < |init| ==> init[i] == rows[i];
    assert forall i :: 0 <= i < |rows| ==> rows[i] == if i < |init| then init[i] else last[0];
  }

  lemma OneRowRefs(row: Row)
    ensures Scanned(RowColumn(row)) + Unscanned(RowColumn(row)) == RowNodes([row]) + CarriedRefs([row])
  {
    assert [row][0] == row;
    if row.Carries() {
      var c := Column(row.name.value, None, "", row.data);
      OneColumn(c);
      SplitReads(c);
    } else if row.Reads() {
      OneColumn(Column(row.name.value, row.node, row.path.value, None));
    }
  }

  lemma OneColumn(c: Column)
    ensures Scanned([c]) == ScannedIn(c) && Unscanned([c]) == UnscannedIn(c)
  {
    assert [c][0] == c;
  }

  lemma ReadsAppend(a: seq<Column>, b: seq<Column>)
    ensures Scanned(a + b) == Scanned(a) + Scanned(b) && Unscanned(a + b) == Unscanned(a) + Unscanned(b)
  {
    hide ScannedIn, UnscannedIn;
    assert forall i :: 0 <= i < |a| ==> (a + b)[i] == a[i];
    assert forall i :: 0 <= i < |b| ==> (a + b)[|a| + i] == b[i];
    assert forall i :: 0 <= i < |a + b| ==> (a + b)[i] == if i < |a| then a[i] else b[i - |a|];
  }

  lemma {:induction false} TableReads(rows: seq<Row>)
    ensures Scanned(TableColumns(rows)) == TableNodes(rows) && Unscanned(TableColumns(rows)) == {}
  {
    if rows == [] {
    } else {
      var init, last := rows[..|rows| - 1], rows[|rows| - 1];
      TableReads(init);
      ReadsAppend(TableColumns(init), TableColumn(last));
      LastRow(rows);
      assert [last][0] == last;
      if last.Reads() {
        OneColumn(Column(last.name.value, last.node, last.path.value, None));
      }
    }
  }

  lemma MergedReads(p: L.Program, table: seq<Row>)
    requires p.columns.Valid()
    ensures Scanned(MergedColumns(p, table)) == Scanned(ProgramColumns(p)) + TableNodes(table)
    ensures Unscanned(MergedColumns(p, table)) == Unscanned(ProgramColumns(p))
  {
    var df := Column("df", None, "", Some(Frame(TableColumns(table))));
    TableReads(table);
    OneColumn(df);
    ReadsAppend(ProgramColumns(p), [df]);
  }

  lemma RowTableRefs(columns: seq<Column>, messages: seq<L.Msg>)
    ensures Refs(RowTable(columns, messages)) == Scanned(columns) + Unscanned(columns)
  {
    var kind, list, rest := Entry("type", Text("dataframe")), Entry("columns", List(ColumnValues(columns))),
        Entry("messages", MessagesValue(messages));
    RefsOfColumns(columns);
    PlainRefs(MessagesValue(messages));
    ThreeRefs(kind, list, rest);
  }

  /** Every node that the data of a plain or an aggregate call refers to is a dependency, and there is no other
      dependency. The data of a row-wise call refers to the nodes of its columns and to those inside carried data. */
  lemma ReadsOfCall(sc: O.Scope, call: Call, placeholders: Placeholders, op: RuntimeOp)
    requires IsNodeOf(sc, call, placeholders, op)
    ensures !call.shape.Rowwise? ==> Refs(op.data) == Elems(op.dependencies)
    ensures call.shape.Rowwise? ==> Refs(op.data) == RowNodes(call.shape.rows) + CarriedRefs(call.shape.rows)
  {
    hide T.IsTraced, Frontier, Scanned, Unscanned, TemplateSpec, RowTable, RenderedFormat, FormatOf, Elems;
    var p :| T.IsTraced(sc, call.root, p) && IsNodeFrom(sc, call, placeholders, p, op);
    T.TracedIsLowering(sc, call.root, p);
    ProgramReads(sc, call.root, p);
    match call.shape
    case Plainly =>
      var format := FormatOf(ProgramSteps(p), p.messages);
      TemplateSpecRefs(ProgramColumns(p), format);
      ColumnListRefs("graph_template", "template", TemplateSpec(ProgramColumns(p), format));
    case Aggregate(table) =>
      var format := RenderedFormat(RenderedSteps(p, placeholders), p.messages);
      MergedReads(p, table);
      TemplateSpecRefs(MergedColumns(p, table), format);
      ColumnListRefs("graph_template", "template", TemplateSpec(MergedColumns(p, table), format));
    case Rowwise(rows, system, user) =>
      RowTableRefs(RowColumns(rows), RowMessages(system, user));
      RowRefs(rows);
  }

  ghost predicate ReadsCovered(op: RuntimeOp) {
    Refs(op.data) <= Elems(op.dependencies)
  }

  /** The data that row-wise columns carry refers to upstream calls and to nodes of other columns only. */
  ghost predicate CarriedCovered(sc: O.Scope, call: Call) {
    call.shape.Rowwise? && sc.Ranked() && call.root in sc.g ==>
      CarriedRefs(call.shape.rows) <= T.Generators(sc, L.Reach(sc, call.root)) + RowNodes(call.shape.rows)
  }

  /** A row-wise call may read a node it does not depend on: exactly when carried data refers to a node that is
      neither an upstream call nor named by a column. */
  lemma ReadsCoveredIff(sc: O.Scope, call: Call, placeholders: Placeholders, op: RuntimeOp)
    requires IsNodeOf(sc, call, placeholders, op)
    ensures ReadsCovered(op) <==> CarriedCovered(sc, call)
  {
    ReadsOfCall(sc, call, placeholders, op);
    hide T.IsTraced, RowNodes, CarriedRefs, T.Generators, L.Reach;
  }

  /** A row with a column that carries a table read from a node. */
  function TableRow(node: Id): (r: Row) {
    Row(Some("x"), Some(Frame([Column("y", Some(node), "items.output", None)])), None, None)
  }

  /** Every node that the data of another node refers to comes before it. */
  ghost predicate ReadsInOrder(nodes: map<Id, RuntimeOp>, order: seq<Id>) {
    forall j, d :: 0 <= j < |order| && order[j] in nodes && d in Refs(nodes[order[j]].data) && d in nodes ==>
      d in order[..j]
  }

  /** Whatever a node reads from another node was produced before it runs, in every execution order. */
  lemma NoDanglingRead(nodes: map<Id, RuntimeOp>, nodeOrder: seq<Id>, order: seq<Id>)
    requires IsOrder(nodes, nodeOrder, order)
    requires forall n :: n in nodes ==> ReadsCovered(nodes[n])
    ensures ReadsInOrder(nodes, order)
  {
    OrderIsTopological(nodes, nodeOrder, order);
    hide Refs, IsOrder;
    forall j, d | 0 <= j < |order| && order[j] in nodes && d in Refs(nodes[order[j]].data) && d in nodes
      ensures d in order[..j]
    {
      assert ReadsCovered(nodes[order[j]]);
      assert d in Elems(nodes[order[j]].dependencies);
    }
  }

  // ---- building ----------------------------------------------------------------------------

  /** `list(upstream_llm_ids)`: a set listed in some order. */
  method Listed(ids: set<Id>) returns (r: seq<Id>)
    ensures Distinct(r) && Elems(r) == ids
  {
    r := [];
    var rest := ids;
    while rest != {}
      invariant Distinct(r) && rest !! Elems(r) && Elems(r) + rest == ids
      decreases |rest|
    {
      var x :| x in rest;
      r := AddDependency(r, x);
      rest := rest - {x};
    }
  }

  method AddAll(before: seq<Id>, ids: seq<Id>) returns (deps: seq<Id>)
    requires Distinct(before)
    ensures Distinct(deps) && before <= deps && Elems(deps) == Elems(before) + Elems(ids)
  {
    deps := before;
    for i := 0 to |ids|
      invariant Distinct(deps) && before <= deps && Elems(deps) == Elems(before) + Elems(ids[..i])
    {
      ElemsSnoc(ids, i);
      deps := AddDependency(deps, ids[i]);
    }
    assert ids[..|ids|] == ids;
  }

  method BuildTable(table: seq<Row>, before: seq<Id>) returns (columns: seq<Column>, deps: seq<Id>)
    requires Distinct(before)
    ensures columns == TableColumns(table)
    ensures Distinct(deps) && before <= deps && Elems(deps) == Elems(before) + TableNodes(table)
  {
    columns, deps := [], before;
    assert table[..0] == [];
    for i := 0 to |table|
      invariant columns == TableColumns(table[..i])
      invariant Distinct(deps) && before <= deps && Elems(deps) == Elems(before) + TableNodes(table[..i])
    {
      NextRow(table, i);
      if table[i].Reads() {
        columns := columns + [Column(table[i].name.value, table[i].node, table[i].path.value, None)];
        deps := AddDependency(deps, table[i].node.value);
      }
    }
    assert table[..|table|] == table;
  }

  method BuildRows(rows: seq<Row>, before: seq<Id>) returns (columns: seq<Column>, deps: seq<Id>)
    requires Distinct(before)
    ensures columns == RowColumns(rows)
    ensures Distinct(deps) && before <= deps && Elems(deps) == Elems(before) + RowNodes(rows)
  {
    columns, deps := [], before;
    assert rows[..0] == [];
    for i := 0 to |rows|
      invariant columns == RowColumns(rows[..i])
      invariant Distinct(deps) && before <= deps && Elems(deps) == Elems(before) + RowNodes(rows[..i])
    {
      NextRow(rows, i);
      if rows[i].Carries() {
        columns := columns + [Column(rows[i].name.value, None, "", rows[i].data)];
      } else if rows[i].Reads() {
        columns := columns + [Column(rows[i].name.value, rows[i].node, rows[i].path.value, None)];
        deps := AddDependency(deps, rows[i].node.value);
      }
    }
    assert rows[..|rows|] == rows;
  }

  lemma NextRow(rows: seq<Row>, i: nat)
    requires i < |rows|
    ensures RowColumns(rows[..i + 1]) == RowColumns(rows[..i]) + RowColumn(rows[i])
    ensures TableColumns(rows[..i + 1]) == TableColumns(rows[..i]) + TableColumn(rows[i])
    ensures RowNodes(rows[..i + 1]) == RowNodes(rows[..i]) +
              if rows[i].Reads() && !rows[i].Carries() then {rows[i].node.value} else {}
    ensures TableNodes(rows[..i + 1]) == TableNodes(rows[..i]) + if rows[i].Reads() then {rows[i].node.value} else {}
  {
    var next := rows[..i + 1];
    assert next[..|next| - 1] == rows[..i] && next[|next| - 1] == rows[i];
    LastRow(next);
    assert [rows[i]][0] == rows[i];
  }

  /** The node of a lowered call, or none when a row-wise call has no column. */
  method BuildNode(sc: O.Scope, call: Call, lowered: T.Lowered, placeholders: Placeholders)
    returns (r: Option<RuntimeOp>)
    requires sc.Ranked() && call.root in sc.g && T.IsTraced(sc, call.root, lowered.program)
    requires lowered.upstream == T.Generators(sc, L.Reach(sc, call.root))
    ensures r.None? <==> call.shape.Rowwise? && RowColumns(call.shape.rows) == []
    ensures r.Some? ==> IsNodeOf(sc, call, placeholders, r.value)
  {
    hide O.Scope.Ranked, L.Reach, T.IsTraced, Scanned, Unscanned, RowNodes, TableNodes, Elems;
    var p := lowered.program;
    var upstream := Listed(lowered.upstream);
    T.TracedIsLowering(sc, call.root, p);
    ProgramReads(sc, call.root, p);
    UpstreamInFrontier(sc, L.Reach(sc, call.root));
    var deps, condition := upstream, None;
    match call.shape {
      case Plainly =>
        var scanned := CollectDependencies(ProgramColumns(p));
        deps := AddAll(upstream, scanned);
        condition := call.condition;
      case Aggregate(table) =>
        var columns;
        columns, deps := BuildTable(table, upstream);
        var scanned := CollectDependencies(ProgramColumns(p));
        deps := AddAll(deps, scanned);
      case Rowwise(rows, _, _) =>
        var columns;
        columns, deps := BuildRows(rows, upstream);
        if columns == [] {
          return None;
        }
    }
    var op := RuntimeOp("inference", DataOf(call.shape, p, placeholders), call.model, call.inference, deps, None,
                        condition);
    assert IsNodeFrom(sc, call, placeholders, p, op);
    r := Some(op);
  }

  lemma UpstreamInFrontier(sc: O.Scope, ids: set<Id>)
    ensures T.Generators(sc, ids) <= Frontier(sc, ids)
  {
  }

  // ---- every op is visited -----------------------------------------------------------------

  datatype BuildError = Untraceable(cause: L.Error) | NoRowColumns(id: Id) | Unvisited(ids: set<Id>)

  datatype Built = Built(nodes: map<Id, RuntimeOp>, nodeOrder: seq<Id>)

  ghost predicate CallsValid(sc: O.Scope, calls: seq<Call>) {
    sc.Ranked() && L.DistinctLabels(sc) &&
    (forall i :: 0 <= i < |calls| ==> CallValid(sc, calls[i])) &&
    (forall i, j :: 0 <= i < j < |calls| ==> calls[i].id != calls[j].id)
  }

  ghost predicate CallValid(sc: O.Scope, call: Call) {
    call.root in sc.g && sc.rank(call.root) < sc.rank(call.id)
  }

  /** The ops that the traces of the calls visit. */
  ghost function Visited(sc: O.Scope, calls: seq<Call>): (r: set<Id>)
    requires CallsValid(sc, calls)
  {
    set i, id | 0 <= i < |calls| && id in L.Reach(sc, calls[i].root) :: id
  }

  ghost predicate Buildable(sc: O.Scope, call: Call) {
    L.Traces(sc, call.root) && (call.shape.Rowwise? ==> RowColumns(call.shape.rows) != [])
  }

  ghost predicate NodesOf(sc: O.Scope, calls: seq<Call>, placeholders: Placeholders, b: Built) {
    |b.nodeOrder| == |calls| && Elems(b.nodeOrder) == b.nodes.Keys &&
    forall i :: 0 <= i < |calls| ==> NodeAt(sc, calls, placeholders, b, i)
  }

  ghost predicate NodeAt(sc: O.Scope, calls: seq<Call>, placeholders: Placeholders, b: Built, i: nat)
    requires i < |calls| && i < |b.nodeOrder|
  {
    b.nodeOrder[i] == calls[i].id && calls[i].id in b.nodes && IsNodeOf(sc, calls[i], placeholders, b.nodes[calls[i].id])
  }

  ghost predicate AllBuildable(sc: O.Scope, calls: seq<Call>) {
    forall i :: 0 <= i < |calls| ==> Buildable(sc, calls[i])
  }

  /** The first `i` calls are built. */
  ghost predicate Progress(sc: O.Scope, calls: seq<Call>, marked: set<Id>, placeholders: Placeholders, i: nat,
                           visited: set<Id>, b: Built) {
    i <= |calls| && CallsValid(sc, calls) && CallsValid(sc, calls[..i]) &&
    visited == marked + Visited(sc, calls[..i]) && AllBuildable(sc, calls[..i]) && NodesOf(sc, calls[..i], placeholders, b)
  }

  /** Build the nodes of the chat calls of a graph whose ops `marked` were visited before. It succeeds exactly when
      every call can be lowered and every op is marked or reachable from a call without passing another one. */
  method Build(sc: O.Scope, calls: seq<Call>, marked: set<Id>, placeholders: Placeholders)
    returns (r: Result<Built, BuildError>)
    requires CallsValid(sc, calls)
    ensures r.Ok? <==> AllBuildable(sc, calls) && sc.g.Keys <= marked + Visited(sc, calls)
    ensures r.Ok? ==> NodesOf(sc, calls, placeholders, r.value)
    ensures r.Err? && r.error.Unvisited? ==> r.error.ids == sc.g.Keys - (marked + Visited(sc, calls))
  {
    hide *;
    var visited, b := marked, Built(map[], []);
    ProgressStart(sc, calls, marked, placeholders, b);
    for i := 0 to |calls|
      invariant Progress(sc, calls, marked, placeholders, i, visited, b)
    {
      var call := calls[i];
      CallFacts(sc, calls, i);
      BuildableIff(sc, call);
      var lowered := T.InferStructuralMessages(sc, call.id, call.root, visited);
      if lowered.Err? {
        return Err(Untraceable(lowered.error));
      }
      var op := BuildNode(sc, call, lowered.value, placeholders);
      if op.None? {
        return Err(NoRowColumns(call.id));
      }
      ProgressNext(sc, calls, marked, placeholders, i, visited, b, lowered.value.visited, op.value);
      visited := lowered.value.visited;
      b := Built(b.nodes[call.id := op.value], b.nodeOrder + [call.id]);
    }
    ProgressEnd(sc, calls, marked, placeholders, visited, b);
    var unvisited := sc.g.Keys - visited;
    NoneLeftIff(sc.g.Keys, visited);
    if unvisited != {} {
      return Err(Unvisited(unvisited));
    }
    r := Ok(b);
  }

  lemma ProgressStart(sc: O.Scope, calls: seq<Call>, marked: set<Id>, placeholders: Placeholders, b: Built)
    requires CallsValid(sc, calls) && b == Built(map[], [])
    ensures Progress(sc, calls, marked, placeholders, 0, marked, b)
  {
    assert CallsValid(sc, calls[..0]) && Visited(sc, calls[..0]) == {};
    assert Elems(b.nodeOrder) == b.nodes.Keys;
  }

  lemma CallFacts(sc: O.Scope, calls: seq<Call>, i: nat)
    requires CallsValid(sc, calls) && i < |calls|
    ensures sc.Ranked() && L.DistinctLabels(sc)
    ensures calls[i].root in sc.g && sc.rank(calls[i].root) < sc.rank(calls[i].id)
    ensures AllBuildable(sc, calls) ==> Buildable(sc, calls[i])
  {
    assert CallValid(sc, calls[i]);
  }

  lemma ProgressNext(sc: O.Scope, calls: seq<Call>, marked: set<Id>, placeholders: Placeholders, i: nat,
                     visited: set<Id>, b: Built, visited': set<Id>, op: RuntimeOp)
    requires Progress(sc, calls, marked, placeholders, i, visited, b) && i < |calls| && Buildable(sc, calls[i])
    requires sc.Ranked() && calls[i].root in sc.g && visited' == visited + L.Reach(sc, calls[i].root)
    requires IsNodeOf(sc, calls[i], placeholders, op)
    ensures Progress(sc, calls, marked, placeholders, i + 1, visited',
                     Built(b.nodes[calls[i].id := op], b.nodeOrder + [calls[i].id]))
  {
    hide O.Scope.Ranked, L.DistinctLabels, CallsValid, NodesOf, Buildable, IsNodeOf, L.Reach, Visited, O.Children,
         AllBuildable;
    VisitedNext(sc, calls, i);
    AddNode(sc, calls, placeholders, b, i, op);
    BuildableNext(sc, calls, i);
  }

  lemma NoneLeftIff(all: set<Id>, visited: set<Id>)
    ensures all - visited == {} <==> all <= visited
  {
    if all <= visited {
      assert forall x :: x !in all - visited;
    } else {
      var x :| x in all && x !in visited;
      assert x in all - visited;
    }
  }

  lemma BuildableNext(sc: O.Scope, calls: seq<Call>, i: nat)
    requires i < |calls| && AllBuildable(sc, calls[..i]) && Buildable(sc, calls[i])
    ensures AllBuildable(sc, calls[..i + 1])
  {
    hide Buildable;
    var now, next := calls[..i], calls[..i + 1];
    assert forall j :: 0 <= j < i + 1 ==> next[j] == if j < i then now[j] else calls[i];
  }

  lemma ProgressEnd(sc: O.Scope, calls: seq<Call>, marked: set<Id>, placeholders: Placeholders, visited: set<Id>,
                    b: Built)
    requires Progress(sc, calls, marked, placeholders, |calls|, visited, b)
    ensures AllBuildable(sc, calls) && NodesOf(sc, calls, placeholders, b)
    ensures CallsValid(sc, calls) && visited == marked + Visited(sc, calls)
  {
    assert calls[..|calls|] == calls;
  }

  lemma BuildableIff(sc: O.Scope, call: Call)
    ensures Buildable(sc, call) <==>
              L.Traces(sc, call.root) && !(call.shape.Rowwise? && RowColumns(call.shape.rows) == [])
  {
  }

  lemma VisitedNext(sc: O.Scope, calls: seq<Call>, i: nat)
    requires CallsValid(sc, calls) && i < |calls|
    ensures CallsValid(sc, calls[..i]) && CallsValid(sc, calls[..i + 1])
    ensures CallValid(sc, calls[i])
    ensures Visited(sc, calls[..i + 1]) == Visited(sc, calls[..i]) + L.Reach(sc, calls[i].root)
  {
    hide O.Scope.Ranked, L.DistinctLabels, L.Reach;
    var now, next := calls[..i], calls[..i + 1];
    assert forall j :: 0 <= j < i ==> now[j] == calls[j];
    assert forall j :: 0 <= j < i + 1 ==> next[j] == if j < i then now[j] else calls[i];
    var all := Visited(sc, now) + L.Reach(sc, calls[i].root);
    forall id ensures id in Visited(sc, next) <==> id in all {
      if id in Visited(sc, now) {
        var j :| 0 <= j < i && id in L.Reach(sc, now[j].root);
        assert id in L.Reach(sc, next[j].root);
      }
      if id in L.Reach(sc, calls[i].root) {
        assert id in L.Reach(sc, next[i].root);
      }
    }
  }

  lemma AddNode(sc: O.Scope, calls: seq<Call>, placeholders: Placeholders, b: Built, i: nat, op: RuntimeOp)
    requires CallsValid(sc, calls) && i < |calls| && NodesOf(sc, calls[..i], placeholders, b)
    requires IsNodeOf(sc, calls[i], placeholders, op)
    ensures NodesOf(sc, calls[..i + 1], placeholders, Built(b.nodes[calls[i].id := op], b.nodeOrder + [calls[i].id]))
  {
    hide O.Scope.Ranked, L.DistinctLabels, IsNodeOf;
    var next := Built(b.nodes[calls[i].id := op], b.nodeOrder + [calls[i].id]);
    ElemsAppend(b.nodeOrder, [calls[i].id]);
    var now := calls[..i + 1];
    forall j | 0 <= j < |now| ensures NodeAt(sc, now, placeholders, next, j) {
      if j < i {
        assert NodeAt(sc, calls[..i], placeholders, b, j);
        assert calls[..i][j] == calls[j];
      }
    }
  }

  /** In every execution order of a built graph whose row-wise calls are covered, all reads come after
      the node they read. */
  lemma BuiltReadsInOrder(sc: O.Scope, calls: seq<Call>, placeholders: Placeholders, b: Built, order: seq<Id>)
    requires NodesOf(sc, calls, placeholders, b) && IsOrder(b.nodes, b.nodeOrder, order)
    requires forall i :: 0 <= i < |calls| ==> CarriedCovered(sc, calls[i])
    ensures ReadsInOrder(b.nodes, order)
  {
    hide IsOrder, IsNodeOf, CarriedCovered, ReadsCovered, Refs;
    forall n | n in b.nodes ensures ReadsCovered(b.nodes[n]) {
      assert n in Elems(b.nodeOrder);
      var i :| 0 <= i < |calls| && b.nodeOrder[i] == n;
      assert NodeAt(sc, calls, placeholders, b, i);
      ReadsCoveredIff(sc, calls[i], placeholders, b.nodes[n]);
    }
    NoDanglingRead(b.nodes, b.nodeOrder, order);
  }

  // ---- vision calls ------------------------------------------------------------------------

  /** The images of a vision call: given items, or what another node produces. */
  datatype ImageSource = Items(id: Id, items: seq<string>) | Produced(id: Id, path: string)

  /** The data of the embedding node. */
  function EmbeddingData(source: ImageSource): (r: Value) {
    match source
    case Items(_, items) => ListSpec(items)
    case Produced(id, path) => Object([Entry("type", Text("list")), Entry("node", Text(id)), Entry("path", Text(path))])
  }

  function EmbeddingDeps(source: ImageSource): (r: seq<Id>) {
    if source.Items? then [] else [source.id]
  }

  /** The column that repeats the template once for every image. */
  function BatchColumn(source: ImageSource): (r: Column) {
    match source
    case Items(id, items) => Column(id + "_batch", None, "", Some(Other(ListSpec(seq(|items|, _ => "")))))
    case Produced(id, path) => Column(id + "_batch", Some(id), path, None)
  }

  function VisionData(columns: seq<Column>, format: Value, embedding: Id): (r: Value) {
    Object([Entry("type", Text("graph_template")), Entry("template", TemplateSpec(columns, format)),
            Entry("image_embedding", Object([Entry("node", Text(embedding)), Entry("path", Text("embedding_file"))]))])
  }

  /** The columns and dependencies of the inference node of a vision call. */
  method BuildVision(upstream: seq<Id>, columns: seq<Column>, source: ImageSource, embedding: Id)
    returns (all: seq<Column>, deps: seq<Id>)
    requires Distinct(upstream)
    ensures all == columns + [BatchColumn(source)]
    ensures Distinct(deps) && Elems(deps) == Elems(upstream) + Scanned(all) + {embedding}
  {
    all := columns + [BatchColumn(source)];
    var scanned := CollectDependencies(all);
    deps := AddAll(upstream, scanned);
    deps := AddDependency(deps, embedding);
  }

  lemma EmbeddingReads(source: ImageSource)
    ensures Refs(EmbeddingData(source)) == Elems(EmbeddingDeps(source))
  {
    match source
    case Items(_, items) => PlainRefs(ListSpec(items));
    case Produced(id, path) =>
      var kind, node, rest := Entry("type", Text("list")), Entry("node", Text(id)), Entry("path", Text(path));
      ThreeRefs(kind, node, rest);
  }

  lemma VisionRefs(columns: seq<Column>, format: Value, embedding: Id)
    requires Plain(format)
    ensures Refs(VisionData(columns, format, embedding)) == Scanned(columns) + Unscanned(columns) + {embedding}
  {
    var kind, list := Entry("type", Text("graph_template")), Entry("template", TemplateSpec(columns, format));
    var node, path := Entry("node", Text(embedding)), Entry("path", Text("embedding_file"));
    var last := Entry("image_embedding", Object([node, path]));
    TemplateSpecRefs(columns, format);
    hide TemplateSpec, Scanned, Unscanned;
    RefsAppend([node], [path]);
    assert [node, path] == [node] + [path];
    OneRef(node);
    OneRef(path);
    ThreeRefs(kind, list, last);
  }

  /** The reads of a vision call are dependencies exactly when the references in column data that the scan does not
      look into are upstream calls, scanned nodes or the embedding node; a traced template has none. */
  lemma VisionCoveredIff(upstream: seq<Id>, columns: seq<Column>, source: ImageSource, format: Value, embedding: Id,
                         deps: seq<Id>)
    requires Plain(format)
    requires Elems(deps) == Elems(upstream) + Scanned(columns + [BatchColumn(source)]) + {embedding}
    ensures Refs(VisionData(columns + [BatchColumn(source)], format, embedding)) <= Elems(deps) <==>
              Unscanned(columns) <= Elems(deps)
  {
    var all, batch := columns + [BatchColumn(source)], BatchColumn(source);
    VisionRefs(all, format, embedding);
    ReadsAppend(columns, [batch]);
    OneColumn(batch);
    if source.Items? {
      PlainRefs(batch.data.value.value);
    }
    assert UnscannedIn(batch) == {};
    hide Scanned, Unscanned, Refs, Elems;
  }
}
