/** What a runtime reads from the data of a node, key by key, and that it computes what the call means
    (runtime/runtime_graph.py:644-769, 1314-1506, 1704-1724). */
module NodeReading {
  import opened Collections
  import opened RuntimeGraphs
  import opened TemplateDependencies
  import opened NodeBuilding
  import M = LoweringMeaning
  import LoweringCheck
  import L = Lowering
  import O = Ops
  import T = Tracer

  // ---- reading JSON ------------------------------------------------------------------------

  ghost function Field(entries: seq<Entry>, key: string): (r: Option<Value>) {
    if entries == [] then None
    else if entries[|entries| - 1].key == key then Some(entries[|entries| - 1].value)
    else Field(entries[..|entries| - 1], key)
  }

  ghost function Get(v: Option<Value>, key: string): (r: Option<Value>) {
    if v.Some? && v.value.Object? then Field(v.value.entries, key) else None
  }

  /** The text at a key; anything else reads as the empty text. */
  ghost function TextAt(v: Option<Value>, key: string): (r: string) {
    var at := Get(v, key);
    if at.Some? && at.value.Text? then at.value.text else ""
  }

  ghost function ItemsAt(v: Option<Value>, key: string): (r: seq<Value>) {
    var at := Get(v, key);
    if at.Some? && at.value.List? then at.value.items else []
  }

  ghost function TextsOf(items: seq<Value>): (r: seq<string>)
    ensures |r| == |items|
  {
    seq(|items|, i requires 0 <= i < |items| => if items[i].Text? then items[i].text else "")
  }

  lemma GetLast(v: Value, entries: seq<Entry>, key: string, value: Value)
    requires v == Object(entries + [Entry(key, value)])
    ensures Get(Some(v), key) == Some(value)
    ensures forall k :: k != key ==> Get(Some(v), k) == Field(entries, k)
  {
    assert (entries + [Entry(key, value)])[..|entries|] == entries;
  }

  lemma GetOne(key: string, value: Value)
    ensures Get(Some(Object([Entry(key, value)])), key) == Some(value)
    ensures forall k :: k != key ==> Get(Some(Object([Entry(key, value)])), k) == None
  {
    assert [] + [Entry(key, value)] == [Entry(key, value)];
    GetLast(Object([Entry(key, value)]), [], key, value);
  }

  lemma GetTwo(k1: string, v1: Value, k2: string, v2: Value)
    requires k1 != k2
    ensures var v := Some(Object([Entry(k1, v1), Entry(k2, v2)]));
            Get(v, k1) == Some(v1) && Get(v, k2) == Some(v2) && forall k :: k != k1 && k != k2 ==> Get(v, k) == None
  {
    GetOne(k1, v1);
    assert [Entry(k1, v1)] + [Entry(k2, v2)] == [Entry(k1, v1), Entry(k2, v2)];
    GetLast(Object([Entry(k1, v1), Entry(k2, v2)]), [Entry(k1, v1)], k2, v2);
    forall k | k != k1 && k != k2 ensures Get(Some(Object([Entry(k1, v1), Entry(k2, v2)])), k) == None {
      assert Get(Some(Object([Entry(k1, v1)])), k) == Field([Entry(k1, v1)], k);
    }
  }

  lemma GetThree(k1: string, v1: Value, k2: string, v2: Value, k3: string, v3: Value)
    requires k1 != k2 && k1 != k3 && k2 != k3
    ensures var v := Some(Object([Entry(k1, v1), Entry(k2, v2), Entry(k3, v3)]));
            Get(v, k1) == Some(v1) && Get(v, k2) == Some(v2) && Get(v, k3) == Some(v3) &&
            forall k :: k != k1 && k != k2 && k != k3 ==> Get(v, k) == None
  {
    GetTwo(k1, v1, k2, v2);
    var two := [Entry(k1, v1), Entry(k2, v2)];
    assert two + [Entry(k3, v3)] == [Entry(k1, v1), Entry(k2, v2), Entry(k3, v3)];
    GetLast(Object(two + [Entry(k3, v3)]), two, k3, v3);
    forall k | k != k1 && k != k2 && k != k3 ensures Get(Some(Object(two + [Entry(k3, v3)])), k) == None {
      assert Get(Some(Object(two)), k) == Field(two, k);
    }
  }

  // ---- what a runtime computes from a template ---------------------------------------------

  /** A column: listed values, a table of columns of other nodes, or the result of a node. */
  ghost function ColumnMeans<V>(I: M.Interp<V>, table: seq<(string, (Id, string))> -> V, v: Value): (r: V) {
    var data := Get(Some(v), "data");
    if TextAt(data, "type") == "list" then I.list(TextsOf(ItemsAt(data, "items")))
    else if TextAt(data, "type") == "dataframe" then table(TableReads(ItemsAt(data, "columns")))
    else I.node(TextAt(Some(v), "node"), TextAt(Some(v), "path"))
  }

  ghost function TableReads(columns: seq<Value>): (r: seq<(string, (Id, string))>)
    ensures |r| == |columns|
  {
    seq(|columns|, i requires 0 <= i < |columns| =>
      (TextAt(Some(columns[i]), "label"), (TextAt(Some(columns[i]), "node"), TextAt(Some(columns[i]), "path"))))
  }

  ghost function ColumnsMean<V>(I: M.Interp<V>, table: seq<(string, (Id, string))> -> V, columns: seq<Value>)
    : (r: map<string, V>)
  {
    if columns == [] then map[]
    else
      var n := |columns| - 1;
      ColumnsMean(I, table, columns[..n])[TextAt(Some(columns[n]), "label") := ColumnMeans(I, table, columns[n])]
  }

  ghost function MessageMeans<V>(env: map<string, V>, I: M.Interp<V>, v: Value): (r: M.MsgValue<V>) {
    M.MsgValue(if Get(Some(v), "role").Some? then Some(TextAt(Some(v), "role")) else None,
             M.Resolve(env, I, TextAt(Some(v), "content")))
  }

  ghost function MessagesMean<V>(env: map<string, V>, I: M.Interp<V>, items: seq<Value>): (r: seq<M.MsgValue<V>>)
    ensures |r| == |items|
  {
    seq(|items|, i requires 0 <= i < |items| => MessageMeans(env, I, items[i]))
  }

  ghost function ArgMeans<V>(env: map<string, V>, I: M.Interp<V>, v: Value): (r: M.ArgValue<V>) {
    if v.List? then M.ManyValues(MessagesMean(env, I, v.items))
    else M.OneValue(M.Resolve(env, I, if v.Text? then v.text else ""))
  }

  ghost function BindingMeans<V>(env: map<string, V>, I: M.Interp<V>, v: Value): (r: (string, V)) {
    (TextAt(Some(v), "label"), M.Resolve(env, I, TextAt(Some(v), "value")))
  }

  /** A step: a template with named arguments, or a function with arguments in order. */
  ghost function StepMeans<V>(env: map<string, V>, I: M.Interp<V>, v: Value): (r: V) {
    var arguments := ItemsAt(Some(v), "arguments");
    if Get(Some(v), "template").Some? then
      I.format(TextAt(Some(v), "template"), [],
               seq(|arguments|, i requires 0 <= i < |arguments| => BindingMeans(env, I, arguments[i])))
    else
      I.apply(TextAt(Some(v), "function"),
              seq(|arguments|, i requires 0 <= i < |arguments| => ArgMeans(env, I, arguments[i])))
  }

  ghost function StepsMean<V>(env: map<string, V>, I: M.Interp<V>, steps: seq<Value>): (r: map<string, V>) {
    if steps == [] then env
    else
      var n := |steps| - 1;
      var before := StepsMean(env, I, steps[..n]);
      before[TextAt(Some(steps[n]), "label") := StepMeans(before, I, steps[n])]
  }

  /** The columns, then the steps in order, then the messages. */
  ghost function TemplateMeans<V>(I: M.Interp<V>, table: seq<(string, (Id, string))> -> V, template: Option<Value>)
    : (r: seq<M.MsgValue<V>>)
  {
    var format := Get(Get(template, "options"), "format");
    var env := StepsMean(ColumnsMean(I, table, ItemsAt(template, "columns")), I, ItemsAt(format, "steps"));
    MessagesMean(env, I, ItemsAt(format, "messages"))
  }

  ghost function DataMeans<V>(I: M.Interp<V>, table: seq<(string, (Id, string))> -> V, data: Value): (r: seq<M.MsgValue<V>>) {
    TemplateMeans(I, table, Get(Some(data), "template"))
  }

  // ---- messages and steps ------------------------------------------------------------------

  lemma MessageRead<V>(env: map<string, V>, I: M.Interp<V>, m: L.Msg)
    ensures MessageMeans(env, I, MessageValue(m)) == M.EvalMsg(env, I, m)
  {
    hide Get, M.Resolve;
    match m
    case Bare(text) => GetOne("content", Text(text));
    case Packed(role, text) => GetTwo("role", Text(O.RoleName(role)), "content", Text(text));
  }

  lemma MessagesRead<V>(env: map<string, V>, I: M.Interp<V>, messages: seq<L.Msg>)
    ensures MessagesValue(messages).List?
    ensures MessagesMean(env, I, MessagesValue(messages).items) == M.EvalMsgs(env, I, messages)
  {
    hide MessageMeans, M.EvalMsg, MessageValue;
    forall i | 0 <= i < |messages| ensures MessageMeans(env, I, MessageValue(messages[i])) == M.EvalMsg(env, I, messages[i]) {
      MessageRead(env, I, messages[i]);
    }
  }

  lemma ArgRead<V>(env: map<string, V>, I: M.Interp<V>, a: L.Arg)
    ensures ArgMeans(env, I, ArgValue(a)) == M.EvalArg(env, I, a)
  {
    hide MessagesMean, M.EvalMsgs, M.Resolve;
    match a
    case One(text) =>
    case Many(messages) => MessagesRead(env, I, messages);
  }

  lemma BindingRead<V>(env: map<string, V>, I: M.Interp<V>, name: string, value: string)
    ensures BindingMeans(env, I, Two("label", Text(name), "value", Text(value))) ==
            (name, M.Resolve(env, I, value))
  {
    hide Get, M.Resolve;
    GetTwo("label", Text(name), "value", Text(value));
  }

  lemma StepRead<V>(env: map<string, V>, I: M.Interp<V>, name: string, step: L.Step)
    ensures TextAt(Some(StepValue(name, step)), "label") == name
    ensures StepMeans(env, I, StepValue(name, step)) == M.EvalStep(env, I, step)
  {
    match step
    case Template(template, kwargs) => TemplateRead(env, I, name, template, kwargs);
    case Function(code, args) => FunctionRead(env, I, name, code, args);
  }

  lemma TemplateRead<V>(env: map<string, V>, I: M.Interp<V>, name: string, template: string, kwargs: seq<(string, string)>)
    ensures TextAt(Some(StepValue(name, L.Template(template, kwargs))), "label") == name
    ensures StepMeans(env, I, StepValue(name, L.Template(template, kwargs))) == M.EvalStep(env, I, L.Template(template, kwargs))
  {
    hide Get, M.Resolve, BindingMeans;
    GetThree("label", Text(name), "template", Text(template), "arguments", List(Bindings(kwargs)));
    var arguments := Bindings(kwargs);
    forall i | 0 <= i < |arguments|
      ensures BindingMeans(env, I, arguments[i]) == (kwargs[i].0, M.Resolve(env, I, kwargs[i].1))
    {
      BindingRead(env, I, kwargs[i].0, kwargs[i].1);
    }
    assert seq(|arguments|, i requires 0 <= i < |arguments| => BindingMeans(env, I, arguments[i])) ==
           seq(|kwargs|, i requires 0 <= i < |kwargs| => (kwargs[i].0, M.Resolve(env, I, kwargs[i].1)));
  }

  lemma FunctionRead<V>(env: map<string, V>, I: M.Interp<V>, name: string, code: string, args: seq<L.Arg>)
    ensures TextAt(Some(StepValue(name, L.Function(code, args))), "label") == name
    ensures StepMeans(env, I, StepValue(name, L.Function(code, args))) == M.EvalStep(env, I, L.Function(code, args))
  {
    hide Get, ArgMeans, M.EvalArg, ArgValue;
    var values := seq(|args|, i requires 0 <= i < |args| => ArgValue(args[i]));
    GetThree("label", Text(name), "function", Text(code), "arguments", List(values));
    forall i | 0 <= i < |args| ensures ArgMeans(env, I, values[i]) == M.EvalArg(env, I, args[i]) {
      ArgRead(env, I, args[i]);
    }
    assert seq(|values|, i requires 0 <= i < |values| => ArgMeans(env, I, values[i])) ==
           seq(|args|, i requires 0 <= i < |args| => M.EvalArg(env, I, args[i]));
  }

  // ---- columns -----------------------------------------------------------------------------

  lemma ListRead(items: seq<string>)
    ensures TextAt(Some(ListSpec(items)), "type") == "list" && TextsOf(ItemsAt(Some(ListSpec(items)), "items")) == items
  {
    hide Get;
    var texts := seq(|items|, i requires 0 <= i < |items| => Text(items[i]));
    GetTwo("type", Text("list"), "items", List(texts));
    assert TextsOf(texts) == items;
  }

  /** A column that names a node. */
  lemma NodeColumnRead(name: string, node: Id, path: string)
    ensures var v := Some(ColumnValue(Column(name, Some(node), path, None)));
            TextAt(v, "label") == name && TextAt(v, "node") == node && TextAt(v, "path") == path && Get(v, "data") == None
  {
    hide Get;
    assert ColumnValue(Column(name, Some(node), path, None)) ==
           Object([Entry("label", Text(name)), Entry("node", Text(node)), Entry("path", Text(path))]);
    GetThree("label", Text(name), "node", Text(node), "path", Text(path));
  }

  /** A column that carries data. */
  lemma DataColumnRead(name: string, data: Data)
    ensures var v := Some(ColumnValue(Column(name, None, "", Some(data))));
            TextAt(v, "label") == name && Get(v, "data") == Some(DataValue(data)) && Get(v, "node") == None
  {
    hide Get, DataValue;
    assert ColumnValue(Column(name, None, "", Some(data))) ==
           Object([Entry("label", Text(name)), Entry("data", DataValue(data))]);
    GetTwo("label", Text(name), "data", DataValue(data));
  }

  lemma ColumnRead<V>(I: M.Interp<V>, table: seq<(string, (Id, string))> -> V, name: string, c: L.Column)
    ensures TextAt(Some(ColumnValue(ProgramColumn(name, c))), "label") == name
    ensures ColumnMeans(I, table, ColumnValue(ProgramColumn(name, c))) == M.ColumnValue(I, c)
  {
    hide Get, ColumnValue;
    match c
    case ListColumn(items) =>
      DataColumnRead(name, Other(ListSpec(items)));
      ListRead(items);
    case NodeColumn(node, path) =>
      NodeColumnRead(name, node, path);
      assert TextAt(None, "type") == "" by { assert Get(None, "type") == None by { NoField(); } }
  }

  lemma NoField()
    ensures forall key :: Get(None, key) == None
  {
  }

  lemma {:induction false} ColumnsRead<V>(I: M.Interp<V>, table: seq<(string, (Id, string))> -> V, p: L.Program, n: nat)
    requires p.columns.Valid() && n <= |p.columns.keys|
    ensures ColumnsMean(I, table, ColumnValues(ProgramColumns(p)[..n])) ==
            map l | l in Elems(p.columns.keys[..n]) && l in p.columns.vals :: M.ColumnValue(I, p.columns.vals[l])
  {
    hide ColumnMeans, ColumnValue, ProgramColumn, M.ColumnValue;
    var columns := ProgramColumns(p);
    if n > 0 {
      ColumnsRead(I, table, p, n - 1);
      var l := p.columns.keys[n - 1];
      ElemsSnoc(p.columns.keys, n - 1);
      ColumnRead(I, table, l, p.columns.vals[l]);
      var values := ColumnValues(columns[..n]);
      assert values[..n - 1] == ColumnValues(columns[..n - 1]);
      assert values[n - 1] == ColumnValue(columns[n - 1]);
    }
  }

  lemma AllColumnsRead<V>(I: M.Interp<V>, table: seq<(string, (Id, string))> -> V, p: L.Program)
    requires p.columns.Valid()
    ensures ColumnsMean(I, table, ColumnValues(ProgramColumns(p))) ==
            map l | l in p.columns.vals :: M.ColumnValue(I, p.columns.vals[l])
  {
    hide ColumnsMean, ColumnMeans, ColumnValue, ProgramColumn, M.ColumnValue, ProgramColumns, ColumnValues;
    var n := |p.columns.keys|;
    ColumnsRead(I, table, p, n);
    assert ProgramColumns(p)[..n] == ProgramColumns(p) && p.columns.keys[..n] == p.columns.keys;
    assert forall l :: l in p.columns.vals ==> l in Elems(p.columns.keys);
  }

  /** The steps of a list read like the program's steps. */
  lemma {:induction false} StepsRead<V>(env: map<string, V>, I: M.Interp<V>, p: L.Program, n: nat)
    requires p.steps.Valid() && M.StepsPresent(p) && n <= |p.steps.keys| && env == M.Env(I, p, 0)
    ensures StepsValue(ProgramSteps(p)).List?
    ensures StepsMean(env, I, StepsValue(ProgramSteps(p)).items[..n]) == M.Env(I, p, n)
  {
    hide StepMeans, StepValue, M.EvalStep, M.ColumnValue, TextAt;
    var items := StepsValue(ProgramSteps(p)).items;
    if n > 0 {
      StepsRead(env, I, p, n - 1);
      assert items[..n][..n - 1] == items[..n - 1];
      var l := p.steps.keys[n - 1];
      StepRead(M.Env(I, p, n - 1), I, l, p.steps.vals[l]);
      assert items[n - 1] == StepValue(l, p.steps.vals[l]);
    }
  }

  // ---- the plain branch --------------------------------------------------------------------

  lemma SpecRead(columns: seq<Column>, format: Value)
    ensures var template := Get(Some(GraphTemplate(TemplateSpec(columns, format))), "template");
            ItemsAt(template, "columns") == ColumnValues(columns) && Get(Get(template, "options"), "format") == Some(format)
  {
    hide Get, ColumnValues;
    var spec := TemplateSpec(columns, format);
    GetTwo("type", Text("graph_template"), "template", spec);
    GetThree("name", Text("format"), "columns", List(ColumnValues(columns)), "options", One("format", format));
    GetOne("format", format);
  }

  lemma FormatRead(steps: seq<(string, L.Step)>, messages: seq<L.Msg>)
    ensures var format := Some(FormatOf(steps, messages));
            StepsValue(steps).List? && MessagesValue(messages).List? &&
            ItemsAt(format, "steps") == StepsValue(steps).items && ItemsAt(format, "messages") == MessagesValue(messages).items
  {
    hide Get, StepValue, MessageValue;
    GetTwo("steps", StepsValue(steps), "messages", MessagesValue(messages));
  }

  /** Reading the node of a plain call computes what the lowered program does. */
  lemma PlainRuns<V>(I: M.Interp<V>, table: seq<(string, (Id, string))> -> V, p: L.Program, placeholders: Placeholders)
    requires p.columns.Valid() && p.steps.Valid() && M.StepsPresent(p)
    ensures DataMeans(I, table, DataOf(Plainly, p, placeholders)) == M.Run(I, p)
  {
    hide *;
    var columns, steps := ProgramColumns(p), ProgramSteps(p);
    DataOfPlainly(p, placeholders);
    SpecRead(columns, FormatOf(steps, p.messages));
    FormatRead(steps, p.messages);
    AllColumnsRead(I, table, p);
    EnvStart(I, p);
    StepsRead(M.Env(I, p, 0), I, p, |p.steps.keys|);
    StepCount(p);
    assert StepsValue(steps).items[..|p.steps.keys|] == StepsValue(steps).items;
    MessagesRead(M.Env(I, p, |p.steps.keys|), I, p.messages);
    RunUnfolds(I, p);
    MeansUnfolds(I, table, DataOf(Plainly, p, placeholders));
  }

  lemma DataOfPlainly(p: L.Program, placeholders: Placeholders)
    requires p.columns.Valid() && p.steps.Valid()
    ensures DataOf(Plainly, p, placeholders) == GraphTemplate(TemplateSpec(ProgramColumns(p), FormatOf(ProgramSteps(p), p.messages)))
  {
    hide GraphTemplate, TemplateSpec, FormatOf, ProgramColumns, ProgramSteps;
  }

  lemma EnvStart<V>(I: M.Interp<V>, p: L.Program)
    requires M.StepsPresent(p)
    ensures M.Env(I, p, 0) == map l | l in p.columns.vals :: M.ColumnValue(I, p.columns.vals[l])
  {
    hide M.ColumnValue;
  }

  lemma StepCount(p: L.Program)
    requires p.steps.Valid()
    ensures StepsValue(ProgramSteps(p)).List? && |StepsValue(ProgramSteps(p)).items| == |p.steps.keys|
  {
    hide StepValue;
  }

  lemma RunUnfolds<V>(I: M.Interp<V>, p: L.Program)
    requires M.StepsPresent(p)
    ensures M.Run(I, p) == M.EvalMsgs(M.Env(I, p, |p.steps.keys|), I, p.messages)
  {
    hide M.EvalMsgs, M.Env;
  }

  lemma MeansUnfolds<V>(I: M.Interp<V>, table: seq<(string, (Id, string))> -> V, data: Value)
    ensures var template := Get(Some(data), "template");
            var format := Get(Get(template, "options"), "format");
            DataMeans(I, table, data) ==
            MessagesMean(StepsMean(ColumnsMean(I, table, ItemsAt(template, "columns")), I, ItemsAt(format, "steps")), I,
                         ItemsAt(format, "messages"))
  {
    hide Get, ItemsAt, MessagesMean, StepsMean, ColumnsMean;
  }

  /** The node of a plain call means what the call's operators mean, under every interpretation, exactly when no
      visited format operator has a positional argument and no literal is taken for a label. */
  lemma NodeMeansIff(sc: O.Scope, call: Call, placeholders: Placeholders, op: RuntimeOp,
                     table: seq<(string, (Id, string))> -> M.Term)
    requires IsNodeOf(sc, call, placeholders, op) && call.shape.Plainly?
    ensures sc.Ranked() && call.root in sc.g && L.Traces(sc, call.root)
    ensures (forall I: M.Interp<M.Term> :: DataMeans(I, table, op.data) == M.Meaning(sc, I, call.root)) <==>
              M.KeywordOnly(sc, L.Reach(sc, call.root)) && LoweringCheck.LiteralsSafe(sc, call.root)
  {
    hide DataMeans, DataOf, L.Reach, L.Traces, T.IsTraced, O.Scope.Ranked, M.Meaning, M.Run, M.KeywordOnly,
         LoweringCheck.LiteralsSafe;
    var p :| T.IsTraced(sc, call.root, p) && IsNodeFrom(sc, call, placeholders, p, op);
    LoweringCheck.MeaningKeptBeforehandIff(sc, call.root, p);
    forall I: M.Interp<M.Term> ensures DataMeans(I, table, op.data) == M.Run(I, p) {
      PlainRuns(I, table, p, placeholders);
    }
  }

  // ---- the aggregate branch ----------------------------------------------------------------

  /** The columns of the table, in order: the rows with a name, a node and a path. */
  ghost function Tabled(rows: seq<Row>): (r: seq<(string, (Id, string))>) {
    if rows == [] then []
    else
      var row := rows[|rows| - 1];
      Tabled(rows[..|rows| - 1]) +
      if row.name.Some? && row.node.Some? && row.path.Some? then [(row.name.value, (row.node.value, row.path.value))] else []
  }

  ghost function NamesBound(kwargs: seq<(string, string)>): (r: set<string>) {
    set i | 0 <= i < |kwargs| :: kwargs[i].0
  }

  /** A template step also sees the columns that its placeholders name and that it does not bind itself. */
  ghost function AggregateStep<V>(env: map<string, V>, I: M.Interp<V>, step: L.Step, columns: set<string>,
                                  placeholders: Placeholders): (r: V)
  {
    match step
    case Template(template, kwargs) =>
      var more := Keep(placeholders(template), columns - NamesBound(kwargs));
      I.format(template, [],
               seq(|kwargs|, i requires 0 <= i < |kwargs| => (kwargs[i].0, M.Resolve(env, I, kwargs[i].1))) +
               seq(|more|, i requires 0 <= i < |more| => (more[i], M.Resolve(env, I, more[i]))))
    case Function(_, _) => M.EvalStep(env, I, step)
  }

  /** The program over the table `df`: its columns and the table, then the first `n` steps. */
  ghost function AggregateEnv<V>(I: M.Interp<V>, df: V, p: L.Program, placeholders: Placeholders, n: nat)
    : (r: map<string, V>)
    requires M.StepsPresent(p) && n <= |p.steps.keys|
  {
    if n == 0 then (map l | l in p.columns.vals :: M.ColumnValue(I, p.columns.vals[l]))["df" := df]
    else
      var before, l := AggregateEnv(I, df, p, placeholders, n - 1), p.steps.keys[n - 1];
      before[l := AggregateStep(before, I, p.steps.vals[l], p.columns.vals.Keys + {"df"}, placeholders)]
  }

  lemma {:induction false} MoreSnoc(names: seq<string>, bound: set<string>, columns: set<string>, x: string)
    ensures MoreBindings(names + [x], bound, columns) ==
            MoreBindings(names, bound, columns) + if x !in bound && x in columns then [(x, x)] else []
  {
    if names == [] {
      assert ([x])[1..] == [];
    } else {
      assert (names + [x])[1..] == names[1..] + [x];
      MoreSnoc(names[1..], bound, columns, x);
    }
  }

  lemma {:induction false} MoreAreKept(names: seq<string>, bound: set<string>, columns: set<string>)
    ensures var more := Keep(names, columns - bound);
            MoreBindings(names, bound, columns) == seq(|more|, i requires 0 <= i < |more| => (more[i], more[i]))
  {
    if names != [] {
      var n := |names| - 1;
      assert names[..n] + [names[n]] == names;
      assert Keep(names, columns - bound) ==
             Keep(names[..n], columns - bound) + if names[n] in columns - bound then [names[n]] else [];
      hide Keep, MoreBindings;
      MoreAreKept(names[..n], bound, columns);
      MoreSnoc(names[..n], bound, columns, names[n]);
    }
  }

  lemma AggregateStepRead<V>(env: map<string, V>, I: M.Interp<V>, name: string, step: L.Step, columns: set<string>,
                             placeholders: Placeholders)
    ensures var value := StepValue(name, RenderedStep(step, columns, placeholders));
            TextAt(Some(value), "label") == name &&
            StepMeans(env, I, value) == AggregateStep(env, I, step, columns, placeholders)
  {
    hide StepMeans, StepValue, TextAt, M.Resolve, Keep, MoreBindings;
    StepRead(env, I, name, RenderedStep(step, columns, placeholders));
    if step.Template? {
      var kwargs, names := step.kwargs, placeholders(step.template);
      assert NamesBound(kwargs) == NodeBuilding.Labels(kwargs);
      MoreAreKept(names, NodeBuilding.Labels(kwargs), columns);
      var more := Keep(names, columns - NamesBound(kwargs));
      var all := kwargs + MoreBindings(names, NodeBuilding.Labels(kwargs), columns);
      assert seq(|all|, i requires 0 <= i < |all| => (all[i].0, M.Resolve(env, I, all[i].1))) ==
             seq(|kwargs|, i requires 0 <= i < |kwargs| => (kwargs[i].0, M.Resolve(env, I, kwargs[i].1))) +
             seq(|more|, i requires 0 <= i < |more| => (more[i], M.Resolve(env, I, more[i])));
    }
  }

  lemma {:induction false} AggregateStepsRead<V>(env: map<string, V>, I: M.Interp<V>, df: V, p: L.Program,
                                                 placeholders: Placeholders, n: nat)
    requires p.columns.Valid() && p.steps.Valid() && M.StepsPresent(p) && n <= |p.steps.keys|
    requires env == AggregateEnv(I, df, p, placeholders, 0)
    ensures StepsValue(RenderedSteps(p, placeholders)).List?
    ensures StepsMean(env, I, StepsValue(RenderedSteps(p, placeholders)).items[..n]) == AggregateEnv(I, df, p, placeholders, n)
  {
    hide *;
    RenderedCount(p, placeholders);
    var items := StepsValue(RenderedSteps(p, placeholders)).items;
    if n == 0 {
      assert items[..0] == [];
      NoSteps(env, I);
    } else {
      AggregateStepsRead(env, I, df, p, placeholders, n - 1);
      var l, columns := p.steps.keys[n - 1], p.columns.vals.Keys + {"df"};
      RenderedAt(p, placeholders, n - 1);
      AggregateStepRead(AggregateEnv(I, df, p, placeholders, n - 1), I, l, p.steps.vals[l], columns, placeholders);
      AggregateNext(I, df, p, placeholders, n);
      StepsNext(env, I, items, n - 1);
    }
  }

  lemma NoSteps<V>(env: map<string, V>, I: M.Interp<V>)
    ensures StepsMean(env, I, []) == env
  {
  }

  lemma StepsNext<V>(env: map<string, V>, I: M.Interp<V>, items: seq<Value>, n: nat)
    requires n < |items|
    ensures var before := StepsMean(env, I, items[..n]);
            StepsMean(env, I, items[..n + 1]) == before[TextAt(Some(items[n]), "label") := StepMeans(before, I, items[n])]
  {
    hide StepMeans, TextAt;
    assert items[..n + 1][..n] == items[..n];
  }

  lemma AggregateNext<V>(I: M.Interp<V>, df: V, p: L.Program, placeholders: Placeholders, n: nat)
    requires M.StepsPresent(p) && 0 < n <= |p.steps.keys|
    ensures var before, l := AggregateEnv(I, df, p, placeholders, n - 1), p.steps.keys[n - 1];
            l in p.steps.vals && AggregateEnv(I, df, p, placeholders, n) ==
            before[l := AggregateStep(before, I, p.steps.vals[l], p.columns.vals.Keys + {"df"}, placeholders)]
  {
    hide AggregateStep, M.ColumnValue;
  }

  lemma RenderedAt(p: L.Program, placeholders: Placeholders, i: nat)
    requires p.columns.Valid() && p.steps.Valid() && i < |p.steps.keys|
    ensures StepsValue(RenderedSteps(p, placeholders)).List? && i < |StepsValue(RenderedSteps(p, placeholders)).items|
    ensures p.steps.keys[i] in p.steps.vals
    ensures StepsValue(RenderedSteps(p, placeholders)).items[i] ==
            StepValue(p.steps.keys[i], RenderedStep(p.steps.vals[p.steps.keys[i]], p.columns.vals.Keys + {"df"}, placeholders))
  {
    hide StepValue, RenderedStep;
  }

  lemma {:induction false} TableRead(rows: seq<Row>)
    ensures TableReads(ColumnValues(TableColumns(rows))) == Tabled(rows)
  {
    hide ColumnValue, TextAt;
    if rows != [] {
      var n := |rows| - 1;
      TableRead(rows[..n]);
      var row, before := rows[n], TableColumns(rows[..n]);
      if row.Reads() {
        NodeColumnRead(row.name.value, row.node.value, row.path.value);
        var last := Column(row.name.value, row.node, row.path.value, None);
        assert ColumnValues(before + [last]) == ColumnValues(before) + [ColumnValue(last)];
      } else {
        assert TableColumns(rows) == before;
      }
    }
  }

  lemma FrameRead(columns: seq<Column>)
    ensures var v := Some(DataValue(Frame(columns)));
            TextAt(v, "type") == "dataframe" && ItemsAt(v, "columns") == ColumnValues(columns)
  {
    hide Get, ColumnValues;
    GetTwo("type", Text("dataframe"), "columns", List(ColumnValues(columns)));
  }

  /** A nested template holds its columns. */
  lemma NestedRead(columns: seq<Column>)
    ensures var v := Some(DataValue(Data.Template(columns)));
            TextAt(v, "type") == "graph_template" && ItemsAt(Get(v, "template"), "columns") == ColumnValues(columns)
  {
    hide Get, ColumnValues;
    var template := Object([Entry("columns", List(ColumnValues(columns)))]);
    GetTwo("type", Text("graph_template"), "template", template);
    GetOne("columns", List(ColumnValues(columns)));
  }

  lemma MergedRead<V>(I: M.Interp<V>, table: seq<(string, (Id, string))> -> V, p: L.Program, rows: seq<Row>)
    requires p.columns.Valid() && M.StepsPresent(p)
    ensures forall placeholders :: ColumnsMean(I, table, ColumnValues(MergedColumns(p, rows))) ==
                                   AggregateEnv(I, table(Tabled(rows)), p, placeholders, 0)
  {
    hide ColumnMeans, ColumnValue, ProgramColumns, M.ColumnValue, TableReads, TextAt, ItemsAt, DataValue;
    var df := Column("df", None, "", Some(Frame(TableColumns(rows))));
    AllColumnsRead(I, table, p);
    DataColumnRead("df", Frame(TableColumns(rows)));
    FrameRead(TableColumns(rows));
    TableRead(rows);
    var before := ColumnValues(ProgramColumns(p));
    assert ColumnValues(MergedColumns(p, rows)) == before + [ColumnValue(df)];
    assert (before + [ColumnValue(df)])[..|before|] == before;
    DfMeans(I, table, ColumnValue(df), rows);
  }

  lemma DfMeans<V>(I: M.Interp<V>, table: seq<(string, (Id, string))> -> V, v: Value, rows: seq<Row>)
    requires Get(Some(v), "data").Some? && TextAt(Get(Some(v), "data"), "type") == "dataframe"
    requires TableReads(ItemsAt(Get(Some(v), "data"), "columns")) == Tabled(rows)
    ensures ColumnMeans(I, table, v) == table(Tabled(rows))
  {
    hide Get, TextAt, ItemsAt, TableReads;
  }

  lemma AggregateFormatRead(steps: seq<(string, L.Step)>, messages: seq<L.Msg>)
    ensures var format := Some(RenderedFormat(steps, messages));
            StepsValue(steps).List? && MessagesValue(messages).List? &&
            ItemsAt(format, "steps") == StepsValue(steps).items && ItemsAt(format, "messages") == MessagesValue(messages).items
  {
    hide Get, StepValue, MessageValue;
    if steps == [] {
      GetOne("messages", MessagesValue(messages));
    } else {
      GetTwo("messages", MessagesValue(messages), "steps", StepsValue(steps));
    }
  }

  /** Reading the node of an aggregate call computes the program over the table: the columns and the table `df`, the
      steps with the columns that their placeholders name, and the same messages. */
  lemma AggregateRuns<V>(I: M.Interp<V>, table: seq<(string, (Id, string))> -> V, p: L.Program, rows: seq<Row>,
                         placeholders: Placeholders)
    requires p.columns.Valid() && p.steps.Valid() && M.StepsPresent(p)
    ensures DataMeans(I, table, DataOf(Aggregate(rows), p, placeholders)) ==
            M.EvalMsgs(AggregateEnv(I, table(Tabled(rows)), p, placeholders, |p.steps.keys|), I, p.messages)
  {
    hide *;
    var columns, steps, df := MergedColumns(p, rows), RenderedSteps(p, placeholders), table(Tabled(rows));
    DataOfAggregate(p, rows, placeholders);
    SpecRead(columns, RenderedFormat(steps, p.messages));
    AggregateFormatRead(steps, p.messages);
    MergedRead(I, table, p, rows);
    AggregateStepsRead(AggregateEnv(I, df, p, placeholders, 0), I, df, p, placeholders, |p.steps.keys|);
    RenderedCount(p, placeholders);
    assert StepsValue(steps).items[..|p.steps.keys|] == StepsValue(steps).items;
    MessagesRead(AggregateEnv(I, df, p, placeholders, |p.steps.keys|), I, p.messages);
    MeansUnfolds(I, table, DataOf(Aggregate(rows), p, placeholders));
  }

  lemma DataOfAggregate(p: L.Program, rows: seq<Row>, placeholders: Placeholders)
    requires p.columns.Valid() && p.steps.Valid()
    ensures DataOf(Aggregate(rows), p, placeholders) ==
            GraphTemplate(TemplateSpec(MergedColumns(p, rows), RenderedFormat(RenderedSteps(p, placeholders), p.messages)))
  {
    hide GraphTemplate, TemplateSpec, RenderedFormat, MergedColumns, RenderedSteps;
  }

  lemma RenderedCount(p: L.Program, placeholders: Placeholders)
    requires p.columns.Valid() && p.steps.Valid()
    ensures StepsValue(RenderedSteps(p, placeholders)).List? && |StepsValue(RenderedSteps(p, placeholders)).items| == |p.steps.keys|
  {
    hide StepValue, RenderedStep;
  }

  /** The node of an aggregate call computes the program of its trace over the table. */
  lemma AggregateNodeRuns<V(!new)>(sc: O.Scope, call: Call, placeholders: Placeholders, op: RuntimeOp, I: M.Interp<V>,
                                   table: seq<(string, (Id, string))> -> V)
    requires IsNodeOf(sc, call, placeholders, op) && call.shape.Aggregate?
    ensures exists p :: T.IsTraced(sc, call.root, p) && M.StepsPresent(p) &&
              DataMeans(I, table, op.data) ==
              M.EvalMsgs(AggregateEnv(I, table(Tabled(call.shape.table)), p, placeholders, |p.steps.keys|), I, p.messages)
  {
    hide DataMeans, DataOf, L.Reach, T.IsTraced, O.Scope.Ranked, AggregateEnv, M.EvalMsgs, Tabled, M.StepsPresent;
    var p :| T.IsTraced(sc, call.root, p) && IsNodeFrom(sc, call, placeholders, p, op);
    LoweringCheck.MeaningKeptBeforehandIff(sc, call.root, p);
    AggregateRuns(I, table, p, call.shape.table, placeholders);
  }

  /** Both kinds of template say so. */
  lemma TemplatesTyped(sc: O.Scope, call: Call, placeholders: Placeholders, op: RuntimeOp)
    requires IsNodeOf(sc, call, placeholders, op) && !call.shape.Rowwise?
    ensures TextAt(Some(op.data), "type") == "graph_template"
    ensures TextAt(Get(Some(op.data), "template"), "name") == "format"
  {
    hide Get, TemplateSpec, T.IsTraced, L.Reach, O.Scope.Ranked, FormatOf, RenderedFormat, ProgramColumns, MergedColumns;
    var p :| T.IsTraced(sc, call.root, p) && IsNodeFrom(sc, call, placeholders, p, op);
    match call.shape
    case Plainly =>
      TypedBy(TemplateSpec(ProgramColumns(p), FormatOf(ProgramSteps(p), p.messages)));
      NamedBy(ProgramColumns(p), FormatOf(ProgramSteps(p), p.messages));
    case Aggregate(rows) =>
      TypedBy(TemplateSpec(MergedColumns(p, rows), RenderedFormat(RenderedSteps(p, placeholders), p.messages)));
      NamedBy(MergedColumns(p, rows), RenderedFormat(RenderedSteps(p, placeholders), p.messages));
  }

  lemma TypedBy(spec: Value)
    ensures TextAt(Some(GraphTemplate(spec)), "type") == "graph_template"
    ensures Get(Some(GraphTemplate(spec)), "template") == Some(spec)
  {
    hide Get;
    GetTwo("type", Text("graph_template"), "template", spec);
  }

  lemma NamedBy(columns: seq<Column>, format: Value)
    ensures TextAt(Some(TemplateSpec(columns, format)), "name") == "format"
  {
    hide Get, ColumnValues;
    GetThree("name", Text("format"), "columns", List(ColumnValues(columns)), "options", One("format", format));
  }

  /** The node of a row-wise call holds its rows and messages. */
  lemma RowwiseNodeReads(sc: O.Scope, call: Call, placeholders: Placeholders, op: RuntimeOp)
    requires IsNodeOf(sc, call, placeholders, op) && call.shape.Rowwise?
    ensures var data, system := Some(op.data), call.shape.system;
            TextAt(data, "type") == "dataframe" && ReadsRows(ItemsAt(data, "columns"), Columned(call.shape.rows)) &&
            |ItemsAt(data, "messages")| == |system| + 1 && Says(ItemsAt(data, "messages"), |system|, "user", call.shape.user) &&
            forall i :: 0 <= i < |system| ==> Says(ItemsAt(data, "messages"), i, "system", system[i])
  {
    hide Get, T.IsTraced, L.Reach, O.Scope.Ranked, DataOf, ReadsRows, Columned, Says, ItemsAt;
    var p :| T.IsTraced(sc, call.root, p) && IsNodeFrom(sc, call, placeholders, p, op);
    RowwiseReads(call.shape.rows, call.shape.system, call.shape.user, p, placeholders);
  }

  // ---- the row-wise branch -----------------------------------------------------------------

  /** The rows that become columns: those with a name, and with data or a node and a path. */
  ghost function Columned(rows: seq<Row>): (r: seq<Row>) {
    if rows == [] then []
    else
      var row := rows[|rows| - 1];
      Columned(rows[..|rows| - 1]) +
      if row.name.Some? && (row.data.Some? || (row.node.Some? && row.path.Some?)) then [row] else []
  }

  /** The column is the row: its data, or else its node and path. */
  ghost predicate ReadsRow(v: Value, row: Row) {
    row.name == Some(TextAt(Some(v), "label")) &&
    if row.data.Some? then Get(Some(v), "data") == Some(DataValue(row.data.value)) && Get(Some(v), "node") == None
    else Get(Some(v), "data") == None && row.node == Some(TextAt(Some(v), "node")) && row.path == Some(TextAt(Some(v), "path"))
  }

  ghost predicate ReadsRows(columns: seq<Value>, rows: seq<Row>) {
    |columns| == |rows| && forall i :: 0 <= i < |columns| ==> ReadsRow(columns[i], rows[i])
  }

  lemma {:induction false} RowsRead(rows: seq<Row>)
    ensures ReadsRows(ColumnValues(RowColumns(rows)), Columned(rows))
  {
    hide ColumnValue, ReadsRow;
    if rows != [] {
      var n := |rows| - 1;
      RowsRead(rows[..n]);
      RowRead(rows[n]);
      var before := RowColumns(rows[..n]);
      assert ColumnValues(before + RowColumn(rows[n])) == ColumnValues(before) + ColumnValues(RowColumn(rows[n]));
    }
  }

  lemma RowRead(row: Row)
    ensures if row.name.Some? && (row.data.Some? || (row.node.Some? && row.path.Some?))
            then |RowColumn(row)| == 1 && ReadsRow(ColumnValue(RowColumn(row)[0]), row)
            else RowColumn(row) == []
  {
    hide Get, ColumnValue, DataValue;
    if row.Carries() {
      DataColumnRead(row.name.value, row.data.value);
    } else if row.Reads() {
      NodeColumnRead(row.name.value, row.node.value, row.path.value);
    }
  }

  /** Message `i` has the role and the content. */
  ghost predicate Says(messages: seq<Value>, i: nat, role: string, content: string) {
    i < |messages| && Get(Some(messages[i]), "role") == Some(Text(role)) && Get(Some(messages[i]), "content") == Some(Text(content))
  }

  /** The node of a row-wise call holds the columns of its rows, and its system messages before its template. */
  lemma RowwiseReads(rows: seq<Row>, system: seq<string>, user: string, p: L.Program, placeholders: Placeholders)
    requires p.columns.Valid() && p.steps.Valid()
    ensures var data := Some(DataOf(Rowwise(rows, system, user), p, placeholders));
            TextAt(data, "type") == "dataframe" && ReadsRows(ItemsAt(data, "columns"), Columned(rows)) &&
            |ItemsAt(data, "messages")| == |system| + 1 && Says(ItemsAt(data, "messages"), |system|, "user", user) &&
            forall i :: 0 <= i < |system| ==> Says(ItemsAt(data, "messages"), i, "system", system[i])
  {
    hide Get, ReadsRows, RowColumns, ColumnValues, Columned, MessageValue;
    RowsRead(rows);
    var messages := RowMessages(system, user);
    GetThree("type", Text("dataframe"), "columns", List(ColumnValues(RowColumns(rows))), "messages", MessagesValue(messages));
    var items := MessagesValue(messages).items;
    forall i | 0 <= i < |messages|
      ensures Says(items, i, O.RoleName(messages[i].role), messages[i].text)
    {
      PackedRead(messages[i].role, messages[i].text);
    }
  }

  lemma PackedRead(role: O.Role, text: string)
    ensures var v := Some(MessageValue(L.Packed(role, text)));
            Get(v, "role") == Some(Text(O.RoleName(role))) && Get(v, "content") == Some(Text(text))
  {
    hide Get;
    GetTwo("role", Text(O.RoleName(role)), "content", Text(text));
  }

  // ---- vision calls ------------------------------------------------------------------------

  /** The node of a vision call holds its columns and format, and the embedding. */
  lemma VisionReads(columns: seq<Column>, format: Value, embedding: Id)
    ensures var data := Some(VisionData(columns, format, embedding));
            TextAt(data, "type") == "graph_template" && ItemsAt(Get(data, "template"), "columns") == ColumnValues(columns) &&
            Get(Get(Get(data, "template"), "options"), "format") == Some(format) &&
            TextAt(Get(data, "image_embedding"), "node") == embedding &&
            TextAt(Get(data, "image_embedding"), "path") == "embedding_file"
  {
    hide Get, ColumnValues, TemplateSpec;
    var spec, image := TemplateSpec(columns, format), Object([Entry("node", Text(embedding)), Entry("path", Text("embedding_file"))]);
    GetThree("type", Text("graph_template"), "template", spec, "image_embedding", image);
    GetTwo("node", Text(embedding), "path", Text("embedding_file"));
    SpecHolds(columns, format);
  }

  lemma SpecHolds(columns: seq<Column>, format: Value)
    ensures var spec := Some(TemplateSpec(columns, format));
            ItemsAt(spec, "columns") == ColumnValues(columns) && Get(Get(spec, "options"), "format") == Some(format)
  {
    hide Get, ColumnValues;
    GetThree("name", Text("format"), "columns", List(ColumnValues(columns)), "options", One("format", format));
    GetOne("format", format);
  }

  /** The batch column holds one empty text for each given image, or the images of a node. */
  lemma BatchReads(source: ImageSource)
    ensures var v := Some(ColumnValue(BatchColumn(source)));
            TextAt(v, "label") == source.id + "_batch" &&
            if source.Items? then
              TextAt(Get(v, "data"), "type") == "list" &&
              TextsOf(ItemsAt(Get(v, "data"), "items")) == seq(|source.items|, _ => "")
            else Get(v, "data") == None && TextAt(v, "node") == source.id && TextAt(v, "path") == source.path
  {
    hide Get, ColumnValue;
    match source
    case Items(id, items) =>
      DataColumnRead(id + "_batch", Other(ListSpec(seq(|items|, _ => ""))));
      ListRead(seq(|items|, _ => ""));
    case Produced(id, path) => NodeColumnRead(id + "_batch", id, path);
  }

  /** The embedding node reads the given images, or those of a node. */
  lemma EmbeddingHolds(source: ImageSource)
    ensures var v := Some(EmbeddingData(source));
            TextAt(v, "type") == "list" &&
            if source.Items? then TextsOf(ItemsAt(v, "items")) == source.items
            else TextAt(v, "node") == source.id && TextAt(v, "path") == source.path
  {
    hide Get;
    match source
    case Items(_, items) => ListRead(items);
    case Produced(id, path) => GetThree("type", Text("list"), "node", Text(id), "path", Text(path));
  }
}
