/** The whole build of the chat nodes of a graph: which operators count as visited beforehand
    (runtime/runtime_graph.py:354-389, 494-516), and calls whose node loses what they wait for. */
module GraphBuilding {
  import opened Collections
  import opened RuntimeGraphs
  import opened ExecutionOrder
  import opened TemplateDependencies
  import opened NodeBuilding
  import opened GraphComponents
  import opened Delays
  import L = Lowering
  import O = Ops
  import T = Tracer

  // ---- marking -----------------------------------------------------------------------------

  /** What a retrieval names: its inputs, and the nodes of its parameters. */
  datatype Retrieval = Retrieval(inputs: seq<Id>, params: seq<Id>)

  /** The output operators with their sources, in the order of the graph, and the retrievals. */
  datatype Ends = Ends(outputs: seq<(Id, Id)>, retrievals: seq<(Id, Retrieval)>)

  datatype MarkError = BadSource(output: Id) | NothingToRun

  predicate Runs(sc: O.Scope, id: Id) {
    id in sc.g && (sc.g[id].Generator? || sc.g[id].RetrievalOp?)
  }

  /** What runs is what a program can read: the frontier of the whole graph. */
  lemma RunningAreFrontier(sc: O.Scope)
    ensures (set id | id in sc.g && Runs(sc, id)) == Frontier(sc, sc.g.Keys)
  {
  }

  ghost predicate SourcesRun(sc: O.Scope, ends: Ends) {
    forall i :: 0 <= i < |ends.outputs| ==> Runs(sc, ends.outputs[i].1)
  }

  ghost predicate SomethingRuns(sc: O.Scope) {
    exists id :: id in sc.g && Runs(sc, id)
  }

  ghost function OutputIds(outputs: seq<(Id, Id)>): (r: set<Id>) {
    set i | 0 <= i < |outputs| :: outputs[i].0
  }

  /** What one retrieval marks: its inputs, and its parameters as far as they are in the graph. */
  ghost function MarksOf(sc: O.Scope, r: Retrieval): (s: set<Id>) {
    Elems(r.inputs) + (Elems(r.params) * sc.g.Keys)
  }

  ghost function RetrievalMarks(sc: O.Scope, retrievals: seq<(Id, Retrieval)>): (r: set<Id>) {
    set i, id | 0 <= i < |retrievals| && id in MarksOf(sc, retrievals[i].1) :: id
  }

  /** Everything that is visited before the first chat node is built. */
  ghost function Marked(sc: O.Scope, ends: Ends): (r: set<Id>) {
    (set id | id in sc.g && Runs(sc, id)) + OutputIds(ends.outputs) + RetrievalMarks(sc, ends.retrievals)
  }

  /** The first loop, over the operators of the graph, and `_mark_retrieval_upstream_nodes_visited`. */
  method Mark(sc: O.Scope, ends: Ends) returns (r: Result<set<Id>, MarkError>)
    ensures r.Ok? <==> SourcesRun(sc, ends) && SomethingRuns(sc)
    ensures r.Ok? ==> r.value == Marked(sc, ends)
    ensures r.Err? && r.error.BadSource? ==>
              exists i :: 0 <= i < |ends.outputs| && ends.outputs[i].0 == r.error.output && !Runs(sc, ends.outputs[i].1)
  {
    var running := set id | id in sc.g && Runs(sc, id);
    var visited := running;
    for i := 0 to |ends.outputs|
      invariant visited == running + OutputIds(ends.outputs[..i])
      invariant forall j :: 0 <= j < i ==> Runs(sc, ends.outputs[j].1)
    {
      if !Runs(sc, ends.outputs[i].1) {
        return Err(BadSource(ends.outputs[i].0));
      }
      OutputIdsNext(ends.outputs, i);
      visited := visited + {ends.outputs[i].0};
    }
    assert ends.outputs[..|ends.outputs|] == ends.outputs;
    if running == {} {
      assert forall id :: id in sc.g && Runs(sc, id) ==> id in running;
      return Err(NothingToRun);
    }
    assert SomethingRuns(sc) by { var id :| id in running; }
    ghost var before := visited;
    for i := 0 to |ends.retrievals|
      invariant visited == before + RetrievalMarks(sc, ends.retrievals[..i])
    {
      var retrieval := ends.retrievals[i].1;
      RetrievalMarksNext(sc, ends.retrievals, i);
      visited := visited + Elems(retrieval.inputs) + (set p | p in retrieval.params && p in sc.g);
      assert (set p | p in retrieval.params && p in sc.g) == Elems(retrieval.params) * sc.g.Keys;
    }
    assert ends.retrievals[..|ends.retrievals|] == ends.retrievals;
    r := Ok(visited);
  }

  lemma OutputIdsNext(outputs: seq<(Id, Id)>, i: nat)
    requires i < |outputs|
    ensures OutputIds(outputs[..i + 1]) == OutputIds(outputs[..i]) + {outputs[i].0}
  {
    var now, next := outputs[..i], outputs[..i + 1];
    assert forall j :: 0 <= j < i + 1 ==> next[j] == if j < i then now[j] else outputs[i];
  }

  lemma RetrievalMarksNext(sc: O.Scope, retrievals: seq<(Id, Retrieval)>, i: nat)
    requires i < |retrievals|
    ensures RetrievalMarks(sc, retrievals[..i + 1]) == RetrievalMarks(sc, retrievals[..i]) + MarksOf(sc, retrievals[i].1)
  {
    hide MarksOf;
    var now, next := retrievals[..i], retrievals[..i + 1];
    assert forall j :: 0 <= j < i + 1 ==> next[j] == if j < i then now[j] else retrievals[i];
  }

  datatype GraphError = Unmarked(cause: MarkError) | Unbuilt(error: BuildError)

  /** Every operator of the graph is run, is an output, is read by a retrieval, or is reached from a call. */
  ghost predicate NoOrphan(sc: O.Scope, calls: seq<Call>, ends: Ends)
    requires CallsValid(sc, calls)
  {
    forall id :: id in sc.g ==>
      Runs(sc, id) || id in OutputIds(ends.outputs) || id in RetrievalMarks(sc, ends.retrievals) || id in Visited(sc, calls)
  }

  /** The build of the chat nodes: it succeeds exactly when each output shows a node, something runs, every call can be
      lowered, and no operator is an orphan. */
  method BuildGraph(sc: O.Scope, calls: seq<Call>, ends: Ends, placeholders: Placeholders)
    returns (r: Result<Built, GraphError>)
    requires CallsValid(sc, calls)
    ensures r.Ok? <==>
              SourcesRun(sc, ends) && SomethingRuns(sc) && AllBuildable(sc, calls) && NoOrphan(sc, calls, ends)
    ensures r.Ok? ==> NodesOf(sc, calls, placeholders, r.value)
  {
    hide CallsValid, AllBuildable, NodesOf, Visited, SourcesRun, SomethingRuns;
    var marked := Mark(sc, ends);
    if marked.Err? {
      return Err(Unmarked(marked.error));
    }
    OrphansIff(sc, calls, ends);
    var built := Build(sc, calls, marked.value, placeholders);
    r := if built.Err? then Err(Unbuilt(built.error)) else Ok(built.value);
  }

  lemma OrphansIff(sc: O.Scope, calls: seq<Call>, ends: Ends)
    requires CallsValid(sc, calls)
    ensures sc.g.Keys <= Marked(sc, ends) + Visited(sc, calls) <==> NoOrphan(sc, calls, ends)
  {
    hide CallsValid, Visited, OutputIds, RetrievalMarks, Runs;
  }

  // ---- calls that do not wait --------------------------------------------------------------

  /** A node keeps the run condition of its call exactly when the call has none or is plain. */
  lemma ConditionKeptIff(sc: O.Scope, call: Call, placeholders: Placeholders, op: RuntimeOp)
    requires IsNodeOf(sc, call, placeholders, op)
    ensures op.condition == call.condition <==> call.shape.Plainly? || call.condition == None
  {
    var p :| T.IsTraced(sc, call.root, p) && IsNodeFrom(sc, call, placeholders, p, op);
  }

  /** The exported node waits for the node of its call's condition exactly when the call is plain, or the condition
      looks at what the call reads or comes after anyway. */
  lemma CallWaitsIff(sc: O.Scope, call: Call, placeholders: Placeholders, nodes: map<Id, RuntimeOp>)
    requires call.id in nodes && IsNodeOf(sc, call, placeholders, nodes[call.id])
    requires call.condition.Some? && call.condition.value.node in nodes
    ensures sc.Ranked() && call.root in sc.g
    ensures call.condition.value.node in DependsOn(nodes, call.id) <==>
              call.shape.Plainly? ||
              call.condition.value.node in NodeBuilding.DepsOf(sc, call.shape, L.Reach(sc, call.root))
  {
    var p :| T.IsTraced(sc, call.root, p) && IsNodeFrom(sc, call, placeholders, p, nodes[call.id]);
    hide T.IsTraced, O.Scope.Ranked, L.Reach, NodeBuilding.DepsOf, DependsOn, DataOf;
    assert call.condition.value.node in nodes[call.id].dependencies <==>
           call.condition.value.node in Elems(nodes[call.id].dependencies);
  }

  function Greeting(): (r: seq<O.OpMessage>) {
    [O.OpMessage("user", O.Literal("hi"))]
  }

  function Idle(): Value { Scalar("null") }

  /** A call "n", and a row-wise call "c" that carries a table read from "n" and is to run on a condition on "n". */
  ghost function Waiting(): (r: O.Scope) {
    O.Scope(map["m" := O.MessageOp(Greeting()), "n" := O.Generator(false), "c" := O.Generator(false)],
            (id: Id) => if id == "m" then 0 else 1, map[])
  }

  function WaitingCall(): (r: Call) {
    Call("c", "m", Rowwise([TableRow("n")], [], ""), Idle(), Idle(), Some(Condition("n", Idle())))
  }

  function AwaitedCall(): (r: Call) {
    Call("n", "m", Plainly, Idle(), Idle(), None)
  }

  function GreetingProgram(): (r: L.Program) {
    L.Program(O.Dict([], map[]), O.Dict([], map[]), [L.Packed(O.User, "hi")])
  }

  function NodeOf(call: Call, placeholders: Placeholders): (r: RuntimeOp) {
    RuntimeOp("inference", DataOf(call.shape, GreetingProgram(), placeholders), call.model, call.inference, [], None,
              if call.shape.Plainly? then call.condition else None)
  }

  lemma GreetingTraces()
    ensures var sc := Waiting();
      sc.Ranked() && L.Reach(sc, "m") == {"m"} && L.Traces(sc, "m") && L.Traced(sc, "m") == [L.Packed(O.User, "hi")]
  {
    var sc, messages := Waiting(), Greeting();
    assert messages[..|messages| - 1] == [];
    assert O.Children(sc.g["m"]) == [];
    assert |"user"| == 4 && |"system"| == 6 && O.ParseRole("user") == Some(O.User);
    assert L.TraceOp(sc, "m") == Ok([] + [L.Packed(O.User, "hi")]);
  }

  lemma GreetingLowers()
    ensures T.IsTraced(Waiting(), "m", GreetingProgram())
  {
    var sc, p := Waiting(), GreetingProgram();
    var none: seq<Id> := [];
    GreetingTraces();
    GreetingLabels();
    hide L.Reach, L.TraceOp, O.Scope.Ranked, L.DistinctLabels;
    assert T.ColumnsExact(sc, p.columns, {"m"});
    assert T.StepsExact(sc, p.steps, {"m"}, none);
    assert T.LoweredBy(sc, "m", p, none);
  }

  lemma GreetingLabels()
    ensures L.DistinctLabels(Waiting())
  {
    var sc := Waiting();
    forall x, l | L.Owns(sc, x, l) ensures x in ["n", "c"] && l == L.OutputLabel(x) {
    }
    hide L.Owns, Waiting;
    assert L.OutputLabel("n")[0] == 'n' && L.OutputLabel("c")[0] == 'c';
  }

  lemma WaitingDeps(shape: Shape)
    requires shape == Plainly || shape == Rowwise([TableRow("n")], [], "")
    ensures Waiting().Ranked() && NodeBuilding.DepsOf(Waiting(), shape, {"m"}) == {}
  {
    GreetingTraces();
    assert RowNodes([TableRow("n")]) == {};
    hide L.Reach, O.Scope.Ranked;
    assert T.Generators(Waiting(), {"m"}) == {} && Frontier(Waiting(), {"m"}) == {};
  }

  /** A node that depends on no call of the example. */
  lemma WaitingNode(call: Call, placeholders: Placeholders)
    requires call == WaitingCall() || call == AwaitedCall()
    ensures IsNodeOf(Waiting(), call, placeholders, NodeOf(call, placeholders))
  {
    var none: seq<Id> := [];
    GreetingTraces();
    GreetingLowers();
    WaitingDeps(call.shape);
    assert call.root == "m" && "m" in Waiting().g && Elems(none) == {} && Distinct(none);
    assert GreetingProgram().columns.Valid() && GreetingProgram().steps.Valid();
    hide *;
    NodeBy(Waiting(), call, placeholders, GreetingProgram());
  }

  lemma NodeBy(sc: O.Scope, call: Call, placeholders: Placeholders, p: L.Program)
    requires sc.Ranked() && call.root in sc.g && T.IsTraced(sc, call.root, p) && p == GreetingProgram()
    requires p.columns.Valid() && p.steps.Valid() && NodeBuilding.DepsOf(sc, call.shape, L.Reach(sc, call.root)) == {}
    ensures IsNodeOf(sc, call, placeholders, NodeOf(call, placeholders))
  {
    hide O.Scope.Ranked, L.Reach, T.IsTraced, DataOf, NodeBuilding.DepsOf, GreetingProgram;
    var none: seq<Id> := [];
    assert Elems(none) == {};
    assert IsNodeFrom(sc, call, placeholders, p, NodeOf(call, placeholders));
  }

  function WaitingNodes(placeholders: Placeholders): (r: map<Id, RuntimeOp>) {
    map["c" := NodeOf(WaitingCall(), placeholders), "n" := NodeOf(AwaitedCall(), placeholders)]
  }

  /** The nodes of two calls. */
  lemma TwoNodes(sc: O.Scope, a: Call, b: Call, placeholders: Placeholders, x: RuntimeOp, y: RuntimeOp)
    requires IsNodeOf(sc, a, placeholders, x) && IsNodeOf(sc, b, placeholders, y) && a.id != b.id
    ensures NodesOf(sc, [a, b], placeholders, Built(map[a.id := x, b.id := y], [a.id, b.id]))
  {
    hide IsNodeOf;
    var calls, built := [a, b], Built(map[a.id := x, b.id := y], [a.id, b.id]);
    assert Elems(built.nodeOrder) == {a.id, b.id} == built.nodes.Keys;
    forall i | 0 <= i < 2 ensures NodeAt(sc, calls, placeholders, built, i) {
    }
  }

  lemma WaitingBuilt(placeholders: Placeholders)
    ensures NodesOf(Waiting(), [WaitingCall(), AwaitedCall()], placeholders, Built(WaitingNodes(placeholders), ["c", "n"]))
  {
    var a, b := WaitingCall(), AwaitedCall();
    assert a.id == "c" && b.id == "n" &&
           WaitingNodes(placeholders) == map["c" := NodeOf(a, placeholders), "n" := NodeOf(b, placeholders)];
    WaitingNode(a, placeholders);
    WaitingNode(b, placeholders);
    hide *;
    TwoNodes(Waiting(), a, b, placeholders, NodeOf(a, placeholders), NodeOf(b, placeholders));
  }

  lemma ReadsLater(nodes: map<Id, RuntimeOp>)
    requires nodes.Keys == {"c", "n"} && "n" in Refs(nodes["c"].data)
    ensures !ReadsInOrder(nodes, ["c", "n"])
  {
    hide Refs;
    var order, none := ["c", "n"], [];
    assert order[0] == "c" && order[..0] == none;
  }

  /** What `BuildGraph` demands. */
  ghost predicate Builds(sc: O.Scope, calls: seq<Call>, ends: Ends) {
    CallsValid(sc, calls) && SourcesRun(sc, ends) && SomethingRuns(sc) && AllBuildable(sc, calls) && NoOrphan(sc, calls, ends)
  }

  lemma WaitingBuilds()
    ensures Builds(Waiting(), [WaitingCall(), AwaitedCall()], Ends([], []))
  {
    hide *;
    var sc, a, b := Waiting(), WaitingCall(), AwaitedCall();
    WaitingValid();
    WaitingBuildable();
    WaitingRuns();
    WaitingReached();
    BuildsBy(sc, [a, b]);
  }

  lemma BuildsBy(sc: O.Scope, calls: seq<Call>)
    requires CallsValid(sc, calls) && AllBuildable(sc, calls) && SomethingRuns(sc)
    requires forall id :: id in sc.g ==> Runs(sc, id) || id in Visited(sc, calls)
    ensures Builds(sc, calls, Ends([], []))
  {
    hide CallsValid, AllBuildable, SomethingRuns, Runs, Visited;
  }

  lemma WaitingRows()
    ensures RowColumns([TableRow("n")]) != []
  {
    var rows := [TableRow("n")];
    assert rows[..0] == [] && RowColumn(rows[0]) != [];
    hide RowColumn;
  }

  lemma WaitingBuildable()
    ensures AllBuildable(Waiting(), [WaitingCall(), AwaitedCall()])
  {
    GreetingTraces();
    WaitingRows();
    hide L.Traces, RowColumns, L.Reach, L.TraceOp, O.Scope.Ranked;
    assert Buildable(Waiting(), WaitingCall()) && Buildable(Waiting(), AwaitedCall());
    hide Buildable;
  }

  lemma WaitingRuns()
    ensures SomethingRuns(Waiting()) && forall id :: id in Waiting().g ==> Runs(Waiting(), id) || id == "m"
  {
    assert Runs(Waiting(), "n") && Runs(Waiting(), "c");
  }

  lemma WaitingReached()
    ensures CallsValid(Waiting(), [WaitingCall(), AwaitedCall()])
    ensures "m" in Visited(Waiting(), [WaitingCall(), AwaitedCall()])
  {
    GreetingTraces();
    WaitingValid();
    hide CallsValid, L.Reach, L.TraceOp, O.Scope.Ranked;
    assert [WaitingCall(), AwaitedCall()][0].root == "m";
  }

  /** The graph builds, and its execution order runs "c" before "n", although "c" reads "n" and was to wait for it: a
      row-wise call depends on nothing that its carried data reads, and loses its condition. */
  lemma CarriedReadCanDangle(placeholders: Placeholders)
    ensures Builds(Waiting(), [WaitingCall(), AwaitedCall()], Ends([], []))
    ensures NodesOf(Waiting(), [WaitingCall(), AwaitedCall()], placeholders, Built(WaitingNodes(placeholders), ["c", "n"]))
    ensures var nodes := WaitingNodes(placeholders);
      IsOrder(nodes, ["c", "n"], ["c", "n"]) && "n" in Refs(nodes["c"].data) && !ReadsInOrder(nodes, ["c", "n"]) &&
      nodes["c"].condition == None && WaitingCall().condition == Some(Condition("n", Idle()))
  {
    var nodes := WaitingNodes(placeholders);
    WaitingBuilds();
    WaitingBuilt(placeholders);
    WaitingReads(placeholders);
    hide Builds, DataOf, Refs, IsOrder, ReadsInOrder, CallsValid, NodesOf;
    WaitingOrder(nodes);
    ReadsLater(nodes);
  }

  lemma WaitingValid()
    ensures CallsValid(Waiting(), [WaitingCall(), AwaitedCall()])
  {
    GreetingTraces();
    GreetingLabels();
    hide L.Reach, L.TraceOp, O.Scope.Ranked, L.DistinctLabels;
  }

  lemma WaitingReads(placeholders: Placeholders)
    ensures "n" in Refs(NodeOf(WaitingCall(), placeholders).data)
  {
    var rows := [TableRow("n")];
    WaitingNode(WaitingCall(), placeholders);
    ReadsOfCall(Waiting(), WaitingCall(), placeholders, NodeOf(WaitingCall(), placeholders));
    OneColumn(Column("y", Some("n"), "items.output", None));
    assert rows[0].Carries() && DataRefs(rows[0].data.value) == {"n"};
    assert "n" in CarriedRefs(rows);
  }

  lemma WaitingOrder(nodes: map<Id, RuntimeOp>)
    requires nodes.Keys == {"c", "n"} && nodes["c"].dependencies == [] && nodes["n"].dependencies == []
    ensures IsOrder(nodes, ["c", "n"], ["c", "n"])
  {
    var order := ["c", "n"];
    assert Elems(order) == {"c", "n"};
    assert order[0] == "c" && order[1..] == ["n"];
    assert Position(order, "c") == 0 && Position(order, "n") == 1;
    hide Elems, IsOrder, Position;
    NoNodeDependencies(nodes);
    SourcesFirst(nodes, "n", "c");
    TwoInOrder(nodes, order, "c", "n");
  }
}
