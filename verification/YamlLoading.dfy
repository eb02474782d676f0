/** When `Graph.from_json` can read emitted operators: what reading looks up (graphs/graph.py:131-139), and what the
    operators of one entry need. */
module YamlLoading {
  import opened Collections
  import opened Worklists
  import opened YamlEmission
  import O = Ops
  import S = OpSerialization
  import G = GraphSerialization

  // ---- what reading looks up ---------------------------------------------------------------

  /** The ids that `from_json` looks up, an unknown one being an error. Message contents are not among them, nor the
      nodes inside tables and data specs, nor the image source. */
  function LookedUp(s: S.Serialized): (r: set<Id>) {
    match s.payload
    case OutputData(_, _) => if |s.inputs| == 1 then {s.inputs[0]} else {}
    case FormatData(_, args, kwargs) => Elems(args) + Elems(O.KwargIds(kwargs))
    case LambdaData(_, _) => Elems(s.inputs)
    case RetrievalData(_) => Elems(s.inputs)
    case ModelData(_, content, _) => {content}
    case VisionData(content, _, _) => {content}
    case _ => {}
  }

  predicate WellShaped(s: S.Serialized) {
    (s.payload.OutputData? ==> |s.inputs| == 1) && (s.payload.LambdaData? ==> s.payload.name != "" && s.payload.code != "")
  }

  ghost function IdSet(graph: Graph): (r: set<Id>) {
    Elems(G.Keys(graph))
  }

  /** Every operator finds what it looks up among the known ids and those before it. */
  ghost predicate Loads(graph: Graph, known: set<Id>) {
    forall k :: 0 <= k < |graph| ==> LoadsAt(graph, known, k)
  }

  ghost predicate LoadsAt(graph: Graph, known: set<Id>, k: nat)
    requires k < |graph|
  {
    WellShaped(graph[k]) && LookedUp(graph[k]) <= known + IdSet(graph[..k])
  }

  lemma ParseOkIff(s: S.Serialized, known: set<Id>)
    ensures S.Parse(s, known).Ok? <==> WellShaped(s) && LookedUp(s) <= known
  {
  }

  /** Reading succeeds exactly when every looked-up id was emitted before. */
  lemma {:induction false} ReadableIff(graph: Graph)
    ensures G.ParseAll(graph).Ok? <==> Loads(graph, {})
  {
    if graph == [] {
    } else {
      var n := |graph| - 1;
      ReadableIff(graph[..n]);
      assert forall k :: 0 <= k < n ==> graph[..n][k] == graph[k] && graph[..n][..k] == graph[..k];
      assert Loads(graph, {}) <==> Loads(graph[..n], {}) && LoadsAt(graph, {}, n) by { LoadsLast(graph, {}); }
      if G.ParseAll(graph[..n]).Ok? {
        G.LoadedInOrder(graph[..n]);
        ParseOkIff(graph[n], IdSet(graph[..n]));
      }
    }
  }

  lemma LoadsLast(graph: Graph, known: set<Id>)
    requires graph != []
    ensures Loads(graph, known) <==> Loads(graph[..|graph| - 1], known) && LoadsAt(graph, known, |graph| - 1)
  {
    hide WellShaped, LookedUp, IdSet;
    var n := |graph| - 1;
    var init := graph[..n];
    assert forall k :: 0 <= k < n ==> init[k] == graph[k] && init[..k] == graph[..k];
    forall k | 0 <= k < n ensures LoadsAt(init, known, k) <==> LoadsAt(graph, known, k) {
      assert init[k] == graph[k] && init[..k] == graph[..k];
    }
  }

  lemma IdsAppend(a: Graph, b: Graph)
    ensures IdSet(a + b) == IdSet(a) + IdSet(b)
  {
    assert G.Keys(a + b) == G.Keys(a) + G.Keys(b);
    ElemsAppend(G.Keys(a), G.Keys(b));
  }

  lemma {:induction false} LoadsAppend(a: Graph, b: Graph, known: set<Id>)
    ensures Loads(a + b, known) <==> Loads(a, known) && Loads(b, known + IdSet(a))
  {
    if b == [] {
      assert a + b == a;
    } else {
      hide WellShaped, LookedUp, IdSet;
      var n := |b| - 1;
      var whole := a + b;
      assert whole[..|whole| - 1] == a + b[..n] && whole[|whole| - 1] == b[n];
      LoadsLast(whole, known);
      LoadsLast(b, known + IdSet(a));
      LoadsAppend(a, b[..n], known);
      IdsAppend(a, b[..n]);
      assert known + IdSet(a) + IdSet(b[..n]) == known + (IdSet(a) + IdSet(b[..n]));
    }
  }

  lemma LoadsOne(s: S.Serialized, known: set<Id>)
    ensures Loads([s], known) <==> WellShaped(s) && LookedUp(s) <= known
    ensures IdSet([s]) == {s.id}
  {
    assert [s][..0] == [] && IdSet([]) == {} && [s][0] == s;
    assert G.Keys([s]) == [s.id];
    assert known + {} == known;
    assert Loads([s], known) <==> LoadsAt([s], known, 0);
  }

  // ---- one operator ------------------------------------------------------------------------

  predicate Complete(body: Body) {
    body.Lambda? ==> body.name != "" && body.code != ""
  }

  /** The ids that the emitted operators look up outside themselves. */
  ghost function FieldIds(op: Op, internal: map<Id, Id>, graph: Graph): (r: set<Id>) {
    match op.body
    case Data(_) => {}
    case Message(_) => {}
    case Lambda(_, _) => Elems(ResolveAll(internal, op.entry.inputs))
    case Retrieval(_, _) => Elems(ResolveAll(internal, op.entry.inputs))
    case Format(_, args, kwargs) => Elems(ResolveAll(internal, args)) + Elems(O.KwargIds(ResolveKwargs(internal, kwargs)))
    case Embedding(input, _) => {Resolve(internal, input)}
    case Image(content, _) => {Resolve(internal, content)}
    case Model(source, _, _, _) =>
      if source.RefTo? then {Resolve(internal, source.name)} else InlineIds(source, internal, graph)
  }

  ghost function InlineIds(source: Messages, internal: map<Id, Id>, graph: Graph): (r: set<Id>)
    requires source.Inline?
  {
    if source.prompt.Some? then Elems(O.KwargIds(ResolveKwargs(internal, source.prompt.value.kwargs)))
    else Elems(WrappedIds(source.messages, internal, graph))
  }

  /** The operators emitted for one entry load exactly when the fields name known operators. */
  lemma OpLoadsIff(op: Op, internal: map<Id, Id>, graph: Graph, implicit: Implicit, known: set<Id>)
    ensures Loads(OpsOf(op, internal, graph, implicit), known) <==>
            Complete(op.body) && FieldIds(op, internal, graph) <= known
  {
    var front, main := FrontOf(op, internal, graph, implicit), MainOf(op, internal, graph, implicit);
    LoadsAppend(front, [main], known);
    LoadsOne(main, known + IdSet(front));
    match op.body {
      case Image(content, _) => ImageLoads(op, internal, graph, implicit, known);
      case Model(source, _, _, _) => ModelLoads(op, internal, graph, implicit, known);
      case _ => PlainLoads(op, internal, graph, implicit, known);
    }
  }

  lemma PlainLoads(op: Op, internal: map<Id, Id>, graph: Graph, implicit: Implicit, known: set<Id>)
    requires !op.body.Image? && !op.body.Model?
    ensures var front, main := FrontOf(op, internal, graph, implicit), MainOf(op, internal, graph, implicit);
      (Loads(front, known) && WellShaped(main) && LookedUp(main) <= known + IdSet(front)) <==>
      Complete(op.body) && FieldIds(op, internal, graph) <= known
  {
    assert IdSet([]) == {} && known + {} == known;
    hide Elems, O.KwargIds;
  }

  lemma ImplicitFormatLoads(id: Id, template: string, kwargs: seq<(string, Id)>, known: set<Id>)
    ensures Loads([ImplicitFormat(id, template, kwargs)], known) <==> Elems(O.KwargIds(kwargs)) <= known
    ensures IdSet([ImplicitFormat(id, template, kwargs)]) == {id}
  {
    var none: seq<Id> := [];
    assert Elems(none) == {};
    LoadsOne(ImplicitFormat(id, template, kwargs), known);
  }

  lemma RefKwargIds(ids: seq<Id>)
    ensures O.KwargIds(RefKwargs(ids)) == ids
  {
  }

  lemma ImageLoads(op: Op, internal: map<Id, Id>, graph: Graph, implicit: Implicit, known: set<Id>)
    requires op.body.Image?
    ensures var front, main := FrontOf(op, internal, graph, implicit), MainOf(op, internal, graph, implicit);
      (Loads(front, known) && WellShaped(main) && LookedUp(main) <= known + IdSet(front)) <==>
      FieldIds(op, internal, graph) <= known
  {
    var target := Resolve(internal, op.body.content);
    RefKwargIds([target]);
    ImplicitFormatLoads(implicit.format, RefTemplate(1), RefKwargs([target]), known);
    assert Elems([target]) == {target} && IdSet([]) == {} && known + {} == known;
    hide Loads, IdSet, Elems, RefTemplate, RefKwargs, O.KwargIds, ImplicitFormat;
  }

  lemma ModelLoads(op: Op, internal: map<Id, Id>, graph: Graph, implicit: Implicit, known: set<Id>)
    requires op.body.Model?
    ensures var front, main := FrontOf(op, internal, graph, implicit), MainOf(op, internal, graph, implicit);
      (Loads(front, known) && WellShaped(main) && LookedUp(main) <= known + IdSet(front)) <==>
      FieldIds(op, internal, graph) <= known
  {
    hide *;
    ModelReads(op, internal, graph, implicit);
    if op.body.source.Inline? {
      InlineLoads(op.entry, op.body.source, internal, graph, implicit, known);
    } else {
      NothingLoads(known);
    }
  }

  lemma NothingLoads(known: set<Id>)
    ensures Loads([], known) && IdSet([]) == {}
  {
  }

  /** A model call looks up its message operator only. */
  lemma ModelReads(op: Op, internal: map<Id, Id>, graph: Graph, implicit: Implicit)
    requires op.body.Model?
    ensures var source, main := op.body.source, MainOf(op, internal, graph, implicit);
      WellShaped(main) && LookedUp(main) == {if source.RefTo? then Resolve(internal, source.name) else implicit.message} &&
      FrontOf(op, internal, graph, implicit) ==
        (if source.RefTo? then [] else InlineOps(op.entry, source, internal, graph, implicit)) &&
      FieldIds(op, internal, graph) ==
        (if source.RefTo? then {Resolve(internal, source.name)} else InlineIds(source, internal, graph))
  {
    hide InlineOps, InlineIds, Resolve, ResolveAll, ModelInputs;
  }

  lemma InlineLoads(entry: Entry, source: Messages, internal: map<Id, Id>, graph: Graph, implicit: Implicit,
                    known: set<Id>)
    requires source.Inline?
    ensures Loads(InlineOps(entry, source, internal, graph, implicit), known) <==> InlineIds(source, internal, graph) <= known
    ensures implicit.message in IdSet(InlineOps(entry, source, internal, graph, implicit))
    ensures IdSet(InlineOps(entry, source, internal, graph, implicit)) <= {implicit.format, implicit.message}
  {
    var formats := FormatsOf(source, internal, graph, implicit.format);
    var prepared := PreparedMessages(source, internal, graph, implicit.format);
    var message := ImplicitMessage(entry, prepared, formats, internal, implicit.message);
    LoadsAppend(formats, [message], known);
    IdsAppend(formats, [message]);
    LoadsOne(message, known + IdSet(formats));
    FormatsLoad(source, internal, graph, implicit.format, known);
    hide Loads, IdSet, InlineIds;
  }

  lemma FormatsLoad(source: Messages, internal: map<Id, Id>, graph: Graph, format: Id, known: set<Id>)
    requires source.Inline?
    ensures Loads(FormatsOf(source, internal, graph, format), known) <==> InlineIds(source, internal, graph) <= known
    ensures IdSet(FormatsOf(source, internal, graph, format)) <= {format}
  {
    if source.prompt.Some? {
      var prompt := source.prompt.value;
      ImplicitFormatLoads(format, prompt.template, ResolveKwargs(internal, prompt.kwargs), known);
    } else {
      var ids := WrappedIds(source.messages, internal, graph);
      RefKwargIds(ids);
      ImplicitFormatLoads(format, RefTemplate(|ids|), RefKwargs(ids), known);
      assert ids == [] ==> Elems(ids) == {};
    }
    assert IdSet([]) == {};
  }
}
