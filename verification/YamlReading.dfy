/** Exactly which compiled YAML documents `Graph.from_json` can read (graphs/graph.py:131-139), and which references
    of a message it keeps (ops/data_ops.py:91-101). */
module YamlReading {
  import opened Collections
  import opened Worklists
  import opened YamlEmission
  import opened YamlLoading
  import opened YamlDocuments
  import O = Ops
  import S = OpSerialization
  import G = GraphSerialization

  // ---- the checks of the emission, in terms of the document ---------------------------------

  /** The emission accepts operator `i`: the names it must know are in the document, and a message operator it refers
      to comes earlier in the order. */
  ghost predicate Checked(d: Document, i: nat)
    requires i < |d.order|
  {
    d.order[i] in d.ops && BodyChecked(d, i, d.ops[d.order[i]].body)
  }

  ghost predicate BodyChecked(d: Document, i: nat, body: Body)
    requires i < |d.order|
  {
    match body
    case Retrieval(nodes, _) => Elems(nodes) <= d.internal.Keys
    case Message(messages) => messages != []
    case Embedding(input, _) => input in d.internal
    case Image(content, _) => content in d.internal
    case Model(source, _, image, _) => (image.Some? ==> image.value in d.internal) && SourceChecked(d, i, source)
    case _ => true
  }

  ghost predicate SourceChecked(d: Document, i: nat, source: Messages)
    requires i < |d.order|
  {
    if source.RefTo? then MessageEarlier(d, i, source.name)
    else source.messages != [] && PromptKnown(source.prompt, d.internal)
  }

  ghost predicate MessageEarlier(d: Document, i: nat, name: Id)
    requires i < |d.order|
  {
    name in d.internal && name in Elems(d.order[..i]) && name in d.ops && d.ops[name].body.Message?
  }

  lemma MessageFoundIff(d: Document, i: nat, name: Id)
    requires Valid(d) && DistinctIds(d) && i < |d.order|
    ensures name in d.internal && IsMessage(Emission(d, i), d.internal[name]) <==> MessageEarlier(d, i, name)
  {
    if name in d.internal {
      KindFound(d, i, name);
    }
    hide Valid, DistinctIds, Emission, Lookup, Elems;
  }

  lemma CheckedIff(d: Document, i: nat)
    requires Valid(d) && DistinctIds(d) && i < |d.order|
    ensures EmitsAt(d, i) <==> Checked(d, i)
  {
    hide *;
    OperatorAt(d, i);
    EmissionNext(d, i);
    var op := d.ops[d.order[i]];
    if op.body.Model? && op.body.source.RefTo? {
      MessageFoundIff(d, i, op.body.source.name);
    }
    BodyIff(d, i, op, Emission(d, i));
    CheckedAt(d, i);
  }

  lemma CheckedAt(d: Document, i: nat)
    requires i < |d.order| && d.order[i] in d.ops
    ensures Checked(d, i) <==> BodyChecked(d, i, d.ops[d.order[i]].body)
  {
    hide BodyChecked;
  }

  lemma BodyIff(d: Document, i: nat, op: Op, graph: Graph)
    requires i < |d.order|
    requires op.body.Model? && op.body.source.RefTo? ==>
               var name := op.body.source.name;
               (name in d.internal && IsMessage(graph, d.internal[name]) <==> MessageEarlier(d, i, name))
    ensures Emittable(op, d.internal, graph) <==> BodyChecked(d, i, op.body)
  {
    hide IsMessage, MessageEarlier, PromptKnown, Elems;
  }

  // ---- reading -----------------------------------------------------------------------------

  ghost predicate AllFieldsBefore(d: Document, n: nat)
    requires Valid(d) && n <= |d.order|
  {
    forall i :: 0 <= i < n ==> FieldsBefore(d, i)
  }

  lemma InputsLoad(internal: map<Id, Id>, names: seq<Id>)
    ensures Loads(InputOps(internal, names), {})
  {
    var graph := InputOps(internal, names);
    forall k | 0 <= k < |graph| ensures LoadsAt(graph, {}, k) {
      assert graph[k] == InputOp(Resolve(internal, names[k]), names[k]);
      hide IdSet;
    }
  }

  lemma {:induction false} EmissionLoadsIff(d: Document, n: nat)
    requires Valid(d) && DistinctIds(d) && n <= |d.order| && OpsEmit(d, n)
    ensures Loads(Emission(d, n), {}) <==> AllFieldsBefore(d, n)
  {
    hide *;
    if n == 0 {
      EmissionStart(d);
      InputsLoad(d.internal, d.inputs);
      FieldsNone(d);
    } else {
      EmitsBefore(d, n - 1);
      EmissionLoadsIff(d, n - 1);
      EmissionNext(d, n - 1);
      var name, before := d.order[n - 1], Emission(d, n - 1);
      LoadsAppend(before, OpsOf(d.ops[name], d.internal, before, d.implicits[name]), {});
      assert {} + IdSet(before) == IdSet(before);
      OpLoadsIff(d.ops[name], d.internal, before, d.implicits[name], IdSet(before));
      FieldsIff(d, n - 1);
      FieldsNext(d, n - 1);
    }
  }

  lemma EmitsBefore(d: Document, i: nat)
    requires Valid(d) && i < |d.order| && OpsEmit(d, i + 1)
    ensures OpsEmit(d, i) && EmitsAt(d, i)
  {
    hide Valid, EmitsAt;
  }

  lemma FieldsNone(d: Document)
    requires Valid(d)
    ensures AllFieldsBefore(d, 0)
  {
  }

  lemma FieldsNext(d: Document, i: nat)
    requires Valid(d) && i < |d.order|
    ensures AllFieldsBefore(d, i + 1) <==> AllFieldsBefore(d, i) && FieldsBefore(d, i)
  {
    hide Valid, FieldsBefore;
  }

  /** Everything in the document is known once the operators are emitted. */
  lemma AllKnown(d: Document)
    requires Valid(d)
    ensures Known(d, |d.order|) == d.internal.Keys
  {
    hide InOrder, Distinct, Elems;
    assert d.order[..|d.order|] == d.order;
  }

  lemma RefEmitted(d: Document, ref: Id)
    requires Valid(d) && ref in d.internal
    ensures d.internal[ref] in IdSet(Emission(d, |d.order|))
  {
    hide Valid, Emission, IdSet, Known;
    EmittedIds(d, |d.order|);
    AllKnown(d);
    assert d.internal[ref] in GivenIds(d, |d.order|);
  }

  /** The outputs can always be read. */
  lemma {:induction false} OutputsLoadIff(d: Document, k: nat)
    requires Valid(d) && k <= |d.outputs| && OutputsOk(d, k)
    ensures Loads(Compiled(d, k), {}) <==> Loads(Emission(d, |d.order|), {})
    ensures IdSet(Emission(d, |d.order|)) <= IdSet(Compiled(d, k))
  {
    hide *;
    if k == 0 {
      CompiledNone(d);
    } else {
      OutputBefore(d, k - 1);
      OutputsLoadIff(d, k - 1);
      OutputAt(d, k - 1);
      CompiledNext(d, k - 1);
      var all, last := Compiled(d, k - 1), OutputOp(d, d.outputs[k - 1]);
      LoadsAppend(all, [last], {});
      IdsAppend(all, [last]);
      LoadsOne(last, {} + IdSet(all));
      RefEmitted(d, d.outputs[k - 1].ref);
      OutputRead(d, d.outputs[k - 1]);
    }
  }

  lemma OutputBefore(d: Document, k: nat)
    requires Valid(d) && k < |d.outputs| && OutputsOk(d, k + 1)
    ensures OutputsOk(d, k) && OutputOk(d, k)
  {
    hide Valid, OutputOk;
  }

  lemma OutputRead(d: Document, o: Output)
    requires o.name in d.outputIds && o.ref in d.internal
    ensures WellShaped(OutputOp(d, o)) && LookedUp(OutputOp(d, o)) == {d.internal[o.ref]}
  {
  }

  /** A compiled document can be read exactly when each field that reading looks up names an input of the document or
      an operator earlier in the worklist's order. */
  lemma CompiledLoadsIff(d: Document)
    requires Valid(d) && DistinctIds(d) && Compiles(d)
    ensures G.ParseAll(Compiled(d, |d.outputs|)).Ok? <==> AllFieldsBefore(d, |d.order|)
  {
    hide Valid, DistinctIds, OpsEmit, OutputsOk, AllFieldsBefore, Loads, Emission, Compiled;
    ReadableIff(Compiled(d, |d.outputs|));
    OutputsLoadIff(d, |d.outputs|);
    EmissionLoadsIff(d, |d.order|);
  }

  // ---- ids and names are unique --------------------------------------------------------------

  lemma DistinctAppend(a: Graph, b: Graph)
    ensures Distinct(G.Keys(a + b)) <==> Distinct(G.Keys(a)) && Distinct(G.Keys(b)) && IdSet(a) !! IdSet(b)
  {
    var x, y := G.Keys(a), G.Keys(b);
    assert G.Keys(a + b) == x + y;
    DistinctConcat(x, y);
  }

  lemma DistinctConcat(x: seq<Id>, y: seq<Id>)
    ensures Distinct(x + y) <==> Distinct(x) && Distinct(y) && Elems(x) !! Elems(y)
  {
    var z := x + y;
    assert forall k :: 0 <= k < |x| ==> x[k] == z[k];
    assert forall k :: 0 <= k < |y| ==> y[k] == z[|x| + k];
    if Distinct(z) {
      forall i, j | 0 <= i < |x| && 0 <= j < |y| ensures x[i] != y[j] {
        assert x[i] == z[i] && y[j] == z[|x| + j];
      }
    }
    if Distinct(x) && Distinct(y) && Elems(x) !! Elems(y) {
      forall i, j | 0 <= i < j < |z| ensures z[i] != z[j] {
        if i < |x| <= j {
          assert x[i] in Elems(x) && y[j - |x|] in Elems(y);
        }
      }
    }
  }

  lemma FrontShape(op: Op, internal: map<Id, Id>, graph: Graph, implicit: Implicit)
    ensures var keys := G.Keys(FrontOf(op, internal, graph, implicit));
      keys in [[], [implicit.format], [implicit.message], [implicit.format, implicit.message]]
  {
    var keys := G.Keys(FrontOf(op, internal, graph, implicit));
    hide Resolve, WrappedIds, RefTemplate, RefKwargs, ResolveKwargs, Wrapped, Prompted, IsFormat, ResolveAll;
    if op.body.Model? && op.body.source.Inline? {
      var formats := FormatsOf(op.body.source, internal, graph, implicit.format);
      assert formats == [] || (|formats| == 1 && formats[0].id == implicit.format);
    }
    assert keys == [] || keys == [implicit.format] || keys == [implicit.message] || keys == [implicit.format, implicit.message];
  }

  lemma OpKeysDistinct(op: Op, internal: map<Id, Id>, graph: Graph, implicit: Implicit)
    requires Resolve(internal, op.entry.name) != implicit.format && Resolve(internal, op.entry.name) != implicit.message
    requires implicit.format != implicit.message
    ensures Distinct(G.Keys(OpsOf(op, internal, graph, implicit)))
  {
    hide MainOf, FrontOf, Resolve;
    MainId(op, internal, graph, implicit);
    FrontShape(op, internal, graph, implicit);
    var front, main := FrontOf(op, internal, graph, implicit), MainOf(op, internal, graph, implicit);
    assert G.Keys(front + [main]) == G.Keys(front) + [main.id];
  }

  /** Nothing is emitted twice under one id, so the dictionary of emitted operators is the list of them. */
  lemma {:induction false} EmissionDistinct(d: Document, n: nat)
    requires Valid(d) && DistinctIds(d) && n <= |d.order|
    ensures Distinct(G.Keys(Emission(d, n)))
  {
    hide *;
    if n == 0 {
      EmissionStart(d);
      InputKeysDistinct(d);
    } else {
      EmissionDistinct(d, n - 1);
      EmissionNext(d, n - 1);
      OperatorAt(d, n - 1);
      var name, before := d.order[n - 1], Emission(d, n - 1);
      var more := OpsOf(d.ops[name], d.internal, before, d.implicits[name]);
      IdsNext(d, n - 1);
      OwnIds(d, name);
      OpKeysDistinct(d.ops[name], d.internal, before, d.implicits[name]);
      OpsIds(d.ops[name], d.internal, before, d.implicits[name]);
      EmittedIds(d, n - 1);
      NewIds(d, n - 1);
      DistinctAppend(before, more);
    }
  }

  lemma OwnIds(d: Document, n: Id)
    requires DistinctIds(d) && n in d.internal && n in d.implicits
    ensures d.internal[n] != d.implicits[n].format && d.internal[n] != d.implicits[n].message
    ensures d.implicits[n].format != d.implicits[n].message
  {
    assert d.internal[n] in d.internal.Values;
    assert d.implicits[n].format in ImplicitIds(d, n) && d.implicits[n].message in ImplicitIds(d, n);
  }

  lemma NewIds(d: Document, i: nat)
    requires Valid(d) && DistinctIds(d) && i < |d.order|
    ensures d.order[i] in d.implicits && d.order[i] in d.internal
    ensures {d.internal[d.order[i]], d.implicits[d.order[i]].format, d.implicits[d.order[i]].message} !!
            GivenIds(d, i) + ImplicitsBefore(d, i)
  {
    hide *;
    OperatorAt(d, i);
    assert d.order[i] !in Elems(d.order[..i]) by { ValidParts(d); InOrderAt(EntryDeps(d.ops), Elems(d.inputs), d.order, i); }
    NewGiven(d, i);
    NewImplicits(d, i);
  }

  lemma NewGiven(d: Document, i: nat)
    requires DistinctIds(d) && i < |d.order| && d.order[i] in d.internal && d.order[i] in d.implicits
    requires d.order[i] !in Known(d, i)
    ensures {d.internal[d.order[i]], d.implicits[d.order[i]].format, d.implicits[d.order[i]].message} !! GivenIds(d, i)
  {
    hide Known;
    var n := d.order[i];
    assert d.implicits[n].format in ImplicitIds(d, n) && d.implicits[n].message in ImplicitIds(d, n);
    forall x | x in GivenIds(d, i) ensures x in d.internal.Values && x != d.internal[n] {
      var t :| t in Known(d, i) && t in d.internal && d.internal[t] == x;
    }
  }

  lemma NewImplicits(d: Document, i: nat)
    requires DistinctIds(d) && i < |d.order| && d.order[i] in d.internal && d.order[i] in d.implicits
    requires d.order[i] !in Elems(d.order[..i])
    ensures {d.internal[d.order[i]], d.implicits[d.order[i]].format, d.implicits[d.order[i]].message} !!
            ImplicitsBefore(d, i)
  {
    hide Elems;
    var n := d.order[i];
    assert d.implicits[n].format in ImplicitIds(d, n) && d.implicits[n].message in ImplicitIds(d, n);
    assert d.internal[n] in d.internal.Values;
    forall x | x in ImplicitsBefore(d, i) ensures x !in ImplicitIds(d, n) && x != d.internal[n] {
      var m :| m in Elems(d.order[..i]) && m in d.implicits && x in ImplicitIds(d, m);
    }
  }

  lemma InputKeysDistinct(d: Document)
    requires Valid(d) && DistinctIds(d)
    ensures Distinct(G.Keys(InputOps(d.internal, d.inputs)))
  {
    var keys := G.Keys(InputOps(d.internal, d.inputs));
    forall i, j | 0 <= i < j < |keys| ensures keys[i] != keys[j] {
      assert d.inputs[i] in Elems(d.inputs) && d.inputs[j] in Elems(d.inputs);
      assert keys[i] == d.internal[d.inputs[i]] && keys[j] == d.internal[d.inputs[j]];
    }
  }

  lemma {:induction false} CompiledDistinct(d: Document, k: nat)
    requires Valid(d) && DistinctIds(d) && k <= |d.outputs| && OutputsOk(d, k)
    ensures Distinct(G.Keys(Compiled(d, k)))
  {
    hide *;
    if k == 0 {
      CompiledNone(d);
      EmissionDistinct(d, |d.order|);
    } else {
      OutputBefore(d, k - 1);
      CompiledDistinct(d, k - 1);
      OutputAt(d, k - 1);
      CompiledNext(d, k - 1);
      var last := OutputOp(d, d.outputs[k - 1]);
      OutputId(d, d.outputs[k - 1]);
      LoadsOne(last, {});
      OneKey(last);
      DistinctAppend(Compiled(d, k - 1), [last]);
    }
  }

  lemma OutputId(d: Document, o: Output)
    requires o.name in d.outputIds
    ensures OutputOp(d, o).id == d.outputIds[o.name] && OutputOp(d, o).payload.OutputData?
    ensures OutputOp(d, o).payload.name == o.name
  {
  }

  lemma OneKey(s: S.Serialized)
    ensures Distinct(G.Keys([s]))
  {
  }

  /** Neither an input nor an output of the graph. */
  ghost predicate NoName(s: S.Serialized) {
    !s.payload.InputData? && !s.payload.OutputData?
  }

  ghost predicate Nameless(graph: Graph) {
    forall k :: 0 <= k < |graph| ==> NoName(graph[k])
  }

  lemma OpsNameless(op: Op, internal: map<Id, Id>, graph: Graph, implicit: Implicit)
    ensures Nameless(OpsOf(op, internal, graph, implicit))
  {
    hide Resolve, WrappedIds, RefTemplate, RefKwargs, ResolveKwargs, Wrapped, Prompted;
  }

  /** The same name of an input, or of an output, twice. */
  ghost predicate SameNames(a: S.Serialized, b: S.Serialized) {
    (a.payload.InputData? && b.payload.InputData? && a.payload.name == b.payload.name) ||
    (a.payload.OutputData? && b.payload.OutputData? && a.payload.name == b.payload.name)
  }

  ghost predicate NamesOnce(graph: Graph) {
    forall i, j :: 0 <= i < j < |graph| ==> !SameNames(graph[i], graph[j])
  }

  ghost predicate OutputsFree(graph: Graph) {
    forall k :: 0 <= k < |graph| ==> !graph[k].payload.OutputData?
  }

  lemma NamesAppend(a: Graph, b: Graph)
    requires NamesOnce(a) && Nameless(b)
    ensures NamesOnce(a + b) && (OutputsFree(a) ==> OutputsFree(a + b))
  {
  }

  lemma InputNames(internal: map<Id, Id>, names: seq<Id>)
    requires Distinct(names)
    ensures NamesOnce(InputOps(internal, names)) && OutputsFree(InputOps(internal, names))
  {
  }

  lemma {:induction false} EmissionNames(d: Document, n: nat)
    requires Valid(d) && n <= |d.order|
    ensures NamesOnce(Emission(d, n)) && OutputsFree(Emission(d, n))
  {
    hide *;
    if n == 0 {
      EmissionStart(d);
      InputNames(d.internal, d.inputs) by { InputsOnce(d); }
    } else {
      EmissionNames(d, n - 1);
      EmissionNext(d, n - 1);
      var name, before := d.order[n - 1], Emission(d, n - 1);
      OpsNameless(d.ops[name], d.internal, before, d.implicits[name]);
      NamesAppend(before, OpsOf(d.ops[name], d.internal, before, d.implicits[name]));
    }
  }

  lemma InputsOnce(d: Document)
    requires Valid(d)
    ensures Distinct(d.inputs)
  {
    hide Distinct, Elems, InOrder;
  }

  /** The outputs after position `n` carry the ids of their names. */
  ghost predicate NamedOutputs(d: Document, graph: Graph) {
    forall k :: 0 <= k < |graph| && graph[k].payload.OutputData? ==>
      graph[k].payload.name in d.outputIds && graph[k].id == d.outputIds[graph[k].payload.name]
  }

  lemma NamesSnoc(d: Document, graph: Graph, s: S.Serialized)
    requires NamesOnce(graph) && NamedOutputs(d, graph) && s.payload.OutputData? && s.payload.name in d.outputIds
    requires s.id == d.outputIds[s.payload.name] && s.id !in IdSet(graph)
    ensures NamesOnce(graph + [s]) && NamedOutputs(d, graph + [s])
  {
    forall k | 0 <= k < |graph| ensures graph[k].id in IdSet(graph) {
      assert G.Keys(graph)[k] == graph[k].id;
    }
    hide IdSet;
  }

  lemma {:induction false} CompiledNames(d: Document, k: nat)
    requires Valid(d) && k <= |d.outputs| && OutputsOk(d, k)
    ensures NamesOnce(Compiled(d, k)) && NamedOutputs(d, Compiled(d, k))
  {
    hide *;
    if k == 0 {
      CompiledNone(d);
      EmissionNames(d, |d.order|);
      NoOutputs(d, Emission(d, |d.order|));
    } else {
      OutputBefore(d, k - 1);
      CompiledNames(d, k - 1);
      OutputAt(d, k - 1);
      CompiledNext(d, k - 1);
      OutputId(d, d.outputs[k - 1]);
      NamesSnoc(d, Compiled(d, k - 1), OutputOp(d, d.outputs[k - 1]));
    }
  }

  lemma NoOutputs(d: Document, graph: Graph)
    requires OutputsFree(graph)
    ensures NamedOutputs(d, graph)
  {
  }

  /** What reading makes of each operator. */
  lemma {:induction false} ReadAs(graph: Graph, k: nat)
    requires G.ParseAll(graph).Ok? && k < |graph|
    ensures S.Parse(graph[k], IdSet(graph[..k])) == Ok(G.ParseAll(graph).value[k])
  {
    var n := |graph| - 1;
    var init := graph[..n];
    G.LoadedInOrder(init);
    if k < n {
      ReadAs(init, k);
      assert init[..k] == graph[..k];
    }
    hide S.Parse;
  }

  lemma ReadName(s: S.Serialized, known: set<Id>)
    requires S.Parse(s, known).Ok?
    ensures var body := S.Parse(s, known).value.body;
      (body.Input? <==> s.payload.InputData?) && (body.Output? <==> s.payload.OutputData?) &&
      (body.Input? || body.Output? ==> body.name == s.payload.name)
  {
    hide Elems;
  }

  lemma NamesRead(graph: Graph)
    requires G.ParseAll(graph).Ok?
    ensures G.UniqueNames(G.ParseAll(graph).value) <==> NamesOnce(graph)
  {
    hide G.ParseAll, S.Parse, IdSet;
    var ops := G.ParseAll(graph).value;
    forall i, j | 0 <= i < j < |graph| ensures G.SameName(ops[i], ops[j]) <==> SameNames(graph[i], graph[j]) {
      ReadAs(graph, i);
      ReadAs(graph, j);
      ReadName(graph[i], IdSet(graph[..i]));
      ReadName(graph[j], IdSet(graph[..j]));
    }
  }

  /** A compiled document has every id once, and `Graph.from_json` accepts it exactly when each field that reading
      looks up names an input of the document or an operator earlier in the worklist's order. */
  lemma DocumentLoadsIff(d: Document)
    requires Valid(d) && DistinctIds(d) && Compiles(d)
    ensures var graph := Compiled(d, |d.outputs|);
      Distinct(G.Keys(graph)) &&
      (G.ParseAll(graph).Ok? && G.UniqueNames(G.ParseAll(graph).value) <==> AllFieldsBefore(d, |d.order|))
  {
    hide Valid, DistinctIds, OpsEmit, OutputsOk, AllFieldsBefore, Compiled, G.ParseAll, G.UniqueNames, G.Keys, Distinct;
    CompiledLoadsIff(d);
    CompiledDistinct(d, |d.outputs|);
    CompiledNames(d, |d.outputs|);
    if G.ParseAll(Compiled(d, |d.outputs|)).Ok? {
      NamesRead(Compiled(d, |d.outputs|));
    }
  }

  // ---- declared fields -----------------------------------------------------------------------

  /** Every field that reading looks up is among the inputs that the entry declares. */
  predicate Declares(op: Op, internal: map<Id, Id>) {
    match op.body
    case Lambda(name, code) => name != "" && code != ""
    case Format(_, args, kwargs) => Elems(args) + Elems(Values(kwargs)) <= Elems(op.entry.inputs)
    case Embedding(input, _) => input in op.entry.inputs
    case Image(content, _) => content in op.entry.inputs
    case Model(source, _, _, _) => source.RefTo? || InlineDeclares(op.entry, source, internal)
    case _ => true
  }

  predicate InlineDeclares(entry: Entry, source: Messages, internal: map<Id, Id>)
    requires source.Inline?
  {
    if source.prompt.Some? then Elems(Values(source.prompt.value.kwargs)) <= Elems(entry.inputs)
    else forall m :: m in source.messages && m.role == "user" && m.content in internal ==> m.content in entry.inputs
  }

  /** A document that declares its fields can be read: the worklist emits nothing before what it declares. */
  lemma DeclaredLoads(d: Document)
    requires Valid(d) && DistinctIds(d) && Compiles(d)
    requires forall n :: n in d.ops ==> Declares(d.ops[n], d.internal)
    ensures AllFieldsBefore(d, |d.order|) && G.ParseAll(Compiled(d, |d.outputs|)).Ok?
  {
    hide *;
    CompiledLoadsIff(d);
    forall i | 0 <= i < |d.order| ensures FieldsBefore(d, i) {
      OperatorAt(d, i);
      DeclaredBefore(d, i);
    }
    AllAre(d);
  }

  lemma AllAre(d: Document)
    requires Valid(d) && forall i :: 0 <= i < |d.order| ==> FieldsBefore(d, i)
    ensures AllFieldsBefore(d, |d.order|)
  {
    hide Valid, FieldsBefore;
  }

  lemma DeclaredBefore(d: Document, i: nat)
    requires Valid(d) && i < |d.order| && d.order[i] in d.ops && Declares(d.ops[d.order[i]], d.internal)
    ensures FieldsBefore(d, i)
  {
    hide *;
    var op := d.ops[d.order[i]];
    OperatorAt(d, i);
    BodyOf(d, i);
    match op.body {
      case Format(_, args, kwargs) => FormatDeclared(d, i, op);
      case Model(source, _, _, _) =>
        if source.Inline? { InlineDeclared(d, i, op, source); }
        ModelDeclared(d, i, op);
      case _ => PlainDeclared(d, i, op);
    }
  }

  lemma FormatDeclared(d: Document, i: nat, op: Op)
    requires Valid(d) && i < |d.order| && op.body.Format? && Declares(op, d.internal)
    requires Elems(op.entry.inputs) <= Known(d, i) <= d.internal.Keys
    ensures BodyBefore(d, i, op.body)
  {
    hide Valid, Known, ArgsBefore, Elems, Emission;
    KnownAreFound(d, i, op.body.args);
    KnownAreFound(d, i, Values(op.body.kwargs));
  }

  lemma InlineDeclared(d: Document, i: nat, op: Op, source: Messages)
    requires i < |d.order| && source.Inline? && Elems(op.entry.inputs) <= Known(d, i)
    ensures InlineDeclares(op.entry, source, d.internal) ==> InlineBefore(d, i, source)
  {
    hide Known;
    if source.prompt.Some? && InlineDeclares(op.entry, source, d.internal) {
      AllIn(Values(source.prompt.value.kwargs), Elems(op.entry.inputs));
    }
  }

  lemma ModelDeclared(d: Document, i: nat, op: Op)
    requires Valid(d) && i < |d.order| && op.body.Model? && Declares(op, d.internal)
    requires op.body.source.Inline? ==>
               (InlineDeclares(op.entry, op.body.source, d.internal) ==> InlineBefore(d, i, op.body.source))
    ensures BodyBefore(d, i, op.body)
  {
    hide Valid, InlineBefore, InlineDeclares;
  }

  lemma PlainDeclared(d: Document, i: nat, op: Op)
    requires Valid(d) && i < |d.order| && !op.body.Format? && !op.body.Model? && Declares(op, d.internal)
    requires Elems(op.entry.inputs) <= Known(d, i)
    ensures BodyBefore(d, i, op.body)
  {
    hide Valid, Known;
  }

  // ---- a field that is not declared ----------------------------------------------------------

  /** A format operator names an operator that it does not declare and that comes later. */
  function Undeclared(): (d: Document) {
    var a := Op(Entry("a", []), None, Format("{0}", ["b"], []));
    var b := Op(Entry("b", []), None, Data(["x"]));
    Document([], ["a", "b"], map["a" := a, "b" := b], [], map["a" := "op_a", "b" := "op_b"],
             map["a" := Implicit("format_a", "message_a"), "b" := Implicit("format_b", "message_b")], map[])
  }

  lemma UndeclaredValid()
    ensures Valid(Undeclared())
  {
    var d := Undeclared();
    var deps := EntryDeps(d.ops);
    var none: seq<Id> := [];
    assert Elems(none) == {} && Elems(d.order) == {"a", "b"};
    assert deps["a"] == {} && deps["b"] == {};
    assert InOrder(deps, Elems(d.inputs), d.order);
  }

  lemma UndeclaredIds()
    ensures DistinctIds(Undeclared())
  {
    var d := Undeclared();
    assert ImplicitIds(d, "a") == {"format_a", "message_a"} && ImplicitIds(d, "b") == {"format_b", "message_b"};
    assert d.internal.Values == {"op_a", "op_b"} by {
      assert d.internal["a"] == "op_a" && d.internal["b"] == "op_b";
    }
    hide ImplicitIds;
  }

  lemma UndeclaredCompiles()
    requires Valid(Undeclared())
    ensures Compiles(Undeclared())
  {
    hide Valid, Emission;
    var d := Undeclared();
    assert EmitsAt(d, 0) && EmitsAt(d, 1);
  }

  /** The compiler accepts it, and `from_json` cannot read what it compiled. */
  lemma UndeclaredCanDangle()
    ensures Valid(Undeclared()) && DistinctIds(Undeclared()) && Compiles(Undeclared())
    ensures G.ParseAll(Compiled(Undeclared(), |Undeclared().outputs|)).Err?
  {
    var d := Undeclared();
    UndeclaredValid();
    UndeclaredIds();
    hide Valid, DistinctIds, Compiles, Compiled, Emission;
    UndeclaredCompiles();
    CompiledLoadsIff(d);
    assert Known(d, 0) == {};
    assert !FoundBefore(d, 0, d.ops["a"].body.args[0]);
    assert !FieldsBefore(d, 0);
  }

  // ---- references that become text -----------------------------------------------------------

  lemma {:induction false} EmissionPrefix(d: Document, i: nat, n: nat)
    requires Valid(d) && i <= n <= |d.order|
    ensures Emission(d, i) <= Emission(d, n)
  {
    hide *;
    if i < n {
      EmissionPrefix(d, i, n - 1);
      EmissionNext(d, n - 1);
    }
  }

  /** The operators emitted for operator `i` stand behind those of the operators before it. */
  lemma OpsAt(d: Document, i: nat, front: Graph, s: S.Serialized)
    requires Valid(d) && i < |d.order| && d.order[i] in d.ops && d.order[i] in d.implicits
    requires front + [s] <= OpsOf(d.ops[d.order[i]], d.internal, Emission(d, i), d.implicits[d.order[i]])
    ensures Emission(d, i) + front + [s] <= Compiled(d, |d.outputs|)
  {
    hide *;
    EmissionNext(d, i);
    EmissionPrefix(d, i + 1, |d.order|);
    OutputsLast(d);
    var more := OpsOf(d.ops[d.order[i]], d.internal, Emission(d, i), d.implicits[d.order[i]]);
    assert Emission(d, i) + front + [s] == Emission(d, i) + (front + [s]);
    assert Emission(d, i) + (front + [s]) <= Emission(d, i) + more;
  }

  lemma OutputsLast(d: Document)
    requires Valid(d)
    ensures Emission(d, |d.order|) <= Compiled(d, |d.outputs|)
  {
    hide Valid, Emission;
  }

  lemma ReadMessage(s: S.Serialized, known: set<Id>, j: nat)
    requires s.payload.MessageData? && j < |s.payload.messages|
    ensures S.Parse(s, known).Ok?
    ensures var op := S.Parse(s, known).value;
      op.id == s.id && op.body.Message? && S.IndexesValid(op) && j < |S.MessagesOf(op)| &&
      S.MessagesOf(op)[j] == O.OpMessage(s.payload.messages[j].0, S.ReadContent(s.payload.messages[j].1, known))
  {
    S.MessageReadsBack(s.id, s.maxIter, S.ReadMessages(s.payload.messages, known));
    hide S.MessagesOf, S.MessageInputs, S.MessageBody;
  }

  /** Message `j` of the loaded operator at position `k` refers to the operator `id`, or is the id as a text. */
  ghost predicate ReadsAs(ops: seq<S.Op>, k: nat, op: Id, j: nat, role: string, id: Id, kept: bool) {
    k < |ops| && ops[k].id == op && ops[k].body.Message? && S.IndexesValid(ops[k]) && j < |S.MessagesOf(ops[k])| &&
    S.MessagesOf(ops[k])[j] == O.OpMessage(role, if kept then O.Ref(id) else O.Literal(id))
  }

  lemma ReadMessageAt(graph: Graph, before: Graph, s: S.Serialized, j: nat)
    requires before + [s] <= graph && G.ParseAll(graph).Ok? && s.payload.MessageData? && j < |s.payload.messages|
    ensures var m := s.payload.messages[j];
      ReadsAs(G.ParseAll(graph).value, |before|, s.id, j, m.0, m.1, m.1 in IdSet(before))
  {
    hide G.ParseAll, S.Parse, S.MessagesOf, IdSet, S.IndexesValid;
    assert (before + [s])[|before|] == s && (before + [s])[..|before|] == before;
    assert graph[|before|] == s && graph[..|before|] == before;
    ReadAs(graph, |before|);
    ReadMessage(s, IdSet(before), j);
  }

  /** A message operator that names another operator keeps the reference exactly when that operator is known before
      it in the worklist's order. Otherwise the message silently becomes the internal id as a text. */
  lemma MessageReferenceKeptIff(d: Document, i: nat, j: nat)
    requires Valid(d) && DistinctIds(d) && i < |d.order| && G.ParseAll(Compiled(d, |d.outputs|)).Ok?
    requires d.order[i] in d.ops && d.ops[d.order[i]].body.Message?
    requires j < |d.ops[d.order[i]].body.messages| && d.ops[d.order[i]].body.messages[j].content in d.internal
    ensures var n, m := d.order[i], d.ops[d.order[i]].body.messages[j];
      n in d.internal &&
      ReadsAs(G.ParseAll(Compiled(d, |d.outputs|)).value, |Emission(d, i)|, d.internal[n], j, m.role,
              d.internal[m.content], m.content in Known(d, i))
  {
    hide *;
    OperatorAt(d, i);
    var n := d.order[i];
    var op, before := d.ops[n], Emission(d, i);
    var main := MainOf(op, d.internal, before, d.implicits[n]);
    MessageMain(op, d.internal, before, d.implicits[n], j);
    OpsAt(d, i, [], main);
    assert before + [] + [main] == before + [main];
    ReadMessageAt(Compiled(d, |d.outputs|), before, main, j);
    ResolveName(d.internal, n);
    ResolveName(d.internal, op.body.messages[j].content);
    EmittedIff(d, i, op.body.messages[j].content);
  }

  lemma MessageMain(op: Op, internal: map<Id, Id>, graph: Graph, implicit: Implicit, j: nat)
    requires op.body.Message? && j < |op.body.messages|
    ensures var main := MainOf(op, internal, graph, implicit);
      [] + [main] <= OpsOf(op, internal, graph, implicit) && main.id == Resolve(internal, op.entry.name) &&
      main.payload.MessageData? && j < |main.payload.messages| &&
      main.payload.messages[j] == (op.body.messages[j].role, Resolve(internal, op.body.messages[j].content))
  {
  }

  /** The same holds for the messages of a model call, as far as they are not the user's. */
  lemma InlineReferenceKeptIff(d: Document, i: nat, j: nat)
    requires Valid(d) && DistinctIds(d) && i < |d.order| && G.ParseAll(Compiled(d, |d.outputs|)).Ok?
    requires d.order[i] in d.ops && d.ops[d.order[i]].body.Model? && d.ops[d.order[i]].body.source.Inline?
    requires var messages := d.ops[d.order[i]].body.source.messages;
      j < |messages| && messages[j].role != "user" && messages[j].content in d.internal
    ensures var n, m := d.order[i], d.ops[d.order[i]].body.source.messages[j];
      n in d.implicits &&
      exists k :: ReadsAs(G.ParseAll(Compiled(d, |d.outputs|)).value, k, d.implicits[n].message, j, m.role,
                          d.internal[m.content], m.content in Known(d, i))
  {
    hide *;
    OperatorAt(d, i);
    var n := d.order[i];
    var op, before, implicit := d.ops[d.order[i]], Emission(d, i), d.implicits[n];
    var m := op.body.source.messages[j];
    var formats := FormatsOf(op.body.source, d.internal, before, implicit.format);
    var s := MessageOf(op, d.internal, before, implicit);
    InlineMain(op, d.internal, before, implicit, j);
    OpsAt(d, i, formats, s);
    ReadMessageAt(Compiled(d, |d.outputs|), before + formats, s, j);
    IdsAppend(before, formats);
    FormatsLoad(op.body.source, d.internal, before, implicit.format, {});
    NotFormat(d, n, m.content);
    ResolveName(d.internal, m.content);
    EmittedIff(d, i, m.content);
    assert d.internal[m.content] in IdSet(before + formats) <==> m.content in Known(d, i);
    assert ReadsAs(G.ParseAll(Compiled(d, |d.outputs|)).value, |before + formats|, implicit.message, j, m.role,
                   d.internal[m.content], m.content in Known(d, i));
  }

  function MessageOf(op: Op, internal: map<Id, Id>, graph: Graph, implicit: Implicit): (r: S.Serialized)
    requires op.body.Model? && op.body.source.Inline?
  {
    ImplicitMessage(op.entry, PreparedMessages(op.body.source, internal, graph, implicit.format),
                    FormatsOf(op.body.source, internal, graph, implicit.format), internal, implicit.message)
  }

  lemma InlineMain(op: Op, internal: map<Id, Id>, graph: Graph, implicit: Implicit, j: nat)
    requires op.body.Model? && op.body.source.Inline?
    requires j < |op.body.source.messages| && op.body.source.messages[j].role != "user"
    ensures var s, m := MessageOf(op, internal, graph, implicit), op.body.source.messages[j];
      FormatsOf(op.body.source, internal, graph, implicit.format) + [s] <= OpsOf(op, internal, graph, implicit) &&
      s.id == implicit.message && s.payload.MessageData? && j < |s.payload.messages| &&
      s.payload.messages[j] == (m.role, Resolve(internal, m.content))
  {
    hide Resolve, FormatsOf, MainOf;
  }

  lemma NotFormat(d: Document, n: Id, t: Id)
    requires DistinctIds(d) && n in d.implicits && t in d.internal
    ensures d.internal[t] != d.implicits[n].format
  {
    assert d.internal[t] in d.internal.Values && d.implicits[n].format in ImplicitIds(d, n);
  }
}
