/** YAML documents: emission in the order of the worklist (parser/yaml_parser.py:234-304), and exactly which documents
    `Graph.from_json` can read afterwards. */
module YamlDocuments {
  import opened Collections
  import opened Worklists
  import opened YamlEmission
  import opened YamlLoading
  import O = Ops
  import S = OpSerialization
  import G = GraphSerialization

  datatype Output = Output(name: string, ref: Id, path: Option<string>)

  /** A document whose operators are in the order of the worklist, with the ids its names are given. */
  datatype Document = Document(inputs: seq<Id>, order: seq<Id>, ops: map<Id, Op>, outputs: seq<Output>,
                               internal: map<Id, Id>, implicits: map<Id, Implicit>, outputIds: map<string, Id>)

  ghost function EntryDeps(ops: map<Id, Op>): (r: Deps)
    ensures r.Keys == ops.Keys
  {
    map n | n in ops :: Elems(ops[n].entry.inputs)
  }

  /** The worklist's order is the order the emission needs. */
  lemma EntriesAgree(entries: seq<Entry>, ops: map<Id, Op>, known: set<Id>)
    requires DistinctNames(entries, known) && ops.Keys == Names(entries)
    requires forall i :: 0 <= i < |entries| ==> entries[i].name in ops && ops[entries[i].name].entry == entries[i]
    ensures EntryDeps(ops) == DepsOf(entries)
  {
    forall n | n in ops ensures EntryDeps(ops)[n] == DepsOf(entries)[n] {
      var i :| 0 <= i < |entries| && entries[i].name == n;
      DepsOfAt(entries, i);
    }
  }

  ghost predicate Valid(d: Document) {
    Distinct(d.inputs) && Elems(d.inputs) !! d.ops.Keys && d.internal.Keys == Elems(d.inputs) + d.ops.Keys &&
    d.implicits.Keys == d.ops.Keys && (forall n :: n in d.ops ==> d.ops[n].entry.name == n) &&
    InOrder(EntryDeps(d.ops), Elems(d.inputs), d.order) && Elems(d.order) == d.ops.Keys &&
    forall o :: o in d.outputs ==> o.name in d.outputIds
  }

  ghost function ImplicitIds(d: Document, n: Id): (r: set<Id>)
    requires n in d.implicits
  {
    {d.implicits[n].format, d.implicits[n].message}
  }

  /** No two operators, implicit ones included, are given the same id. */
  ghost predicate DistinctIds(d: Document) {
    (forall a, b :: a in d.internal && b in d.internal && d.internal[a] == d.internal[b] ==> a == b) &&
    (forall n :: n in d.implicits ==>
      ImplicitIds(d, n) !! d.internal.Values && d.implicits[n].format != d.implicits[n].message) &&
    forall m, n :: m in d.implicits && n in d.implicits && m != n ==> ImplicitIds(d, m) !! ImplicitIds(d, n)
  }

  /** The names whose operators are emitted before operator `i` of the order. */
  ghost function Known(d: Document, i: nat): (r: set<Id>)
    requires i <= |d.order|
  {
    Elems(d.inputs) + Elems(d.order[..i])
  }

  // ---- emission ----------------------------------------------------------------------------

  function InputOp(id: Id, name: string): (r: S.Serialized) {
    S.Serialized(id, None, [], S.InputData(name))
  }

  function InputOps(internal: map<Id, Id>, names: seq<Id>): (r: Graph)
    ensures |r| == |names| && forall k :: 0 <= k < |r| ==> r[k] == InputOp(Resolve(internal, names[k]), names[k])
  {
    seq(|names|, k requires 0 <= k < |names| => InputOp(Resolve(internal, names[k]), names[k]))
  }

  /** The graph after the first `i` operators. */
  ghost function Emission(d: Document, i: nat): (r: Graph)
    requires Valid(d) && i <= |d.order|
  {
    if i == 0 then InputOps(d.internal, d.inputs)
    else
      var graph := Emission(d, i - 1);
      OperatorAt(d, i - 1);
      graph + OpsOf(d.ops[d.order[i - 1]], d.internal, graph, d.implicits[d.order[i - 1]])
  }

  lemma OperatorAt(d: Document, i: nat)
    requires Valid(d) && i < |d.order|
    ensures d.order[i] in d.ops && d.order[i] in d.internal && d.order[i] in d.implicits
    ensures d.ops[d.order[i]].entry.name == d.order[i] && Elems(d.ops[d.order[i]].entry.inputs) <= Known(d, i)
    ensures Known(d, i + 1) == Known(d, i) + {d.order[i]} && d.order[i] !in Known(d, i) && Known(d, i) <= d.internal.Keys
  {
    hide InOrder, Distinct, Elems, Valid;
    ValidParts(d);
    InOrderAt(EntryDeps(d.ops), Elems(d.inputs), d.order, i);
  }

  lemma ValidParts(d: Document)
    requires Valid(d)
    ensures InOrder(EntryDeps(d.ops), Elems(d.inputs), d.order) && Elems(d.order) == d.ops.Keys
    ensures Elems(d.inputs) !! d.ops.Keys && d.internal.Keys == Elems(d.inputs) + d.ops.Keys
    ensures d.implicits.Keys == d.ops.Keys && forall n :: n in d.ops ==> d.ops[n].entry.name == n
  {
    hide InOrder, Distinct, Elems, EntryDeps;
  }

  lemma InOrderAt(deps: Deps, known: set<Id>, order: seq<Id>, i: nat)
    requires InOrder(deps, known, order) && i < |order|
    ensures order[i] in deps && deps[order[i]] <= known + Elems(order[..i])
    ensures order[i] in Elems(order) && order[i] !in Elems(order[..i]) && Elems(order[..i]) <= Elems(order)
    ensures Elems(order[..i + 1]) == Elems(order[..i]) + {order[i]}
  {
    ElemsSnoc(order, i);
    hide InOrder, Distinct;
    assert forall x :: x in order[..i] ==> x in order;
  }

  /** The output operators come last. */
  function OutputOp(d: Document, o: Output): (r: S.Serialized)
    requires o.name in d.outputIds
  {
    S.Serialized(d.outputIds[o.name], None, [Resolve(d.internal, o.ref)], S.OutputData(o.name, o.path))
  }

  ghost function OutputOps(d: Document, k: nat): (r: Graph)
    requires Valid(d) && k <= |d.outputs|
    ensures |r| == k && forall j :: 0 <= j < k ==> d.outputs[j].name in d.outputIds && r[j] == OutputOp(d, d.outputs[j])
  {
    seq(k, j requires 0 <= j < k => assert d.outputs[j] in d.outputs; OutputOp(d, d.outputs[j]))
  }

  ghost function Compiled(d: Document, k: nat): (r: Graph)
    requires Valid(d) && k <= |d.outputs|
  {
    Emission(d, |d.order|) + OutputOps(d, k)
  }

  /** Output `k` reads a name of the document, and its id is new. */
  ghost predicate OutputOk(d: Document, k: nat)
    requires Valid(d) && k < |d.outputs|
  {
    d.outputs[k].ref in d.internal && d.outputs[k].name in d.outputIds &&
    d.outputIds[d.outputs[k].name] !in IdSet(Compiled(d, k))
  }

  ghost predicate Compiles(d: Document)
    requires Valid(d)
  {
    OpsEmit(d, |d.order|) && OutputsOk(d, |d.outputs|)
  }

  ghost predicate EmitsAt(d: Document, i: nat)
    requires Valid(d) && i < |d.order|
  {
    d.order[i] in d.ops && Emittable(d.ops[d.order[i]], d.internal, Emission(d, i))
  }

  lemma EmissionNext(d: Document, i: nat)
    requires Valid(d) && i < |d.order|
    ensures d.order[i] in d.ops && d.order[i] in d.implicits
    ensures Emission(d, i + 1) ==
            Emission(d, i) + OpsOf(d.ops[d.order[i]], d.internal, Emission(d, i), d.implicits[d.order[i]])
    ensures EmitsAt(d, i) <==> Emittable(d.ops[d.order[i]], d.internal, Emission(d, i))
  {
    hide *;
    OperatorAt(d, i);
    EmissionStep(d, i);
  }

  lemma EmissionStep(d: Document, i: nat)
    requires Valid(d) && i < |d.order| && d.order[i] in d.ops && d.order[i] in d.implicits
    ensures Emission(d, i + 1) ==
            Emission(d, i) + OpsOf(d.ops[d.order[i]], d.internal, Emission(d, i), d.implicits[d.order[i]])
    ensures EmitsAt(d, i) <==> Emittable(d.ops[d.order[i]], d.internal, Emission(d, i))
  {
    hide InOrder, Distinct, Elems, OpsOf, Emittable, EntryDeps, InputOps;
  }

  ghost predicate OpsEmit(d: Document, n: nat)
    requires Valid(d) && n <= |d.order|
  {
    forall i :: 0 <= i < n ==> EmitsAt(d, i)
  }

  lemma EmissionStart(d: Document)
    requires Valid(d)
    ensures Emission(d, 0) == InputOps(d.internal, d.inputs) && OpsEmit(d, 0)
  {
  }

  lemma EmitNext(d: Document, i: nat)
    requires Valid(d) && i < |d.order| && OpsEmit(d, i)
    ensures OpsEmit(d, i + 1) <==> EmitsAt(d, i)
    ensures !EmitsAt(d, i) ==> !OpsEmit(d, |d.order|)
  {
    hide Valid, EmitsAt;
  }

  /** The worklist's emissions. */
  method EmitOps(d: Document) returns (r: Result<Graph, EmitError>)
    requires Valid(d)
    ensures r.Ok? <==> OpsEmit(d, |d.order|)
    ensures r.Ok? ==> r.value == Emission(d, |d.order|)
  {
    hide *;
    var graph := InputOps(d.internal, d.inputs);
    EmissionStart(d);
    for i := 0 to |d.order|
      invariant graph == Emission(d, i) && OpsEmit(d, i)
    {
      EmissionNext(d, i);
      EmitNext(d, i);
      var more := EmitOp(d.ops[d.order[i]], d.internal, graph, d.implicits[d.order[i]]);
      if more.Err? {
        return Err(more.error);
      }
      graph := graph + more.value;
    }
    r := Ok(graph);
  }

  ghost predicate OutputsOk(d: Document, n: nat)
    requires Valid(d) && n <= |d.outputs|
  {
    forall k :: 0 <= k < n ==> OutputOk(d, k)
  }

  /** The loop over the output entries. */
  method EmitOutputs(d: Document, graph: Graph) returns (r: Result<Graph, EmitError>)
    requires Valid(d) && graph == Emission(d, |d.order|)
    ensures r.Ok? <==> OutputsOk(d, |d.outputs|)
    ensures r.Ok? ==> r.value == Compiled(d, |d.outputs|)
  {
    hide *;
    var all := graph;
    CompiledNone(d);
    for k := 0 to |d.outputs|
      invariant all == Compiled(d, k) && OutputsOk(d, k)
    {
      var o := d.outputs[k];
      OutputAt(d, k);
      OutputNext(d, k);
      if o.ref !in d.internal {
        return Err(UnknownField(o.ref));
      }
      TakenIff(all, d.outputIds[o.name]);
      if exists g | g in all :: g.id == d.outputIds[o.name] {
        return Err(DuplicateOutput(o.name));
      }
      CompiledNext(d, k);
      all := all + [OutputOp(d, o)];
    }
    r := Ok(all);
  }

  lemma OutputNext(d: Document, k: nat)
    requires Valid(d) && k < |d.outputs| && OutputsOk(d, k)
    ensures OutputsOk(d, k + 1) <==> OutputOk(d, k)
    ensures !OutputOk(d, k) ==> !OutputsOk(d, |d.outputs|)
  {
    hide Valid, OutputOk;
  }

  lemma CompiledNone(d: Document)
    requires Valid(d)
    ensures Compiled(d, 0) == Emission(d, |d.order|) && OutputsOk(d, 0)
  {
    hide Valid, Emission;
  }

  lemma OutputAt(d: Document, k: nat)
    requires Valid(d) && k < |d.outputs|
    ensures d.outputs[k].name in d.outputIds
    ensures OutputOk(d, k) <==>
              d.outputs[k].ref in d.internal && d.outputIds[d.outputs[k].name] !in IdSet(Compiled(d, k))
  {
    assert d.outputs[k] in d.outputs;
    hide Emission, Compiled, IdSet, InOrder, Distinct, Elems;
  }

  /** The emission of `_compile_workflow`. It fails exactly when an operator fails a check, or an output names nothing
      or takes an id that is in use. */
  method EmitWorkflow(d: Document) returns (r: Result<Graph, EmitError>)
    requires Valid(d)
    ensures r.Ok? <==> Compiles(d)
    ensures r.Ok? ==> r.value == Compiled(d, |d.outputs|)
  {
    hide Valid, Emission, Compiled, EmitsAt, OutputOk;
    r := EmitOps(d);
    if r.Ok? {
      r := EmitOutputs(d, r.value);
    }
  }

  lemma TakenIff(graph: Graph, id: Id)
    ensures (exists g :: g in graph && g.id == id) <==> id in IdSet(graph)
  {
    if g :| g in graph && g.id == id {
      var k :| 0 <= k < |graph| && graph[k] == g;
      assert G.Keys(graph)[k] == id;
    }
    if id in IdSet(graph) {
      var k :| 0 <= k < |graph| && G.Keys(graph)[k] == id;
      assert graph[k] in graph;
    }
  }

  lemma CompiledNext(d: Document, k: nat)
    requires Valid(d) && k < |d.outputs| && d.outputs[k].name in d.outputIds
    ensures Compiled(d, k + 1) == Compiled(d, k) + [OutputOp(d, d.outputs[k])]
  {
    hide Emission, Valid;
    assert OutputOps(d, k + 1) == OutputOps(d, k) + [OutputOp(d, d.outputs[k])];
  }

  // ---- which ids are emitted ---------------------------------------------------------------

  /** The ids given to the known names. */
  ghost function GivenIds(d: Document, i: nat): (r: set<Id>)
    requires i <= |d.order|
  {
    set t | t in Known(d, i) && t in d.internal :: d.internal[t]
  }

  ghost function ImplicitsBefore(d: Document, i: nat): (r: set<Id>)
    requires i <= |d.order|
  {
    set n, x | n in Elems(d.order[..i]) && n in d.implicits && x in ImplicitIds(d, n) :: x
  }

  lemma OpsIds(op: Op, internal: map<Id, Id>, graph: Graph, implicit: Implicit)
    ensures var ids := IdSet(OpsOf(op, internal, graph, implicit));
      Resolve(internal, op.entry.name) in ids &&
      ids <= {Resolve(internal, op.entry.name), implicit.format, implicit.message}
  {
    var front, main := FrontOf(op, internal, graph, implicit), MainOf(op, internal, graph, implicit);
    IdsAppend(front, [main]);
    LoadsOne(main, {});
    assert IdSet([]) == {};
    match op.body {
      case Image(content, _) =>
        ImplicitFormatLoads(implicit.format, RefTemplate(1), RefKwargs([Resolve(internal, content)]), {});
      case Model(source, _, _, _) =>
        if source.Inline? { InlineLoads(op.entry, source, internal, graph, implicit, {}); }
      case _ =>
    }
    hide IdSet, MainOf, InlineOps, ImplicitFormat, RefTemplate, RefKwargs;
    assert main.id == Resolve(internal, op.entry.name) by { MainId(op, internal, graph, implicit); }
  }

  lemma MainId(op: Op, internal: map<Id, Id>, graph: Graph, implicit: Implicit)
    ensures MainOf(op, internal, graph, implicit).id == Resolve(internal, op.entry.name)
  {
  }

  lemma {:induction false} EmittedIds(d: Document, i: nat)
    requires Valid(d) && i <= |d.order|
    ensures GivenIds(d, i) <= IdSet(Emission(d, i)) <= GivenIds(d, i) + ImplicitsBefore(d, i)
  {
    hide *;
    if i == 0 {
      InputIds(d);
    } else {
      var n := d.order[i - 1];
      EmittedIds(d, i - 1);
      EmissionNext(d, i - 1);
      var more := OpsOf(d.ops[n], d.internal, Emission(d, i - 1), d.implicits[n]);
      OpsIds(d.ops[n], d.internal, Emission(d, i - 1), d.implicits[n]);
      IdsAppend(Emission(d, i - 1), more);
      IdsNext(d, i - 1);
    }
  }

  lemma InputIds(d: Document)
    requires Valid(d)
    ensures GivenIds(d, 0) <= IdSet(Emission(d, 0)) <= GivenIds(d, 0) + ImplicitsBefore(d, 0)
  {
    hide *;
    EmissionStart(d);
    InputOpsIds(d.internal, d.inputs);
    FirstKnown(d);
  }

  lemma FirstKnown(d: Document)
    requires Valid(d)
    ensures Elems(d.inputs) <= d.internal.Keys && Known(d, 0) == Elems(d.inputs)
    ensures GivenIds(d, 0) == set t | t in Elems(d.inputs) && t in d.internal :: d.internal[t]
  {
    hide InOrder, Distinct;
    assert d.order[..0] == [];
  }

  lemma InputOpsIds(internal: map<Id, Id>, names: seq<Id>)
    ensures Elems(names) <= internal.Keys ==>
              IdSet(InputOps(internal, names)) == set t | t in Elems(names) && t in internal :: internal[t]
  {
    var graph := InputOps(internal, names);
    if Elems(names) <= internal.Keys {
      forall k | 0 <= k < |names| ensures G.Keys(graph)[k] == internal[names[k]] && names[k] in Elems(names) {
      }
      forall t | t in Elems(names) ensures internal[t] in IdSet(graph) {
        var k :| 0 <= k < |names| && names[k] == t;
        assert G.Keys(graph)[k] == internal[t];
      }
    }
  }

  lemma IdsNext(d: Document, i: nat)
    requires Valid(d) && i < |d.order|
    ensures d.order[i] in d.ops && d.order[i] in d.implicits && d.order[i] in d.internal
    ensures Resolve(d.internal, d.ops[d.order[i]].entry.name) == d.internal[d.order[i]]
    ensures GivenIds(d, i + 1) == GivenIds(d, i) + {d.internal[d.order[i]]}
    ensures ImplicitsBefore(d, i + 1) == ImplicitsBefore(d, i) + {d.implicits[d.order[i]].format, d.implicits[d.order[i]].message}
  {
    hide *;
    OperatorAt(d, i);
    ElemsSnoc(d.order, i);
    GivenNext(d, i);
    ImplicitsNext(d, i);
    ResolveName(d.internal, d.order[i]);
    PairOfIds(d, d.order[i]);
  }

  lemma ResolveName(internal: map<Id, Id>, n: Id)
    requires n in internal
    ensures Resolve(internal, n) == internal[n]
  {
  }

  lemma PairOfIds(d: Document, n: Id)
    requires n in d.implicits
    ensures ImplicitIds(d, n) == {d.implicits[n].format, d.implicits[n].message}
  {
  }

  lemma GivenNext(d: Document, i: nat)
    requires i < |d.order| && d.order[i] in d.internal && Known(d, i + 1) == Known(d, i) + {d.order[i]}
    ensures GivenIds(d, i + 1) == GivenIds(d, i) + {d.internal[d.order[i]]}
  {
    hide Known;
  }

  lemma ImplicitsNext(d: Document, i: nat)
    requires i < |d.order| && d.order[i] in d.implicits
    requires Elems(d.order[..i + 1]) == Elems(d.order[..i]) + {d.order[i]}
    ensures ImplicitsBefore(d, i + 1) == ImplicitsBefore(d, i) + ImplicitIds(d, d.order[i])
  {
    hide Elems;
    forall x ensures x in ImplicitsBefore(d, i + 1) <==> x in ImplicitsBefore(d, i) + ImplicitIds(d, d.order[i]) {
      if x in ImplicitsBefore(d, i) {
        var n :| n in Elems(d.order[..i]) && n in d.implicits && x in ImplicitIds(d, n);
        assert n in Elems(d.order[..i + 1]);
      }
      if x in ImplicitIds(d, d.order[i]) {
        assert d.order[i] in Elems(d.order[..i + 1]);
      }
    }
  }

  /** The id of a name is emitted exactly when the name is known. */
  lemma EmittedIff(d: Document, i: nat, t: Id)
    requires Valid(d) && DistinctIds(d) && i <= |d.order| && t in d.internal
    ensures d.internal[t] in IdSet(Emission(d, i)) <==> t in Known(d, i)
  {
    hide *;
    EmittedIds(d, i);
    GivenIff(d, i, t, IdSet(Emission(d, i)));
  }

  lemma GivenIff(d: Document, i: nat, t: Id, emitted: set<Id>)
    requires DistinctIds(d) && i <= |d.order| && t in d.internal
    requires GivenIds(d, i) <= emitted <= GivenIds(d, i) + ImplicitsBefore(d, i)
    ensures d.internal[t] in emitted <==> t in Known(d, i)
  {
    hide Known, Elems;
    if d.internal[t] in emitted {
      assert d.internal[t] in d.internal.Values;
    }
    if t in Known(d, i) {
      assert d.internal[t] in GivenIds(d, i);
    }
  }

  // ---- which kinds are emitted -------------------------------------------------------------

  lemma {:induction false} LookupAppend(a: Graph, b: Graph, id: Id)
    ensures Lookup(a + b, id) == if id in IdSet(b) then Lookup(b, id) else Lookup(a, id)
    ensures id !in IdSet(a + b) ==> Lookup(a + b, id) == None
  {
    IdsAppend(a, b);
    if b == [] {
      assert a + b == a && IdSet(b) == {};
      LookupUnknown(a, id);
    } else {
      var n := |b| - 1;
      assert b == b[..n] + [b[n]] && (a + b)[..|a + b| - 1] == a + b[..n];
      IdsAppend(b[..n], [b[n]]);
      LoadsOne(b[n], {});
      hide IdSet;
      LookupAppend(a, b[..n], id);
      IdsAppend(a, b[..n]);
    }
  }

  lemma {:induction false} LookupUnknown(graph: Graph, id: Id)
    ensures id !in IdSet(graph) ==> Lookup(graph, id) == None
  {
    if graph != [] {
      var n := |graph| - 1;
      assert graph == graph[..n] + [graph[n]];
      IdsAppend(graph[..n], [graph[n]]);
      LoadsOne(graph[n], {});
      hide IdSet;
      LookupUnknown(graph[..n], id);
    }
  }

  /** What is found under the id of a name: its own operator, once it is known. */
  ghost predicate FoundAs(d: Document, i: nat, t: Id, found: Option<S.Payload>)
    requires i <= |d.order|
  {
    (found.Some? && found.value.FormatData? <==> t in Elems(d.order[..i]) && t in d.ops && d.ops[t].body.Format?) &&
    (found.Some? && found.value.MessageData? <==> t in Elems(d.order[..i]) && t in d.ops && d.ops[t].body.Message?)
  }

  lemma {:induction false} KindFound(d: Document, i: nat, t: Id)
    requires Valid(d) && DistinctIds(d) && i <= |d.order| && t in d.internal
    ensures FoundAs(d, i, t, Lookup(Emission(d, i), d.internal[t]))
  {
    hide *;
    if i == 0 {
      InputKind(d, t);
    } else {
      var n := d.order[i - 1];
      KindFound(d, i - 1, t);
      EmissionNext(d, i - 1);
      IdsNext(d, i - 1);
      var before := Emission(d, i - 1);
      LookupAppend(before, OpsOf(d.ops[n], d.internal, before, d.implicits[n]), d.internal[t]);
      KindNext(d, i - 1, t);
    }
  }

  lemma {:induction false} InputKind(d: Document, t: Id)
    requires Valid(d) && t in d.internal
    ensures FoundAs(d, 0, t, Lookup(Emission(d, 0), d.internal[t]))
  {
    assert d.order[..0] == [];
    InputsFound(d.internal, d.inputs, d.internal[t]);
  }

  lemma {:induction false} InputsFound(internal: map<Id, Id>, names: seq<Id>, id: Id)
    ensures var found := Lookup(InputOps(internal, names), id); found.Some? ==> found.value.InputData?
  {
    if names != [] {
      var n := |names| - 1;
      var graph := InputOps(internal, names);
      assert graph[..n] == InputOps(internal, names[..n]);
      InputsFound(internal, names[..n], id);
    }
  }

  lemma KindNext(d: Document, i: nat, t: Id)
    requires Valid(d) && DistinctIds(d) && i < |d.order| && t in d.internal
    requires d.order[i] in d.ops && d.order[i] in d.implicits && d.order[i] in d.internal
    requires FoundAs(d, i, t, Lookup(Emission(d, i), d.internal[t]))
    ensures var more := OpsOf(d.ops[d.order[i]], d.internal, Emission(d, i), d.implicits[d.order[i]]);
      FoundAs(d, i + 1, t, if d.internal[t] in IdSet(more) then Lookup(more, d.internal[t])
                           else Lookup(Emission(d, i), d.internal[t]))
  {
    hide *;
    var n := d.order[i];
    var more := OpsOf(d.ops[n], d.internal, Emission(d, i), d.implicits[n]);
    OperatorAt(d, i);
    IdsNext(d, i);
    OpsIds(d.ops[n], d.internal, Emission(d, i), d.implicits[n]);
    MainKind(d.ops[n], d.internal, Emission(d, i), d.implicits[n]);
    ElemsSnoc(d.order, i);
    OnlyItsOwn(d, n, t, IdSet(more));
    FoundNext(d, i, t, Lookup(Emission(d, i), d.internal[t]));
    FoundNow(d, i, Lookup(more, d.internal[n]));
  }

  lemma OnlyItsOwn(d: Document, n: Id, t: Id, ids: set<Id>)
    requires DistinctIds(d) && n in d.internal && t in d.internal && n in d.implicits
    requires d.internal[n] in ids && ids <= {d.internal[n], d.implicits[n].format, d.implicits[n].message}
    ensures d.internal[t] in ids <==> t == n
  {
    assert d.internal[t] in d.internal.Values;
    assert d.implicits[n].format in ImplicitIds(d, n) && d.implicits[n].message in ImplicitIds(d, n);
  }

  lemma FoundNext(d: Document, i: nat, t: Id, found: Option<S.Payload>)
    requires i < |d.order| && Elems(d.order[..i + 1]) == Elems(d.order[..i]) + {d.order[i]}
    requires FoundAs(d, i, t, found)
    ensures t != d.order[i] ==> FoundAs(d, i + 1, t, found)
  {
    hide Elems;
  }

  lemma FoundNow(d: Document, i: nat, found: Option<S.Payload>)
    requires i < |d.order| && Elems(d.order[..i + 1]) == Elems(d.order[..i]) + {d.order[i]} && d.order[i] in d.ops
    requires found.Some? && (found.value.FormatData? <==> d.ops[d.order[i]].body.Format?)
    requires found.value.MessageData? <==> d.ops[d.order[i]].body.Message?
    ensures FoundAs(d, i + 1, d.order[i], found)
  {
    hide Elems;
  }

  lemma MainKind(op: Op, internal: map<Id, Id>, graph: Graph, implicit: Implicit)
    ensures var found := Lookup(OpsOf(op, internal, graph, implicit), Resolve(internal, op.entry.name));
      found.Some? && (found.value.FormatData? <==> op.body.Format?) && (found.value.MessageData? <==> op.body.Message?)
  {
    MainId(op, internal, graph, implicit);
    hide FrontOf;
  }

  // ---- which documents can be read ---------------------------------------------------------

  /** A field of operator `i` names something that is emitted before it; a text that names nothing in the document is
      taken for an id. */
  ghost predicate FoundBefore(d: Document, i: nat, t: string)
    requires Valid(d) && i < |d.order|
  {
    if t in d.internal then t in Known(d, i) else t in IdSet(Emission(d, i))
  }

  function Values(kwargs: seq<(string, Id)>): (r: seq<string>)
    ensures |r| == |kwargs| && forall k :: 0 <= k < |r| ==> r[k] == kwargs[k].1
  {
    O.KwargIds(kwargs)
  }

  /** The fields of operator `i` that reading looks up name document inputs or operators earlier in the order. */
  ghost predicate FieldsBefore(d: Document, i: nat)
    requires Valid(d) && i < |d.order|
  {
    d.order[i] in d.ops && BodyBefore(d, i, d.ops[d.order[i]].body)
  }

  ghost predicate BodyBefore(d: Document, i: nat, body: Body)
    requires Valid(d) && i < |d.order|
  {
    match body
    case Lambda(name, code) => name != "" && code != ""
    case Format(_, args, kwargs) => ArgsBefore(d, i, args) && ArgsBefore(d, i, Values(kwargs))
    case Embedding(input, _) => input in Known(d, i)
    case Image(content, _) => content in Known(d, i)
    case Model(source, _, _, _) => source.RefTo? || InlineBefore(d, i, source)
    case _ => true
  }

  ghost predicate ArgsBefore(d: Document, i: nat, texts: seq<string>)
    requires Valid(d) && i < |d.order|
  {
    forall k :: 0 <= k < |texts| ==> FoundBefore(d, i, texts[k])
  }

  ghost predicate InlineBefore(d: Document, i: nat, source: Messages)
    requires source.Inline? && i <= |d.order|
  {
    if source.prompt.Some? then KwargsKnown(d, i, source.prompt.value.kwargs)
    else MessagesBefore(d, i, source.messages)
  }

  ghost predicate KwargsKnown(d: Document, i: nat, kwargs: seq<(string, Id)>)
    requires i <= |d.order|
  {
    forall k :: 0 <= k < |kwargs| ==> kwargs[k].1 in Known(d, i)
  }

  ghost predicate MessagesBefore(d: Document, i: nat, messages: seq<Msg>)
    requires i <= |d.order|
  {
    forall k :: 0 <= k < |messages| ==> UserBefore(d, i, messages[k])
  }

  /** A user message whose content names an operator names one that is emitted before. */
  ghost predicate UserBefore(d: Document, i: nat, m: Msg)
    requires i <= |d.order|
  {
    m.role == "user" && m.content in d.internal ==> m.content in Known(d, i)
  }

  lemma ResolvedBefore(d: Document, i: nat, texts: seq<string>)
    requires Valid(d) && DistinctIds(d) && i < |d.order|
    ensures Elems(ResolveAll(d.internal, texts)) <= IdSet(Emission(d, i)) <==> ArgsBefore(d, i, texts)
  {
    var ids := ResolveAll(d.internal, texts);
    hide Valid, DistinctIds, Emission, IdSet, Known;
    forall k | 0 <= k < |texts| ensures ids[k] in IdSet(Emission(d, i)) <==> FoundBefore(d, i, texts[k]) {
      if texts[k] in d.internal {
        EmittedIff(d, i, texts[k]);
      }
    }
    AllIn(ids, IdSet(Emission(d, i)));
  }

  lemma AllIn(ids: seq<Id>, s: set<Id>)
    ensures Elems(ids) <= s <==> forall k :: 0 <= k < |ids| ==> ids[k] in s
  {
    assert forall k :: 0 <= k < |ids| ==> ids[k] in Elems(ids);
  }

  lemma KwargsBefore(d: Document, i: nat, kwargs: seq<(string, Id)>)
    requires Valid(d) && DistinctIds(d) && i < |d.order|
    ensures Elems(O.KwargIds(ResolveKwargs(d.internal, kwargs))) <= IdSet(Emission(d, i)) <==>
              ArgsBefore(d, i, Values(kwargs))
  {
    assert O.KwargIds(ResolveKwargs(d.internal, kwargs)) == ResolveAll(d.internal, Values(kwargs));
    ResolvedBefore(d, i, Values(kwargs));
    hide FoundBefore, Valid, DistinctIds, Emission, IdSet, Elems;
  }

  lemma WrappedBefore(d: Document, i: nat, messages: seq<Msg>)
    requires Valid(d) && DistinctIds(d) && i < |d.order|
    ensures Elems(WrappedIds(messages, d.internal, Emission(d, i))) <= IdSet(Emission(d, i)) <==>
              MessagesBefore(d, i, messages)
  {
    var graph, ids := Emission(d, i), WrappedIds(messages, d.internal, Emission(d, i));
    hide Valid, DistinctIds, Emission, IdSet, WrappedIds;
    forall k | 0 <= k < |messages| && messages[k].role == "user" && messages[k].content in d.internal
      ensures messages[k].content in Known(d, i) <==> d.internal[messages[k].content] in IdSet(graph)
      ensures !IsWrapped(messages[k], d.internal, graph) ==> messages[k].content in Known(d, i)
      ensures IsWrapped(messages[k], d.internal, graph) ==> d.internal[messages[k].content] in ids
    {
      EmittedIff(d, i, messages[k].content);
      KindFound(d, i, messages[k].content);
    }
    hide Known;
  }

  lemma InputsBefore(d: Document, i: nat)
    requires Valid(d) && DistinctIds(d) && i < |d.order| && d.order[i] in d.ops
    ensures Elems(ResolveAll(d.internal, d.ops[d.order[i]].entry.inputs)) <= IdSet(Emission(d, i))
  {
    hide *;
    OperatorAt(d, i);
    var inputs := d.ops[d.order[i]].entry.inputs;
    ResolvedBefore(d, i, inputs);
    KnownAreFound(d, i, inputs);
  }

  lemma KnownAreFound(d: Document, i: nat, texts: seq<Id>)
    requires Valid(d) && i < |d.order| && Elems(texts) <= Known(d, i) <= d.internal.Keys
    ensures ArgsBefore(d, i, texts)
  {
    AllIn(texts, Known(d, i));
    hide Valid, Known, Emission, IdSet, Elems;
  }

  lemma OneBefore(d: Document, i: nat, t: Id)
    requires Valid(d) && DistinctIds(d) && i < |d.order| && t in d.internal
    ensures Resolve(d.internal, t) in IdSet(Emission(d, i)) <==> t in Known(d, i)
  {
    EmittedIff(d, i, t);
  }

  lemma PromptBefore(d: Document, i: nat, prompt: Prompt)
    requires Valid(d) && DistinctIds(d) && i < |d.order| && PromptKnown(Some(prompt), d.internal)
    ensures Elems(O.KwargIds(ResolveKwargs(d.internal, prompt.kwargs))) <= IdSet(Emission(d, i)) <==>
              KwargsKnown(d, i, prompt.kwargs)
  {
    KwargsBefore(d, i, prompt.kwargs);
    hide Valid, DistinctIds, Emission, IdSet, Known, ArgsBefore, Elems;
    NamesBefore(d, i, Values(prompt.kwargs));
    hide FoundBefore;
  }

  lemma NamesBefore(d: Document, i: nat, texts: seq<Id>)
    requires Valid(d) && i < |d.order| && Elems(texts) <= d.internal.Keys
    ensures ArgsBefore(d, i, texts) <==> forall k :: 0 <= k < |texts| ==> texts[k] in Known(d, i)
  {
    AllIn(texts, d.internal.Keys);
    hide Valid, Emission, IdSet, Known, Elems;
  }

  lemma InlineUnfolds(d: Document, i: nat, source: Messages, graph: Graph)
    requires source.Inline? && i < |d.order|
    ensures InlineIds(source, d.internal, graph) ==
            if source.prompt.Some? then Elems(O.KwargIds(ResolveKwargs(d.internal, source.prompt.value.kwargs)))
            else Elems(WrappedIds(source.messages, d.internal, graph))
    ensures InlineBefore(d, i, source) <==>
              if source.prompt.Some? then KwargsKnown(d, i, source.prompt.value.kwargs)
              else MessagesBefore(d, i, source.messages)
  {
  }

  lemma SourceBefore(d: Document, i: nat, source: Messages)
    requires Valid(d) && DistinctIds(d) && i < |d.order| && source.Inline? && PromptKnown(source.prompt, d.internal)
    ensures InlineIds(source, d.internal, Emission(d, i)) <= IdSet(Emission(d, i)) <==> InlineBefore(d, i, source)
  {
    hide *;
    InlineUnfolds(d, i, source, Emission(d, i));
    if source.prompt.Some? {
      PromptBefore(d, i, source.prompt.value);
    } else {
      WrappedBefore(d, i, source.messages);
    }
  }

  lemma FieldsIff(d: Document, i: nat)
    requires Valid(d) && DistinctIds(d) && i < |d.order| && EmitsAt(d, i) && d.order[i] in d.ops
    ensures var op := d.ops[d.order[i]];
      (Complete(op.body) && FieldIds(op, d.internal, Emission(d, i)) <= IdSet(Emission(d, i))) <==> FieldsBefore(d, i)
  {
    hide *;
    var op := d.ops[d.order[i]];
    InputsBefore(d, i);
    EmissionNext(d, i);
    match op.body {
      case Format(_, args, kwargs) =>
        ResolvedBefore(d, i, args);
        KwargsBefore(d, i, kwargs);
        FormatFields(d, i);
      case Model(source, _, _, _) => ModelFields(d, i);
      case _ => OtherFields(d, i);
    }
  }

  lemma FormatFields(d: Document, i: nat)
    requires Valid(d) && i < |d.order| && d.order[i] in d.ops && d.ops[d.order[i]].body.Format?
    requires var body := d.ops[d.order[i]].body;
      (Elems(ResolveAll(d.internal, body.args)) <= IdSet(Emission(d, i)) <==> ArgsBefore(d, i, body.args)) &&
      (Elems(O.KwargIds(ResolveKwargs(d.internal, body.kwargs))) <= IdSet(Emission(d, i)) <==>
         ArgsBefore(d, i, Values(body.kwargs)))
    ensures var op := d.ops[d.order[i]];
      (Complete(op.body) && FieldIds(op, d.internal, Emission(d, i)) <= IdSet(Emission(d, i))) <==> FieldsBefore(d, i)
  {
    hide ArgsBefore, Valid, Emission, IdSet, Elems, Known, ResolveAll, ResolveKwargs, Values;
  }

  lemma ModelFields(d: Document, i: nat)
    requires Valid(d) && DistinctIds(d) && i < |d.order| && EmitsAt(d, i) && d.order[i] in d.ops
    requires d.ops[d.order[i]].body.Model?
    ensures var op := d.ops[d.order[i]];
      (Complete(op.body) && FieldIds(op, d.internal, Emission(d, i)) <= IdSet(Emission(d, i))) <==> FieldsBefore(d, i)
  {
    hide *;
    var source := d.ops[d.order[i]].body.source;
    ModelUnfolds(d, i);
    if source.Inline? {
      SourceBefore(d, i, source);
    } else {
      MessageBefore(d, i, source.name);
    }
  }

  lemma ModelUnfolds(d: Document, i: nat)
    requires Valid(d) && i < |d.order| && EmitsAt(d, i) && d.order[i] in d.ops && d.ops[d.order[i]].body.Model?
    ensures var op, source := d.ops[d.order[i]], d.ops[d.order[i]].body.source;
      Complete(op.body) && (FieldsBefore(d, i) <==> source.RefTo? || InlineBefore(d, i, source)) &&
      FieldIds(op, d.internal, Emission(d, i)) ==
        (if source.RefTo? then {Resolve(d.internal, source.name)} else InlineIds(source, d.internal, Emission(d, i))) &&
      (source.RefTo? ==> source.name in d.internal && IsMessage(Emission(d, i), d.internal[source.name])) &&
      (source.Inline? ==> PromptKnown(source.prompt, d.internal))
  {
    hide Valid, Emission, InlineBefore, InlineIds, PromptKnown, IsMessage, Resolve, Known, Elems;
  }

  lemma OtherFields(d: Document, i: nat)
    requires Valid(d) && DistinctIds(d) && i < |d.order| && EmitsAt(d, i) && d.order[i] in d.ops
    requires !d.ops[d.order[i]].body.Model? && !d.ops[d.order[i]].body.Format?
    requires Elems(ResolveAll(d.internal, d.ops[d.order[i]].entry.inputs)) <= IdSet(Emission(d, i))
    ensures var op := d.ops[d.order[i]];
      (Complete(op.body) && FieldIds(op, d.internal, Emission(d, i)) <= IdSet(Emission(d, i))) <==> FieldsBefore(d, i)
  {
    hide *;
    var op := d.ops[d.order[i]];
    EmissionNext(d, i);
    match op.body {
      case Embedding(input, _) =>
        InputKnown(op, d.internal, Emission(d, i));
        OneBefore(d, i, input);
      case Image(content, _) =>
        InputKnown(op, d.internal, Emission(d, i));
        OneBefore(d, i, content);
      case _ =>
    }
    OneField(d, i, op, Emission(d, i), IdSet(Emission(d, i)));
    BodyOf(d, i);
  }

  lemma InputKnown(op: Op, internal: map<Id, Id>, graph: Graph)
    requires Emittable(op, internal, graph)
    ensures op.body.Embedding? ==> op.body.input in internal
    ensures op.body.Image? ==> op.body.content in internal
  {
  }

  lemma BodyOf(d: Document, i: nat)
    requires Valid(d) && i < |d.order| && d.order[i] in d.ops
    ensures FieldsBefore(d, i) <==> BodyBefore(d, i, d.ops[d.order[i]].body)
  {
    hide Valid, BodyBefore;
  }

  lemma OneField(d: Document, i: nat, op: Op, graph: Graph, known: set<Id>)
    requires Valid(d) && i < |d.order| && !op.body.Model? && !op.body.Format?
    requires op.body.Embedding? ==> (Resolve(d.internal, op.body.input) in known <==> op.body.input in Known(d, i))
    requires op.body.Image? ==> (Resolve(d.internal, op.body.content) in known <==> op.body.content in Known(d, i))
    requires Elems(ResolveAll(d.internal, op.entry.inputs)) <= known
    ensures Complete(op.body) && FieldIds(op, d.internal, graph) <= known <==> BodyBefore(d, i, op.body)
  {
    hide Valid, Known, Elems, ResolveAll, Resolve;
  }

  lemma MessageBefore(d: Document, i: nat, t: Id)
    requires Valid(d) && DistinctIds(d) && i < |d.order| && t in d.internal
    requires IsMessage(Emission(d, i), d.internal[t])
    ensures Resolve(d.internal, t) in IdSet(Emission(d, i))
  {
    KindFound(d, i, t);
    EmittedIff(d, i, t);
    hide Valid, DistinctIds, Emission, IdSet;
  }
}
