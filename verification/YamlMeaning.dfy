/** What a YAML document becomes once it is compiled and loaded: every operator with its own fields, bound to the
    operators that its fields name (parser/yaml_parser.py:234-304, 372-1006; graphs/graph.py:131-139). */
module YamlMeaning {
  import opened Collections
  import opened Worklists
  import opened YamlEmission
  import opened YamlLoading
  import opened YamlDocuments
  import opened YamlReading
  import O = Ops
  import S = OpSerialization
  import G = GraphSerialization

  /** The id that stands for a text: that of the operator it names, else the text. */
  ghost predicate Stands(d: Document, t: string, id: Id) {
    if t in d.internal then id == d.internal[t] else id == t
  }

  ghost predicate StandAll(d: Document, texts: seq<string>, ids: seq<Id>) {
    |ids| == |texts| && forall j :: 0 <= j < |texts| ==> Stands(d, texts[j], ids[j])
  }

  ghost predicate StandKwargs(d: Document, kwargs: seq<(string, Id)>, bound: seq<(string, Id)>) {
    |bound| == |kwargs| && forall j :: 0 <= j < |kwargs| ==> bound[j].0 == kwargs[j].0 && Stands(d, kwargs[j].1, bound[j].1)
  }

  /** Message `j` has its role, and refers to the operator it names when that was loaded before. */
  ghost predicate MessageHeld(d: Document, m: Msg, known: set<Id>, held: O.OpMessage) {
    held.role == m.role &&
    match held.content
    case Ref(id) => id in known && Stands(d, m.content, id)
    case Literal(text) => text !in known && Stands(d, m.content, text)
  }

  /** The loaded operator is the one that the document describes. */
  ghost predicate Held(d: Document, op: Op, implicit: Implicit, known: set<Id>, graph: Graph, loaded: S.Op) {
    op.entry.name in d.internal && loaded.id == d.internal[op.entry.name] && loaded.maxIter == op.maxIter &&
    match op.body
    case Data(items) => loaded.body == S.Data(items) && loaded.inputs == []
    case Lambda(name, code) => loaded.body == S.Lambda(name, code) && StandAll(d, op.entry.inputs, loaded.inputs)
    case Retrieval(_, spec) => loaded.body == S.Retrieval(spec) && StandAll(d, op.entry.inputs, loaded.inputs)
    case Format(template, args, kwargs) =>
      loaded.body.Format? && loaded.body.template == template && S.IndexesValid(loaded) &&
      StandAll(d, args, S.ArgsOf(loaded)) && StandKwargs(d, kwargs, S.KwargsOf(loaded))
    case Message(messages) =>
      loaded.body.Message? && S.IndexesValid(loaded) && |S.MessagesOf(loaded)| == |messages| &&
      forall j :: 0 <= j < |messages| ==> MessageHeld(d, messages[j], known, S.MessagesOf(loaded)[j])
    case Embedding(input, config) =>
      loaded.body == S.Model(S.Embedding, config) && |loaded.inputs| == 1 && Stands(d, input, loaded.inputs[0])
    case Image(content, config) =>
      loaded.body == S.Model(S.Image, config) && |loaded.inputs| == 1 &&
      if content in d.internal && Lookup(graph, d.internal[content]).Some? && Lookup(graph, d.internal[content]).value.FormatData?
      then loaded.inputs[0] == d.internal[content]
      else content in d.internal ==> loaded.inputs[0] == implicit.format
    case Model(source, _, image, config) =>
      |loaded.inputs| > 0 &&
      (if source.RefTo? then Stands(d, source.name, loaded.inputs[0]) else loaded.inputs[0] == implicit.message) &&
      if image.Some? then
        loaded.body.Vision? && loaded.body.config == config && Stands(d, image.value, loaded.body.imageSource) &&
        loaded.inputs[1..] == if loaded.body.imageSource in known then [loaded.body.imageSource] else []
      else loaded.body == S.Model(S.Chat, config) && |loaded.inputs| == 1
  }

  /** The operator at position `k` of what is loaded. */
  lemma MainLoaded(d: Document, i: nat)
    requires Valid(d) && i < |d.order| && G.ParseAll(Compiled(d, |d.outputs|)).Ok?
    ensures d.order[i] in d.ops && d.order[i] in d.implicits
    ensures var op, before, implicit := d.ops[d.order[i]], Emission(d, i), d.implicits[d.order[i]];
            var front := FrontOf(op, d.internal, before, implicit);
            var ops := G.ParseAll(Compiled(d, |d.outputs|)).value;
            |before + front| < |ops| &&
            S.Parse(MainOf(op, d.internal, before, implicit), IdSet(before + front)) == Ok(ops[|before + front|])
  {
    hide *;
    OperatorAt(d, i);
    var op, before, implicit := d.ops[d.order[i]], Emission(d, i), d.implicits[d.order[i]];
    var front, main := FrontOf(op, d.internal, before, implicit), MainOf(op, d.internal, before, implicit);
    OpsSplit(op, d.internal, before, implicit);
    OpsAt(d, i, front, main);
    var graph := Compiled(d, |d.outputs|);
    assert (before + front + [main])[|before + front|] == main && (before + front + [main])[..|before + front|] == before + front;
    assert graph[|before + front|] == main && graph[..|before + front|] == before + front;
    ReadAs(graph, |before + front|);
  }

  lemma OpsSplit(op: Op, internal: map<Id, Id>, graph: Graph, implicit: Implicit)
    ensures OpsOf(op, internal, graph, implicit) ==
            FrontOf(op, internal, graph, implicit) + [MainOf(op, internal, graph, implicit)]
  {
    hide FrontOf, MainOf;
  }

  lemma ResolveStands(d: Document, t: string)
    ensures Stands(d, t, Resolve(d.internal, t))
  {
  }

  lemma ResolveAllStand(d: Document, texts: seq<string>)
    ensures StandAll(d, texts, ResolveAll(d.internal, texts))
  {
  }

  lemma ResolveKwargsStand(d: Document, kwargs: seq<(string, Id)>)
    ensures StandKwargs(d, kwargs, ResolveKwargs(d.internal, kwargs))
  {
  }

  lemma FormatHeld(d: Document, s: S.Serialized, known: set<Id>, template: string, args: seq<Id>, kwargs: seq<(string, Id)>)
    requires s.payload == S.FormatData(template, args, kwargs) && S.Parse(s, known).Ok?
    ensures var op := S.Parse(s, known).value;
            op.id == s.id && op.maxIter == s.maxIter && op.body.Format? && op.body.template == template &&
            S.IndexesValid(op) && S.ArgsOf(op) == args && S.KwargsOf(op) == kwargs
  {
    S.FormatReadsBack(s.id, s.maxIter, template, args, kwargs);
    hide S.FormatInputs, S.ArgsOf, S.KwargsOf, Elems;
  }

  lemma MessagesHeld(d: Document, s: S.Serialized, known: set<Id>, messages: seq<Msg>)
    requires s.payload == S.MessageData(ResolveMessages(d.internal, messages))
    ensures S.Parse(s, known).Ok?
    ensures var op := S.Parse(s, known).value;
            op.id == s.id && op.maxIter == s.maxIter && op.body.Message? && S.IndexesValid(op) &&
            |S.MessagesOf(op)| == |messages| &&
            forall j :: 0 <= j < |messages| ==> MessageHeld(d, messages[j], known, S.MessagesOf(op)[j])
  {
    S.MessageReadsBack(s.id, s.maxIter, S.ReadMessages(s.payload.messages, known));
    hide S.MessagesOf, S.MessageInputs, S.MessageBody;
    forall j | 0 <= j < |messages|
      ensures MessageHeld(d, messages[j], known, S.ReadMessages(s.payload.messages, known)[j])
    {
      ResolveStands(d, messages[j].content);
    }
  }

  /** Every operator of a document that loads is loaded with its own fields, bound to the operators they name. */
  lemma DocumentHeld(d: Document, i: nat)
    requires Valid(d) && i < |d.order| && G.ParseAll(Compiled(d, |d.outputs|)).Ok?
    ensures d.order[i] in d.ops && d.order[i] in d.implicits
    ensures var op, before, implicit := d.ops[d.order[i]], Emission(d, i), d.implicits[d.order[i]];
            var front := FrontOf(op, d.internal, before, implicit);
            var ops := G.ParseAll(Compiled(d, |d.outputs|)).value;
            |before + front| < |ops| && Held(d, op, implicit, IdSet(before + front), before, ops[|before + front|])
  {
    hide *;
    OperatorAt(d, i);
    MainLoaded(d, i);
    var op, before, implicit := d.ops[d.order[i]], Emission(d, i), d.implicits[d.order[i]];
    var known := IdSet(before + FrontOf(op, d.internal, before, implicit));
    match op.body {
      case Format(_, _, _) => FormatIsHeld(d, op, before, implicit, known);
      case Message(_) => MessageIsHeld(d, op, before, implicit, known);
      case Model(_, _, _, _) => ModelIsHeld(d, op, before, implicit, known);
      case _ => PlainIsHeld(d, op, before, implicit, known);
    }
  }

  lemma FormatIsHeld(d: Document, op: Op, graph: Graph, implicit: Implicit, known: set<Id>)
    requires op.body.Format? && op.entry.name in d.internal && S.Parse(MainOf(op, d.internal, graph, implicit), known).Ok?
    ensures Held(d, op, implicit, known, graph, S.Parse(MainOf(op, d.internal, graph, implicit), known).value)
  {
    var Format(template, args, kwargs) := op.body;
    ResolveAllStand(d, args);
    ResolveKwargsStand(d, kwargs);
    var main := MainOf(op, d.internal, graph, implicit);
    hide StandAll, StandKwargs, ResolveAll, ResolveKwargs;
    FormatHeld(d, main, known, template, ResolveAll(d.internal, args), ResolveKwargs(d.internal, kwargs));
    hide S.Parse, S.ArgsOf, S.KwargsOf;
  }

  lemma MessageIsHeld(d: Document, op: Op, graph: Graph, implicit: Implicit, known: set<Id>)
    requires op.body.Message? && op.entry.name in d.internal && S.Parse(MainOf(op, d.internal, graph, implicit), known).Ok?
    ensures Held(d, op, implicit, known, graph, S.Parse(MainOf(op, d.internal, graph, implicit), known).value)
  {
    var main := MainOf(op, d.internal, graph, implicit);
    hide S.Parse, S.MessagesOf, MessageHeld, ResolveAll, ResolveMessages;
    MessagesHeld(d, main, known, op.body.messages);
  }

  lemma ModelIsHeld(d: Document, op: Op, graph: Graph, implicit: Implicit, known: set<Id>)
    requires op.body.Model? && op.entry.name in d.internal && S.Parse(MainOf(op, d.internal, graph, implicit), known).Ok?
    ensures Held(d, op, implicit, known, graph, S.Parse(MainOf(op, d.internal, graph, implicit), known).value)
  {
    var Model(source, tables, image, config) := op.body;
    if source.RefTo? {
      ResolveStands(d, source.name);
    }
    if image.Some? {
      ResolveStands(d, image.value);
    }
    hide Stands, ModelInputs, ResolveAll;
  }

  lemma PlainIsHeld(d: Document, op: Op, graph: Graph, implicit: Implicit, known: set<Id>)
    requires !op.body.Format? && !op.body.Message? && !op.body.Model? && op.entry.name in d.internal
    requires S.Parse(MainOf(op, d.internal, graph, implicit), known).Ok?
    ensures Held(d, op, implicit, known, graph, S.Parse(MainOf(op, d.internal, graph, implicit), known).value)
  {
    ResolveAllStand(d, op.entry.inputs);
    hide StandAll, ResolveAll, Elems;
  }

  /** The inputs of the document come first. */
  lemma InputsHeld(d: Document, k: nat)
    requires Valid(d) && k < |d.inputs| && G.ParseAll(Compiled(d, |d.outputs|)).Ok?
    ensures var ops := G.ParseAll(Compiled(d, |d.outputs|)).value;
            d.inputs[k] in d.internal && k < |ops| && ops[k] == S.Op(d.internal[d.inputs[k]], [], None, S.Input(d.inputs[k]))
  {
    hide *;
    var graph := Compiled(d, |d.outputs|);
    EmissionPrefix(d, 0, |d.order|);
    EmissionStart(d);
    OutputsLast(d);
    InputNamed(d, k);
    assert graph[k] == InputOps(d.internal, d.inputs)[k];
    ReadAs(graph, k);
    InputRead(d.internal, d.inputs[k], IdSet(graph[..k]));
  }

  lemma InputNamed(d: Document, k: nat)
    requires Valid(d) && k < |d.inputs|
    ensures d.inputs[k] in d.internal && k < |InputOps(d.internal, d.inputs)|
    ensures InputOps(d.internal, d.inputs)[k] == InputOp(Resolve(d.internal, d.inputs[k]), d.inputs[k])
  {
    assert d.inputs[k] in Elems(d.inputs);
    hide InOrder, Distinct, Elems;
  }

  lemma InputRead(internal: map<Id, Id>, name: Id, known: set<Id>)
    requires name in internal
    ensures S.Parse(InputOp(Resolve(internal, name), name), known) == Ok(S.Op(internal[name], [], None, S.Input(name)))
  {
  }

  /** The outputs come last, each bound to the operator it names. */
  lemma OutputsHeld(d: Document, k: nat)
    requires Valid(d) && k < |d.outputs| && OutputsOk(d, |d.outputs|) && G.ParseAll(Compiled(d, |d.outputs|)).Ok?
    ensures var ops, o := G.ParseAll(Compiled(d, |d.outputs|)).value, d.outputs[k];
            o.name in d.outputIds && o.ref in d.internal && |Emission(d, |d.order|)| + k < |ops| &&
            ops[|Emission(d, |d.order|)| + k] == S.Op(d.outputIds[o.name], [d.internal[o.ref]], None, S.Output(o.name, o.path))
  {
    hide *;
    var graph, at := Compiled(d, |d.outputs|), |Emission(d, |d.order|)| + k;
    OutputPlaced(d, k);
    ReadAs(graph, at);
    OutputParsed(d, d.outputs[k], IdSet(graph[..at]));
  }

  lemma OutputPlaced(d: Document, k: nat)
    requires Valid(d) && k < |d.outputs| && OutputsOk(d, |d.outputs|)
    ensures d.outputs[k].name in d.outputIds && d.outputs[k].ref in d.internal
    ensures |Emission(d, |d.order|)| + k < |Compiled(d, |d.outputs|)|
    ensures Compiled(d, |d.outputs|)[|Emission(d, |d.order|)| + k] == OutputOp(d, d.outputs[k])
  {
    hide Valid, Emission, OutputOp;
    assert OutputOk(d, k);
  }

  lemma OutputParsed(d: Document, o: Output, known: set<Id>)
    requires o.name in d.outputIds && o.ref in d.internal && S.Parse(OutputOp(d, o), known).Ok?
    ensures S.Parse(OutputOp(d, o), known) ==
            Ok(S.Op(d.outputIds[o.name], [d.internal[o.ref]], None, S.Output(o.name, o.path)))
  {
  }

  /** The messages of a call as its implicit message operator holds them: with a prompt every user message is the format
      operator, else those that name an operator which is no format operator. */
  ghost predicate Prepared(source: Messages, internal: map<Id, Id>, graph: Graph, format: Id, prepared: seq<Msg>)
    requires source.Inline?
  {
    |prepared| == |source.messages| && forall j :: 0 <= j < |prepared| ==>
      prepared[j].role == source.messages[j].role &&
      prepared[j].content == if Redirects(source, internal, graph, source.messages[j]) then format else source.messages[j].content
  }

  ghost predicate Redirects(source: Messages, internal: map<Id, Id>, graph: Graph, m: Msg)
    requires source.Inline?
  {
    m.role == "user" &&
    (source.prompt.Some? ||
     (m.content in internal &&
      !(Lookup(graph, internal[m.content]).Some? && Lookup(graph, internal[m.content]).value.FormatData?)))
  }

  lemma SourcePrepared(source: Messages, internal: map<Id, Id>, graph: Graph, format: Id)
    requires source.Inline?
    ensures Prepared(source, internal, graph, format, PreparedMessages(source, internal, graph, format))
  {
  }

  /** The implicit message operator of a call is loaded with the prepared messages. */
  lemma InlineHeld(d: Document, i: nat)
    requires Valid(d) && i < |d.order| && G.ParseAll(Compiled(d, |d.outputs|)).Ok?
    requires d.order[i] in d.ops && d.ops[d.order[i]].body.Model? && d.ops[d.order[i]].body.source.Inline?
    ensures d.order[i] in d.implicits
    ensures var op, before, implicit := d.ops[d.order[i]], Emission(d, i), d.implicits[d.order[i]];
            var formats := FormatsOf(op.body.source, d.internal, before, implicit.format);
            var prepared := PreparedMessages(op.body.source, d.internal, before, implicit.format);
            var ops, k := G.ParseAll(Compiled(d, |d.outputs|)).value, |before + formats|;
            Prepared(op.body.source, d.internal, before, implicit.format, prepared) && k < |ops| &&
            ops[k].id == implicit.message && ops[k].body.Message? && S.IndexesValid(ops[k]) &&
            |S.MessagesOf(ops[k])| == |prepared| && forall j :: 0 <= j < |prepared| ==>
              MessageHeld(d, prepared[j], IdSet(before + formats), S.MessagesOf(ops[k])[j])
  {
    hide *;
    OperatorAt(d, i);
    var op, before, implicit := d.ops[d.order[i]], Emission(d, i), d.implicits[d.order[i]];
    var formats := FormatsOf(op.body.source, d.internal, before, implicit.format);
    var prepared := PreparedMessages(op.body.source, d.internal, before, implicit.format);
    var s := MessageOf(op, d.internal, before, implicit);
    SourcePrepared(op.body.source, d.internal, before, implicit.format);
    InlineFront(op, d.internal, before, implicit);
    OpsAt(d, i, formats, s);
    var graph, k := Compiled(d, |d.outputs|), |before + formats|;
    assert (before + formats + [s])[k] == s && (before + formats + [s])[..k] == before + formats;
    assert graph[k] == s && graph[..k] == before + formats;
    ReadAs(graph, k);
    MessagesHeld(d, s, IdSet(before + formats), prepared);
  }

  lemma InlineFront(op: Op, internal: map<Id, Id>, graph: Graph, implicit: Implicit)
    requires op.body.Model? && op.body.source.Inline?
    ensures var s := MessageOf(op, internal, graph, implicit);
      FormatsOf(op.body.source, internal, graph, implicit.format) + [s] <= OpsOf(op, internal, graph, implicit) &&
      s.id == implicit.message &&
      s.payload == S.MessageData(ResolveMessages(internal, PreparedMessages(op.body.source, internal, graph, implicit.format)))
  {
    hide Resolve, FormatsOf, MainOf, PreparedMessages;
  }

  /** With a prompt the implicit format operator is the prompt's template, bound as the prompt says. */
  lemma PromptHeld(d: Document, source: Messages, graph: Graph, format: Id)
    requires source.Inline? && source.prompt.Some?
    ensures var formats := FormatsOf(source, d.internal, graph, format);
            |formats| == 1 && formats[0].id == format && formats[0].payload.FormatData? &&
            formats[0].payload.template == source.prompt.value.template && formats[0].payload.args == [] &&
            StandKwargs(d, source.prompt.value.kwargs, formats[0].payload.kwargs) &&
            Distinct(formats[0].inputs) && Elems(formats[0].inputs) == Elems(O.KwargIds(formats[0].payload.kwargs))
  {
    ResolveKwargsStand(d, source.prompt.value.kwargs);
  }

  // ---- the inputs that emitted operators list ------------------------------------------------

  /** The listed inputs of an emitted operator: the declared ones, what a call or an image reads, or the message of a
      chat call before the nodes of its tables, each once. */
  lemma InputsListed(d: Document, op: Op, graph: Graph, implicit: Implicit)
    ensures var inputs := MainOf(op, d.internal, graph, implicit).inputs;
            match op.body
            case Data(_) => inputs == []
            case Embedding(input, _) => |inputs| == 1 && Stands(d, input, inputs[0])
            case Image(content, _) => |inputs| == 1 && (inputs[0] == implicit.format || Stands(d, content, inputs[0]))
            case Model(source, tables, image, _) =>
              |inputs| > 0 && Distinct(inputs) &&
              (if source.RefTo? then Stands(d, source.name, inputs[0]) else inputs[0] == implicit.message) &&
              (image.Some? ==> |inputs| == 1) &&
              (image.None? ==> forall x :: x in inputs <==>
                x == inputs[0] || exists j :: 0 <= j < |tables| && Stands(d, tables[j], x))
            case _ => StandAll(d, op.entry.inputs, inputs)
  {
    match op.body {
      case Model(source, tables, image, _) =>
        hide Stands, ResolveAll, Resolve, ModelInputs, Distinct;
        ChatInputs(d, if source.RefTo? then Resolve(d.internal, source.name) else implicit.message, tables, image);
        if source.RefTo? {
          ResolveStands(d, source.name);
        }
      case _ =>
        ResolveAllStand(d, op.entry.inputs);
        hide StandAll, ResolveAll, ModelInputs;
    }
  }

  /** The message first, then the nodes of the tables, each once. */
  lemma ChatInputs(d: Document, message: Id, tables: seq<Id>, image: Option<Id>)
    ensures var inputs := ModelInputs(message, ResolveAll(d.internal, tables), image);
            |inputs| > 0 && Distinct(inputs) && inputs[0] == message && (image.Some? ==> |inputs| == 1) &&
            (image.None? ==> forall x :: x in inputs <==>
              x == message || exists j :: 0 <= j < |tables| && Stands(d, tables[j], x))
  {
    var ids := ResolveAll(d.internal, tables);
    DedupFirst(message, ids);
    if image.None? {
      var inputs := ModelInputs(message, ids, image);
      forall x ensures x in inputs <==> x == message || exists j :: 0 <= j < |tables| && Stands(d, tables[j], x) {
        assert x in inputs <==> x in Elems([message] + ids);
        TableMember(d, tables, x);
      }
    }
  }

  lemma TableMember(d: Document, tables: seq<Id>, x: Id)
    ensures x in ResolveAll(d.internal, tables) <==> exists j :: 0 <= j < |tables| && Stands(d, tables[j], x)
  {
    var ids := ResolveAll(d.internal, tables);
    if x in ids {
      var j :| 0 <= j < |ids| && ids[j] == x;
      assert Stands(d, tables[j], x);
    }
    if j :| 0 <= j < |tables| && Stands(d, tables[j], x) {
      assert ids[j] == x;
    }
  }

  lemma {:induction false} DedupFirst(x: Id, rest: seq<Id>)
    ensures O.Dedup([x] + rest) != [] && O.Dedup([x] + rest)[0] == x
  {
    var all := [x] + rest;
    if rest == [] {
      assert all[..0] == [];
    } else {
      assert all[..|all| - 1] == [x] + rest[..|rest| - 1];
      DedupFirst(x, rest[..|rest| - 1]);
    }
  }

  /** The implicit message operator lists, each once, the declared inputs and the implicit format operator that its
      messages name. */
  lemma ImplicitInputs(d: Document, op: Op, graph: Graph, implicit: Implicit, x: Id)
    requires op.body.Model? && op.body.source.Inline?
    ensures var s := MessageOf(op, d.internal, graph, implicit);
            var formats := FormatsOf(op.body.source, d.internal, graph, implicit.format);
            var prepared := PreparedMessages(op.body.source, d.internal, graph, implicit.format);
            x in s.inputs <==>
              ((exists j :: 0 <= j < |op.entry.inputs| && Stands(d, op.entry.inputs[j], x)) ||
               (formats != [] && x == formats[0].id)) &&
              exists j :: 0 <= j < |prepared| && Stands(d, prepared[j].content, x)
  {
    var formats := FormatsOf(op.body.source, d.internal, graph, implicit.format);
    var prepared := PreparedMessages(op.body.source, d.internal, graph, implicit.format);
    var all := ResolveAll(d.internal, op.entry.inputs) + if formats == [] then [] else [formats[0].id];
    hide FormatsOf, PreparedMessages;
    TableMember(d, op.entry.inputs, x);
    assert x in O.Dedup(all) <==> x in Elems(all) by { assert Elems(O.Dedup(all)) == Elems(all); }
    ContentMember(d, prepared, x);
  }

  lemma ContentMember(d: Document, messages: seq<Msg>, x: Id)
    ensures x in Contents(d.internal, messages) <==> exists j :: 0 <= j < |messages| && Stands(d, messages[j].content, x)
  {
    forall j | 0 <= j < |messages|
      ensures Stands(d, messages[j].content, x) <==> Resolve(d.internal, messages[j].content) == x
    {
    }
    hide Stands, Resolve;
  }
}
