/** What the YAML parser emits for each operator, implicit Format and Message operators included
    (parser/yaml_parser.py:372-994), in the JSON form that `Graph.from_json` reads. */
module YamlEmission {
  import opened Collections
  import opened Worklists
  import O = Ops
  import S = OpSerialization

  datatype Msg = Msg(role: string, content: string)

  /** A prompt template with the operators it is filled from. */
  datatype Prompt = Prompt(template: string, kwargs: seq<(string, Id)>)

  /** The messages of a model call: a message operator by name, or written out. */
  datatype Messages = RefTo(name: Id) | Inline(messages: seq<Msg>, prompt: Option<Prompt>)

  /** The fields of an operator, by kind. The nodes inside data specs and tables are listed beside the opaque text. */
  datatype Body =
    | Data(items: seq<string>)
    | Lambda(name: string, code: string)
    | Retrieval(nodes: seq<Id>, spec: string)
    | Format(template: string, args: seq<Id>, kwargs: seq<(string, Id)>)
    | Message(messages: seq<Msg>)
    | Embedding(input: Id, config: string)
    | Image(content: Id, config: string)
    | Model(source: Messages, tables: seq<Id>, image: Option<Id>, config: string)

  datatype Op = Op(entry: Entry, maxIter: Option<int>, body: Body)

  datatype EmitError = UnknownField(name: Id) | NotAMessage(name: Id) | NoMessages | DuplicateOutput(name: string)

  /** The ids of the implicit operators of an operator. */
  datatype Implicit = Implicit(format: Id, message: Id)

  type Graph = seq<S.Serialized>

  // ---- ids and texts -----------------------------------------------------------------------

  /** A name of the document, or the text itself. */
  function Resolve(internal: map<Id, Id>, text: string): (r: Id) {
    if text in internal then internal[text] else text
  }

  function ResolveAll(internal: map<Id, Id>, texts: seq<string>): (r: seq<Id>)
    ensures |r| == |texts| && forall i :: 0 <= i < |texts| ==> r[i] == Resolve(internal, texts[i])
  {
    seq(|texts|, i requires 0 <= i < |texts| => Resolve(internal, texts[i]))
  }

  function ResolveKwargs(internal: map<Id, Id>, kwargs: seq<(string, Id)>): (r: seq<(string, Id)>)
    ensures |r| == |kwargs| && forall i :: 0 <= i < |r| ==> r[i] == (kwargs[i].0, Resolve(internal, kwargs[i].1))
  {
    seq(|kwargs|, i requires 0 <= i < |kwargs| => (kwargs[i].0, Resolve(internal, kwargs[i].1)))
  }

  function ResolveMessages(internal: map<Id, Id>, messages: seq<Msg>): (r: seq<(string, string)>)
    ensures |r| == |messages|
    ensures forall i :: 0 <= i < |r| ==> r[i] == (messages[i].role, Resolve(internal, messages[i].content))
  {
    seq(|messages|, i requires 0 <= i < |messages| => (messages[i].role, Resolve(internal, messages[i].content)))
  }

  function Contents(internal: map<Id, Id>, messages: seq<Msg>): (r: set<Id>) {
    set i | 0 <= i < |messages| :: Resolve(internal, messages[i].content)
  }

  /** `graph_ops.get(id)`: what was emitted last under the id. */
  function Lookup(graph: Graph, id: Id): (r: Option<S.Payload>) {
    if graph == [] then None
    else if graph[|graph| - 1].id == id then Some(graph[|graph| - 1].payload)
    else Lookup(graph[..|graph| - 1], id)
  }

  predicate IsFormat(graph: Graph, id: Id) {
    var found := Lookup(graph, id);
    found.Some? && found.value.FormatData?
  }

  predicate IsMessage(graph: Graph, id: Id) {
    var found := Lookup(graph, id);
    found.Some? && found.value.MessageData?
  }

  function Decimal(n: nat): (r: string) {
    var digit := ['0' + (n % 10) as char];
    if n < 10 then digit else Decimal(n / 10) + digit
  }

  function RefKey(k: nat): (r: string) { "ref" + Decimal(k) }

  /** `"{ref0}{ref1}..."`. */
  function RefTemplate(n: nat): (r: string) {
    if n == 0 then "" else RefTemplate(n - 1) + "{" + RefKey(n - 1) + "}"
  }

  function RefKwargs(ids: seq<Id>): (r: seq<(string, Id)>)
    ensures |r| == |ids| && forall k :: 0 <= k < |r| ==> r[k] == (RefKey(k), ids[k])
  {
    seq(|ids|, k requires 0 <= k < |ids| => (RefKey(k), ids[k]))
  }

  // ---- implicit operators ------------------------------------------------------------------

  /** The user message is rewritten to the implicit format operator. */
  predicate IsWrapped(m: Msg, internal: map<Id, Id>, graph: Graph) {
    m.role == "user" && m.content in internal && !IsFormat(graph, internal[m.content])
  }

  function WrappedIds(messages: seq<Msg>, internal: map<Id, Id>, graph: Graph): (r: seq<Id>)
    ensures forall x :: x in r <==>
      exists i :: 0 <= i < |messages| && IsWrapped(messages[i], internal, graph) && internal[messages[i].content] == x
  {
    if messages == [] then []
    else
      var n := |messages| - 1;
      WrappedIds(messages[..n], internal, graph) +
      if IsWrapped(messages[n], internal, graph) then [internal[messages[n].content]] else []
  }

  function Wrapped(messages: seq<Msg>, internal: map<Id, Id>, graph: Graph, format: Id): (r: seq<Msg>)
    ensures |r| == |messages|
  {
    seq(|messages|, i requires 0 <= i < |messages| =>
      if IsWrapped(messages[i], internal, graph) then messages[i].(content := format) else messages[i])
  }

  /** The prompt route: every user message becomes the implicit format operator. */
  function Prompted(messages: seq<Msg>, format: Id): (r: seq<Msg>)
    ensures |r| == |messages|
  {
    seq(|messages|, i requires 0 <= i < |messages| =>
      if messages[i].role == "user" then messages[i].(content := format) else messages[i])
  }

  function KwargIds(kwargs: seq<(string, Id)>): (r: seq<Id>) {
    O.KwargIds(kwargs)
  }

  function ImplicitFormat(id: Id, template: string, kwargs: seq<(string, Id)>): (r: S.Serialized) {
    S.Serialized(id, None, O.Dedup(KwargIds(kwargs)), S.FormatData(template, [], kwargs))
  }

  /** The implicit format operator of a model call, if one is needed. */
  function FormatsOf(source: Messages, internal: map<Id, Id>, graph: Graph, format: Id): (r: Graph)
    requires source.Inline?
  {
    if source.prompt.Some? then
      var prompt := source.prompt.value;
      [ImplicitFormat(format, prompt.template, ResolveKwargs(internal, prompt.kwargs))]
    else
      var ids := WrappedIds(source.messages, internal, graph);
      if ids == [] then [] else [ImplicitFormat(format, RefTemplate(|ids|), RefKwargs(ids))]
  }

  function PreparedMessages(source: Messages, internal: map<Id, Id>, graph: Graph, format: Id): (r: seq<Msg>)
    requires source.Inline?
  {
    if source.prompt.Some? then Prompted(source.messages, format)
    else Wrapped(source.messages, internal, graph, format)
  }

  /** The implicit message operator: it lists the inputs and the format operator that its contents mention. */
  function ImplicitMessage(entry: Entry, prepared: seq<Msg>, formats: Graph, internal: map<Id, Id>, id: Id)
    : (r: S.Serialized)
  {
    var candidates := O.Dedup(ResolveAll(internal, entry.inputs) + if formats == [] then [] else [formats[0].id]);
    S.Serialized(id, None, Keep(candidates, Contents(internal, prepared)), S.MessageData(ResolveMessages(internal, prepared)))
  }

  function InlineOps(entry: Entry, source: Messages, internal: map<Id, Id>, graph: Graph, implicit: Implicit): (r: Graph)
    requires source.Inline?
  {
    var formats := FormatsOf(source, internal, graph, implicit.format);
    var prepared := PreparedMessages(source, internal, graph, implicit.format);
    formats + [ImplicitMessage(entry, prepared, formats, internal, implicit.message)]
  }

  // ---- operators ---------------------------------------------------------------------------

  /** The checks of the emission helpers, given the graph emitted so far. */
  ghost predicate Emittable(op: Op, internal: map<Id, Id>, graph: Graph) {
    match op.body
    case Data(_) => true
    case Lambda(_, _) => true
    case Format(_, _, _) => true
    case Retrieval(nodes, _) => Elems(nodes) <= internal.Keys
    case Message(messages) => messages != []
    case Embedding(input, _) => input in internal
    case Image(content, _) => content in internal
    case Model(source, _, image, _) =>
      (image.Some? ==> image.value in internal) &&
      (source.RefTo? ==> source.name in internal && IsMessage(graph, internal[source.name])) &&
      (source.Inline? ==> source.messages != [] && PromptKnown(source.prompt, internal))
  }

  ghost predicate PromptKnown(prompt: Option<Prompt>, internal: map<Id, Id>) {
    prompt.Some? ==> Elems(KwargIds(prompt.value.kwargs)) <= internal.Keys
  }

  /** The implicit operators in front of an operator. */
  function FrontOf(op: Op, internal: map<Id, Id>, graph: Graph, implicit: Implicit): (r: Graph) {
    match op.body
    case Image(content, _) =>
      var target := Resolve(internal, content);
      if IsFormat(graph, target) then [] else [ImplicitFormat(implicit.format, RefTemplate(1), RefKwargs([target]))]
    case Model(source, _, _, _) =>
      if source.RefTo? then [] else InlineOps(op.entry, source, internal, graph, implicit)
    case _ => []
  }

  /** The inputs of a chat call are its messages and the nodes of its tables. */
  function ModelInputs(message: Id, tables: seq<Id>, image: Option<Id>): (r: seq<Id>) {
    if image.Some? then [message] else O.Dedup([message] + tables)
  }

  function MainOf(op: Op, internal: map<Id, Id>, graph: Graph, implicit: Implicit): (r: S.Serialized) {
    var id, inputs := Resolve(internal, op.entry.name), ResolveAll(internal, op.entry.inputs);
    match op.body
    case Data(items) => S.Serialized(id, op.maxIter, [], S.ListData(items))
    case Lambda(name, code) => S.Serialized(id, op.maxIter, inputs, S.LambdaData(name, code))
    case Retrieval(_, spec) => S.Serialized(id, op.maxIter, inputs, S.RetrievalData(spec))
    case Format(template, args, kwargs) =>
      S.Serialized(id, op.maxIter, inputs,
                   S.FormatData(template, ResolveAll(internal, args), ResolveKwargs(internal, kwargs)))
    case Message(messages) => S.Serialized(id, op.maxIter, inputs, S.MessageData(ResolveMessages(internal, messages)))
    case Embedding(input, config) =>
      var source := Resolve(internal, input);
      S.Serialized(id, op.maxIter, [source], S.ModelData(S.Embedding, source, config))
    case Image(content, config) =>
      var target := Resolve(internal, content);
      var source := if IsFormat(graph, target) then target else implicit.format;
      S.Serialized(id, op.maxIter, [source], S.ModelData(S.Image, source, config))
    case Model(source, tables, image, config) =>
      var message := if source.RefTo? then Resolve(internal, source.name) else implicit.message;
      S.Serialized(id, op.maxIter, ModelInputs(message, ResolveAll(internal, tables), image),
                   if image.Some? then S.VisionData(message, config, Resolve(internal, image.value))
                   else S.ModelData(S.Chat, message, config))
  }

  function OpsOf(op: Op, internal: map<Id, Id>, graph: Graph, implicit: Implicit): (r: Graph) {
    FrontOf(op, internal, graph, implicit) + [MainOf(op, internal, graph, implicit)]
  }

  // ---- the emission helpers ----------------------------------------------------------------

  /** `_wrap_user_content_refs`: contents that name an operator go through one implicit format operator. */
  method WrapContents(messages: seq<Msg>, internal: map<Id, Id>, graph: Graph, format: Id)
    returns (prepared: seq<Msg>, formats: Graph)
    ensures prepared == Wrapped(messages, internal, graph, format)
    ensures formats == FormatsOf(Inline(messages, None), internal, graph, format)
  {
    prepared := [];
    var ids: seq<Id> := [];
    assert messages[..0] == [];
    for i := 0 to |messages|
      invariant prepared == Wrapped(messages[..i], internal, graph, format)
      invariant ids == WrappedIds(messages[..i], internal, graph)
    {
      WrappedNext(messages, internal, graph, format, i);
      var m := messages[i];
      if m.role != "user" || m.content !in internal || IsFormat(graph, internal[m.content]) {
        prepared := prepared + [m];
        continue;
      }
      ids := ids + [internal[m.content]];
      prepared := prepared + [m.(content := format)];
    }
    assert messages[..|messages|] == messages;
    formats := if ids == [] then [] else [ImplicitFormat(format, RefTemplate(|ids|), RefKwargs(ids))];
  }

  lemma WrappedNext(messages: seq<Msg>, internal: map<Id, Id>, graph: Graph, format: Id, i: nat)
    requires i < |messages|
    ensures var m, wrapped := messages[i], IsWrapped(messages[i], internal, graph);
      Wrapped(messages[..i + 1], internal, graph, format) ==
        Wrapped(messages[..i], internal, graph, format) + [if wrapped then m.(content := format) else m] &&
      WrappedIds(messages[..i + 1], internal, graph) ==
        WrappedIds(messages[..i], internal, graph) + if wrapped then [internal[m.content]] else []
  {
    var next := messages[..i + 1];
    assert next[..|next| - 1] == messages[..i] && next[|next| - 1] == messages[i];
  }

  /** The loop over the candidates of an implicit message operator. */
  method MessageInputs(candidates: seq<Id>, mentioned: set<Id>) returns (r: seq<Id>)
    ensures r == Keep(candidates, mentioned)
  {
    r := [];
    for i := 0 to |candidates|
      invariant r == Keep(candidates[..i], mentioned)
    {
      assert candidates[..i + 1][..i] == candidates[..i];
      if candidates[i] in mentioned {
        r := r + [candidates[i]];
      }
    }
    assert candidates[..|candidates|] == candidates;
  }

  /** The implicit operators of a model call with its messages written out: perhaps a format operator, then a
      message operator. */
  method EmitInline(entry: Entry, source: Messages, internal: map<Id, Id>, graph: Graph, implicit: Implicit)
    returns (r: Result<Graph, EmitError>)
    requires source.Inline?
    ensures r.Ok? <==> source.messages != [] && PromptKnown(source.prompt, internal)
    ensures r.Ok? ==> r.value == InlineOps(entry, source, internal, graph, implicit)
  {
    var formats: Graph, prepared: seq<Msg>;
    if source.prompt.Some? {
      var prompt := source.prompt.value;
      var refs := KwargIds(prompt.kwargs);
      if ref :| ref in refs && ref !in internal {
        assert ref in Elems(refs);
        return Err(UnknownField(ref));
      }
      formats := [ImplicitFormat(implicit.format, prompt.template, ResolveKwargs(internal, prompt.kwargs))];
      prepared := Prompted(source.messages, implicit.format);
    } else {
      prepared, formats := WrapContents(source.messages, internal, graph, implicit.format);
    }
    if source.messages == [] {
      return Err(NoMessages);
    }
    hide PromptKnown;
    var candidates := O.Dedup(ResolveAll(internal, entry.inputs) + if formats == [] then [] else [formats[0].id]);
    var inputs := MessageInputs(candidates, Contents(internal, prepared));
    r := Ok(formats + [S.Serialized(implicit.message, None, inputs, S.MessageData(ResolveMessages(internal, prepared)))]);
  }

  /** `_emit_llm_like_op`, and the check of the image source before it. */
  method EmitModel(op: Op, internal: map<Id, Id>, graph: Graph, implicit: Implicit)
    returns (r: Result<Graph, EmitError>)
    requires op.body.Model?
    ensures r.Ok? <==> Emittable(op, internal, graph)
    ensures r.Ok? ==> r.value == OpsOf(op, internal, graph, implicit)
  {
    var Model(source, tables, image, config) := op.body;
    if image.Some? && image.value !in internal {
      return Err(UnknownField(image.value));
    }
    var front: Graph, message := [], implicit.message;
    if source.RefTo? {
      if source.name !in internal {
        return Err(UnknownField(source.name));
      }
      if !IsMessage(graph, internal[source.name]) {
        return Err(NotAMessage(source.name));
      }
      message := internal[source.name];
    } else {
      var inline := EmitInline(op.entry, source, internal, graph, implicit);
      if inline.Err? {
        return inline;
      }
      front := inline.value;
    }
    hide InlineOps, PromptKnown, IsMessage;
    var inputs := ModelInputs(message, ResolveAll(internal, tables), image);
    var payload := if image.Some? then S.VisionData(message, config, internal[image.value])
                   else S.ModelData(S.Chat, message, config);
    r := Ok(front + [S.Serialized(Resolve(internal, op.entry.name), op.maxIter, inputs, payload)]);
  }

  /** `_emit_image_generation_op`: content that is no format operator goes through an implicit one. */
  method EmitImage(op: Op, internal: map<Id, Id>, graph: Graph, implicit: Implicit)
    returns (r: Result<Graph, EmitError>)
    requires op.body.Image?
    ensures r.Ok? <==> Emittable(op, internal, graph)
    ensures r.Ok? ==> r.value == OpsOf(op, internal, graph, implicit)
  {
    var Image(content, config) := op.body;
    if content !in internal {
      return Err(UnknownField(content));
    }
    var front: Graph, source := [], internal[content];
    if !IsFormat(graph, source) {
      front := [ImplicitFormat(implicit.format, RefTemplate(1), RefKwargs([source]))];
      source := implicit.format;
    }
    hide ImplicitFormat, RefTemplate, RefKwargs;
    var main := S.Serialized(Resolve(internal, op.entry.name), op.maxIter, [source], S.ModelData(S.Image, source, config));
    r := Ok(front + [main]);
  }

  /** `_build_op_dict`, without the checks of field types. */
  method EmitOp(op: Op, internal: map<Id, Id>, graph: Graph, implicit: Implicit)
    returns (r: Result<Graph, EmitError>)
    ensures r.Ok? <==> Emittable(op, internal, graph)
    ensures r.Ok? ==> r.value == OpsOf(op, internal, graph, implicit)
  {
    match op.body {
      case Retrieval(nodes, _) =>
        if ref :| ref in nodes && ref !in internal {
          assert ref in Elems(nodes);
          return Err(UnknownField(ref));
        }
      case Message(messages) =>
        if messages == [] {
          return Err(NoMessages);
        }
      case Embedding(input, _) =>
        if input !in internal {
          return Err(UnknownField(input));
        }
      case Image(_, _) =>
        r := EmitImage(op, internal, graph, implicit);
        return;
      case Model(_, _, _, _) =>
        r := EmitModel(op, internal, graph, implicit);
        return;
      case _ =>
    }
    hide MainOf;
    var none: Graph := [];
    assert none + [MainOf(op, internal, graph, implicit)] == [MainOf(op, internal, graph, implicit)];
    r := Ok([MainOf(op, internal, graph, implicit)]);
  }
}
