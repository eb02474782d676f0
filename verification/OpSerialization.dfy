/** Operators with their index-coded references, and their JSON form (ops/ops.py:108-122, ops/data_ops.py:49-115,
    ops/util_ops.py:17-67, ops/llm_ops.py). */
module OpSerialization {
  import opened Collections
  import O = Ops

  type Id = string

  /** A stored message content: the text itself, or a position in the list of inputs. */
  datatype MessageRef = Verbatim(text: string) | Index(i: nat)

  datatype ModelKind = Chat | Image | Embedding

  datatype Body =
    | Input(name: string)
    | Data(items: seq<string>)
    | Output(name: string, path: Option<string>)
    | Message(roles: seq<string>, refs: seq<MessageRef>)
    | Format(template: string, args: seq<nat>, kwargs: seq<(string, nat)>)
    | Lambda(name: string, code: string)
    | Retrieval(spec: string)
    | Model(kind: ModelKind, config: string)
    | Vision(config: string, imageSource: Id)

  datatype Op = Op(id: Id, inputs: seq<Id>, maxIter: Option<int>, body: Body)

  /** The class-specific part of the JSON form. A message content is an id or a text: the form does not tell. */
  datatype Payload =
    | InputData(name: string)
    | ListData(items: seq<string>)
    | OutputData(name: string, path: Option<string>)
    | MessageData(messages: seq<(string, string)>)
    | FormatData(template: string, args: seq<Id>, kwargs: seq<(string, Id)>)
    | LambdaData(name: string, code: string)
    | RetrievalData(spec: string)
    | ModelData(kind: ModelKind, content: Id, config: string)
    | VisionData(content: Id, config: string, imageSource: Id)

  datatype Serialized = Serialized(id: Id, maxIter: Option<int>, inputs: seq<Id>, payload: Payload)

  datatype ParseError = UnknownId | NotOneInput | MissingCode

  // ---- constructors ------------------------------------------------------------------------

  lemma PositionKept(ids: seq<Id>, more: seq<Id>, id: Id)
    requires id in ids && Distinct(ids + more)
    ensures Position(ids + more, id) == Position(ids, id)
  {
    var all := ids + more;
    assert all[Position(ids, id)] == id && all[Position(all, id)] == id;
  }

  /** What a content is stored as. */
  function RefOf(inputs: seq<Id>, c: O.Content): (r: MessageRef)
    requires c.Ref? ==> c.id in inputs
  {
    match c
    case Literal(text) => Verbatim(text)
    case Ref(id) => Index(Position(inputs, id))
  }

  function MessageInputs(messages: seq<O.OpMessage>): (r: seq<Id>)
    ensures Distinct(r)
    ensures forall i :: 0 <= i < |messages| && messages[i].content.Ref? ==> messages[i].content.id in r
  {
    var ids := O.MessageRefs(messages);
    assert forall i :: 0 <= i < |messages| && messages[i].content.Ref? ==> messages[i].content.id in Elems(ids);
    O.Dedup(ids)
  }

  function MessageBody(messages: seq<O.OpMessage>): (r: Body) {
    var inputs := MessageInputs(messages);
    Message(seq(|messages|, i requires 0 <= i < |messages| => messages[i].role),
            seq(|messages|, i requires 0 <= i < |messages| => RefOf(inputs, messages[i].content)))
  }

  /** The stored contents of some messages. */
  ghost predicate StoredAs(messages: seq<O.OpMessage>, inputs: seq<Id>, refs: seq<MessageRef>) {
    |refs| == |messages| && forall j :: 0 <= j < |messages| ==> StoredContent(messages[j].content, inputs, refs[j])
  }

  ghost predicate StoredContent(c: O.Content, inputs: seq<Id>, ref: MessageRef) {
    (c.Ref? ==> c.id in inputs) && ref == RefOf(inputs, c)
  }

  /** `inputs.index`, adding a new input at the end. */
  method IndexOf(before: seq<Id>, id: Id) returns (inputs: seq<Id>, i: nat)
    requires Distinct(before)
    ensures inputs == if id in before then before else before + [id]
    ensures Distinct(inputs) && id in inputs && i == Position(inputs, id)
  {
    inputs := if id in before then before else before + [id];
    assert id !in before ==> inputs[|before|] == id;
    i := Position(inputs, id);
  }

  /** The `MessageOp` constructor: an input is added at its first mention and found again at later ones. */
  method NewMessage(messages: seq<O.OpMessage>) returns (inputs: seq<Id>, body: Body)
    ensures inputs == MessageInputs(messages) && body == MessageBody(messages)
  {
    inputs := [];
    var refs: seq<MessageRef> := [];
    assert messages[..0] == [];
    for i := 0 to |messages|
      invariant inputs == MessageInputs(messages[..i]) && StoredAs(messages[..i], inputs, refs)
    {
      hide StoredAs, Position, Distinct, O.Dedup, O.MessageRefs;
      InputsNext(messages, i);
      ghost var before := inputs;
      var ref := Verbatim("");
      match messages[i].content {
        case Literal(text) =>
          ref := Verbatim(text);
        case Ref(id) =>
          var k;
          inputs, k := IndexOf(inputs, id);
          ref := Index(k);
      }
      StoredNext(messages, i, before, inputs, refs, ref);
      refs := refs + [ref];
    }
    assert messages[..|messages|] == messages;
    body := Message(seq(|messages|, i requires 0 <= i < |messages| => messages[i].role), refs);
  }

  lemma StoredNext(messages: seq<O.OpMessage>, i: nat, before: seq<Id>, inputs: seq<Id>, refs: seq<MessageRef>,
                   ref: MessageRef)
    requires i < |messages| && StoredAs(messages[..i], before, refs) && before <= inputs && Distinct(inputs)
    requires StoredContent(messages[i].content, inputs, ref)
    ensures StoredAs(messages[..i + 1], inputs, refs + [ref])
  {
    RefsKept(messages[..i], before, inputs);
    var now, next := messages[..i], messages[..i + 1];
    forall j | 0 <= j < i + 1 ensures StoredContent(next[j].content, inputs, (refs + [ref])[j]) {
      assert j < i ==> next[j] == now[j] && StoredContent(now[j].content, before, refs[j]);
    }
  }

  lemma InputsNext(messages: seq<O.OpMessage>, i: nat)
    requires i < |messages|
    ensures MessageInputs(messages[..i + 1]) ==
            var c, before := messages[i].content, MessageInputs(messages[..i]);
            if c.Ref? && c.id !in before then before + [c.id] else before
  {
    var next := messages[..i + 1];
    assert next[..|next| - 1] == messages[..i] && next[|next| - 1] == messages[i];
    var ids := O.MessageRefs(messages[..i]);
    if messages[i].content.Ref? {
      var more := ids + [messages[i].content.id];
      assert O.MessageRefs(next) == more;
      assert more[..|more| - 1] == ids;
    } else {
      assert O.MessageRefs(next) == ids;
    }
  }

  lemma RefsKept(messages: seq<O.OpMessage>, before: seq<Id>, after: seq<Id>)
    requires before <= after && Distinct(after)
    requires forall j :: 0 <= j < |messages| && messages[j].content.Ref? ==> messages[j].content.id in before
    ensures forall j :: 0 <= j < |messages| && messages[j].content.Ref? ==> messages[j].content.id in after
    ensures forall j :: 0 <= j < |messages| ==> RefOf(after, messages[j].content) == RefOf(before, messages[j].content)
  {
    assert after == before + after[|before|..];
    forall j | 0 <= j < |messages| && messages[j].content.Ref?
      ensures messages[j].content.id in after
      ensures RefOf(after, messages[j].content) == RefOf(before, messages[j].content)
    {
      PositionKept(before, after[|before|..], messages[j].content.id);
    }
  }

  function PositionsOf(inputs: seq<Id>, ids: seq<Id>): (r: seq<nat>)
    requires Elems(ids) <= Elems(inputs)
    ensures |r| == |ids| && forall i :: 0 <= i < |r| ==> r[i] < |inputs| && inputs[r[i]] == ids[i]
  {
    assert forall i :: 0 <= i < |ids| ==> ids[i] in Elems(ids);
    seq(|ids|, i requires 0 <= i < |ids| => assert ids[i] in Elems(ids); Position(inputs, ids[i]))
  }

  function FormatInputs(args: seq<Id>, kwargs: seq<(string, Id)>): (r: seq<Id>)
    ensures Distinct(r) && Elems(args) <= Elems(r) && Elems(O.KwargIds(kwargs)) <= Elems(r)
  {
    ElemsAppend(args, O.KwargIds(kwargs));
    O.Dedup(args + O.KwargIds(kwargs))
  }

  function FormatBody(template: string, args: seq<Id>, kwargs: seq<(string, Id)>): (r: Body) {
    var inputs := FormatInputs(args, kwargs);
    Format(template, PositionsOf(inputs, args), NamePositions(kwargs, PositionsOf(inputs, O.KwargIds(kwargs))))
  }

  function NamePositions(kwargs: seq<(string, Id)>, positions: seq<nat>): (r: seq<(string, nat)>)
    requires |positions| == |kwargs|
  {
    seq(|kwargs|, i requires 0 <= i < |kwargs| => (kwargs[i].0, positions[i]))
  }

  /** One of the two loops of the `FormatOp` constructor. */
  method PlaceAll(ghost placed: seq<Id>, before: seq<Id>, ids: seq<Id>) returns (inputs: seq<Id>, positions: seq<nat>)
    requires before == O.Dedup(placed)
    ensures before <= inputs && Placed(placed, ids, inputs, positions)
  {
    inputs, positions := before, [];
    assert placed + ids[..0] == placed;
    for i := 0 to |ids|
      invariant before <= inputs && Placed(placed, ids[..i], inputs, positions)
    {
      hide Placed, Distinct, Position;
      PlacedDistinct(placed, ids[..i], inputs, positions);
      ghost var known := inputs;
      var k;
      inputs, k := IndexOf(inputs, ids[i]);
      PlacedNext(placed, ids, i, known, inputs, positions, k);
      positions := positions + [k];
    }
    assert ids[..|ids|] == ids;
  }

  ghost predicate Placed(placed: seq<Id>, ids: seq<Id>, inputs: seq<Id>, positions: seq<nat>) {
    inputs == O.Dedup(placed + ids) && Elems(ids) <= Elems(inputs) && positions == PositionsOf(inputs, ids)
  }

  lemma PlacedDistinct(placed: seq<Id>, ids: seq<Id>, inputs: seq<Id>, positions: seq<nat>)
    requires Placed(placed, ids, inputs, positions)
    ensures Distinct(inputs)
  {
  }

  lemma PlacedNext(placed: seq<Id>, ids: seq<Id>, i: nat, before: seq<Id>, inputs: seq<Id>, positions: seq<nat>, k: nat)
    requires i < |ids| && Placed(placed, ids[..i], before, positions)
    requires inputs == (if ids[i] in before then before else before + [ids[i]]) && Distinct(inputs)
    requires ids[i] in inputs && k == Position(inputs, ids[i])
    ensures Placed(placed, ids[..i + 1], inputs, positions + [k])
  {
    DedupNext(placed, ids, i);
    ElemsSnoc(ids, i);
    PositionsKept(before, inputs, ids[..i]);
    PositionsNext(inputs, ids, i);
    hide Position, PositionsOf, Distinct, O.Dedup, Elems;
  }

  lemma PositionsNext(inputs: seq<Id>, ids: seq<Id>, i: nat)
    requires i < |ids| && Elems(ids[..i]) <= Elems(inputs) && ids[i] in inputs
    ensures Elems(ids[..i + 1]) <= Elems(inputs)
    ensures PositionsOf(inputs, ids[..i + 1]) == PositionsOf(inputs, ids[..i]) + [Position(inputs, ids[i])]
  {
    ElemsSnoc(ids, i);
    hide Position, Elems;
  }

  lemma DedupNext(placed: seq<Id>, ids: seq<Id>, i: nat)
    requires i < |ids|
    ensures O.Dedup(placed + ids[..i + 1]) ==
            var before := O.Dedup(placed + ids[..i]);
            if ids[i] in before then before else before + [ids[i]]
  {
    var next := placed + ids[..i + 1];
    assert next[..|next| - 1] == placed + ids[..i] && next[|next| - 1] == ids[i];
  }

  lemma PositionsKept(before: seq<Id>, after: seq<Id>, ids: seq<Id>)
    requires before <= after && Distinct(after) && Elems(ids) <= Elems(before)
    ensures Elems(ids) <= Elems(after) && PositionsOf(after, ids) == PositionsOf(before, ids)
  {
    assert after == before + after[|before|..];
    ElemsAppend(before, after[|before|..]);
    forall i | 0 <= i < |ids| ensures PositionsOf(after, ids)[i] == PositionsOf(before, ids)[i] {
      assert ids[i] in Elems(before);
      PositionKept(before, after[|before|..], ids[i]);
    }
  }

  /** The `FormatOp` constructor. */
  method NewFormat(template: string, args: seq<Id>, kwargs: seq<(string, Id)>) returns (inputs: seq<Id>, body: Body)
    ensures inputs == FormatInputs(args, kwargs) && body == FormatBody(template, args, kwargs)
  {
    assert [] + args == args;
    var first, argPositions := PlaceAll([], [], args);
    var kwargPositions;
    inputs, kwargPositions := PlaceAll(args, first, O.KwargIds(kwargs));
    PositionsKept(first, inputs, args);
    body := Format(template, argPositions, NamePositions(kwargs, kwargPositions));
  }

  // ---- reading references back -------------------------------------------------------------

  ghost predicate IndexesValid(op: Op) {
    match op.body
    case Message(roles, refs) => |roles| == |refs| && forall i :: 0 <= i < |refs| && refs[i].Index? ==> refs[i].i < |op.inputs|
    case Format(_, args, kwargs) =>
      (forall i :: 0 <= i < |args| ==> args[i] < |op.inputs|) && (forall i :: 0 <= i < |kwargs| ==> kwargs[i].1 < |op.inputs|)
    case _ => true
  }

  /** The `messages` property. */
  ghost function MessagesOf(op: Op): (r: seq<O.OpMessage>)
    requires op.body.Message? && IndexesValid(op)
  {
    seq(|op.body.refs|, i requires 0 <= i < |op.body.refs| =>
      O.OpMessage(op.body.roles[i], ContentOf(op.inputs, op.body.refs[i])))
  }

  function ContentOf(inputs: seq<Id>, ref: MessageRef): (r: O.Content)
    requires ref.Index? ==> ref.i < |inputs|
  {
    match ref
    case Verbatim(text) => O.Literal(text)
    case Index(i) => O.Ref(inputs[i])
  }

  /** The `format_args` and `format_kwargs` properties. */
  ghost function ArgsOf(op: Op): (r: seq<Id>)
    requires op.body.Format? && IndexesValid(op)
  {
    seq(|op.body.args|, i requires 0 <= i < |op.body.args| => op.inputs[op.body.args[i]])
  }

  ghost function KwargsOf(op: Op): (r: seq<(string, Id)>)
    requires op.body.Format? && IndexesValid(op)
  {
    seq(|op.body.kwargs|, i requires 0 <= i < |op.body.kwargs| =>
      (op.body.kwargs[i].0, op.inputs[op.body.kwargs[i].1]))
  }

  /** What a constructor makes: the stored references are those of what they are read back as. */
  ghost predicate Constructed(op: Op) {
    match op.body
    case Input(_) => op.inputs == []
    case Data(_) => op.inputs == []
    case Output(_, _) => |op.inputs| == 1
    case Message(_, _) =>
      IndexesValid(op) && op.inputs == MessageInputs(MessagesOf(op)) && op.body == MessageBody(MessagesOf(op))
    case Format(template, _, _) =>
      IndexesValid(op) && op.inputs == FormatInputs(ArgsOf(op), KwargsOf(op)) &&
      op.body == FormatBody(template, ArgsOf(op), KwargsOf(op))
    case Lambda(name, code) => name != "" && code != ""
    case Retrieval(_) => true
    case Model(_, _) => |op.inputs| == 1
    case Vision(_, _) => 1 <= |op.inputs| <= 2
  }

  /** Whatever messages and arguments the constructors are given, they can be read back. */
  lemma MessageReadsBack(id: Id, maxIter: Option<int>, messages: seq<O.OpMessage>)
    ensures var op := Op(id, MessageInputs(messages), maxIter, MessageBody(messages));
            Constructed(op) && MessagesOf(op) == messages
  {
    var op := Op(id, MessageInputs(messages), maxIter, MessageBody(messages));
    assert IndexesValid(op);
    assert MessagesOf(op) == messages;
  }

  lemma FormatReadsBack(id: Id, maxIter: Option<int>, template: string, args: seq<Id>, kwargs: seq<(string, Id)>)
    ensures var op := Op(id, FormatInputs(args, kwargs), maxIter, FormatBody(template, args, kwargs));
            Constructed(op) && ArgsOf(op) == args && KwargsOf(op) == kwargs
  {
    var op := Op(id, FormatInputs(args, kwargs), maxIter, FormatBody(template, args, kwargs));
    assert IndexesValid(op);
    assert ArgsOf(op) == args;
    assert KwargsOf(op) == kwargs;
  }

  // ---- the JSON form -----------------------------------------------------------------------

  function TextOf(c: O.Content): (r: string) {
    match c
    case Literal(text) => text
    case Ref(id) => id
  }

  /** `Op.serialize`. */
  ghost function Serialize(op: Op): (r: Serialized)
    requires Constructed(op)
  {
    Serialized(op.id, op.maxIter, op.inputs, PayloadOf(op))
  }

  ghost function PayloadOf(op: Op): (r: Payload)
    requires Constructed(op)
  {
    match op.body
    case Input(name) => InputData(name)
    case Data(items) => ListData(items)
    case Output(name, path) => OutputData(name, path)
    case Message(roles, refs) =>
      MessageData(seq(|refs|, i requires 0 <= i < |refs| => (roles[i], TextOf(ContentOf(op.inputs, refs[i])))))
    case Format(template, _, _) => FormatData(template, ArgsOf(op), KwargsOf(op))
    case Lambda(name, code) => LambdaData(name, code)
    case Retrieval(spec) => RetrievalData(spec)
    case Model(kind, config) => ModelData(kind, op.inputs[0], config)
    case Vision(config, imageSource) => VisionData(op.inputs[0], config, imageSource)
  }

  /** `get_content`: a text that is the id of a loaded operator is taken for that operator. */
  function ReadContent(text: string, known: set<Id>): (r: O.Content) {
    if text in known then O.Ref(text) else O.Literal(text)
  }

  function ReadMessages(messages: seq<(string, string)>, known: set<Id>): (r: seq<O.OpMessage>)
    ensures |r| == |messages|
    ensures forall i :: 0 <= i < |r| ==> r[i] == O.OpMessage(messages[i].0, ReadContent(messages[i].1, known))
  {
    seq(|messages|, i requires 0 <= i < |messages| => O.OpMessage(messages[i].0, ReadContent(messages[i].1, known)))
  }

  /** `Op.from_json`, given the operators loaded before. */
  function Parse(s: Serialized, known: set<Id>): (r: Result<Op, ParseError>) {
    match s.payload
    case InputData(name) => Ok(Op(s.id, [], s.maxIter, Input(name)))
    case ListData(items) => Ok(Op(s.id, [], s.maxIter, Data(items)))
    case OutputData(name, path) =>
      if |s.inputs| != 1 then Err(NotOneInput)
      else if s.inputs[0] !in known then Err(UnknownId)
      else Ok(Op(s.id, s.inputs, s.maxIter, Output(name, path)))
    case MessageData(messages) =>
      var read := ReadMessages(messages, known);
      Ok(Op(s.id, MessageInputs(read), s.maxIter, MessageBody(read)))
    case FormatData(template, args, kwargs) =>
      if !(Elems(args) <= known && Elems(O.KwargIds(kwargs)) <= known) then Err(UnknownId)
      else Ok(Op(s.id, FormatInputs(args, kwargs), s.maxIter, FormatBody(template, args, kwargs)))
    case LambdaData(name, code) =>
      if name == "" || code == "" then Err(MissingCode)
      else if !(Elems(s.inputs) <= known) then Err(UnknownId)
      else Ok(Op(s.id, s.inputs, s.maxIter, Lambda(name, code)))
    case RetrievalData(spec) =>
      if !(Elems(s.inputs) <= known) then Err(UnknownId) else Ok(Op(s.id, s.inputs, s.maxIter, Retrieval(spec)))
    case ModelData(kind, content, config) =>
      if content !in known then Err(UnknownId) else Ok(Op(s.id, [content], s.maxIter, Model(kind, config)))
    case VisionData(content, config, imageSource) =>
      if content !in known then Err(UnknownId)
      else Ok(Op(s.id, [content] + ImageInput(imageSource, known), s.maxIter, Vision(config, imageSource)))
  }

  /** A vision call takes its image source as an input when it is loaded. */
  function ImageInput(imageSource: Id, known: set<Id>): (r: seq<Id>) {
    if imageSource in known then [imageSource] else []
  }

  /** No text of a message is the id of an operator loaded before, and a vision call has its image source as an
      input exactly when that is loaded before. */
  ghost predicate Kept(op: Op, known: set<Id>) {
    match op.body
    case Message(_, refs) => forall i :: 0 <= i < |refs| && refs[i].Verbatim? ==> refs[i].text !in known
    case Vision(_, imageSource) => op.inputs != [] && op.inputs[1..] == if imageSource in known then [imageSource] else []
    case _ => true
  }

  lemma MessageKeptIff(op: Op, known: set<Id>)
    requires Constructed(op) && op.body.Message? && Elems(op.inputs) <= known
    ensures Parse(Serialize(op), known).Ok? && (Parse(Serialize(op), known) == Ok(op) <==> Kept(op, known))
  {
    var refs := op.body.refs;
    var read := ReadMessages(PayloadOf(op).messages, known);
    assert Parse(Serialize(op), known) == Ok(Op(op.id, MessageInputs(read), op.maxIter, MessageBody(read)));
    if Kept(op, known) {
      forall i | 0 <= i < |refs| ensures read[i] == MessagesOf(op)[i] {
        assert refs[i].Index? ==> op.inputs[refs[i].i] in Elems(op.inputs);
      }
      assert read == MessagesOf(op);
    } else {
      var i :| 0 <= i < |refs| && refs[i].Verbatim? && refs[i].text in known;
      assert read[i].content == O.Ref(refs[i].text);
      assert MessageBody(read).refs[i].Index?;
    }
  }

  lemma FormatKept(op: Op, known: set<Id>)
    requires Constructed(op) && op.body.Format? && Elems(op.inputs) <= known
    ensures Parse(Serialize(op), known) == Ok(op)
  {
    assert Elems(ArgsOf(op)) <= Elems(op.inputs);
    assert Elems(O.KwargIds(KwargsOf(op))) <= Elems(op.inputs);
  }

  /** An operator whose inputs are loaded can always be read back, and comes back unchanged exactly when it is kept. */
  lemma ReadBackIff(op: Op, known: set<Id>)
    requires Constructed(op) && Elems(op.inputs) <= known
    ensures Parse(Serialize(op), known).Ok?
    ensures Parse(Serialize(op), known) == Ok(op) <==> Kept(op, known)
  {
    match op.body
    case Message(_, _) => MessageKeptIff(op, known);
    case Format(_, _, _) => FormatKept(op, known);
    case Output(_, _) => assert op.inputs[0] in Elems(op.inputs);
    case Model(_, _) =>
      assert op.inputs[0] in Elems(op.inputs) && op.inputs == [op.inputs[0]];
    case Vision(_, imageSource) =>
      assert op.inputs[0] in Elems(op.inputs) && op.inputs == [op.inputs[0]] + op.inputs[1..];
    case _ =>
  }

  /** Whatever is loaded has its id, and only loaded inputs. */
  lemma ParseCloses(s: Serialized, known: set<Id>)
    requires Parse(s, known).Ok?
    ensures Parse(s, known).value.id == s.id && Elems(Parse(s, known).value.inputs) <= known
  {
    match s.payload
    case MessageData(messages) =>
      var read := ReadMessages(messages, known);
      assert Elems(MessageInputs(read)) == Elems(O.MessageRefs(read));
    case FormatData(_, args, kwargs) =>
      ElemsAppend(args, O.KwargIds(kwargs));
    case _ =>
  }

  /** Inputs and outputs of the workflow are read back as they are, and nothing else becomes one. */
  lemma NamedReadBack(op: Op, known: set<Id>)
    requires Constructed(op) && Parse(Serialize(op), known).Ok?
    ensures var r := Parse(Serialize(op), known).value;
            (r.body.Input? <==> op.body.Input?) && (r.body.Output? <==> op.body.Output?) &&
            (op.body.Input? || op.body.Output? ==> r.body == op.body)
  {
  }
}
