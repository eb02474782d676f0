/** `_infer_structural_messages` (runtime/runtime_graph.py:1540-1724): a memoised depth-first
    trace from the message op of one LLM call, which fills a dictionary of columns, an ordered
    dictionary of steps and the visited set. */
module Lowering {
  import opened Collections
  import opened Ops

  datatype Error =
    | MissingInput
    | BadRole
    | ContextInMessageOp
    | NonUserInMessageOp
    | NoFormatInput
    | FormatInputNotSingle
    | EmptyLambdaArgument
    | UnsupportedOp

  /** A traced message: a bare context label, or a role with a label or a literal. */
  datatype Msg = Bare(text: string) | Packed(role: Role, text: string)

  datatype Column = ListColumn(items: seq<string>) | NodeColumn(node: Id, path: string)

  /** One lambda argument: a lone message is passed as its text, several as a list. */
  datatype Arg = One(text: string) | Many(msgs: seq<Msg>)

  datatype Step =
    | Template(template: string, kwargs: seq<(string, string)>)
    | Function(code: string, args: seq<Arg>)

  datatype Program = Program(columns: Dict<Column>, steps: Dict<Step>, messages: seq<Msg>)

  // ---- labels -----------------------------------------------------------------------------

  function ContextLabel(id: Id): string { id + "_context" }

  function OutputLabel(id: Id): string { id + "_output" }

  function RetrievalPath(mode: string): string {
    if mode == "sql" then "items.table" else if mode == "s3" then "items.content" else "items.output"
  }

  predicate IsStep(op: Op) { op.FormatOp? || op.LambdaOp? }

  function StepLabel(id: Id, op: Op): string {
    if op.FormatOp? then "format_" + id else "lambda_" + id
  }

  /** The columns a leaf op contributes. */
  function ColumnsOf(id: Id, op: Op, inputs: map<string, seq<string>>): (r: map<string, Column>) {
    match op
    case Generator(history) =>
      (if history then map[ContextLabel(id) := NodeColumn(id, "items.metadata.prompt")] else map[])
      + map[OutputLabel(id) := NodeColumn(id, "items.output")]
    case InputOp(name) => if name in inputs then map[id := ListColumn(inputs[name])] else map[]
    case DataOp(data) => map[id := ListColumn(data)]
    case RetrievalOp(mode) => map[id := NodeColumn(id, RetrievalPath(mode))]
    case _ => map[]
  }

  predicate HasColumn(sc: Scope, id: Id, l: string) {
    id in sc.g && l in ColumnsOf(id, sc.g[id], sc.inputs)
  }

  /** The label is a column of the op, or the label of the step it emits. */
  predicate Owns(sc: Scope, id: Id, l: string) {
    HasColumn(sc, id, l) || (id in sc.g && IsStep(sc.g[id]) && l == StepLabel(id, sc.g[id]))
  }

  /** The naming hypothesis: no two ops share a label. */
  ghost predicate DistinctLabels(sc: Scope) {
    forall x, y, l :: Owns(sc, x, l) && Owns(sc, y, l) ==> x == y
  }

  // ---- what the trace of one op returns, without memo or accumulators ----------------------

  ghost function TraceOp(sc: Scope, id: Id): (r: Result<seq<Msg>, Error>)
    requires sc.Ranked() && id in sc.g
    decreases sc.rank(id), 1, 0
  {
    match sc.g[id]
    case Generator(history) =>
      Ok((if history then [Bare(ContextLabel(id))] else []) + [Packed(Assistant, OutputLabel(id))])
    case InputOp(name) => if name in sc.inputs then Ok([Packed(User, id)]) else Err(MissingInput)
    case DataOp(_) => Ok([Packed(User, id)])
    case RetrievalOp(_) => Ok([Packed(User, id)])
    case MessageOp(messages) => TraceMessages(sc, messages, sc.rank(id))
    case FormatOp(_, _, _) =>
      if Children(sc.g[id]) == [] then Err(NoFormatInput)
      else
        var traced := TraceAll(sc, Children(sc.g[id]), sc.rank(id));
        if traced.Err? then Err(traced.error)
        else if !AllSingle(traced.value) then Err(FormatInputNotSingle)
        else Ok([Packed(User, StepLabel(id, sc.g[id]))])
    case LambdaOp(_, _) =>
      var traced := TraceAll(sc, Children(sc.g[id]), sc.rank(id));
      if traced.Err? then Err(traced.error)
      else if !AllNonEmpty(traced.value) then Err(EmptyLambdaArgument)
      else Ok([Packed(User, StepLabel(id, sc.g[id]))])
    case OtherOp => Err(UnsupportedOp)
  }

  predicate AllSingle(traced: seq<seq<Msg>>) {
    forall i :: 0 <= i < |traced| ==> |traced[i]| == 1
  }

  predicate AllNonEmpty(traced: seq<seq<Msg>>) {
    forall i :: 0 <= i < |traced| ==> traced[i] != []
  }

  ghost function TraceAll(sc: Scope, ids: seq<Id>, bound: nat): (r: Result<seq<seq<Msg>>, Error>)
    requires sc.Ranked() && sc.Below(ids, bound)
    ensures r.Ok? ==> |r.value| == |ids|
    decreases bound, 0, |ids|
  {
    if ids == [] then Ok([])
    else
      var init := TraceAll(sc, ids[..|ids| - 1], bound);
      if init.Err? then init
      else
        var last := TraceOp(sc, ids[|ids| - 1]);
        if last.Err? then Err(last.error) else Ok(init.value + [last.value])
  }

  /** A reference inside a MessageOp takes over the message's role; only plain user messages
      may be taken over. */
  ghost function Retag(role: string, msgs: seq<Msg>): (r: Result<seq<Msg>, Error>)
    ensures r.Ok? ==> |r.value| == |msgs|
  {
    if msgs == [] then Ok([])
    else
      var init := Retag(role, msgs[..|msgs| - 1]);
      var last := msgs[|msgs| - 1];
      if init.Err? then init
      else if last.Bare? then Err(ContextInMessageOp)
      else if last.role != User then Err(NonUserInMessageOp)
      else if ParseRole(role).None? then Err(BadRole)
      else Ok(init.value + [Packed(ParseRole(role).value, last.text)])
  }

  ghost function TraceMessage(sc: Scope, message: OpMessage, bound: nat): (r: Result<seq<Msg>, Error>)
    requires sc.Ranked() && (message.content.Ref? ==> sc.Below([message.content.id], bound))
    decreases bound, 0, 0
  {
    match message.content
    case Literal(text) =>
      if ParseRole(message.role).None? then Err(BadRole) else Ok([Packed(ParseRole(message.role).value, text)])
    case Ref(c) =>
      assert c in [c];
      var traced := TraceOp(sc, c);
      if traced.Err? then traced else Retag(message.role, traced.value)
  }

  ghost function TraceMessages(sc: Scope, messages: seq<OpMessage>, bound: nat): (r: Result<seq<Msg>, Error>)
    requires sc.Ranked() && sc.Below(MessageRefs(messages), bound)
    decreases bound, 0, |messages| + 1
  {
    if messages == [] then Ok([])
    else
      var init, last := messages[..|messages| - 1], messages[|messages| - 1];
      assert sc.Below(MessageRefs(init), bound);
      assert last.content.Ref? ==> last.content.id in MessageRefs(messages);
      var before := TraceMessages(sc, init, bound);
      if before.Err? then before
      else
        var traced := TraceMessage(sc, last, bound);
        if traced.Err? then traced else Ok(before.value + traced.value)
  }

  ghost predicate Traces(sc: Scope, id: Id) {
    sc.Ranked() && id in sc.g && TraceOp(sc, id).Ok?
  }

  ghost function Traced(sc: Scope, id: Id): (r: seq<Msg>)
    requires Traces(sc, id)
  {
    TraceOp(sc, id).value
  }

  lemma {:induction false} TraceAllAt(sc: Scope, ids: seq<Id>, bound: nat, i: nat)
    requires sc.Ranked() && sc.Below(ids, bound) && TraceAll(sc, ids, bound).Ok? && i < |ids|
    ensures Traces(sc, ids[i]) && TraceAll(sc, ids, bound).value[i] == Traced(sc, ids[i])
  {
    if i < |ids| - 1 {
      TraceAllAt(sc, ids[..|ids| - 1], bound, i);
    }
  }

  /** The first input that fails decides the outcome. */
  lemma {:induction false} TraceAllErr(sc: Scope, ids: seq<Id>, bound: nat, i: nat)
    requires sc.Ranked() && sc.Below(ids, bound) && i < |ids|
    requires TraceAll(sc, ids[..i], bound).Ok? && TraceOp(sc, ids[i]).Err?
    ensures TraceAll(sc, ids, bound) == Err(TraceOp(sc, ids[i]).error)
    decreases |ids|
  {
    var init := ids[..|ids| - 1];
    if i < |ids| - 1 {
      assert init[..i] == ids[..i];
      TraceAllErr(sc, init, bound, i);
    }
  }

  lemma {:induction false} TraceMessagesErr(sc: Scope, messages: seq<OpMessage>, bound: nat, i: nat)
    requires sc.Ranked() && sc.Below(MessageRefs(messages), bound) && i < |messages|
    requires sc.Below(MessageRefs(messages[..i]), bound) && TraceMessages(sc, messages[..i], bound).Ok?
    requires messages[i].content.Ref? ==> sc.Below([messages[i].content.id], bound)
    requires TraceMessage(sc, messages[i], bound).Err?
    ensures TraceMessages(sc, messages, bound) == Err(TraceMessage(sc, messages[i], bound).error)
    decreases |messages|
  {
    var init := messages[..|messages| - 1];
    if i < |messages| - 1 {
      assert init[..i] == messages[..i];
      TraceMessagesErr(sc, init, bound, i);
    }
  }

  lemma {:induction false} RetagErr(role: string, msgs: seq<Msg>, i: nat)
    requires i < |msgs| && Retag(role, msgs[..i]).Ok? && Retag(role, msgs[..i + 1]).Err?
    ensures Retag(role, msgs) == Err(Retag(role, msgs[..i + 1]).error)
    decreases |msgs|
  {
    var init := msgs[..|msgs| - 1];
    if i < |msgs| - 1 {
      assert init[..i] == msgs[..i] && init[..i + 1] == msgs[..i + 1];
      RetagErr(role, init, i);
    } else {
      assert msgs[..i + 1] == msgs;
    }
  }

  lemma RefsOfPrefix(messages: seq<OpMessage>, i: nat)
    requires i < |messages|
    ensures MessageRefs(messages[..i + 1]) ==
            MessageRefs(messages[..i]) + (if messages[i].content.Ref? then [messages[i].content.id] else [])
  {
    assert messages[..i + 1][..i] == messages[..i];
  }

  lemma {:induction false} MessagesTrace(sc: Scope, messages: seq<OpMessage>, bound: nat, c: Id)
    requires sc.Ranked() && sc.Below(MessageRefs(messages), bound) && TraceMessages(sc, messages, bound).Ok?
    requires c in MessageRefs(messages)
    ensures Traces(sc, c)
  {
    if c in MessageRefs(messages[..|messages| - 1]) {
      MessagesTrace(sc, messages[..|messages| - 1], bound, c);
    }
  }

  lemma StepInputsTrace(sc: Scope, id: Id, i: nat)
    requires Traces(sc, id) && IsStep(sc.g[id]) && i < |Children(sc.g[id])|
    ensures Traces(sc, Children(sc.g[id])[i])
    ensures sc.g[id].FormatOp? ==> |Traced(sc, Children(sc.g[id])[i])| == 1
    ensures sc.g[id].LambdaOp? ==> Traced(sc, Children(sc.g[id])[i]) != []
  {
    hide *;
    StepTracesAll(sc, id);
    var ids, bound := Children(sc.g[id]), sc.rank(id);
    TraceAllAt(sc, ids, bound, i);
    EachHolds(TraceAll(sc, ids, bound).value, i);
  }

  /** What the trace of a step demands of its inputs. */
  lemma StepTracesAll(sc: Scope, id: Id)
    requires Traces(sc, id) && IsStep(sc.g[id])
    ensures sc.Ranked() && id in sc.g && sc.Below(Children(sc.g[id]), sc.rank(id))
    ensures TraceAll(sc, Children(sc.g[id]), sc.rank(id)).Ok?
    ensures sc.g[id].FormatOp? ==> AllSingle(TraceAll(sc, Children(sc.g[id]), sc.rank(id)).value)
    ensures sc.g[id].LambdaOp? ==> AllNonEmpty(TraceAll(sc, Children(sc.g[id]), sc.rank(id)).value)
  {
    hide TraceAll, Children, AllSingle, AllNonEmpty;
  }

  lemma EachHolds(traced: seq<seq<Msg>>, i: nat)
    requires i < |traced|
    ensures AllSingle(traced) ==> |traced[i]| == 1
    ensures AllNonEmpty(traced) ==> traced[i] != []
  {
  }

  /** An op traces only if all its inputs do. */
  lemma ChildrenTrace(sc: Scope, id: Id)
    requires Traces(sc, id)
    ensures forall c :: c in Children(sc.g[id]) ==> Traces(sc, c)
    ensures sc.g[id].FormatOp? ==> forall c :: c in Children(sc.g[id]) ==> |Traced(sc, c)| == 1
    ensures sc.g[id].LambdaOp? ==> forall c :: c in Children(sc.g[id]) ==> Traced(sc, c) != []
  {
    var op := sc.g[id];
    if IsStep(op) {
      hide TraceOp, Scope.Ranked;
      forall i | 0 <= i < |Children(op)|
        ensures Traces(sc, Children(op)[i])
        ensures op.FormatOp? ==> |Traced(sc, Children(op)[i])| == 1
        ensures op.LambdaOp? ==> Traced(sc, Children(op)[i]) != []
      {
        StepInputsTrace(sc, id, i);
      }
    } else if op.MessageOp? {
      forall c | c in Children(op) ensures Traces(sc, c) {
        MessagesTrace(sc, op.messages, sc.rank(id), c);
      }
    }
  }

  /** `fn_arg if len(fn_arg) > 1 else fn_arg[0]["content"]`. */
  function ToArg(msgs: seq<Msg>): (r: Arg)
    requires msgs != []
  {
    if |msgs| > 1 then Many(msgs) else One(msgs[0].text)
  }

  ghost predicate StepTraces(sc: Scope, id: Id) {
    Traces(sc, id) && IsStep(sc.g[id])
  }

  lemma KwargIsChild(op: Op, i: nat)
    requires op.FormatOp? && i < |op.kwargs|
    ensures op.kwargs[i].1 in Children(op)
  {
    var all := op.args + KwargIds(op.kwargs);
    assert all[|op.args| + i] == op.kwargs[i].1;
    assert op.kwargs[i].1 in Elems(all);
  }

  /** The step an op emits. Positional arguments of a FormatOp are traced but not emitted. */
  ghost function StepOf(sc: Scope, id: Id): (r: Step)
    requires StepTraces(sc, id)
  {
    ChildrenTrace(sc, id);
    match sc.g[id]
    case FormatOp(template, _, kwargs) =>
      Template(template, seq(|kwargs|, i requires 0 <= i < |kwargs| =>
        KwargIsChild(sc.g[id], i); (kwargs[i].0, Traced(sc, kwargs[i].1)[0].text)))
    case LambdaOp(code, ids) =>
      Function(code, seq(|ids|, i requires 0 <= i < |ids| => ToArg(Traced(sc, ids[i]))))
  }

  // ---- what the trace of one op visits -----------------------------------------------------

  /** The ops the trace of `id` visits: those reachable without passing a generator or a
      retrieval. */
  ghost function Reach(sc: Scope, id: Id): (r: set<Id>)
    requires sc.Ranked() && id in sc.g
    ensures id in r && r <= sc.g.Keys
    ensures forall y :: y in r ==> sc.rank(y) <= sc.rank(id)
    decreases sc.rank(id)
  {
    {id} + set c, y | c in Children(sc.g[id]) && y in Reach(sc, c) :: y
  }

  lemma ReachChild(sc: Scope, x: Id, c: Id)
    requires sc.Ranked() && x in sc.g && c in Children(sc.g[x])
    ensures c in sc.g && sc.rank(c) < sc.rank(x) && Reach(sc, c) <= Reach(sc, x)
  {
  }

  lemma ReachVia(sc: Scope, x: Id, y: Id) returns (c: Id)
    requires sc.Ranked() && x in sc.g && y in Reach(sc, x) && y != x
    ensures c in Children(sc.g[x]) && c in sc.g && sc.rank(c) < sc.rank(x) && y in Reach(sc, c)
  {
    hide Children;
    c :| c in Children(sc.g[x]) && c in sc.g && y in Reach(sc, c);
    hide Reach;
  }

  lemma {:induction false} ReachTransitive(sc: Scope, x: Id, y: Id)
    requires sc.Ranked() && x in sc.g && y in Reach(sc, x)
    ensures y in sc.g && Reach(sc, y) <= Reach(sc, x)
    decreases sc.rank(x)
  {
    hide Reach, Children, Scope.Ranked;
    if y != x {
      var c := ReachVia(sc, x, y);
      ReachTransitive(sc, c, y);
      ReachChild(sc, x, c);
    }
  }

  lemma {:induction false} ReachTraces(sc: Scope, x: Id, y: Id)
    requires Traces(sc, x) && y in Reach(sc, x)
    ensures Traces(sc, y)
    decreases sc.rank(x)
  {
    hide Reach, Children, Scope.Ranked, TraceOp;
    if y != x {
      var c := ReachVia(sc, x, y);
      ChildrenTrace(sc, x);
      ReachTraces(sc, c, y);
    }
  }
}
