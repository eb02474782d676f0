/** The texts of a lowered program, spelled out from the operators: roles as they were written, and the names of labels,
    paths and steps (runtime/runtime_graph.py:1563-1711). */
module LoweringText {
  import opened Collections
  import opened Ops
  import opened Lowering
  import opened Tracer
  import LM = LoweringMeaning

  /** A message as it is rendered: a role, if any, and a content. */
  datatype Said = Said(role: Option<string>, text: string)

  function Render(m: Msg): (r: Said) {
    match m
    case Bare(text) => Said(None, text)
    case Packed(role, text) => Said(Some(RoleName(role)), text)
  }

  function RenderAll(messages: seq<Msg>): (r: seq<Said>)
    ensures |r| == |messages|
  {
    seq(|messages|, i requires 0 <= i < |messages| => Render(messages[i]))
  }

  /** What an operator says: a model call its output as the assistant, other sources as the user, and a message operator
      its messages with the roles they were written with. */
  ghost function Says(sc: Scope, x: Id): (r: seq<Said>)
    requires Traces(sc, x)
    decreases sc.rank(x), 1, 0
  {
    ChildrenTrace(sc, x);
    match sc.g[x]
    case Generator(history) =>
      (if history then [Said(None, x + "_context")] else []) + [Said(Some("assistant"), x + "_output")]
    case MessageOp(messages) => SaysAll(sc, messages, sc.rank(x))
    case FormatOp(_, _, _) => [Said(Some("user"), "format_" + x)]
    case LambdaOp(_, _) => [Said(Some("user"), "lambda_" + x)]
    case _ => [Said(Some("user"), x)]
  }

  ghost function SaysAll(sc: Scope, messages: seq<OpMessage>, bound: nat): (r: seq<Said>)
    requires LM.MessagesOk(sc, messages, bound)
    decreases bound, 0, |messages|
  {
    if messages == [] then []
    else
      LM.MessagesPrefix(sc, messages, bound);
      var last := messages[|messages| - 1];
      SaysAll(sc, messages[..|messages| - 1], bound) +
      if last.content.Literal? then [Said(Some(last.role), last.content.text)]
      else WithRole(last.role, Says(sc, last.content.id))
  }

  /** A message that refers to another operator takes over its texts. */
  ghost function WithRole(role: string, said: seq<Said>): (r: seq<Said>)
    ensures |r| == |said|
  {
    seq(|said|, i requires 0 <= i < |said| => Said(Some(role), said[i].text))
  }

  lemma {:induction false} TraceSays(sc: Scope, x: Id)
    requires Traces(sc, x)
    ensures RenderAll(Traced(sc, x)) == Says(sc, x)
    decreases sc.rank(x), 1, 0
  {
    ChildrenTrace(sc, x);
    if sc.g[x].MessageOp? {
      MessagesSay(sc, sc.g[x].messages, sc.rank(x));
    } else {
      OtherSays(sc, x);
    }
  }

  lemma OtherSays(sc: Scope, x: Id)
    requires Traces(sc, x) && !sc.g[x].MessageOp?
    ensures RenderAll(Traced(sc, x)) == Says(sc, x)
  {
    hide Scope.Ranked, TraceAll, TraceMessages, SaysAll;
  }

  lemma {:induction false} MessagesSay(sc: Scope, messages: seq<OpMessage>, bound: nat)
    requires LM.MessagesOk(sc, messages, bound)
    ensures RenderAll(TraceMessages(sc, messages, bound).value) == SaysAll(sc, messages, bound)
    decreases bound, 0, |messages|
  {
    if messages != [] {
      var n := |messages| - 1;
      LM.MessagesPrefix(sc, messages, bound);
      MessagesSay(sc, messages[..n], bound);
      if messages[n].content.Ref? {
        TraceSays(sc, messages[n].content.id);
        RetagSays(messages[n].role, Traced(sc, messages[n].content.id));
      }
      hide Scope.Ranked, TraceOp, Retag, Says, MessageRefs;
      RenderJoin(TraceMessages(sc, messages[..n], bound).value, TraceMessage(sc, messages[n], bound).value);
    }
  }

  lemma RetagSays(role: string, msgs: seq<Msg>)
    requires Retag(role, msgs).Ok?
    ensures RenderAll(Retag(role, msgs).value) == WithRole(role, RenderAll(msgs))
  {
    LM.RetagFacts(role, msgs);
    hide Retag;
  }

  lemma RenderJoin(a: seq<Msg>, b: seq<Msg>)
    ensures RenderAll(a + b) == RenderAll(a) + RenderAll(b)
  {
  }

  /** The messages of a program are what its root says: each role as it was written, a generator as the assistant. */
  lemma MessagesAsWritten(sc: Scope, root: Id, p: Program)
    requires IsLowering(sc, root, p)
    ensures Traces(sc, root) && RenderAll(p.messages) == Says(sc, root)
  {
    TraceSays(sc, root);
  }

  // ---- columns -----------------------------------------------------------------------------

  ghost predicate HasNode(p: Program, name: string, node: Id, path: string) {
    name in p.columns.vals && p.columns.vals[name] == NodeColumn(node, path)
  }

  ghost predicate HasList(p: Program, name: string, items: seq<string>) {
    name in p.columns.vals && p.columns.vals[name] == ListColumn(items)
  }

  /** The columns of one operator that the root reaches. */
  ghost predicate ColumnsSpelled(sc: Scope, p: Program, x: Id)
    requires x in sc.g
  {
    match sc.g[x]
    case Generator(history) =>
      HasNode(p, x + "_output", x, "items.output") && (history ==> HasNode(p, x + "_context", x, "items.metadata.prompt"))
    case InputOp(name) => name in sc.inputs ==> HasList(p, x, sc.inputs[name])
    case DataOp(data) => HasList(p, x, data)
    case RetrievalOp(mode) =>
      HasNode(p, x, x, if mode == "sql" then "items.table" else if mode == "s3" then "items.content" else "items.output")
    case _ => true
  }

  /** The name belongs to the operator. */
  ghost predicate Names(sc: Scope, x: Id, name: string)
    requires x in sc.g
  {
    match sc.g[x]
    case Generator(history) => name == x + "_output" || (history && name == x + "_context")
    case InputOp(_) => name == x
    case DataOp(_) => name == x
    case RetrievalOp(_) => name == x
    case _ => false
  }

  lemma ColumnsAsWritten(sc: Scope, root: Id, p: Program, x: Id)
    requires IsLowering(sc, root, p) && sc.Ranked() && root in sc.g && x in Reach(sc, root)
    ensures x in sc.g && ColumnsSpelled(sc, p, x)
  {
    hide *;
    LoweredColumns(sc, root, p);
    ReachIn(sc, root, x);
    SpelledBy(sc, p, Reach(sc, root), x);
  }

  lemma ReachIn(sc: Scope, root: Id, x: Id)
    requires sc.Ranked() && root in sc.g && x in Reach(sc, root)
    ensures x in sc.g
  {
    hide Reach;
  }

  lemma LoweredColumns(sc: Scope, root: Id, p: Program)
    requires IsLowering(sc, root, p) && sc.Ranked() && root in sc.g
    ensures ColumnsExact(sc, p.columns, Reach(sc, root))
  {
    hide Reach, Scope.Ranked, StepsExact, EarlierSteps, TraceOp, DistinctLabels, AllTrace, ColumnsExact;
  }

  lemma SpelledBy(sc: Scope, p: Program, done: set<Id>, x: Id)
    requires ColumnsExact(sc, p.columns, done) && x in done && x in sc.g
    ensures ColumnsSpelled(sc, p, x)
  {
    match sc.g[x]
    case Generator(history) =>
      LM.LabelsDiffer(x);
      assert HasColumn(sc, x, x + "_output");
      assert history ==> HasColumn(sc, x, x + "_context");
    case RetrievalOp(mode) =>
      LM.PathOf(mode);
      hide RetrievalPath;
      assert HasColumn(sc, x, x);
    case InputOp(name) => assert name in sc.inputs ==> HasColumn(sc, x, x);
    case DataOp(_) => assert HasColumn(sc, x, x);
    case _ =>
  }

  /** There are no other columns. */
  lemma ColumnsNamed(sc: Scope, root: Id, p: Program, name: string)
    requires IsLowering(sc, root, p) && sc.Ranked() && root in sc.g && name in p.columns.vals
    ensures exists x :: x in Reach(sc, root) && x in sc.g && Names(sc, x, name)
  {
    hide *;
    LoweredColumns(sc, root, p);
    var x := OwnerOf(sc, p, Reach(sc, root), name);
  }

  lemma OwnerOf(sc: Scope, p: Program, done: set<Id>, name: string) returns (x: Id)
    requires ColumnsExact(sc, p.columns, done) && name in p.columns.vals
    ensures x in done && x in sc.g && Names(sc, x, name)
  {
    x :| x in done && HasColumn(sc, x, name);
  }

  // ---- steps -------------------------------------------------------------------------------

  /** An argument of a function: the text of a single message, several as they are rendered. */
  ghost predicate Passes(a: Arg, said: seq<Said>) {
    if |said| == 1 then a == One(said[0].text) else a.Many? && RenderAll(a.msgs) == said
  }

  /** The step of one operator that the root reaches. */
  ghost predicate StepSpelled(sc: Scope, p: Program, x: Id)
    requires Traces(sc, x)
  {
    ChildrenTrace(sc, x);
    match sc.g[x]
    case FormatOp(template, _, kwargs) =>
      "format_" + x in p.steps.vals && p.steps.vals["format_" + x].Template? &&
      var step := p.steps.vals["format_" + x];
      step.template == template && |step.kwargs| == |kwargs| && forall i :: 0 <= i < |kwargs| ==>
        Traces(sc, kwargs[i].1) && Says(sc, kwargs[i].1) != [] &&
        step.kwargs[i] == (kwargs[i].0, Says(sc, kwargs[i].1)[0].text)
    case LambdaOp(code, inputs) =>
      "lambda_" + x in p.steps.vals && p.steps.vals["lambda_" + x].Function? &&
      var step := p.steps.vals["lambda_" + x];
      step.code == code && |step.args| == |inputs| && forall i :: 0 <= i < |inputs| ==>
        Traces(sc, inputs[i]) && Passes(step.args[i], Says(sc, inputs[i]))
    case _ => true
  }

  lemma StepsAsWritten(sc: Scope, root: Id, p: Program, x: Id)
    requires IsLowering(sc, root, p) && sc.Ranked() && root in sc.g && x in Reach(sc, root)
    ensures Traces(sc, x) && StepSpelled(sc, p, x)
  {
    StepAt(sc, root, p, x);
    if IsStep(sc.g[x]) {
      hide Reach, Scope.Ranked, IsLowering, TraceOp, Says;
      if sc.g[x].FormatOp? {
        FormatSpelled(sc, p, x);
      } else {
        LambdaSpelled(sc, p, x);
      }
    }
  }

  lemma StepAt(sc: Scope, root: Id, p: Program, x: Id)
    requires IsLowering(sc, root, p) && sc.Ranked() && root in sc.g && x in Reach(sc, root)
    ensures Traces(sc, x)
    ensures IsStep(sc.g[x]) ==>
              StepTraces(sc, x) && StepLabel(x, sc.g[x]) in p.steps.vals && p.steps.vals[StepLabel(x, sc.g[x])] == StepOf(sc, x)
  {
    var stepIds :| LoweredBy(sc, root, p, stepIds);
    hide Reach, Scope.Ranked, ColumnsExact, EarlierSteps, TraceOp, DistinctLabels, StepOf, StepLabel;
    if IsStep(sc.g[x]) {
      assert x in stepIds;
      var i :| 0 <= i < |stepIds| && stepIds[i] == x;
      assert IsStepAt(sc, p.steps, stepIds[i], i);
    }
  }

  lemma FormatSpelled(sc: Scope, p: Program, x: Id)
    requires StepTraces(sc, x) && sc.g[x].FormatOp?
    requires StepLabel(x, sc.g[x]) in p.steps.vals && p.steps.vals[StepLabel(x, sc.g[x])] == StepOf(sc, x)
    ensures StepSpelled(sc, p, x)
  {
    hide *;
    FormatStep(sc, x);
    forall i | 0 <= i < |sc.g[x].kwargs|
      ensures Traces(sc, sc.g[x].kwargs[i].1) && |Says(sc, sc.g[x].kwargs[i].1)| > 0
      ensures StepOf(sc, x).kwargs[i] == (sc.g[x].kwargs[i].0, Says(sc, sc.g[x].kwargs[i].1)[0].text)
    {
      KwargSays(sc, x, i);
    }
    FormatBy(sc, p, x);
  }

  /** The step of a format operator, by its traces. */
  lemma FormatStep(sc: Scope, x: Id)
    requires StepTraces(sc, x) && sc.g[x].FormatOp?
    ensures Traces(sc, x) && x in sc.g
    ensures var step, kwargs := StepOf(sc, x), sc.g[x].kwargs;
            step.Template? && step.template == sc.g[x].template && |step.kwargs| == |kwargs| &&
            forall i :: 0 <= i < |kwargs| ==>
              Traces(sc, kwargs[i].1) && |Traced(sc, kwargs[i].1)| > 0 &&
              step.kwargs[i] == (kwargs[i].0, Traced(sc, kwargs[i].1)[0].text)
  {
    ChildrenTrace(sc, x);
    forall i | 0 <= i < |sc.g[x].kwargs| ensures sc.g[x].kwargs[i].1 in Children(sc.g[x]) {
      KwargIsChild(sc.g[x], i);
    }
    hide TraceOp, Scope.Ranked, Children;
  }

  lemma KwargSays(sc: Scope, x: Id, i: nat)
    requires StepTraces(sc, x) && sc.g[x].FormatOp? && i < |sc.g[x].kwargs|
    requires Traces(sc, sc.g[x].kwargs[i].1) && |Traced(sc, sc.g[x].kwargs[i].1)| > 0
    ensures var c := sc.g[x].kwargs[i].1; |Says(sc, c)| > 0 && Traced(sc, c)[0].text == Says(sc, c)[0].text
  {
    var c := sc.g[x].kwargs[i].1;
    hide TraceOp, Says, Scope.Ranked, Traced;
    TraceSays(sc, c);
    assert RenderAll(Traced(sc, c))[0] == Says(sc, c)[0];
  }

  lemma FormatBy(sc: Scope, p: Program, x: Id)
    requires StepTraces(sc, x) && sc.g[x].FormatOp? && StepOf(sc, x).Template?
    requires StepLabel(x, sc.g[x]) in p.steps.vals && p.steps.vals[StepLabel(x, sc.g[x])] == StepOf(sc, x)
    requires StepOf(sc, x).template == sc.g[x].template && |StepOf(sc, x).kwargs| == |sc.g[x].kwargs|
    requires forall i :: 0 <= i < |sc.g[x].kwargs| ==>
      Traces(sc, sc.g[x].kwargs[i].1) && |Says(sc, sc.g[x].kwargs[i].1)| > 0 &&
      StepOf(sc, x).kwargs[i] == (sc.g[x].kwargs[i].0, Says(sc, sc.g[x].kwargs[i].1)[0].text)
    ensures Traces(sc, x) && StepSpelled(sc, p, x)
  {
    hide TraceOp, Says, Scope.Ranked, StepOf, Traces;
  }

  lemma LambdaSpelled(sc: Scope, p: Program, x: Id)
    requires StepTraces(sc, x) && sc.g[x].LambdaOp?
    requires StepLabel(x, sc.g[x]) in p.steps.vals && p.steps.vals[StepLabel(x, sc.g[x])] == StepOf(sc, x)
    ensures StepSpelled(sc, p, x)
  {
    ChildrenTrace(sc, x);
    var inputs, step := sc.g[x].inputs, p.steps.vals["lambda_" + x];
    forall i | 0 <= i < |inputs| ensures Traces(sc, inputs[i]) && Passes(step.args[i], Says(sc, inputs[i])) {
      assert inputs[i] in Children(sc.g[x]);
      TraceSays(sc, inputs[i]);
      hide TraceOp, Says, Scope.Ranked;
      assert |Traced(sc, inputs[i])| > 0;
      assert RenderAll(Traced(sc, inputs[i]))[0] == Says(sc, inputs[i])[0];
    }
    hide TraceOp, Says, Scope.Ranked;
  }
}
