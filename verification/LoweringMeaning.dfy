/** What a lowered program means, and that it means what the op DAG means. */
module LoweringMeaning {
  import opened Collections
  import opened Ops
  import opened Lowering
  import opened Tracer

  /** A message with the name of its role; a context message has none. */
  datatype MsgValue<V> = MsgValue(role: Option<string>, value: V)

  datatype ArgValue<V> = OneValue(value: V) | ManyValues(msgs: seq<MsgValue<V>>)

  /** The runtime, left abstract: constants, list columns, results of other nodes, string
      formatting with positional and keyword arguments, and lambda application. */
  datatype Interp<!V> = Interp(
    lit: string -> V,
    list: seq<string> -> V,
    node: (Id, string) -> V,
    format: (string, seq<V>, seq<(string, V)>) -> V,
    apply: (string, seq<ArgValue<V>>) -> V)

  // ---- the meaning of the DAG --------------------------------------------------------------

  ghost function ToArgValue<V>(msgs: seq<MsgValue<V>>): (r: ArgValue<V>)
    requires msgs != []
  {
    if |msgs| > 1 then ManyValues(msgs) else OneValue(msgs[0].value)
  }

  /** Direct recursive evaluation: no labels, columns, steps or memo. */
  ghost function Meaning<V>(sc: Scope, I: Interp<V>, id: Id): (r: seq<MsgValue<V>>)
    requires Traces(sc, id)
    ensures |r| == |Traced(sc, id)|
    decreases sc.rank(id), 1, 0
  {
    ChildrenTrace(sc, id);
    match sc.g[id]
    case Generator(history) =>
      (if history then [MsgValue(None, I.node(id, "items.metadata.prompt"))] else [])
      + [MsgValue(Some("assistant"), I.node(id, "items.output"))]
    case InputOp(name) => [MsgValue(Some("user"), I.list(sc.inputs[name]))]
    case DataOp(data) => [MsgValue(Some("user"), I.list(data))]
    case RetrievalOp(mode) =>
      [MsgValue(Some("user"), I.node(id, if mode == "sql" then "items.table"
                                         else if mode == "s3" then "items.content" else "items.output"))]
    case MessageOp(messages) => MeaningOfMessages(sc, I, messages, sc.rank(id))
    case FormatOp(template, args, kwargs) =>
      var positional := seq(|args|, i requires 0 <= i < |args| =>
        ArgIsChild(sc.g[id], i); Meaning(sc, I, args[i])[0].value);
      var named := seq(|kwargs|, i requires 0 <= i < |kwargs| =>
        KwargIsChild(sc.g[id], i); (kwargs[i].0, Meaning(sc, I, kwargs[i].1)[0].value));
      [MsgValue(Some("user"), I.format(template, positional, named))]
    case LambdaOp(code, ids) =>
      [MsgValue(Some("user"), I.apply(code, seq(|ids|, i requires 0 <= i < |ids| =>
        assert ids[i] in Children(sc.g[id]); ToArgValue(Meaning(sc, I, ids[i])))))]
  }

  lemma ArgIsChild(op: Op, i: nat)
    requires op.FormatOp? && i < |op.args|
    ensures op.args[i] in Children(op)
  {
    var all := op.args + KwargIds(op.kwargs);
    assert all[i] == op.args[i];
    assert op.args[i] in Elems(all);
  }

  ghost predicate MessagesOk(sc: Scope, messages: seq<OpMessage>, bound: nat) {
    sc.Ranked() && sc.Below(MessageRefs(messages), bound) && TraceMessages(sc, messages, bound).Ok?
  }

  lemma MessagesPrefix(sc: Scope, messages: seq<OpMessage>, bound: nat)
    requires MessagesOk(sc, messages, bound) && messages != []
    ensures MessagesOk(sc, messages[..|messages| - 1], bound)
    ensures var last := messages[|messages| - 1];
      (last.content.Ref? ==> Traces(sc, last.content.id) && sc.rank(last.content.id) < bound) &&
      ParseLast(sc, last, bound)
  {
    hide *;
    var n := |messages| - 1;
    assert messages[..n + 1] == messages;
    RefsOfPrefix(messages, n);
    PrefixOk(sc, messages, bound);
    if messages[n].content.Ref? {
      LastTraces(sc, messages[n], bound);
    }
  }

  /** A list of messages traces when all but the last do, and the last. */
  lemma PrefixOk(sc: Scope, messages: seq<OpMessage>, bound: nat)
    requires MessagesOk(sc, messages, bound) && messages != []
    requires var n := |messages| - 1;
      MessageRefs(messages) ==
      MessageRefs(messages[..n]) + if messages[n].content.Ref? then [messages[n].content.id] else []
    ensures MessagesOk(sc, messages[..|messages| - 1], bound) && ParseLast(sc, messages[|messages| - 1], bound)
  {
    hide Scope.Ranked, MessageRefs, TraceMessage;
  }

  lemma LastTraces(sc: Scope, last: OpMessage, bound: nat)
    requires ParseLast(sc, last, bound) && last.content.Ref?
    ensures Traces(sc, last.content.id) && sc.rank(last.content.id) < bound
  {
    assert last.content.id in [last.content.id];
    hide Scope.Ranked, TraceOp, Retag;
  }

  ghost predicate ParseLast(sc: Scope, last: OpMessage, bound: nat) {
    sc.Ranked() && (last.content.Ref? ==> sc.Below([last.content.id], bound)) && TraceMessage(sc, last, bound).Ok?
  }

  ghost function MeaningOfMessages<V>(sc: Scope, I: Interp<V>, messages: seq<OpMessage>, bound: nat)
    : (r: seq<MsgValue<V>>)
    requires MessagesOk(sc, messages, bound)
    ensures |r| == |TraceMessages(sc, messages, bound).value|
    decreases bound, 0, |messages|
  {
    if messages == [] then []
    else
      MessagesPrefix(sc, messages, bound);
      var last := messages[|messages| - 1];
      var meant :=
        if last.content.Literal? then [MsgValue(Some(last.role), I.lit(last.content.text))]
        else Retagged(Some(last.role), Meaning(sc, I, last.content.id));
      MeaningOfMessages(sc, I, messages[..|messages| - 1], bound) + meant
  }

  ghost function Retagged<V>(role: Option<string>, msgs: seq<MsgValue<V>>): (r: seq<MsgValue<V>>) {
    seq(|msgs|, i requires 0 <= i < |msgs| => MsgValue(role, msgs[i].value))
  }

  // ---- the meaning of a program ------------------------------------------------------------

  /** A text is a label when a column or an emitted step has that name, else a literal. */
  ghost function Resolve<V>(env: map<string, V>, I: Interp<V>, text: string): (r: V) {
    if text in env then env[text] else I.lit(text)
  }

  ghost function ColumnValue<V>(I: Interp<V>, c: Column): (r: V) {
    match c
    case ListColumn(items) => I.list(items)
    case NodeColumn(node, path) => I.node(node, path)
  }

  ghost function EvalMsg<V>(env: map<string, V>, I: Interp<V>, m: Msg): (r: MsgValue<V>) {
    MsgValue(if m.Bare? then None else Some(RoleName(m.role)), Resolve(env, I, m.text))
  }

  ghost function EvalMsgs<V>(env: map<string, V>, I: Interp<V>, msgs: seq<Msg>): (r: seq<MsgValue<V>>) {
    seq(|msgs|, i requires 0 <= i < |msgs| => EvalMsg(env, I, msgs[i]))
  }

  ghost function EvalArg<V>(env: map<string, V>, I: Interp<V>, a: Arg): (r: ArgValue<V>) {
    match a
    case One(text) => OneValue(Resolve(env, I, text))
    case Many(msgs) => ManyValues(EvalMsgs(env, I, msgs))
  }

  /** A step carries keyword arguments only. */
  ghost function EvalStep<V>(env: map<string, V>, I: Interp<V>, s: Step): (r: V) {
    match s
    case Template(template, kwargs) =>
      I.format(template, [], seq(|kwargs|, i requires 0 <= i < |kwargs| =>
        (kwargs[i].0, Resolve(env, I, kwargs[i].1))))
    case Function(code, args) =>
      I.apply(code, seq(|args|, i requires 0 <= i < |args| => EvalArg(env, I, args[i])))
  }

  ghost predicate StepsPresent(p: Program) {
    forall k :: k in p.steps.keys ==> k in p.steps.vals
  }

  /** The columns, then the first `n` steps in list order. */
  ghost function Env<V>(I: Interp<V>, p: Program, n: nat): (r: map<string, V>)
    requires StepsPresent(p) && n <= |p.steps.keys|
  {
    if n == 0 then map l | l in p.columns.vals :: ColumnValue(I, p.columns.vals[l])
    else
      var before, l := Env(I, p, n - 1), p.steps.keys[n - 1];
      before[l := EvalStep(before, I, p.steps.vals[l])]
  }

  ghost function Run<V>(I: Interp<V>, p: Program): (r: seq<MsgValue<V>>)
    requires StepsPresent(p)
  {
    EvalMsgs(Env(I, p, |p.steps.keys|), I, p.messages)
  }

  // ---- literals ----------------------------------------------------------------------------

  ghost predicate HasLiteral(sc: Scope, x: Id, text: string) {
    x in sc.g && sc.g[x].MessageOp? &&
    exists i :: 0 <= i < |sc.g[x].messages| && sc.g[x].messages[i].content == Literal(text)
  }

  /** The literals that a trace carries: those of a message op, and those of the message ops it takes over. */
  ghost function Literals(sc: Scope, x: Id): (r: set<string>)
    requires sc.Ranked() && x in sc.g
    decreases sc.rank(x)
  {
    if !sc.g[x].MessageOp? then {}
    else OwnLiterals(sc.g[x].messages) + set c, t | c in Children(sc.g[x]) && t in Literals(sc, c) :: t
  }

  ghost function OwnLiterals(messages: seq<OpMessage>): (r: set<string>) {
    set i | 0 <= i < |messages| && messages[i].content.Literal? :: messages[i].content.text
  }

  lemma LiteralsUp(sc: Scope, x: Id, c: Id)
    requires sc.Ranked() && x in sc.g && sc.g[x].MessageOp? && c in Children(sc.g[x])
    ensures c in sc.g && sc.rank(c) < sc.rank(x) && Literals(sc, c) <= Literals(sc, x)
  {
  }

  // ---- text origin -------------------------------------------------------------------------

  /** Where a text of a trace comes from: a label of an op reached, or a literal the trace carries. */
  ghost predicate TextOrigin(sc: Scope, x: Id, text: string) {
    sc.Ranked() && x in sc.g && (text in Literals(sc, x) || exists y :: y in Reach(sc, x) && Owns(sc, y, text))
  }

  lemma {:induction false} RetagFacts(role: string, msgs: seq<Msg>)
    requires Retag(role, msgs).Ok?
    ensures forall i :: 0 <= i < |msgs| ==>
      msgs[i].Packed? && msgs[i].role == User && ParseRole(role).Some? &&
      Retag(role, msgs).value[i] == Packed(ParseRole(role).value, msgs[i].text)
  {
    hide ParseRole;
    if msgs != [] {
      var n := |msgs| - 1;
      RetagFacts(role, msgs[..n]);
      forall i | 0 <= i < n ensures msgs[..n][i] == msgs[i] && Retag(role, msgs).value[i] == Retag(role, msgs[..n]).value[i] {
      }
    }
  }

  ghost predicate OriginsOf(sc: Scope, x: Id, msgs: seq<Msg>) {
    forall i :: 0 <= i < |msgs| ==> TextOrigin(sc, x, msgs[i].text)
  }

  lemma OriginUp(sc: Scope, x: Id, c: Id, text: string)
    requires sc.Ranked() && x in sc.g && sc.g[x].MessageOp? && c in Children(sc.g[x]) && TextOrigin(sc, c, text)
    ensures TextOrigin(sc, x, text)
  {
    LiteralsUp(sc, x, c);
    ReachChild(sc, x, c);
    hide Reach, Children, Scope.Ranked, Owns, Literals;
  }

  lemma SelfReached(sc: Scope, x: Id)
    requires sc.Ranked() && x in sc.g
    ensures x in Reach(sc, x)
  {
  }

  lemma {:induction false} MessageOrigins(sc: Scope, x: Id, i: nat)
    requires Traces(sc, x) && sc.g[x].MessageOp? && i <= |sc.g[x].messages|
    requires MessagesOk(sc, sc.g[x].messages[..i], sc.rank(x))
    requires forall c :: c in Children(sc.g[x]) ==> Traces(sc, c) && OriginsOf(sc, c, Traced(sc, c))
    ensures OriginsOf(sc, x, TraceMessages(sc, sc.g[x].messages[..i], sc.rank(x)).value)
  {
    var messages := sc.g[x].messages;
    if i > 0 {
      assert messages[..i][..i - 1] == messages[..i - 1];
      MessagesPrefix(sc, messages[..i], sc.rank(x));
      MessageOrigins(sc, x, i - 1);
      LastOrigins(sc, x, i - 1);
      hide TextOrigin, MessagesOk, Children;
    }
  }

  lemma LastOrigins(sc: Scope, x: Id, i: nat)
    requires Traces(sc, x) && sc.g[x].MessageOp? && i < |sc.g[x].messages|
    requires ParseLast(sc, sc.g[x].messages[i], sc.rank(x))
    requires forall c :: c in Children(sc.g[x]) ==> Traces(sc, c) && OriginsOf(sc, c, Traced(sc, c))
    ensures OriginsOf(sc, x, TraceMessage(sc, sc.g[x].messages[i], sc.rank(x)).value)
  {
    var last := sc.g[x].messages[i];
    if last.content.Ref? {
      var c := last.content.id;
      assert c in Children(sc.g[x]);
      RetagFacts(last.role, Traced(sc, c));
      hide TextOrigin, Retag, TraceOp, Children;
      forall k | 0 <= k < |Traced(sc, c)| ensures TextOrigin(sc, x, Traced(sc, c)[k].text) {
        OriginUp(sc, x, c, Traced(sc, c)[k].text);
      }
    } else {
      assert last.content.text in OwnLiterals(sc.g[x].messages);
    }
  }

  /** Every text a trace returns is a label of an op it reaches, or a literal it carries. */
  lemma {:induction false} TraceOrigins(sc: Scope, x: Id)
    requires Traces(sc, x)
    ensures OriginsOf(sc, x, Traced(sc, x))
    decreases sc.rank(x)
  {
    ChildrenTrace(sc, x);
    SelfReached(sc, x);
    if sc.g[x].MessageOp? {
      forall c | c in Children(sc.g[x]) ensures OriginsOf(sc, c, Traced(sc, c)) {
        TraceOrigins(sc, c);
      }
      assert sc.g[x].messages[..|sc.g[x].messages|] == sc.g[x].messages;
      MessageOrigins(sc, x, |sc.g[x].messages|);
    } else {
      OwnOrigins(sc, x);
    }
  }

  lemma OwnOrigins(sc: Scope, x: Id)
    requires Traces(sc, x) && !sc.g[x].MessageOp? && x in Reach(sc, x)
    ensures OriginsOf(sc, x, Traced(sc, x))
  {
    forall i | 0 <= i < |Traced(sc, x)| ensures TextOrigin(sc, x, Traced(sc, x)[i].text) {
      assert Owns(sc, x, Traced(sc, x)[i].text);
    }
  }

  // ---- running the steps in order ----------------------------------------------------------

  /** No label is written twice. */
  ghost predicate WritesOnce(p: Program) {
    StepsPresent(p) && Distinct(p.steps.keys) && forall k :: k in p.steps.keys ==> k !in p.columns.vals
  }

  /** The labels that have a value before step `n` runs. */
  ghost function Written(p: Program, n: nat): (r: set<string>)
    requires n <= |p.steps.keys|
  {
    p.columns.vals.Keys + Elems(p.steps.keys[..n])
  }

  lemma {:induction false} EnvKeys<V>(I: Interp<V>, p: Program, n: nat)
    requires StepsPresent(p) && n <= |p.steps.keys|
    ensures Env(I, p, n).Keys == Written(p, n)
  {
    hide EvalStep, ColumnValue;
    if n == 0 {
      assert p.steps.keys[..0] == [];
    } else {
      EnvKeys(I, p, n - 1);
      ElemsSnoc(p.steps.keys, n - 1);
    }
  }

  lemma {:induction false} EnvStable<V>(I: Interp<V>, p: Program, m: nat, n: nat, t: string)
    requires WritesOnce(p) && m <= n <= |p.steps.keys| && t in Env(I, p, m)
    ensures t in Env(I, p, n) && Env(I, p, n)[t] == Env(I, p, m)[t]
  {
    hide EvalStep, ColumnValue;
    if m < n {
      EnvStable(I, p, m, n - 1, t);
      EnvKeys(I, p, n - 1);
      assert p.steps.keys[n - 1] in p.steps.keys;
      ElemsSnoc(p.steps.keys, n - 1);
    }
  }

  lemma LoweringWritesOnce(sc: Scope, root: Id, p: Program, stepIds: seq<Id>)
    requires LoweredBy(sc, root, p, stepIds)
    ensures WritesOnce(p)
  {
    hide StepOf, StepLabel, TraceOp, Reach, Scope.Ranked;
    forall k | k in p.steps.keys ensures k !in p.columns.vals {
      var i :| 0 <= i < |p.steps.keys| && p.steps.keys[i] == k;
      var x := stepIds[i];
      assert IsStepAt(sc, p.steps, x, i);
      assert Owns(sc, x, k);
      if k in p.columns.vals {
        var y :| y in Reach(sc, root) && HasColumn(sc, y, k);
        assert Owns(sc, y, k);
        StepHasNoColumn(sc, x, k);
      }
    }
  }

  lemma StepHasNoColumn(sc: Scope, x: Id, l: string)
    requires x in sc.g && IsStep(sc.g[x])
    ensures !HasColumn(sc, x, l)
  {
  }

  ghost predicate ColumnsHeld<V>(sc: Scope, I: Interp<V>, ids: set<Id>, env: map<string, V>) {
    forall y, l :: y in ids && HasColumn(sc, y, l) ==>
      l in env && env[l] == ColumnValue(I, ColumnsOf(y, sc.g[y], sc.inputs)[l])
  }

  lemma ColumnsStay<V>(sc: Scope, I: Interp<V>, root: Id, p: Program, stepIds: seq<Id>, n: nat)
    requires LoweredBy(sc, root, p, stepIds) && WritesOnce(p) && n <= |p.steps.keys|
    ensures ColumnsHeld(sc, I, Reach(sc, root), Env(I, p, n))
  {
    hide StepOf, StepLabel, TraceOp, Reach, Scope.Ranked, ColumnsOf, DistinctLabels, StepsExact, EarlierSteps;
    forall y, l | y in Reach(sc, root) && HasColumn(sc, y, l)
      ensures l in Env(I, p, n) && Env(I, p, n)[l] == ColumnValue(I, ColumnsOf(y, sc.g[y], sc.inputs)[l])
    {
      assert l in p.columns.vals && p.columns.vals[l] == ColumnsOf(y, sc.g[y], sc.inputs)[l];
      assert l in Env(I, p, 0);
      EnvStable(I, p, 0, n, l);
    }
  }

  /** The label of the step has, in `env`, the value the step computed from `read`. */
  ghost predicate Computed<V>(sc: Scope, I: Interp<V>, x: Id, read: map<string, V>, env: map<string, V>) {
    StepTraces(sc, x) && StepLabel(x, sc.g[x]) in env &&
    env[StepLabel(x, sc.g[x])] == EvalStep(read, I, StepOf(sc, x))
  }

  /** A step reads what was written before it, and keeps its value. */
  lemma StepStays<V>(sc: Scope, I: Interp<V>, root: Id, p: Program, stepIds: seq<Id>, j: nat, n: nat)
    requires LoweredBy(sc, root, p, stepIds) && WritesOnce(p) && j < n <= |p.steps.keys| && j < |stepIds|
    ensures Computed(sc, I, stepIds[j], Env(I, p, j), Env(I, p, n))
  {
    assert IsStepAt(sc, p.steps, stepIds[j], j);
    hide LoweredBy, StepOf, StepLabel, TraceOp, Reach, Scope.Ranked, EvalStep;
    EnvStable(I, p, j + 1, n, p.steps.keys[j]);
  }

  /** The steps that `x` is computed from come before position `i`. */
  ghost predicate StepsBefore(sc: Scope, stepIds: seq<Id>, x: Id, i: nat) {
    sc.Ranked() && x in sc.g && i <= |stepIds| && forall y :: y in Reach(sc, x) && IsStep(sc.g[y]) ==> y in stepIds[..i]
  }

  lemma InputStepsBefore(sc: Scope, root: Id, p: Program, stepIds: seq<Id>, j: nat, c: Id)
    requires LoweredBy(sc, root, p, stepIds) && j < |stepIds| && stepIds[j] in sc.g
    requires c in Children(sc.g[stepIds[j]])
    ensures StepsBefore(sc, stepIds, c, j)
  {
    var x := stepIds[j];
    ReachChild(sc, x, c);
    assert StepInputsIn(sc, x, stepIds[..j]);
    hide Reach, Children;
  }

  lemma FewerStepsBefore(sc: Scope, stepIds: seq<Id>, x: Id, c: Id, i: nat)
    requires StepsBefore(sc, stepIds, x, i) && c in Children(sc.g[x])
    ensures StepsBefore(sc, stepIds, c, i)
  {
    ReachChild(sc, x, c);
    hide Reach, Children;
  }

  // ---- the DAG and the program mean the same -----------------------------------------------

  /** Reading a trace in the final environment gives the meaning of the op. */
  ghost predicate Means<V>(sc: Scope, I: Interp<V>, env: map<string, V>, x: Id) {
    Traces(sc, x) && EvalMsgs(env, I, Traced(sc, x)) == Meaning(sc, I, x)
  }

  /** No visited format op has positional arguments. */
  ghost predicate KeywordOnly(sc: Scope, ids: set<Id>) {
    forall x :: x in ids && x in sc.g && sc.g[x].FormatOp? ==> sc.g[x].args == []
  }

  /** No literal that an input of step `x` carries is a label already written when the step, number `i`, runs. */
  ghost predicate ReadsKept(sc: Scope, p: Program, x: Id, i: nat) {
    sc.Ranked() && x in sc.g && i <= |p.steps.keys| &&
    forall c :: c in Children(sc.g[x]) ==> Literals(sc, c) !! Written(p, i)
  }

  ghost predicate IsStepOf(sc: Scope, p: Program, x: Id, i: nat) {
    x in sc.g && IsStep(sc.g[x]) && i < |p.steps.keys| && p.steps.keys[i] == StepLabel(x, sc.g[x])
  }

  /** No literal is taken for a label: one that a step reads is neither a column nor an earlier step, and one among
      the messages is no label at all. */
  ghost predicate LiteralsKept(sc: Scope, root: Id, p: Program) {
    sc.Ranked() && root in sc.g && Literals(sc, root) !! Written(p, |p.steps.keys|) &&
    forall x, i :: x in Reach(sc, root) && IsStepOf(sc, p, x, i) ==> ReadsKept(sc, p, x, i)
  }

  lemma LeafMeans<V>(sc: Scope, I: Interp<V>, root: Id, env: map<string, V>, x: Id)
    requires sc.Ranked() && root in sc.g && ColumnsHeld(sc, I, Reach(sc, root), env) && x in Reach(sc, root) && Traces(sc, x) && IsLeaf(sc.g[x])
    ensures Means(sc, I, env, x)
  {
    hide *;
    LeafColumns(sc, I, root, env, x);
    LeafEval(sc, I, env, x);
    MeansBy(sc, I, env, x);
  }

  lemma MeansBy<V>(sc: Scope, I: Interp<V>, env: map<string, V>, x: Id)
    requires Traces(sc, x) && EvalMsgs(env, I, Traced(sc, x)) == Meaning(sc, I, x)
    ensures Means(sc, I, env, x)
  {
    hide Traces, EvalMsgs, Traced, Meaning;
  }

  /** The environment holds the columns of a leaf. */
  ghost predicate LeafHeld<V>(sc: Scope, I: Interp<V>, env: map<string, V>, x: Id) {
    forall l :: HasColumn(sc, x, l) ==> l in env && env[l] == ColumnValue(I, ColumnsOf(x, sc.g[x], sc.inputs)[l])
  }

  lemma LeafColumns<V>(sc: Scope, I: Interp<V>, root: Id, env: map<string, V>, x: Id)
    requires sc.Ranked() && root in sc.g && ColumnsHeld(sc, I, Reach(sc, root), env) && x in Reach(sc, root)
    ensures LeafHeld(sc, I, env, x)
  {
    hide Reach, ColumnsOf, Scope.Ranked, ColumnValue;
  }

  /** What a leaf reads is its column. */
  lemma LeafEval<V>(sc: Scope, I: Interp<V>, env: map<string, V>, x: Id)
    requires Traces(sc, x) && IsLeaf(sc.g[x]) && LeafHeld(sc, I, env, x)
    ensures EvalMsgs(env, I, Traced(sc, x)) == Meaning(sc, I, x)
  {
    hide ContextLabel, OutputLabel, RetrievalPath, Scope.Ranked;
    if sc.g[x].Generator? {
      assert ContextLabel(x) != OutputLabel(x) by { LabelsDiffer(x); }
      assert HasColumn(sc, x, OutputLabel(x));
      assert sc.g[x].returnHistory ==> HasColumn(sc, x, ContextLabel(x));
    } else {
      if sc.g[x].RetrievalOp? {
        PathOf(sc.g[x].mode);
      }
      assert HasColumn(sc, x, x);
    }
    assert EvalMsgs(env, I, Traced(sc, x)) == Meaning(sc, I, x);
  }

  lemma PathOf(mode: string)
    ensures RetrievalPath(mode) ==
            if mode == "sql" then "items.table" else if mode == "s3" then "items.content" else "items.output"
  {
  }

  lemma LabelsDiffer(x: Id)
    ensures ContextLabel(x) != OutputLabel(x)
  {
    assert |ContextLabel(x)| != |OutputLabel(x)|;
  }

  ghost predicate MessagesMean<V>(sc: Scope, I: Interp<V>, env: map<string, V>, messages: seq<OpMessage>, bound: nat) {
    MessagesOk(sc, messages, bound) &&
    EvalMsgs(env, I, TraceMessages(sc, messages, bound).value) == MeaningOfMessages(sc, I, messages, bound)
  }

  lemma EvalJoin<V>(env: map<string, V>, I: Interp<V>, a: seq<Msg>, b: seq<Msg>)
    ensures EvalMsgs(env, I, a + b) == EvalMsgs(env, I, a) + EvalMsgs(env, I, b)
  {
  }

  ghost predicate LiteralMeans<V>(env: map<string, V>, I: Interp<V>, message: OpMessage) {
    message.content.Literal? ==> message.content.text !in env
  }

  lemma {:induction false} MessagesMeanAlike<V>(sc: Scope, I: Interp<V>, env: map<string, V>,
                                                messages: seq<OpMessage>, bound: nat)
    requires MessagesOk(sc, messages, bound)
    requires forall i :: 0 <= i < |messages| ==> LiteralMeans(env, I, messages[i])
    requires forall c :: c in MessageRefs(messages) ==> Means(sc, I, env, c)
    ensures MessagesMean(sc, I, env, messages, bound)
  {
    if messages != [] {
      var n := |messages| - 1;
      var init, last := messages[..n], messages[n];
      MessagesPrefix(sc, messages, bound);
      RefsOfPrefix(messages, n);
      assert messages[..n + 1] == messages;
      MessagesMeanAlike(sc, I, env, init, bound);
      EvalJoin(env, I, TraceMessages(sc, init, bound).value, TraceMessage(sc, last, bound).value);
      assert LiteralMeans(env, I, last);
      if last.content.Ref? {
        RetagMeans(sc, I, env, last.role, last.content.id);
      }
    }
  }

  lemma RetagMeans<V>(sc: Scope, I: Interp<V>, env: map<string, V>, role: string, c: Id)
    requires Means(sc, I, env, c) && Retag(role, Traced(sc, c)).Ok?
    ensures EvalMsgs(env, I, Retag(role, Traced(sc, c)).value) == Retagged(Some(role), Meaning(sc, I, c))
  {
    hide Meaning, TraceOp;
    RetagFacts(role, Traced(sc, c));
    forall i | 0 <= i < |Traced(sc, c)|
      ensures EvalMsg(env, I, Retag(role, Traced(sc, c)).value[i]).value == Meaning(sc, I, c)[i].value
    {
      assert EvalMsgs(env, I, Traced(sc, c))[i] == EvalMsg(env, I, Traced(sc, c)[i]);
    }
  }

  lemma StepMeans<V>(sc: Scope, I: Interp<V>, read: map<string, V>, env: map<string, V>, x: Id)
    requires Computed(sc, I, x, read, env) && (sc.g[x].FormatOp? ==> sc.g[x].args == [])
    requires forall c :: c in Children(sc.g[x]) ==> Means(sc, I, read, c)
    ensures Means(sc, I, env, x)
  {
    ChildrenTrace(sc, x);
    if sc.g[x].FormatOp? {
      TemplateMeans(sc, I, read, env, x);
    } else {
      FunctionMeans(sc, I, read, env, x);
    }
  }

  lemma FirstMeans<V>(sc: Scope, I: Interp<V>, env: map<string, V>, c: Id)
    requires Means(sc, I, env, c) && Traced(sc, c) != []
    ensures Resolve(env, I, Traced(sc, c)[0].text) == Meaning(sc, I, c)[0].value
  {
    hide Meaning, TraceOp;
    assert EvalMsgs(env, I, Traced(sc, c))[0] == EvalMsg(env, I, Traced(sc, c)[0]);
  }

  lemma TemplateMeans<V>(sc: Scope, I: Interp<V>, read: map<string, V>, env: map<string, V>, x: Id)
    requires Computed(sc, I, x, read, env) && sc.g[x].FormatOp? && sc.g[x].args == []
    requires forall c :: c in Children(sc.g[x]) ==> Means(sc, I, read, c) && |Traced(sc, c)| == 1
    ensures Means(sc, I, env, x)
  {
    var kwargs := sc.g[x].kwargs;
    var bound := StepOf(sc, x).kwargs;
    var a := seq(|bound|, i requires 0 <= i < |bound| => (bound[i].0, Resolve(read, I, bound[i].1)));
    var b := NamedValues(sc, I, x);
    forall i | 0 <= i < |kwargs| ensures a[i] == b[i] {
      KwargIsChild(sc.g[x], i);
      FirstMeans(sc, I, read, kwargs[i].1);
    }
    assert a == b;
    FormatMeaning(sc, I, x);
    assert PositionalValues(sc, I, x) == [];
  }

  ghost function NamedValues<V>(sc: Scope, I: Interp<V>, x: Id): (r: seq<(string, V)>)
    requires StepTraces(sc, x) && sc.g[x].FormatOp?
  {
    ChildrenTrace(sc, x);
    var kwargs := sc.g[x].kwargs;
    seq(|kwargs|, i requires 0 <= i < |kwargs| =>
      KwargIsChild(sc.g[x], i); (kwargs[i].0, Meaning(sc, I, kwargs[i].1)[0].value))
  }

  ghost function PositionalValues<V>(sc: Scope, I: Interp<V>, x: Id): (r: seq<V>)
    requires StepTraces(sc, x) && sc.g[x].FormatOp?
    ensures |r| == |sc.g[x].args|
  {
    ChildrenTrace(sc, x);
    var args := sc.g[x].args;
    seq(|args|, i requires 0 <= i < |args| => ArgIsChild(sc.g[x], i); Meaning(sc, I, args[i])[0].value)
  }

  lemma FormatMeaning<V>(sc: Scope, I: Interp<V>, x: Id)
    requires StepTraces(sc, x) && sc.g[x].FormatOp?
    ensures Meaning(sc, I, x) ==
            [MsgValue(Some("user"), I.format(sc.g[x].template, PositionalValues(sc, I, x), NamedValues(sc, I, x)))]
  {
    ChildrenTrace(sc, x);
    var args, kwargs := sc.g[x].args, sc.g[x].kwargs;
    var positional := seq(|args|, i requires 0 <= i < |args| =>
      ArgIsChild(sc.g[x], i); Meaning(sc, I, args[i])[0].value);
    var named := seq(|kwargs|, i requires 0 <= i < |kwargs| =>
      KwargIsChild(sc.g[x], i); (kwargs[i].0, Meaning(sc, I, kwargs[i].1)[0].value));
    assert positional == PositionalValues(sc, I, x);
    assert named == NamedValues(sc, I, x);
  }

  ghost function ArgValues<V>(sc: Scope, I: Interp<V>, x: Id): (r: seq<ArgValue<V>>)
    requires StepTraces(sc, x) && sc.g[x].LambdaOp?
    ensures |r| == |sc.g[x].inputs|
  {
    ChildrenTrace(sc, x);
    var ids := sc.g[x].inputs;
    seq(|ids|, i requires 0 <= i < |ids| =>
      assert ids[i] in Children(sc.g[x]); ToArgValue(Meaning(sc, I, ids[i])))
  }

  lemma LambdaMeaning<V>(sc: Scope, I: Interp<V>, x: Id)
    requires StepTraces(sc, x) && sc.g[x].LambdaOp?
    ensures Meaning(sc, I, x) == [MsgValue(Some("user"), I.apply(sc.g[x].code, ArgValues(sc, I, x)))]
  {
    ChildrenTrace(sc, x);
    var ids := sc.g[x].inputs;
    var values := seq(|ids|, i requires 0 <= i < |ids| =>
      assert ids[i] in Children(sc.g[x]); ToArgValue(Meaning(sc, I, ids[i])));
    assert values == ArgValues(sc, I, x);
  }

  lemma FunctionMeans<V>(sc: Scope, I: Interp<V>, read: map<string, V>, env: map<string, V>, x: Id)
    requires Computed(sc, I, x, read, env) && sc.g[x].LambdaOp?
    requires forall c :: c in Children(sc.g[x]) ==> Means(sc, I, read, c) && Traced(sc, c) != []
    ensures Means(sc, I, env, x)
  {
    var ids, args := sc.g[x].inputs, StepOf(sc, x).args;
    var a := seq(|args|, i requires 0 <= i < |args| => EvalArg(read, I, args[i]));
    forall i | 0 <= i < |ids| ensures a[i] == ArgValues(sc, I, x)[i] {
      assert ids[i] in Children(sc.g[x]);
      FirstMeans(sc, I, read, ids[i]);
    }
    assert a == ArgValues(sc, I, x);
    LambdaMeaning(sc, I, x);
  }

  lemma OwnLiteralsHold<V>(sc: Scope, I: Interp<V>, p: Program, i: nat, x: Id)
    requires sc.Ranked() && x in sc.g && sc.g[x].MessageOp? && StepsPresent(p) && i <= |p.steps.keys|
    requires Literals(sc, x) !! Written(p, i)
    ensures forall k :: 0 <= k < |sc.g[x].messages| ==> LiteralMeans(Env(I, p, i), I, sc.g[x].messages[k])
  {
    EnvKeys(I, p, i);
    hide Written;
    forall k | 0 <= k < |sc.g[x].messages| ensures LiteralMeans(Env(I, p, i), I, sc.g[x].messages[k]) {
      var m := sc.g[x].messages[k];
      assert m.content.Literal? ==> m.content.text in OwnLiterals(sc.g[x].messages);
    }
  }

  /** An op means the same in the environment of every position after its steps, if none of its literals is a label
      by then. */
  lemma {:induction false} OpMeans<V>(sc: Scope, I: Interp<V>, root: Id, p: Program, stepIds: seq<Id>, i: nat, x: Id)
    requires LoweredBy(sc, root, p, stepIds) && WritesOnce(p) && i <= |p.steps.keys|
    requires KeywordOnly(sc, Reach(sc, root)) && LiteralsKept(sc, root, p)
    requires x in Reach(sc, root) && StepsBefore(sc, stepIds, x, i) && Literals(sc, x) !! Written(p, i)
    ensures Means(sc, I, Env(I, p, i), x)
    decreases sc.rank(x)
  {
    ReachedTraces(sc, root, p, stepIds, x);
    ReachTransitive(sc, root, x);
    var op := sc.g[x];
    hide LoweredBy, Scope.Ranked, Reach, Children, Meaning, TraceOp, Means, LiteralsKept, Literals, Written, StepsBefore;
    if IsLeaf(op) {
      ColumnsStay(sc, I, root, p, stepIds, i);
      LeafMeans(sc, I, root, Env(I, p, i), x);
    } else if op.MessageOp? {
      forall c | c in Children(op) ensures Means(sc, I, Env(I, p, i), c) {
        MessageInput(sc, root, p, stepIds, i, x, c);
        OpMeans(sc, I, root, p, stepIds, i, c);
      }
      MessageOpMeans(sc, I, p, i, x);
    } else {
      var j := StepPosition(sc, root, p, stepIds, i, x);
      forall c | c in Children(op) ensures Means(sc, I, Env(I, p, j), c) {
        StepInput(sc, root, p, stepIds, j, c);
        OpMeans(sc, I, root, p, stepIds, j, c);
      }
      StepStays(sc, I, root, p, stepIds, j, i);
      StepMeans(sc, I, Env(I, p, j), Env(I, p, i), x);
    }
  }

  lemma ReachedTraces(sc: Scope, root: Id, p: Program, stepIds: seq<Id>, x: Id)
    requires LoweredBy(sc, root, p, stepIds) && x in Reach(sc, root)
    ensures sc.Ranked() && root in sc.g && x in sc.g && Traces(sc, x) && |stepIds| == |p.steps.keys|
  {
    hide TraceOp, Reach, Scope.Ranked, DistinctLabels, ColumnsExact, EarlierSteps;
  }

  lemma MessageInput(sc: Scope, root: Id, p: Program, stepIds: seq<Id>, i: nat, x: Id, c: Id)
    requires sc.Ranked() && root in sc.g && x in Reach(sc, root) && x in sc.g && sc.g[x].MessageOp?
    requires c in Children(sc.g[x]) && StepsBefore(sc, stepIds, x, i)
    requires i <= |p.steps.keys| && Literals(sc, x) !! Written(p, i)
    ensures c in Reach(sc, root) && c in sc.g && sc.rank(c) < sc.rank(x) && StepsBefore(sc, stepIds, c, i)
    ensures Literals(sc, c) !! Written(p, i)
  {
    LiteralsUp(sc, x, c);
    FewerStepsBefore(sc, stepIds, x, c, i);
    ReachTransitive(sc, root, x);
    ReachChild(sc, x, c);
    SelfReached(sc, c);
    hide Literals, Written, StepsBefore, Reach, Children;
  }

  lemma MessageOpMeans<V>(sc: Scope, I: Interp<V>, p: Program, i: nat, x: Id)
    requires Traces(sc, x) && sc.g[x].MessageOp? && StepsPresent(p) && i <= |p.steps.keys|
    requires Literals(sc, x) !! Written(p, i)
    requires forall c :: c in Children(sc.g[x]) ==> Means(sc, I, Env(I, p, i), c)
    ensures Means(sc, I, Env(I, p, i), x)
  {
    OwnLiteralsHold(sc, I, p, i, x);
    hide Literals, Written, Env;
    MessagesMeanAlike(sc, I, Env(I, p, i), sc.g[x].messages, sc.rank(x));
  }

  lemma StepPosition(sc: Scope, root: Id, p: Program, stepIds: seq<Id>, i: nat, x: Id) returns (j: nat)
    requires LoweredBy(sc, root, p, stepIds) && StepsBefore(sc, stepIds, x, i) && IsStep(sc.g[x])
    ensures j < i && j < |stepIds| && stepIds[j] == x && IsStepOf(sc, p, x, j)
  {
    SelfReached(sc, x);
    j :| 0 <= j < i && stepIds[j] == x;
    assert IsStepAt(sc, p.steps, stepIds[j], j);
  }

  lemma StepInput(sc: Scope, root: Id, p: Program, stepIds: seq<Id>, j: nat, c: Id)
    requires LoweredBy(sc, root, p, stepIds) && LiteralsKept(sc, root, p) && j < |stepIds|
    requires stepIds[j] in Reach(sc, root) && IsStepOf(sc, p, stepIds[j], j) && c in Children(sc.g[stepIds[j]])
    ensures c in Reach(sc, root) && c in sc.g && sc.rank(c) < sc.rank(stepIds[j]) && StepsBefore(sc, stepIds, c, j)
    ensures Literals(sc, c) !! Written(p, j)
  {
    var x := stepIds[j];
    InputStepsBefore(sc, root, p, stepIds, j, c);
    ReachTransitive(sc, root, x);
    ReachChild(sc, x, c);
    SelfReached(sc, c);
    assert ReadsKept(sc, p, x, j);
    hide LoweredBy, LiteralsKept, Literals, Written, StepsBefore, Reach, Children;
  }

  /** Lowering preserves meaning: whatever formatting, lambdas and other nodes compute, running
      the columns, the steps in order and the messages gives what evaluating the DAG gives. */
  lemma LoweringPreservesMeaning<V>(sc: Scope, I: Interp<V>, root: Id, p: Program)
    requires IsLowering(sc, root, p) && KeywordOnly(sc, Reach(sc, root)) && LiteralsKept(sc, root, p)
    ensures Traces(sc, root) && StepsPresent(p) && Run(I, p) == Meaning(sc, I, root)
  {
    var stepIds :| LoweredBy(sc, root, p, stepIds);
    LoweringWritesOnce(sc, root, p, stepIds);
    SelfReached(sc, root);
    AllStepsBefore(sc, root, p, stepIds);
    OpMeans(sc, I, root, p, stepIds, |p.steps.keys|, root);
  }

  lemma AllStepsBefore(sc: Scope, root: Id, p: Program, stepIds: seq<Id>)
    requires LoweredBy(sc, root, p, stepIds)
    ensures |stepIds| == |p.steps.keys| && StepsBefore(sc, stepIds, root, |p.steps.keys|)
  {
    hide TraceOp, Reach, Scope.Ranked, DistinctLabels, ColumnsExact, EarlierSteps, IsStepAt;
    assert stepIds[..|stepIds|] == stepIds;
  }

  /** No literal of a visited message op is also a label. */
  ghost predicate CleanLiterals(sc: Scope, root: Id) {
    sc.Ranked() && root in sc.g &&
    forall x, y, t :: x in Reach(sc, root) && HasLiteral(sc, x, t) && y in Reach(sc, root) ==> !Owns(sc, y, t)
  }

  /** The naming discipline that is enough: literals are never labels. */
  lemma CleanLiteralsAreKept(sc: Scope, root: Id, p: Program)
    requires IsLowering(sc, root, p) && CleanLiterals(sc, root)
    ensures LiteralsKept(sc, root, p)
  {
    var stepIds :| LoweredBy(sc, root, p, stepIds);
    var n := |p.steps.keys|;
    forall x | x in Reach(sc, root) ensures x in sc.g && Literals(sc, x) !! Written(p, n) {
      ReachedTraces(sc, root, p, stepIds, x);
      forall t | t in Literals(sc, x) ensures t !in Written(p, n) {
        LiteralIsUnowned(sc, root, p, stepIds, x, t);
      }
    }
    OncePlaced(sc, root, p, stepIds);
    SelfReached(sc, root);
    hide LoweredBy, Literals, Children, CleanLiterals, Written, Reach, ReadsKept;
    forall x, i | x in Reach(sc, root) && IsStepOf(sc, p, x, i) ensures ReadsKept(sc, p, x, i) {
      CleanReads(sc, root, p, x, i);
    }
  }

  lemma CleanReads(sc: Scope, root: Id, p: Program, x: Id, i: nat)
    requires sc.Ranked() && root in sc.g && x in Reach(sc, root) && x in sc.g && i <= |p.steps.keys|
    requires forall y :: y in Reach(sc, root) ==> y in sc.g && Literals(sc, y) !! Written(p, |p.steps.keys|)
    ensures ReadsKept(sc, p, x, i)
  {
    WrittenGrows(p, i, |p.steps.keys|);
    hide Literals, Children, Written, Reach;
    forall c | c in Children(sc.g[x]) ensures c in sc.g && Literals(sc, c) !! Written(p, i) {
      InputReached(sc, root, x, c);
    }
  }

  lemma WrittenGrows(p: Program, i: nat, n: nat)
    requires i <= n <= |p.steps.keys|
    ensures Written(p, i) <= Written(p, n)
  {
    assert p.steps.keys[..n][..i] == p.steps.keys[..i];
    assert forall x :: x in p.steps.keys[..i] ==> x in p.steps.keys[..n];
  }

  lemma LiteralIsUnowned(sc: Scope, root: Id, p: Program, stepIds: seq<Id>, x: Id, t: string)
    requires LoweredBy(sc, root, p, stepIds) && CleanLiterals(sc, root) && x in Reach(sc, root) && x in sc.g
    requires t in Literals(sc, x)
    ensures t !in Written(p, |p.steps.keys|)
  {
    var y := LiteralOwner(sc, x, t);
    ReachTransitive(sc, root, x);
    assert y in Reach(sc, root);
    hide Reach, Literals, CleanLiterals, Scope.Ranked;
    if t in Written(p, |p.steps.keys|) {
      var z := LabelOwner(sc, root, p, stepIds, t);
      NotBoth(sc, root, y, z, t);
    }
  }

  lemma NotBoth(sc: Scope, root: Id, y: Id, z: Id, t: string)
    requires CleanLiterals(sc, root) && y in Reach(sc, root) && z in Reach(sc, root) && HasLiteral(sc, y, t)
    ensures !Owns(sc, z, t)
  {
  }

  lemma {:induction false} LiteralOwner(sc: Scope, x: Id, t: string) returns (y: Id)
    requires sc.Ranked() && x in sc.g && t in Literals(sc, x)
    ensures y in Reach(sc, x) && HasLiteral(sc, y, t)
    decreases sc.rank(x)
  {
    SelfReached(sc, x);
    if t in OwnLiterals(sc.g[x].messages) {
      y := x;
      var i :| 0 <= i < |sc.g[x].messages| && sc.g[x].messages[i].content == Literal(t);
    } else {
      var c :| c in Children(sc.g[x]) && t in Literals(sc, c);
      y := LiteralOwner(sc, c, t);
      ReachChild(sc, x, c);
    }
  }

  /** A written label is the label of an op reached from the root. */
  lemma LabelOwner(sc: Scope, root: Id, p: Program, stepIds: seq<Id>, t: string) returns (y: Id)
    requires LoweredBy(sc, root, p, stepIds) && t in Written(p, |p.steps.keys|)
    ensures y in Reach(sc, root) && Owns(sc, y, t)
  {
    hide StepOf, StepLabel, TraceOp, Reach, Scope.Ranked;
    if t in p.columns.vals {
      y :| y in Reach(sc, root) && HasColumn(sc, y, t);
    } else {
      var i :| 0 <= i < |p.steps.keys| && p.steps.keys[i] == t;
      y := stepIds[i];
      assert IsStepAt(sc, p.steps, stepIds[i], i) && stepIds[i] in stepIds;
    }
  }

  // ---- what is lost: positional arguments and captured literals ----------------------------

  /** Values as the terms that denote them: the interpretation that confuses nothing. */
  datatype Term =
    | Lit(text: string)
    | List(items: seq<string>)
    | NodeResult(node: Id, path: string)
    | Formatted(template: string, positional: seq<Term>, named: seq<(string, Term)>)
    | Applied(code: string, args: seq<ArgValue<Term>>)

  ghost function Free(): (r: Interp<Term>) {
    Interp(
      (text: string) => Lit(text),
      (items: seq<string>) => List(items),
      (node: Id, path: string) => NodeResult(node, path),
      (template: string, positional: seq<Term>, named: seq<(string, Term)>) => Formatted(template, positional, named),
      (code: string, args: seq<ArgValue<Term>>) => Applied(code, args))
  }

  ghost predicate SameRoles<V>(a: seq<MsgValue<V>>, b: seq<MsgValue<V>>) {
    |a| == |b| && forall i :: 0 <= i < |a| ==> a[i].role == b[i].role
  }

  lemma {:induction false} MessageRoles<V>(sc: Scope, I: Interp<V>, env: map<string, V>, messages: seq<OpMessage>,
                                           bound: nat)
    requires MessagesOk(sc, messages, bound)
    ensures SameRoles(EvalMsgs(env, I, TraceMessages(sc, messages, bound).value),
                      MeaningOfMessages(sc, I, messages, bound))
  {
    if messages != [] {
      var n := |messages| - 1;
      MessagesPrefix(sc, messages, bound);
      MessageRoles(sc, I, env, messages[..n], bound);
      if messages[n].content.Ref? {
        RetagFacts(messages[n].role, Traced(sc, messages[n].content.id));
      }
    }
  }

  lemma RolesAgree<V>(sc: Scope, I: Interp<V>, env: map<string, V>, x: Id)
    requires Traces(sc, x)
    ensures SameRoles(EvalMsgs(env, I, Traced(sc, x)), Meaning(sc, I, x))
  {
    if sc.g[x].MessageOp? {
      MessageRoles(sc, I, env, sc.g[x].messages, sc.rank(x));
    }
  }

  /** Equal values suffice: the roles agree anyway. */
  lemma MeansFromValues<V>(sc: Scope, I: Interp<V>, env: map<string, V>, c: Id)
    requires Traces(sc, c)
    requires forall i :: 0 <= i < |Traced(sc, c)| ==>
      Resolve(env, I, Traced(sc, c)[i].text) == Meaning(sc, I, c)[i].value
    ensures Means(sc, I, env, c)
  {
    hide Meaning, TraceOp;
    RolesAgree(sc, I, env, c);
    var a, b := EvalMsgs(env, I, Traced(sc, c)), Meaning(sc, I, c);
    forall i | 0 <= i < |a| ensures a[i] == b[i] {
      assert a[i].role == b[i].role;
    }
    assert a == b;
  }

  /** What the last message contributes to the meaning of a list. */
  ghost function LastMeaning<V>(sc: Scope, I: Interp<V>, last: OpMessage): (r: seq<MsgValue<V>>)
    requires last.content.Ref? ==> Traces(sc, last.content.id)
  {
    if last.content.Literal? then [MsgValue(Some(last.role), I.lit(last.content.text))]
    else Retagged(Some(last.role), Meaning(sc, I, last.content.id))
  }

  /** If a list means the same, so do its last message and the others. */
  lemma LastMeansBack<V>(sc: Scope, I: Interp<V>, env: map<string, V>, messages: seq<OpMessage>, bound: nat)
    requires MessagesMean(sc, I, env, messages, bound) && messages != []
    ensures var init, last := messages[..|messages| - 1], messages[|messages| - 1];
      MessagesMean(sc, I, env, init, bound) && ParseLast(sc, last, bound) &&
      (last.content.Ref? ==> Traces(sc, last.content.id)) &&
      EvalMsgs(env, I, TraceMessage(sc, last, bound).value) == LastMeaning(sc, I, last)
  {
    var init, last := messages[..|messages| - 1], messages[|messages| - 1];
    MessagesPrefix(sc, messages, bound);
    var tracedInit, tracedLast := TraceMessages(sc, init, bound).value, TraceMessage(sc, last, bound).value;
    EvalJoin(env, I, tracedInit, tracedLast);
    var meant := MeaningOfMessages(sc, I, init, bound);
    assert MeaningOfMessages(sc, I, messages, bound) == meant + LastMeaning(sc, I, last);
    assert TraceMessages(sc, messages, bound).value == tracedInit + tracedLast;
    hide Meaning, MeaningOfMessages, TraceMessages, TraceMessage, TraceOp, EvalMsgs, LastMeaning, MessageRefs;
    SplitEqual(EvalMsgs(env, I, tracedInit), EvalMsgs(env, I, tracedLast), meant, LastMeaning(sc, I, last));
  }

  lemma SplitEqual<T>(a: seq<T>, b: seq<T>, c: seq<T>, d: seq<T>)
    requires a + b == c + d && |a| == |c|
    ensures a == c && b == d
  {
    assert (a + b)[..|a|] == a && (c + d)[..|c|] == c;
    assert (a + b)[|a|..] == b && (c + d)[|c|..] == d;
  }

  lemma {:induction false} MessagesMeanBack<V>(sc: Scope, I: Interp<V>, env: map<string, V>,
                                               messages: seq<OpMessage>, bound: nat, c: Id)
    requires MessagesMean(sc, I, env, messages, bound) && c in MessageRefs(messages)
    ensures Means(sc, I, env, c)
  {
    var n := |messages| - 1;
    RefsOfPrefix(messages, n);
    assert messages[..n + 1] == messages;
    LastMeansBack(sc, I, env, messages, bound);
    if c in MessageRefs(messages[..n]) {
      MessagesMeanBack(sc, I, env, messages[..n], bound, c);
    } else {
      RetagBack(sc, I, env, messages[n].role, c);
    }
  }

  lemma RetagBack<V>(sc: Scope, I: Interp<V>, env: map<string, V>, role: string, c: Id)
    requires Traces(sc, c) && Retag(role, Traced(sc, c)).Ok?
    requires EvalMsgs(env, I, Retag(role, Traced(sc, c)).value) == Retagged(Some(role), Meaning(sc, I, c))
    ensures Means(sc, I, env, c)
  {
    hide Meaning, TraceOp;
    RetagFacts(role, Traced(sc, c));
    var a, b := EvalMsgs(env, I, Retag(role, Traced(sc, c)).value), Retagged(Some(role), Meaning(sc, I, c));
    forall i | 0 <= i < |Traced(sc, c)|
      ensures Resolve(env, I, Traced(sc, c)[i].text) == Meaning(sc, I, c)[i].value
    {
      assert a[i] == b[i];
    }
    MeansFromValues(sc, I, env, c);
  }

  lemma SingleBack<V>(sc: Scope, I: Interp<V>, env: map<string, V>, c: Id)
    requires Traces(sc, c) && |Traced(sc, c)| == 1
    requires Resolve(env, I, Traced(sc, c)[0].text) == Meaning(sc, I, c)[0].value
    ensures Means(sc, I, env, c)
  {
    MeansFromValues(sc, I, env, c);
  }

  /** A literal that means itself is no label: no column or step has a literal for its value. */
  lemma {:induction false} LiteralBack(sc: Scope, env: map<string, Term>, messages: seq<OpMessage>, bound: nat, k: nat)
    requires MessagesMean(sc, Free(), env, messages, bound) && k < |messages| && messages[k].content.Literal?
    ensures Resolve(env, Free(), messages[k].content.text) == Lit(messages[k].content.text)
  {
    hide *;
    var n := |messages| - 1;
    LastMeansBack(sc, Free(), env, messages, bound);
    if k < n {
      LiteralBack(sc, env, messages[..n], bound, k);
    } else {
      OneLiteralBack(sc, env, messages[n], bound);
    }
  }

  lemma OneLiteralBack(sc: Scope, env: map<string, Term>, last: OpMessage, bound: nat)
    requires last.content.Literal? && ParseLast(sc, last, bound)
    requires EvalMsgs(env, Free(), TraceMessage(sc, last, bound).value) == LastMeaning(sc, Free(), last)
    ensures Resolve(env, Free(), last.content.text) == Lit(last.content.text)
  {
    var traced := TraceMessage(sc, last, bound).value;
    assert EvalMsgs(env, Free(), traced)[0] == EvalMsg(env, Free(), traced[0]);
  }

  lemma {:induction false} NoLiteralValues(p: Program, n: nat, t: string)
    requires StepsPresent(p) && n <= |p.steps.keys| && t in Env(Free(), p, n)
    ensures !Env(Free(), p, n)[t].Lit?
  {
    if n > 0 {
      var before := Env(Free(), p, n - 1);
      assert !EvalStep(before, Free(), p.steps.vals[p.steps.keys[n - 1]]).Lit?;
      if t in before {
        NoLiteralValues(p, n - 1, t);
      }
    }
  }

  lemma StepValue(sc: Scope, read: map<string, Term>, env: map<string, Term>, x: Id)
    requires Computed(sc, Free(), x, read, env) && Means(sc, Free(), env, x)
    ensures EvalStep(read, Free(), StepOf(sc, x)) == Meaning(sc, Free(), x)[0].value
  {
    FirstMeans(sc, Free(), env, x);
  }

  /** If a format op means the same after lowering, it had no positional argument and each of
      its inputs means the same. */
  lemma FormatBack(sc: Scope, read: map<string, Term>, env: map<string, Term>, x: Id, c: Id)
    requires Computed(sc, Free(), x, read, env) && Means(sc, Free(), env, x) && sc.g[x].FormatOp?
    ensures sc.g[x].args == []
    ensures c in Children(sc.g[x]) ==> Means(sc, Free(), read, c)
  {
    var I, kwargs := Free(), sc.g[x].kwargs;
    ChildrenTrace(sc, x);
    StepValue(sc, read, env, x);
    FormatMeaning(sc, I, x);
    var bound := StepOf(sc, x).kwargs;
    var a := seq(|bound|, i requires 0 <= i < |bound| => (bound[i].0, Resolve(read, I, bound[i].1)));
    assert a == NamedValues(sc, I, x) && [] == PositionalValues(sc, I, x);
    if c in Children(sc.g[x]) {
      KwargOf(sc.g[x], c);
      var i :| 0 <= i < |kwargs| && kwargs[i].1 == c;
      assert a[i] == NamedValues(sc, I, x)[i];
      SingleBack(sc, I, read, c);
    }
  }

  lemma KwargOf(op: Op, c: Id)
    requires op.FormatOp? && op.args == [] && c in Children(op)
    ensures exists i :: 0 <= i < |op.kwargs| && op.kwargs[i].1 == c
  {
    var named := KwargIds(op.kwargs);
    assert op.args + named == named;
    assert Children(op) == Dedup(named);
    hide Children, Dedup, KwargIds;
    assert c in Elems(named) && c in named;
  }

  lemma LambdaBack(sc: Scope, read: map<string, Term>, env: map<string, Term>, x: Id, c: Id)
    requires Computed(sc, Free(), x, read, env) && Means(sc, Free(), env, x) && sc.g[x].LambdaOp?
    requires c in Children(sc.g[x])
    ensures Means(sc, Free(), read, c)
  {
    var I, ids, args := Free(), sc.g[x].inputs, StepOf(sc, x).args;
    ChildrenTrace(sc, x);
    StepValue(sc, read, env, x);
    LambdaMeaning(sc, I, x);
    var a := seq(|args|, i requires 0 <= i < |args| => EvalArg(read, I, args[i]));
    assert a == ArgValues(sc, I, x);
    var i :| 0 <= i < |ids| && ids[i] == c;
    assert a[i] == ArgValues(sc, I, x)[i];
    if |Traced(sc, c)| == 1 {
      SingleBack(sc, I, read, c);
    }
  }

  /** What the meaning of an op says about one op it reaches. */
  ghost predicate StepKept(sc: Scope, p: Program, stepIds: seq<Id>, y: Id) {
    y in sc.g && (sc.g[y].FormatOp? ==> sc.g[y].args == []) &&
    forall j :: 0 <= j < |stepIds| && stepIds[j] == y ==> ReadsKept(sc, p, y, j)
  }

  /** If an op means the same at some position in the free interpretation, none of its literals is a label by then,
      no format op it visits has a positional argument, and no step it visits reads a literal as a label. */
  lemma {:induction false} OpMeansBack(sc: Scope, root: Id, p: Program, stepIds: seq<Id>, i: nat, x: Id)
    requires LoweredBy(sc, root, p, stepIds) && WritesOnce(p) && i <= |p.steps.keys|
    requires x in Reach(sc, root) && StepsBefore(sc, stepIds, x, i) && Means(sc, Free(), Env(Free(), p, i), x)
    ensures Literals(sc, x) !! Written(p, i)
    ensures forall y :: y in Reach(sc, x) ==> StepKept(sc, p, stepIds, y)
    decreases sc.rank(x)
  {
    ReachedTraces(sc, root, p, stepIds, x);
    if IsStep(sc.g[x]) {
      StepBack(sc, root, p, stepIds, i, x);
    } else if sc.g[x].MessageOp? {
      MessageBack(sc, root, p, stepIds, i, x);
    } else {
      assert Reach(sc, x) == {x} && Literals(sc, x) == {};
      NoStep(sc, root, p, stepIds, x);
    }
  }

  lemma NoStep(sc: Scope, root: Id, p: Program, stepIds: seq<Id>, x: Id)
    requires LoweredBy(sc, root, p, stepIds) && x in sc.g && !IsStep(sc.g[x])
    ensures StepKept(sc, p, stepIds, x)
  {
    hide TraceOp, Reach, Scope.Ranked, DistinctLabels, ColumnsExact, EarlierSteps;
    assert x !in stepIds;
  }

  lemma {:induction false} StepBack(sc: Scope, root: Id, p: Program, stepIds: seq<Id>, i: nat, x: Id)
    requires LoweredBy(sc, root, p, stepIds) && WritesOnce(p) && i <= |p.steps.keys| && x in sc.g && IsStep(sc.g[x])
    requires x in Reach(sc, root) && StepsBefore(sc, stepIds, x, i) && Means(sc, Free(), Env(Free(), p, i), x)
    ensures Literals(sc, x) == {}
    ensures forall y :: y in Reach(sc, x) ==> StepKept(sc, p, stepIds, y)
    decreases sc.rank(x), 0
  {
    var j := StepPosition(sc, root, p, stepIds, i, x);
    StepStays(sc, Free(), root, p, stepIds, j, i);
    OncePlaced(sc, root, p, stepIds);
    assert Literals(sc, x) == {};
    hide LoweredBy, Scope.Ranked, Reach, Children, Meaning, TraceOp, Means, Literals, Written, StepsBefore, Free, Env,
         Computed, ReadsKept;
    forall c | c in Children(sc.g[x])
      ensures c in sc.g && Literals(sc, c) !! Written(p, j)
      ensures forall y :: y in Reach(sc, c) ==> StepKept(sc, p, stepIds, y)
    {
      InputMeansBack(sc, p, stepIds, j, i, x, c);
      InputStepsBefore(sc, root, p, stepIds, j, c);
      InputReached(sc, root, x, c);
      OpMeansBack(sc, root, p, stepIds, j, c);
    }
    if sc.g[x].FormatOp? {
      FormatBack(sc, Env(Free(), p, j), Env(Free(), p, i), x, x);
    }
    NowReadsKept(sc, p, stepIds, x, j);
    forall y | y in Reach(sc, x) ensures StepKept(sc, p, stepIds, y) {
      if y != x {
        var c := ReachVia(sc, x, y);
      }
    }
  }

  lemma InputMeansBack(sc: Scope, p: Program, stepIds: seq<Id>, j: nat, i: nat, x: Id, c: Id)
    requires StepsPresent(p) && j <= i <= |p.steps.keys|
    requires Computed(sc, Free(), x, Env(Free(), p, j), Env(Free(), p, i)) && c in Children(sc.g[x])
    requires Means(sc, Free(), Env(Free(), p, i), x)
    ensures Means(sc, Free(), Env(Free(), p, j), c)
  {
    hide Env;
    if sc.g[x].FormatOp? {
      FormatBack(sc, Env(Free(), p, j), Env(Free(), p, i), x, c);
    } else {
      LambdaBack(sc, Env(Free(), p, j), Env(Free(), p, i), x, c);
    }
  }

  lemma InputReached(sc: Scope, root: Id, x: Id, c: Id)
    requires sc.Ranked() && root in sc.g && x in Reach(sc, root) && x in sc.g && c in Children(sc.g[x])
    ensures c in sc.g && sc.rank(c) < sc.rank(x) && c in Reach(sc, root)
  {
    ReachTransitive(sc, root, x);
    ReachChild(sc, x, c);
    SelfReached(sc, c);
  }

  lemma OncePlaced(sc: Scope, root: Id, p: Program, stepIds: seq<Id>)
    requires LoweredBy(sc, root, p, stepIds)
    ensures sc.Ranked() && root in sc.g && Distinct(stepIds) && |stepIds| == |p.steps.keys|
  {
    hide TraceOp, Reach, Scope.Ranked, DistinctLabels, ColumnsExact, EarlierSteps, IsStepAt;
  }

  lemma NowReadsKept(sc: Scope, p: Program, stepIds: seq<Id>, x: Id, j: nat)
    requires sc.Ranked() && x in sc.g && Distinct(stepIds) && j < |stepIds| == |p.steps.keys| && stepIds[j] == x
    requires sc.g[x].FormatOp? ==> sc.g[x].args == []
    requires forall c :: c in Children(sc.g[x]) ==> c in sc.g && Literals(sc, c) !! Written(p, j)
    ensures StepKept(sc, p, stepIds, x)
  {
    hide Literals, Written, Children;
  }

  lemma {:induction false} MessageBack(sc: Scope, root: Id, p: Program, stepIds: seq<Id>, i: nat, x: Id)
    requires LoweredBy(sc, root, p, stepIds) && WritesOnce(p) && i <= |p.steps.keys| && x in sc.g && sc.g[x].MessageOp?
    requires x in Reach(sc, root) && StepsBefore(sc, stepIds, x, i) && Means(sc, Free(), Env(Free(), p, i), x)
    ensures Literals(sc, x) !! Written(p, i)
    ensures forall y :: y in Reach(sc, x) ==> StepKept(sc, p, stepIds, y)
    decreases sc.rank(x), 0
  {
    assert StepsPresent(p) && !IsStep(sc.g[x]);
    hide *;
    OncePlaced(sc, root, p, stepIds);
    NoStep(sc, root, p, stepIds, x);
    OwnLiteralsBack(sc, p, i, x);
    forall c | c in Children(sc.g[x])
      ensures c in sc.g && Literals(sc, c) !! Written(p, i)
      ensures forall y :: y in Reach(sc, c) ==> StepKept(sc, p, stepIds, y)
    {
      MessageInputMeansBack(sc, p, i, x, c);
      FewerStepsBefore(sc, stepIds, x, c, i);
      InputReached(sc, root, x, c);
      OpMeansBack(sc, root, p, stepIds, i, c);
    }
    JoinLiterals(sc, p, i, x);
    forall y | y in Reach(sc, x) ensures StepKept(sc, p, stepIds, y) {
      if y != x {
        var c := ReachVia(sc, x, y);
      }
    }
  }

  lemma MessageInputMeansBack(sc: Scope, p: Program, i: nat, x: Id, c: Id)
    requires StepsPresent(p) && i <= |p.steps.keys| && x in sc.g && sc.g[x].MessageOp? && c in Children(sc.g[x])
    requires Means(sc, Free(), Env(Free(), p, i), x)
    ensures Means(sc, Free(), Env(Free(), p, i), c)
  {
    hide Env;
    assert MessagesMean(sc, Free(), Env(Free(), p, i), sc.g[x].messages, sc.rank(x));
    MessagesMeanBack(sc, Free(), Env(Free(), p, i), sc.g[x].messages, sc.rank(x), c);
  }

  lemma JoinLiterals(sc: Scope, p: Program, i: nat, x: Id)
    requires sc.Ranked() && x in sc.g && sc.g[x].MessageOp? && i <= |p.steps.keys|
    requires OwnLiterals(sc.g[x].messages) !! Written(p, i)
    requires forall c :: c in Children(sc.g[x]) ==> c in sc.g && Literals(sc, c) !! Written(p, i)
    ensures Literals(sc, x) !! Written(p, i)
  {
    hide OwnLiterals, Written, Children;
  }

  lemma OwnLiteralsBack(sc: Scope, p: Program, i: nat, x: Id)
    requires StepsPresent(p) && i <= |p.steps.keys| && x in sc.g && sc.g[x].MessageOp?
    requires Means(sc, Free(), Env(Free(), p, i), x)
    ensures OwnLiterals(sc.g[x].messages) !! Written(p, i)
  {
    var env, messages := Env(Free(), p, i), sc.g[x].messages;
    EnvKeys(Free(), p, i);
    assert MessagesMean(sc, Free(), env, messages, sc.rank(x));
    hide MessagesMean, Written, Means, Env;
    forall t | t in OwnLiterals(messages) ensures t !in env {
      var k :| 0 <= k < |messages| && messages[k].content == Literal(t);
      LiteralBack(sc, env, messages, sc.rank(x), k);
      if t in env {
        NoLiteralValues(p, i, t);
      }
    }
  }

  /** Lowering drops positional format arguments and takes any text that is a label for that label: meaning is
      preserved under every interpretation if and only if no visited format op has a positional argument and no
      literal is taken for a label. */
  lemma MeaningKeptIff(sc: Scope, root: Id, p: Program)
    requires IsLowering(sc, root, p)
    ensures StepsPresent(p) && Traces(sc, root)
    ensures (forall I: Interp<Term> :: Run(I, p) == Meaning(sc, I, root)) <==>
            KeywordOnly(sc, Reach(sc, root)) && LiteralsKept(sc, root, p)
  {
    var stepIds :| LoweredBy(sc, root, p, stepIds);
    LoweringWritesOnce(sc, root, p, stepIds);
    if KeywordOnly(sc, Reach(sc, root)) && LiteralsKept(sc, root, p) {
      forall I: Interp<Term> ensures Run(I, p) == Meaning(sc, I, root) {
        LoweringPreservesMeaning(sc, I, root, p);
      }
    } else if Run(Free(), p) == Meaning(sc, Free(), root) {
      SelfReached(sc, root);
      AllStepsBefore(sc, root, p, stepIds);
      OpMeansBack(sc, root, p, stepIds, |p.steps.keys|, root);
      KeptFromSteps(sc, root, p, stepIds);
    }
  }

  lemma KeptFromSteps(sc: Scope, root: Id, p: Program, stepIds: seq<Id>)
    requires LoweredBy(sc, root, p, stepIds) && Literals(sc, root) !! Written(p, |p.steps.keys|)
    requires forall y :: y in Reach(sc, root) ==> StepKept(sc, p, stepIds, y)
    ensures KeywordOnly(sc, Reach(sc, root)) && LiteralsKept(sc, root, p)
  {
    OncePlaced(sc, root, p, stepIds);
    forall x, i | x in Reach(sc, root) && IsStepOf(sc, p, x, i) ensures ReadsKept(sc, p, x, i) {
      assert StepKept(sc, p, stepIds, x);
      LabelPlaced(sc, root, p, stepIds, x, i);
    }
    hide LoweredBy, ReadsKept, Literals, Written, Reach;
  }

  /** A label belongs to one step op. */
  lemma LabelPlaced(sc: Scope, root: Id, p: Program, stepIds: seq<Id>, x: Id, i: nat)
    requires LoweredBy(sc, root, p, stepIds) && x in Reach(sc, root) && IsStepOf(sc, p, x, i) && i < |stepIds|
    ensures stepIds[i] == x
  {
    hide TraceOp, Reach, Scope.Ranked, ColumnsExact, EarlierSteps, StepOf, StepLabel;
    assert IsStepAt(sc, p.steps, stepIds[i], i);
    assert Owns(sc, x, p.steps.keys[i]) && Owns(sc, stepIds[i], p.steps.keys[i]);
  }

  /** Why literals must not be labels: a user message whose text is the id of an input column
      is replaced by that column's values. */
  lemma LiteralCapturedByColumn() returns (sc: Scope, root: Id, p: Program)
    ensures IsLowering(sc, root, p) && KeywordOnly(sc, Reach(sc, root))
    ensures StepsPresent(p) && Run(Free(), p) != Meaning(sc, Free(), root)
    ensures !LiteralsKept(sc, root, p)
  {
    sc, root, p := CapturedExample(), "m", CapturedColumns();
    hide *;
    CapturedTrace(sc);
    CapturedLowering(sc, p);
    CapturedMeaning(sc, p);
    CapturedLiteral(sc);
    Witnessed(sc, root, p);
    if LiteralsKept(sc, root, p) {
      LoweringPreservesMeaning(sc, Free(), root, p);
    }
  }

  lemma Witnessed(sc: Scope, root: Id, p: Program)
    requires LoweredBy(sc, root, p, [])
    ensures IsLowering(sc, root, p)
  {
  }

  ghost function CapturedExample(): (r: Scope)
    ensures CapturedScope(r)
  {
    Scope(map["x" := InputOp("q"), "m" := MessageOp(CapturedMessages())],
          (id: Id) => if id == "m" then 1 else 0, map["q" := ["row"]])
  }

  ghost function CapturedColumns(): (r: Program)
    ensures CapturedProgram(r)
  {
    Program(Dict(["x"], map["x" := ListColumn(["row"])]), Dict([], map[]), [Packed(User, "x"), Packed(User, "x")])
  }

  lemma CapturedLiteral(sc: Scope)
    requires CapturedScope(sc) && sc.Ranked() && Reach(sc, "m") == {"m", "x"}
    ensures KeywordOnly(sc, Reach(sc, "m"))
  {
    hide Reach;
  }

  function CapturedMessages(): (r: seq<OpMessage>) {
    [OpMessage("user", Ref("x")), OpMessage("user", Literal("x"))]
  }

  ghost predicate CapturedScope(sc: Scope) {
    sc.g == map["x" := InputOp("q"), "m" := MessageOp(CapturedMessages())] &&
    sc.inputs == map["q" := ["row"]] && sc.rank("m") == 1 && sc.rank("x") == 0
  }

  ghost predicate CapturedProgram(p: Program) {
    p.columns == Dict(["x"], map["x" := ListColumn(["row"])]) && p.steps == Dict([], map[]) &&
    p.messages == [Packed(User, "x"), Packed(User, "x")]
  }

  lemma CapturedReach(sc: Scope)
    requires CapturedScope(sc)
    ensures sc.Ranked() && Reach(sc, "m") == {"m", "x"} && Children(sc.g["m"]) == ["x"]
    ensures TraceOp(sc, "x") == Ok([Packed(User, "x")])
  {
    var messages := CapturedMessages();
    assert messages[..1] == [messages[0]] && messages[..1][..0] == [];
    assert MessageRefs(messages[..1]) == ["x"] && MessageRefs(messages) == ["x"];
    assert Reach(sc, "x") == {"x"};
  }

  lemma CapturedRetag()
    ensures ParseRole("user") == Some(User) && Retag("user", [Packed(User, "x")]) == Ok([Packed(User, "x")])
  {
    assert |"user"| == 4 && |"system"| == 6 && ParseRole("user") == Some(User);
    var one := [Packed(User, "x")];
    assert one[..|one| - 1] == [] && Retag("user", one[..|one| - 1]) == Ok([]);
    assert [] + one == one;
  }

  lemma CapturedTrace(sc: Scope)
    requires CapturedScope(sc)
    ensures sc.Ranked() && Reach(sc, "m") == {"m", "x"} && AllTrace(sc, Reach(sc, "m"))
    ensures Traced(sc, "m") == [Packed(User, "x"), Packed(User, "x")]
    ensures MessagesOk(sc, CapturedMessages(), 1) && Traces(sc, "x") && Traces(sc, "m")
  {
    var messages, one := CapturedMessages(), [Packed(User, "x")];
    CapturedReach(sc);
    CapturedRetag();
    assert sc.Below(["x"], 1);
    hide Reach, Retag, ParseRole, MessageRefs;
    assert MessageRefs(messages[..1]) == ["x"] && MessageRefs(messages[..0]) == [] && MessageRefs(messages) == ["x"] by {
      CapturedRefs();
    }
    CapturedPrefixes(sc);
  }

  lemma CapturedRefs()
    ensures var m := CapturedMessages();
      MessageRefs(m[..1]) == ["x"] && MessageRefs(m[..0]) == [] && MessageRefs(m) == ["x"]
  {
    var m := CapturedMessages();
    assert m[..1] == [m[0]] && m[..1][..0] == [] && m[..0] == [];
  }

  lemma CapturedPrefixes(sc: Scope)
    requires CapturedScope(sc) && sc.Ranked() && TraceOp(sc, "x") == Ok([Packed(User, "x")])
    requires sc.Below(["x"], 1)
    ensures var m := CapturedMessages();
      MessageRefs(m) == ["x"] && TraceMessages(sc, m, 1) == Ok([Packed(User, "x"), Packed(User, "x")])
  {
    var m, one := CapturedMessages(), [Packed(User, "x")];
    CapturedRefs();
    CapturedRetag();
    hide Retag, ParseRole, MessageRefs;
    assert m[..|m| - 1] == m[..1] && m[..1][..|m[..1]| - 1] == m[..0] && m[..0] == [];
    assert TraceMessages(sc, m[..1], 1) == Ok(one) by { assert [] + one == one; }
    assert one + one == [Packed(User, "x"), Packed(User, "x")];
  }

  lemma CapturedLowering(sc: Scope, p: Program)
    requires CapturedScope(sc) && CapturedProgram(p)
    requires sc.Ranked() && Reach(sc, "m") == {"m", "x"} && AllTrace(sc, Reach(sc, "m"))
    requires Traced(sc, "m") == [Packed(User, "x"), Packed(User, "x")]
    ensures LoweredBy(sc, "m", p, [])
  {
    hide TraceOp, Reach;
    assert ColumnsOf("x", sc.g["x"], sc.inputs) == map["x" := ListColumn(["row"])];
    assert HasColumn(sc, "x", "x");
  }

  lemma CapturedMeaning(sc: Scope, p: Program)
    requires CapturedScope(sc) && CapturedProgram(p) && Traces(sc, "m") && Traces(sc, "x")
    requires MessagesOk(sc, CapturedMessages(), 1) && Traced(sc, "m") == [Packed(User, "x"), Packed(User, "x")]
    ensures StepsPresent(p) && Run(Free(), p) != Meaning(sc, Free(), "m")
  {
    var messages := CapturedMessages();
    MessagesPrefix(sc, messages, 1);
    assert messages[1].content == Literal("x") && messages[..1] == [messages[0]];
    var meant := Meaning(sc, Free(), "m");
    assert meant == MeaningOfMessages(sc, Free(), messages, 1);
    assert meant[1].value == Lit("x");
    assert Run(Free(), p)[1].value == List(["row"]);
  }
}
