/** The imperative trace of `_infer_structural_messages`: shared dictionaries updated in place
    by a memoised recursion, proved against the memo-free functions of `Lowering`. */
module Tracer {
  import opened Collections
  import opened Ops
  import opened Lowering
  import opened StepOrder

  // ---- what the accumulators hold once the ops in `done` are traced ------------------------

  /** Exactly the columns of the traced leaves. */
  ghost predicate ColumnsExact(sc: Scope, columns: Dict<Column>, done: set<Id>) {
    columns.Valid() &&
    (forall x, l :: x in done && HasColumn(sc, x, l) ==>
      l in columns.vals && columns.vals[l] == ColumnsOf(x, sc.g[x], sc.inputs)[l]) &&
    (forall l :: l in columns.vals ==> exists x :: x in done && HasColumn(sc, x, l))
  }

  ghost predicate AllTrace(sc: Scope, ids: set<Id>) {
    forall x :: x in ids ==> Traces(sc, x)
  }

  ghost predicate IsStepAt(sc: Scope, steps: Dict<Step>, x: Id, i: nat) {
    StepTraces(sc, x) && i < |steps.keys| && steps.keys[i] == StepLabel(x, sc.g[x]) &&
    steps.keys[i] in steps.vals && steps.vals[steps.keys[i]] == StepOf(sc, x)
  }

  /** One step for each traced format or lambda op, in the order `stepIds`. */
  ghost predicate StepsExact(sc: Scope, steps: Dict<Step>, done: set<Id>, stepIds: seq<Id>) {
    steps.Valid() && Distinct(stepIds) && |steps.keys| == |stepIds| &&
    (forall x :: x in stepIds <==> x in done && x in sc.g && IsStep(sc.g[x])) &&
    (forall i :: 0 <= i < |stepIds| ==> IsStepAt(sc, steps, stepIds[i], i))
  }

  /** What a step is computed from is emitted before it. */
  ghost predicate EarlierSteps(sc: Scope, stepIds: seq<Id>) {
    forall i :: 0 <= i < |stepIds| ==> StepInputsIn(sc, stepIds[i], stepIds[..i])
  }

  ghost predicate StepInputsIn(sc: Scope, x: Id, earlier: seq<Id>) {
    sc.Ranked() && x in sc.g &&
    forall y :: y in Reach(sc, x) && IsStep(sc.g[y]) && y != x ==> y in earlier
  }

  ghost predicate Closed(sc: Scope, done: set<Id>) {
    sc.Ranked() && forall x :: x in done ==> x in sc.g && Reach(sc, x) <= done
  }

  ghost function Generators(sc: Scope, ids: set<Id>): (r: set<Id>) {
    set x | x in ids && x in sc.g && sc.g[x].Generator?
  }

  ghost predicate Accumulated(sc: Scope, columns: Dict<Column>, steps: Dict<Step>, upstream: set<Id>,
                              done: set<Id>, stepIds: seq<Id>) {
    sc.Ranked() && DistinctLabels(sc) && AllTrace(sc, done) && Closed(sc, done) &&
    ColumnsExact(sc, columns, done) && StepsExact(sc, steps, done, stepIds) && EarlierSteps(sc, stepIds) &&
    upstream == Generators(sc, done)
  }

  /** The memo: the traces of finished ops, and partial lists for message ops being traced. */
  ghost predicate Memo(sc: Scope, buffer: map<Id, seq<Msg>>, done: set<Id>, active: set<Id>) {
    done <= buffer.Keys <= done + active && done !! active &&
    forall x :: x in done ==> Traces(sc, x) && buffer[x] == Traced(sc, x)
  }

  ghost predicate TracesTo(sc: Scope, id: Id, msgs: seq<Msg>) {
    Traces(sc, id) && Traced(sc, id) == msgs
  }

  // ---- finishing one op --------------------------------------------------------------------

  ghost predicate IsLeaf(op: Op) { op.InputOp? || op.DataOp? || op.RetrievalOp? || op.Generator? }

  lemma OwnLabelFree(sc: Scope, columns: Dict<Column>, done: set<Id>, id: Id)
    requires DistinctLabels(sc) && ColumnsExact(sc, columns, done) && id !in done && Owns(sc, id, id)
    ensures id !in columns.vals
  {
    if id in columns.vals {
      var x :| x in done && HasColumn(sc, x, id);
      assert Owns(sc, x, id);
    }
  }

  ghost predicate NewColumns(sc: Scope, columns: Dict<Column>, id: Id, columns': Dict<Column>)
    requires id in sc.g
  {
    columns'.Valid() && columns'.vals == columns.vals + ColumnsOf(id, sc.g[id], sc.inputs)
  }

  lemma AddColumns(sc: Scope, columns: Dict<Column>, done: set<Id>, id: Id, columns': Dict<Column>)
    requires DistinctLabels(sc) && ColumnsExact(sc, columns, done)
    requires id in sc.g && id !in done && NewColumns(sc, columns, id, columns')
    ensures ColumnsExact(sc, columns', done + {id})
  {
    hide ColumnsOf, IsStep, StepLabel;
    forall x, l | x in done + {id} && HasColumn(sc, x, l)
      ensures l in columns'.vals && columns'.vals[l] == ColumnsOf(x, sc.g[x], sc.inputs)[l]
    {
      assert Owns(sc, x, l);
      assert HasColumn(sc, id, l) ==> Owns(sc, id, l);
    }
    forall l | l in columns'.vals ensures exists x :: x in done + {id} && HasColumn(sc, x, l) {
      if l in columns.vals {
        var x :| x in done && HasColumn(sc, x, l);
        assert x in done + {id};
      } else {
        assert HasColumn(sc, id, l);
      }
    }
  }

  lemma CloseOver(sc: Scope, done: set<Id>, id: Id)
    requires Closed(sc, done) && AllTrace(sc, done) && Traces(sc, id)
    requires forall c :: c in Children(sc.g[id]) ==> c in done
    ensures Closed(sc, done + {id}) && AllTrace(sc, done + {id})
  {
    forall x | x in done + {id} ensures x in sc.g && Reach(sc, x) <= done + {id} {
      if x == id {
        forall y | y in Reach(sc, id) ensures y in done + {id} {
          if y != id {
            var c :| c in Children(sc.g[id]) && y in Reach(sc, c);
          }
        }
      }
    }
  }

  lemma FinishLeaf(sc: Scope, columns: Dict<Column>, steps: Dict<Step>, upstream: set<Id>, done: set<Id>,
                   stepIds: seq<Id>, id: Id, columns': Dict<Column>)
    requires Accumulated(sc, columns, steps, upstream, done, stepIds)
    requires Traces(sc, id) && id !in done && IsLeaf(sc.g[id]) && NewColumns(sc, columns, id, columns')
    ensures Accumulated(sc, columns', steps, Generators(sc, done + {id}), done + {id}, stepIds)
    ensures Reach(sc, id) == {id}
  {
    hide ColumnsExact, DistinctLabels, NewColumns, AllTrace, Closed, EarlierSteps, IsStepAt, TraceOp;
    AddColumns(sc, columns, done, id, columns');
    CloseOver(sc, done, id);
  }

  ghost predicate IsColumnLeaf(sc: Scope, id: Id, column: Column) {
    TracesTo(sc, id, [Packed(User, id)]) && IsLeaf(sc.g[id]) && !sc.g[id].Generator? &&
    ColumnsOf(id, sc.g[id], sc.inputs) == map[id := column]
  }

  ghost predicate EmitsStep(sc: Scope, id: Id, step: Step) {
    StepTraces(sc, id) && step == StepOf(sc, id) && TracesTo(sc, id, [Packed(User, StepLabel(id, sc.g[id]))])
  }

  /** The direct branches of the trace. */
  lemma LeafTrace(sc: Scope, id: Id)
    requires sc.Ranked() && id in sc.g
    ensures var op := sc.g[id];
      && (op.InputOp? && op.name !in sc.inputs ==> TraceOp(sc, id) == Err(MissingInput))
      && (op.InputOp? && op.name in sc.inputs ==> IsColumnLeaf(sc, id, ListColumn(sc.inputs[op.name])))
      && (op.DataOp? ==> IsColumnLeaf(sc, id, ListColumn(op.data)))
      && (op.RetrievalOp? ==> IsColumnLeaf(sc, id, NodeColumn(id, RetrievalPath(op.mode))))
      && (op.OtherOp? ==> TraceOp(sc, id) == Err(UnsupportedOp))
  {
  }

  lemma GeneratorLeaf(sc: Scope, columns: Dict<Column>, done: set<Id>, stepIds: seq<Id>, steps: Dict<Step>,
                      upstream: set<Id>, id: Id, columns': Dict<Column>, msgs: seq<Msg>)
    requires Accumulated(sc, columns, steps, upstream, done, stepIds)
    requires id in sc.g && id !in done && sc.g[id].Generator?
    requires var output := NodeColumn(id, "items.output");
      columns' == (if sc.g[id].returnHistory
                   then columns.Put(ContextLabel(id), NodeColumn(id, "items.metadata.prompt")) else columns)
                  .Put(OutputLabel(id), output)
    requires msgs == (if sc.g[id].returnHistory then [Bare(ContextLabel(id))] else [])
                     + [Packed(Assistant, OutputLabel(id))]
    ensures TracesTo(sc, id, msgs) && Reach(sc, id) == {id}
    ensures Accumulated(sc, columns', steps, upstream + {id}, done + {id}, stepIds)
  {
    assert columns.Valid() && sc.Ranked();
    GeneratorColumns(sc, columns, id);
    GeneratorAdded(sc, columns, steps, upstream, done, stepIds, id);
    assert TraceOp(sc, id) == Ok(msgs);
    hide *;
    FinishLeaf(sc, columns, steps, upstream, done, stepIds, id, columns');
  }

  lemma GeneratorAdded(sc: Scope, columns: Dict<Column>, steps: Dict<Step>, upstream: set<Id>, done: set<Id>,
                       stepIds: seq<Id>, id: Id)
    requires Accumulated(sc, columns, steps, upstream, done, stepIds) && id in sc.g && sc.g[id].Generator?
    ensures Generators(sc, done + {id}) == upstream + {id}
  {
  }

  lemma GeneratorColumns(sc: Scope, columns: Dict<Column>, id: Id)
    requires columns.Valid() && id in sc.g && sc.g[id].Generator?
    ensures NewColumns(sc, columns, id,
                       (if sc.g[id].returnHistory
                        then columns.Put(ContextLabel(id), NodeColumn(id, "items.metadata.prompt")) else columns)
                       .Put(OutputLabel(id), NodeColumn(id, "items.output")))
  {
    var prompt, output := NodeColumn(id, "items.metadata.prompt"), NodeColumn(id, "items.output");
    var context, out := ContextLabel(id), OutputLabel(id);
    assert ColumnsOf(id, sc.g[id], sc.inputs) ==
           (if sc.g[id].returnHistory then map[context := prompt] else map[]) + map[out := output];
    hide *;
    PutTwice(columns, sc.g[id].returnHistory, context, prompt, out, output);
    AreNew(sc, columns, id, (if sc.g[id].returnHistory then columns.Put(context, prompt) else columns).Put(out, output));
  }

  lemma AreNew(sc: Scope, columns: Dict<Column>, id: Id, columns': Dict<Column>)
    requires id in sc.g && columns'.Valid() && columns'.vals == columns.vals + ColumnsOf(id, sc.g[id], sc.inputs)
    ensures NewColumns(sc, columns, id, columns')
  {
  }

  lemma PutTwice(d: Dict<Column>, both: bool, k: string, v: Column, l: string, w: Column)
    requires d.Valid()
    ensures var d' := (if both then d.Put(k, v) else d).Put(l, w);
      d'.Valid() && d'.vals == d.vals + ((if both then map[k := v] else map[]) + map[l := w])
  {
  }

  lemma ColumnLeaf(sc: Scope, columns: Dict<Column>, done: set<Id>, stepIds: seq<Id>, steps: Dict<Step>,
                   upstream: set<Id>, id: Id, column: Column)
    requires Accumulated(sc, columns, steps, upstream, done, stepIds)
    requires id !in done && IsColumnLeaf(sc, id, column)
    ensures id !in columns.vals && Reach(sc, id) == {id}
    ensures Accumulated(sc, columns.Put(id, column), steps, upstream, done + {id}, stepIds)
  {
    hide TraceOp, Reach, StepLabel, ColumnsOf, AllTrace, Closed, StepsExact, EarlierSteps;
    assert HasColumn(sc, id, id) && Owns(sc, id, id);
    OwnLabelFree(sc, columns, done, id);
    assert NewColumns(sc, columns, id, columns.Put(id, column));
    hide *;
    FinishLeaf(sc, columns, steps, upstream, done, stepIds, id, columns.Put(id, column));
    SameGenerators(sc, columns, steps, upstream, done, stepIds, id);
  }

  lemma SameGenerators(sc: Scope, columns: Dict<Column>, steps: Dict<Step>, upstream: set<Id>, done: set<Id>,
                       stepIds: seq<Id>, id: Id)
    requires Accumulated(sc, columns, steps, upstream, done, stepIds) && id in sc.g && !sc.g[id].Generator?
    ensures Generators(sc, done + {id}) == upstream
  {
  }

  lemma NoColumns(sc: Scope, columns: Dict<Column>, id: Id)
    requires columns.Valid() && id in sc.g && !IsLeaf(sc.g[id])
    ensures NewColumns(sc, columns, id, columns)
  {
  }

  lemma FinishMessage(sc: Scope, columns: Dict<Column>, steps: Dict<Step>, upstream: set<Id>, done: set<Id>,
                      stepIds: seq<Id>, id: Id)
    requires Accumulated(sc, columns, steps, upstream, done, stepIds)
    requires Traces(sc, id) && id !in done && sc.g[id].MessageOp?
    requires forall c :: c in Children(sc.g[id]) ==> c in done
    ensures Accumulated(sc, columns, steps, upstream, done + {id}, stepIds)
  {
    hide DistinctLabels, NewColumns, AllTrace, Closed, EarlierSteps, IsStepAt, TraceOp, ColumnsOf, HasColumn;
    NoColumns(sc, columns, id);
    AddColumns(sc, columns, done, id, columns);
    CloseOver(sc, done, id);
    assert Generators(sc, done + {id}) == Generators(sc, done);
  }

  lemma StepLabelFree(sc: Scope, steps: Dict<Step>, done: set<Id>, stepIds: seq<Id>, id: Id, i: nat)
    requires DistinctLabels(sc) && StepsExact(sc, steps, done, stepIds) && i < |stepIds|
    requires id in sc.g && id !in done && IsStep(sc.g[id])
    ensures StepLabel(id, sc.g[id]) != steps.keys[i]
  {
    hide ColumnsOf, StepLabel, StepOf;
    assert IsStepAt(sc, steps, stepIds[i], i);
    assert Owns(sc, stepIds[i], steps.keys[i]);
    assert stepIds[i] in stepIds;
    assert Owns(sc, id, StepLabel(id, sc.g[id]));
  }

  lemma AppendStep(sc: Scope, steps: Dict<Step>, done: set<Id>, stepIds: seq<Id>, id: Id)
    requires DistinctLabels(sc) && StepsExact(sc, steps, done, stepIds) && StepTraces(sc, id) && id !in done
    ensures StepsExact(sc, steps.Put(StepLabel(id, sc.g[id]), StepOf(sc, id)), done + {id}, stepIds + [id])
  {
    var l := StepLabel(id, sc.g[id]);
    hide DistinctLabels, StepLabel, StepOf, TraceOp, Traces;
    forall i | 0 <= i < |stepIds| ensures steps.keys[i] != l {
      StepLabelFree(sc, steps, done, stepIds, id, i);
    }
    assert l !in steps.vals;
    var steps', stepIds' := steps.Put(l, StepOf(sc, id)), stepIds + [id];
    forall i | 0 <= i < |stepIds'| ensures IsStepAt(sc, steps', stepIds'[i], i) {
      assert i < |stepIds| ==> IsStepAt(sc, steps, stepIds[i], i);
    }
    DistinctSnoc(stepIds, id);
  }

  lemma DistinctSnoc<T(!new)>(s: seq<T>, x: T)
    requires Distinct(s) && x !in s
    ensures Distinct(s + [x]) && forall y :: y in s + [x] <==> y in s || y == x
  {
  }

  lemma AppendEarlier(sc: Scope, done: set<Id>, stepIds: seq<Id>, id: Id)
    requires EarlierSteps(sc, stepIds) && Closed(sc, done) && id in sc.g
    requires forall x :: x in stepIds <==> x in done && x in sc.g && IsStep(sc.g[x])
    requires forall c :: c in Children(sc.g[id]) ==> c in done
    ensures EarlierSteps(sc, stepIds + [id])
  {
    hide IsStep;
    var stepIds' := stepIds + [id];
    forall i | 0 <= i < |stepIds'| ensures StepInputsIn(sc, stepIds'[i], stepIds'[..i]) {
      if i < |stepIds| {
        assert stepIds'[..i] == stepIds[..i];
      } else {
        assert stepIds'[..i] == stepIds;
        forall y | y in Reach(sc, id) && IsStep(sc.g[y]) && y != id ensures y in stepIds {
          var c :| c in Children(sc.g[id]) && y in Reach(sc, c);
        }
      }
    }
  }

  lemma FinishStep(sc: Scope, columns: Dict<Column>, steps: Dict<Step>, upstream: set<Id>, done: set<Id>,
                   stepIds: seq<Id>, id: Id)
    requires Accumulated(sc, columns, steps, upstream, done, stepIds)
    requires StepTraces(sc, id) && id !in done && forall c :: c in Children(sc.g[id]) ==> c in done
    ensures Accumulated(sc, columns, steps.Put(StepLabel(id, sc.g[id]), StepOf(sc, id)), upstream,
                        done + {id}, stepIds + [id])
  {
    assert Generators(sc, done + {id}) == Generators(sc, done);
    assert !IsLeaf(sc.g[id]) && columns.Valid();
    AppendEarlier(sc, done, stepIds, id);
    hide *;
    NoColumns(sc, columns, id);
    AddColumns(sc, columns, done, id, columns);
    CloseOver(sc, done, id);
    AppendStep(sc, steps, done, stepIds, id);
    Accumulate(sc, columns, steps.Put(StepLabel(id, sc.g[id]), StepOf(sc, id)), upstream, done + {id}, stepIds + [id]);
  }

  lemma Accumulate(sc: Scope, columns: Dict<Column>, steps: Dict<Step>, upstream: set<Id>, done: set<Id>,
                   stepIds: seq<Id>)
    requires sc.Ranked() && DistinctLabels(sc) && AllTrace(sc, done) && Closed(sc, done)
    requires ColumnsExact(sc, columns, done) && StepsExact(sc, steps, done, stepIds) && EarlierSteps(sc, stepIds)
    requires upstream == Generators(sc, done)
    ensures Accumulated(sc, columns, steps, upstream, done, stepIds)
  {
  }

  ghost function ReachAll(sc: Scope, ids: seq<Id>): (r: set<Id>)
    requires sc.Ranked() && forall c :: c in ids ==> c in sc.g
  {
    set c, y | c in ids && y in Reach(sc, c) :: y
  }

  lemma ReachSplit(sc: Scope, id: Id)
    requires sc.Ranked() && id in sc.g
    ensures Reach(sc, id) == {id} + ReachAll(sc, Children(sc.g[id]))
  {
  }

  lemma ReachSnoc(sc: Scope, ids: seq<Id>, i: nat)
    requires sc.Ranked() && i < |ids| && forall c :: c in ids ==> c in sc.g
    ensures ReachAll(sc, ids[..i + 1]) == ReachAll(sc, ids[..i]) + Reach(sc, ids[i])
  {
    assert ids[..i + 1] == ids[..i] + [ids[i]];
  }

  lemma ReachBelow(sc: Scope, ids: seq<Id>, bound: nat)
    requires sc.Ranked() && sc.Below(ids, bound)
    ensures forall y :: y in ReachAll(sc, ids) ==> sc.rank(y) < bound
  {
  }

  lemma MemoSet(sc: Scope, buffer: map<Id, seq<Msg>>, done: set<Id>, active: set<Id>, id: Id, msgs: seq<Msg>)
    requires Memo(sc, buffer, done, active + {id}) && id !in done
    ensures Memo(sc, buffer[id := msgs], done, active + {id})
  {
  }

  lemma RecordMemo(sc: Scope, buffer: map<Id, seq<Msg>>, done: set<Id>, active: set<Id>, id: Id, msgs: seq<Msg>)
    requires Memo(sc, buffer, done, active + {id}) && id !in active && TracesTo(sc, id, msgs)
    ensures Memo(sc, buffer[id := msgs], done + {id}, active)
  {
  }

  /** Tracing `id` adds the ops it reaches. */
  ghost predicate Adds(sc: Scope, before: set<Id>, id: Id, after: set<Id>) {
    sc.Ranked() && id in sc.g && after == before + Reach(sc, id)
  }

  /** The memo entries of the ops being traced are left alone. */
  ghost predicate Keeps(before: map<Id, seq<Msg>>, after: map<Id, seq<Msg>>, active: set<Id>) {
    forall a :: a in active && a in before ==> a in after && after[a] == before[a]
  }

  // ---- tracing the inputs of an op ---------------------------------------------------------

  ghost predicate LabelsFor(sc: Scope, labels: map<Id, seq<Msg>>, ids: seq<Id>) {
    labels.Keys == Elems(ids) && forall c :: c in ids ==> c in labels && TracesTo(sc, c, labels[c])
  }

  lemma LabelsSnoc(sc: Scope, labels: map<Id, seq<Msg>>, ids: seq<Id>, i: nat, msgs: seq<Msg>)
    requires i < |ids| && LabelsFor(sc, labels, ids[..i]) && TracesTo(sc, ids[i], msgs)
    ensures LabelsFor(sc, labels[ids[i] := msgs], ids[..i + 1])
  {
    hide TracesTo;
    ElemsSnoc(ids, i);
    forall c | c in ids[..i + 1] ensures c in ids[..i] || c == ids[i] {
    }
  }

  lemma InputsStart(sc: Scope, ids: seq<Id>, bound: nat)
    requires sc.Ranked()
    ensures LabelsFor(sc, map[], ids[..0]) && TraceAll(sc, ids[..0], bound).Ok? && ReachAll(sc, ids[..0]) == {}
  {
    assert ids[..0] == [];
  }

  lemma TraceAllNext(sc: Scope, ids: seq<Id>, bound: nat, i: nat)
    requires sc.Ranked() && sc.Below(ids, bound) && i < |ids| && TraceAll(sc, ids[..i], bound).Ok?
    ensures ids[i] in ids && ids[i] in sc.g
    ensures TraceOp(sc, ids[i]).Ok? ==> TraceAll(sc, ids[..i + 1], bound).Ok?
    ensures TraceOp(sc, ids[i]).Err? ==> TraceAll(sc, ids, bound) == Err(TraceOp(sc, ids[i]).error)
  {
    assert ids[..i + 1][..i] == ids[..i];
    if TraceOp(sc, ids[i]).Err? {
      TraceAllErr(sc, ids, bound, i);
    }
  }

  predicate AllOne(labels: map<Id, seq<Msg>>) {
    forall c :: c in labels ==> |labels[c]| == 1
  }

  predicate NoneEmpty(labels: map<Id, seq<Msg>>) {
    forall c :: c in labels ==> labels[c] != []
  }

  /** The dictionary of traced inputs decides what the list of traces would. */
  lemma LabelsDecide(sc: Scope, labels: map<Id, seq<Msg>>, ids: seq<Id>, bound: nat)
    requires sc.Ranked() && sc.Below(ids, bound) && TraceAll(sc, ids, bound).Ok? && LabelsFor(sc, labels, ids)
    ensures AllOne(labels) <==> AllSingle(TraceAll(sc, ids, bound).value)
    ensures NoneEmpty(labels) <==> AllNonEmpty(TraceAll(sc, ids, bound).value)
  {
    forall i | 0 <= i < |ids| ensures ids[i] in labels && TraceAll(sc, ids, bound).value[i] == labels[ids[i]] {
      TraceAllAt(sc, ids, bound, i);
      assert ids[i] in ids;
    }
    forall c | c in labels ensures exists i :: 0 <= i < |ids| && ids[i] == c {
      assert c in Elems(ids);
    }
  }

  lemma FormatErrors(sc: Scope, id: Id)
    requires sc.Ranked() && id in sc.g && IsStep(sc.g[id])
    ensures sc.g[id].FormatOp? && Children(sc.g[id]) == [] ==> TraceOp(sc, id) == Err(NoFormatInput)
    ensures Children(sc.g[id]) != [] && TraceAll(sc, Children(sc.g[id]), sc.rank(id)).Err? ==>
      TraceOp(sc, id) == Err(TraceAll(sc, Children(sc.g[id]), sc.rank(id)).error)
    ensures Children(sc.g[id]) == [] ==> TraceAll(sc, Children(sc.g[id]), sc.rank(id)).Ok?
  {
  }

  lemma Emitted(sc: Scope, id: Id, step: Step)
    requires EmitsStep(sc, id, step)
    ensures sc.Ranked() && id in sc.g && StepTraces(sc, id) && step == StepOf(sc, id)
    ensures TracesTo(sc, id, [Packed(User, StepLabel(id, sc.g[id]))])
    ensures TraceOp(sc, id) == Ok([Packed(User, StepLabel(id, sc.g[id]))])
  {
  }

  /** What a format op does with its traced inputs. */
  lemma FormatTrace(sc: Scope, id: Id, labels: map<Id, seq<Msg>>)
    requires sc.Ranked() && id in sc.g && sc.g[id].FormatOp? && Children(sc.g[id]) != []
    requires TraceAll(sc, Children(sc.g[id]), sc.rank(id)).Ok? && LabelsFor(sc, labels, Children(sc.g[id]))
    ensures !AllOne(labels) ==> TraceOp(sc, id) == Err(FormatInputNotSingle)
    ensures AllOne(labels) ==> EmitsStep(sc, id, Template(sc.g[id].template, BindKwargs(labels, sc.g[id].kwargs)))
  {
    LabelsDecide(sc, labels, Children(sc.g[id]), sc.rank(id));
    if AllOne(labels) {
      var kwargs := sc.g[id].kwargs;
      forall i | 0 <= i < |kwargs|
        ensures kwargs[i].1 in labels && Traces(sc, kwargs[i].1) && labels[kwargs[i].1] == Traced(sc, kwargs[i].1)
      {
        KwargIsChild(sc.g[id], i);
      }
    }
  }

  /** `[{"label": k, "value": message_labels[v.id][0]} for k, v in op.format_kwargs.items()]`. */
  function BindKwargs(labels: map<Id, seq<Msg>>, kwargs: seq<(string, Id)>): (r: seq<(string, string)>) {
    seq(|kwargs|, i requires 0 <= i < |kwargs| =>
      (kwargs[i].0, if kwargs[i].1 in labels && labels[kwargs[i].1] != [] then labels[kwargs[i].1][0].text else ""))
  }

  lemma LambdaTrace(sc: Scope, id: Id, labels: map<Id, seq<Msg>>)
    requires sc.Ranked() && id in sc.g && sc.g[id].LambdaOp?
    requires TraceAll(sc, Children(sc.g[id]), sc.rank(id)).Ok? && LabelsFor(sc, labels, Children(sc.g[id]))
    ensures !NoneEmpty(labels) ==> TraceOp(sc, id) == Err(EmptyLambdaArgument)
    ensures NoneEmpty(labels) ==> EmitsStep(sc, id, Function(sc.g[id].code, BindArgs(labels, sc.g[id].inputs)))
  {
    LabelsDecide(sc, labels, Children(sc.g[id]), sc.rank(id));
    assert forall i :: 0 <= i < |sc.g[id].inputs| ==> sc.g[id].inputs[i] in Children(sc.g[id]);
  }

  function BindArgs(labels: map<Id, seq<Msg>>, ids: seq<Id>): (r: seq<Arg>) {
    seq(|ids|, i requires 0 <= i < |ids| =>
      if ids[i] in labels && labels[ids[i]] != [] then ToArg(labels[ids[i]]) else Many([]))
  }

  ghost predicate InputsDone(sc: Scope, id: Id, before: set<Id>, done: set<Id>) {
    sc.Ranked() && id in sc.g && done == before + ReachAll(sc, Children(sc.g[id]))
  }

  /** With its inputs traced, the step op itself can be recorded. */
  lemma StepReady(sc: Scope, columns: Dict<Column>, steps: Dict<Step>, upstream: set<Id>, done: set<Id>,
                  stepIds: seq<Id>, id: Id, before: set<Id>)
    requires Accumulated(sc, columns, steps, upstream, done, stepIds) && StepTraces(sc, id) && id !in done
    requires InputsDone(sc, id, before, done)
    ensures Accumulated(sc, columns, steps.Put(StepLabel(id, sc.g[id]), StepOf(sc, id)), upstream,
                        done + {id}, stepIds + [id])
    ensures Adds(sc, before, id, done + {id})
  {
    hide *;
    ChildrenDone(sc, id, done, before);
    FinishStep(sc, columns, steps, upstream, done, stepIds, id);
  }

  lemma ChildrenDone(sc: Scope, id: Id, done: set<Id>, before: set<Id>)
    requires InputsDone(sc, id, before, done)
    ensures forall c :: c in Children(sc.g[id]) ==> c in done
    ensures Adds(sc, before, id, done + {id})
  {
    var ids := Children(sc.g[id]);
    assert forall x :: x in ids ==> x in sc.g;
    ReachSplit(sc, id);
    hide Children, Reach, ReachAll, Scope.Ranked;
    forall c | c in ids ensures c in done {
      ReachIncludes(sc, ids, c);
    }
  }

  lemma ReachIncludes(sc: Scope, ids: seq<Id>, c: Id)
    requires sc.Ranked() && c in ids && forall x :: x in ids ==> x in sc.g
    ensures c in ReachAll(sc, ids)
  {
    hide Scope.Ranked;
    var own := Reach(sc, c);
    assert c in own;
  }

  /** Tracing the inputs never reaches the op itself. */
  lemma StillNew(sc: Scope, id: Id, before: set<Id>, done: set<Id>)
    requires id !in before && InputsDone(sc, id, before, done)
    ensures id !in done
  {
    ReachBelow(sc, Children(sc.g[id]), sc.rank(id));
    hide Children, Reach, ReachAll, Scope.Ranked;
  }

  // ---- tracing a message op ----------------------------------------------------------------

  /** The first `i` messages of the op trace to `msgs`. */
  ghost predicate MessagesTo(sc: Scope, id: Id, i: nat, msgs: seq<Msg>) {
    sc.Ranked() && id in sc.g && sc.g[id].MessageOp? && i <= |sc.g[id].messages| &&
    sc.Below(MessageRefs(sc.g[id].messages[..i]), sc.rank(id)) &&
    TraceMessages(sc, sc.g[id].messages[..i], sc.rank(id)) == Ok(msgs)
  }

  ghost predicate RefsReached(sc: Scope, id: Id, i: nat, before: set<Id>, done: set<Id>) {
    sc.Ranked() && id in sc.g && sc.g[id].MessageOp? && i <= |sc.g[id].messages| &&
    sc.Below(MessageRefs(sc.g[id].messages[..i]), sc.rank(id)) &&
    done == before + ReachAll(sc, MessageRefs(sc.g[id].messages[..i]))
  }

  ghost predicate MessageAt(sc: Scope, id: Id, i: nat) {
    sc.Ranked() && id in sc.g && sc.g[id].MessageOp? && i < |sc.g[id].messages| &&
    var m := sc.g[id].messages[i];
    m.content.Ref? ==> m.content.id in sc.g && sc.rank(m.content.id) < sc.rank(id)
  }

  lemma MessagesBegin(sc: Scope, id: Id, done: set<Id>)
    requires sc.Ranked() && id in sc.g && sc.g[id].MessageOp?
    ensures MessagesTo(sc, id, 0, []) && RefsReached(sc, id, 0, done, done)
  {
    assert sc.g[id].messages[..0] == [];
  }

  lemma PrefixBelow(sc: Scope, id: Id, i: nat)
    requires sc.Ranked() && id in sc.g && sc.g[id].MessageOp? && i <= |sc.g[id].messages|
    ensures sc.Below(MessageRefs(sc.g[id].messages[..i]), sc.rank(id))
    ensures i < |sc.g[id].messages| ==> MessageAt(sc, id, i)
  {
    var messages := sc.g[id].messages;
    forall c | c in MessageRefs(messages[..i]) ensures c in Children(sc.g[id]) {
      var k :| 0 <= k < i && messages[..i][k].content == Ref(c);
      assert messages[k].content == Ref(c);
    }
    if i < |messages| && messages[i].content.Ref? {
      assert messages[i].content.id in Children(sc.g[id]);
    }
  }

  lemma MessagesNext(sc: Scope, id: Id, i: nat, msgs: seq<Msg>, more: seq<Msg>)
    requires MessagesTo(sc, id, i, msgs) && MessageAt(sc, id, i)
    requires TraceMessage(sc, sc.g[id].messages[i], sc.rank(id)) == Ok(more)
    ensures MessagesTo(sc, id, i + 1, msgs + more)
  {
    PrefixBelow(sc, id, i + 1);
    assert sc.g[id].messages[..i + 1][..i] == sc.g[id].messages[..i];
  }

  lemma MessagesFail(sc: Scope, id: Id, i: nat, msgs: seq<Msg>)
    requires MessagesTo(sc, id, i, msgs) && MessageAt(sc, id, i)
    requires TraceMessage(sc, sc.g[id].messages[i], sc.rank(id)).Err?
    ensures TraceOp(sc, id) == Err(TraceMessage(sc, sc.g[id].messages[i], sc.rank(id)).error)
  {
    TraceMessagesErr(sc, sc.g[id].messages, sc.rank(id), i);
  }

  lemma OneMoreRef(sc: Scope, refs: seq<Id>, c: Id, bound: nat, before: set<Id>, done: set<Id>, done': set<Id>)
    requires sc.Ranked() && sc.Below(refs + [c], bound) && sc.Below(refs, bound)
    requires done == before + ReachAll(sc, refs) && Adds(sc, done, c, done')
    ensures done' == before + ReachAll(sc, refs + [c])
  {
    assert (refs + [c])[..|refs|] == refs && (refs + [c])[..|refs| + 1] == refs + [c];
    ReachSnoc(sc, refs + [c], |refs|);
  }

  lemma RefNext(sc: Scope, id: Id, i: nat, before: set<Id>, done: set<Id>, done': set<Id>)
    requires RefsReached(sc, id, i, before, done) && MessageAt(sc, id, i)
    requires var m := sc.g[id].messages[i];
      if m.content.Ref? then Adds(sc, done, m.content.id, done') else done' == done
    ensures RefsReached(sc, id, i + 1, before, done')
  {
    PrefixBelow(sc, id, i + 1);
    RefsOfPrefix(sc.g[id].messages, i);
    var m := sc.g[id].messages[i];
    var refs := MessageRefs(sc.g[id].messages[..i]);
    hide MessageRefs, Reach, Children, ReachAll, Adds;
    if m.content.Ref? {
      OneMoreRef(sc, refs, m.content.id, sc.rank(id), before, done, done');
    }
  }

  lemma MessagesEnd(sc: Scope, id: Id, msgs: seq<Msg>, before: set<Id>, done: set<Id>)
    requires sc.Ranked() && id in sc.g && sc.g[id].MessageOp?
    requires MessagesTo(sc, id, |sc.g[id].messages|, msgs)
    requires RefsReached(sc, id, |sc.g[id].messages|, before, done)
    ensures TracesTo(sc, id, msgs) && InputsDone(sc, id, before, done)
  {
    assert sc.g[id].messages[..|sc.g[id].messages|] == sc.g[id].messages;
  }

  /** A reference lies below the op that holds it, and so does all it reaches. */
  lemma RefKeepsNew(sc: Scope, id: Id, c: Id, done: set<Id>, done': set<Id>)
    requires id !in done && Adds(sc, done, c, done') && id in sc.g && sc.rank(c) < sc.rank(id)
    ensures id !in done'
  {
  }

  lemma StillThere(before: map<Id, seq<Msg>>, after: map<Id, seq<Msg>>, active: set<Id>, id: Id)
    requires Keeps(before, after, active + {id}) && id in before
    ensures id in after && after[id] == before[id]
  {
  }

  lemma KeepsTwice(before: map<Id, seq<Msg>>, middle: map<Id, seq<Msg>>, after: map<Id, seq<Msg>>, active: set<Id>,
                   id: Id)
    requires Keeps(before, middle, active + {id}) && id !in active
    requires id in after && after == middle[id := after[id]]
    ensures Keeps(before, after, active)
  {
  }

  /** The steps of a finished op are listed. */
  lemma AllListed(sc: Scope, steps: Dict<Step>, done: set<Id>, stepIds: seq<Id>, id: Id)
    requires Closed(sc, done) && StepsExact(sc, steps, done, stepIds) && id in done
    ensures Listed(sc, stepIds, id)
  {
    hide Reach;
  }

  lemma MessageReady(sc: Scope, columns: Dict<Column>, steps: Dict<Step>, upstream: set<Id>, done: set<Id>,
                     stepIds: seq<Id>, id: Id, before: set<Id>)
    requires Accumulated(sc, columns, steps, upstream, done, stepIds) && id !in before
    requires Traces(sc, id) && sc.g[id].MessageOp? && InputsDone(sc, id, before, done)
    ensures Accumulated(sc, columns, steps, upstream, done + {id}, stepIds) && id !in done
    ensures Adds(sc, before, id, done + {id})
  {
    hide *;
    StillNew(sc, id, before, done);
    ChildrenDone(sc, id, done, before);
    FinishMessage(sc, columns, steps, upstream, done, stepIds, id);
  }

  // ---- the closure and its accumulators ----------------------------------------------------

  /** The local dictionaries of `_infer_structural_messages`. `base` is what earlier calls had
      already marked visited; `done` and `stepIds` are the proof's account of the trace. */
  class Tracer {
    const sc: Scope
    const target: Id
    ghost const base: set<Id>

    var visited: set<Id>
    var upstream: set<Id>
    var columns: Dict<Column>
    var steps: Dict<Step>
    var buffer: map<Id, seq<Msg>>

    ghost var done: set<Id>
    ghost var stepIds: seq<Id>

    /** `active` are the ops whose trace is still running, outermost call to innermost. */
    ghost predicate Valid(active: set<Id>)
      reads this
    {
      Accumulated(sc, columns, steps, upstream, done, stepIds) && Memo(sc, buffer, done, active) &&
      visited == base + done + active
    }

    /** The steps are those of `before`, and those that the trace of the op finishes. */
    ghost predicate Stepped(before: seq<Id>, id: Id)
      reads this`stepIds
    {
      sc.Ranked() && id in sc.g && stepIds == Post(sc, before, id)
    }

    ghost predicate SteppedAll(before: seq<Id>, ids: seq<Id>, bound: nat)
      reads this`stepIds
    {
      sc.Ranked() && sc.Below(ids, bound) && stepIds == PostAll(sc, before, ids, bound)
    }

    ghost predicate Above(active: set<Id>, bound: nat) {
      forall a :: a in active ==> sc.rank(a) >= bound
    }

    constructor (scope: Scope, target: Id, visited: set<Id>)
      requires scope.Ranked() && DistinctLabels(scope)
      ensures Valid({}) && sc == scope && this.target == target && base == visited && done == {}
      ensures stepIds == []
    {
      sc, this.target, base, this.visited := scope, target, visited, visited;
      upstream, columns, steps, buffer := {}, Dict([], map[]), Dict([], map[]), map[];
      done, stepIds := {}, [];
    }

    ghost predicate Entering(id: Id, active: set<Id>)
      reads this
    {
      Valid(active + {id}) && id in sc.g && id !in done && id !in active &&
      sc.rank(id) < sc.rank(target) && Above(active, sc.rank(id) + 1)
    }

    lemma EnterOp(id: Id, active: set<Id>)
      requires Accumulated(sc, columns, steps, upstream, done, stepIds) && Memo(sc, buffer, done, active)
      requires visited == base + done + active + {id} && id !in buffer && id in sc.g
      requires sc.rank(id) < sc.rank(target) && Above(active, sc.rank(id) + 1)
      ensures Entering(id, active) && sc.Ranked()
    {
      assert visited == base + done + (active + {id});
    }

    /** `_trace_ancestors(op)`. */
    method TraceAncestors(id: Id, ghost active: set<Id>) returns (r: Result<seq<Msg>, Error>)
      requires Valid(active) && id in sc.g && sc.rank(id) < sc.rank(target) && Above(active, sc.rank(id) + 1)
      modifies this
      ensures r == TraceOp(sc, id)
      ensures r.Ok? ==> Valid(active) && Adds(sc, old(done), id, done)
      ensures r.Ok? ==> Keeps(old(buffer), buffer, active) && Stepped(old(stepIds), id)
      decreases sc.rank(id), 4
    {
      hide Accumulated, TraceOp, Reach, ColumnsOf, Traces, Scope.Ranked, DistinctLabels, Stepped;
      if id in buffer {
        Memoised(id, active);
        return Ok(buffer[id]);
      }
      visited := visited + {id};
      EnterOp(id, active);
      match sc.g[id] {
        case Generator(history) => r := TraceGenerator(id, history, active);
        case InputOp(name) =>
          LeafTrace(sc, id);
          if name !in sc.inputs {
            return Err(MissingInput);
          }
          r := TraceColumn(id, ListColumn(sc.inputs[name]), active);
        case DataOp(data) =>
          LeafTrace(sc, id);
          r := TraceColumn(id, ListColumn(data), active);
        case RetrievalOp(mode) =>
          LeafTrace(sc, id);
          r := TraceColumn(id, NodeColumn(id, RetrievalPath(mode)), active);
        case MessageOp(_) => r := TraceMessageOp(id, active);
        case FormatOp(_, _, _) => r := TraceFormatOp(id, active);
        case LambdaOp(_, _) => r := TraceLambdaOp(id, active);
        case OtherOp =>
          LeafTrace(sc, id);
          return Err(UnsupportedOp);
      }
    }

    lemma Memoised(id: Id, active: set<Id>)
      requires Valid(active) && id in buffer && Above(active, sc.rank(id) + 1)
      ensures id in sc.g && sc.Ranked() && TraceOp(sc, id) == Ok(buffer[id]) && Adds(sc, done, id, done)
      ensures Stepped(stepIds, id)
    {
      assert id !in active;
      AllListed(sc, steps, done, stepIds, id);
      Revisited(sc, stepIds, id);
      hide Reach, TraceOp, Post;
    }

    /** Record a traced op: the memo entry, and the proof's account. */
    method Record(id: Id, msgs: seq<Msg>, ghost active: set<Id>, ghost stepIds': seq<Id>)
      requires Memo(sc, buffer, done, active + {id}) && id !in active && TracesTo(sc, id, msgs)
      requires Accumulated(sc, columns, steps, upstream, done + {id}, stepIds')
      requires visited == base + done + (active + {id})
      modifies this`buffer, this`done, this`stepIds
      ensures Valid(active) && done == old(done) + {id} && Keeps(old(buffer), buffer, active)
      ensures stepIds == stepIds'
    {
      RecordMemo(sc, buffer, done, active, id, msgs);
      hide Accumulated, Memo;
      buffer, done, stepIds := buffer[id := msgs], done + {id}, stepIds';
    }

    method TraceGenerator(id: Id, history: bool, ghost active: set<Id>) returns (r: Result<seq<Msg>, Error>)
      requires Entering(id, active) && sc.g[id] == Generator(history)
      modifies this
      ensures r == TraceOp(sc, id)
      ensures Valid(active) && Adds(sc, old(done), id, done) && Keeps(old(buffer), buffer, active)
      ensures Stepped(old(stepIds), id)
    {
      LeafStepped(id, active);
      assert id != target;  // the assertion of runtime_graph.py:1569-1571 cannot fail
      hide Accumulated, Memo, Reach, TraceOp, Traces, Scope.Ranked, ColumnsOf, Post;
      upstream := upstream + {id};
      var columns' := columns;
      if history {
        columns' := columns'.Put(ContextLabel(id), NodeColumn(id, "items.metadata.prompt"));
      }
      columns' := columns'.Put(OutputLabel(id), NodeColumn(id, "items.output"));
      var msgs := (if history then [Bare(ContextLabel(id))] else []) + [Packed(Assistant, OutputLabel(id))];
      GeneratorLeaf(sc, columns, done, stepIds, steps, old(upstream), id, columns', msgs);
      columns := columns';
      Record(id, msgs, active, stepIds);
      r := Ok(msgs);
    }

    method TraceColumn(id: Id, column: Column, ghost active: set<Id>) returns (r: Result<seq<Msg>, Error>)
      requires Entering(id, active) && IsColumnLeaf(sc, id, column)
      modifies this
      ensures r == TraceOp(sc, id)
      ensures Valid(active) && Adds(sc, old(done), id, done) && Keeps(old(buffer), buffer, active)
      ensures Stepped(old(stepIds), id)
    {
      LeafStepped(id, active);
      ghost var columns0 := columns;
      ColumnLeaf(sc, columns, done, stepIds, steps, upstream, id, column);
      hide Accumulated, Memo, Reach, TraceOp, Scope.Ranked, ColumnsOf, Post;
      if id !in columns.vals {
        columns := columns.Put(id, column);
      }
      assert columns == columns0.Put(id, column);
      var msgs := [Packed(User, id)];
      Record(id, msgs, active, stepIds);
      r := Ok(msgs);
    }

    lemma LeafStepped(id: Id, active: set<Id>)
      requires Entering(id, active) && IsLeaf(sc.g[id])
      ensures Stepped(stepIds, id)
    {
      PostLeaf(sc, stepIds, id);
      hide Post;
    }

    lemma Sound(active: set<Id>)
      requires Valid(active)
      ensures sc.Ranked() && DistinctLabels(sc)
    {
    }

    /** `{inp_op.id: _trace_ancestors(inp_op) for inp_op in op.inputs}`. */
    method TraceInputs(ids: seq<Id>, ghost bound: nat, ghost active: set<Id>)
      returns (r: Result<map<Id, seq<Msg>>, Error>)
      requires Valid(active) && sc.Ranked() && sc.Below(ids, bound) && bound <= sc.rank(target) && Above(active, bound)
      modifies this
      ensures r.Err? <==> TraceAll(sc, ids, bound).Err?
      ensures r.Err? ==> r.error == TraceAll(sc, ids, bound).error
      ensures r.Ok? ==> Valid(active) && done == old(done) + ReachAll(sc, ids)
      ensures r.Ok? ==> Keeps(old(buffer), buffer, active) && LabelsFor(sc, r.value, ids)
      ensures r.Ok? ==> SteppedAll(old(stepIds), ids, bound)
      decreases bound, 0
    {
      hide Accumulated, Memo, Valid, TraceAll, TraceOp, Reach, Scope.Ranked, ReachAll, Stepped, SteppedAll;
      hide LabelsFor;
      var labels: map<Id, seq<Msg>> := map[];
      InputsStart(sc, ids, bound);
      StepsStart(bound);
      assert ids[..0] == [];
      for i := 0 to |ids|
        invariant Valid(active) && done == old(done) + ReachAll(sc, ids[..i])
        invariant Keeps(old(buffer), buffer, active)
        invariant LabelsFor(sc, labels, ids[..i]) && TraceAll(sc, ids[..i], bound).Ok?
        invariant SteppedAll(old(stepIds), ids[..i], bound)
      {
        ghost var before := stepIds;
        StepsBefore(old(stepIds), ids, bound, i);
        TraceAllNext(sc, ids, bound, i);
        var traced := TraceAncestors(ids[i], active);
        if traced.Err? {
          return Err(traced.error);
        }
        ReachSnoc(sc, ids, i);
        StepsNext(old(stepIds), before, ids, bound, i);
        LabelsSnoc(sc, labels, ids, i, traced.value);
        labels := labels[ids[i] := traced.value];
      }
      assert ids[..|ids|] == ids;
      r := Ok(labels);
    }

    lemma StepsStart(bound: nat)
      requires sc.Ranked()
      ensures SteppedAll(stepIds, [], bound)
    {
    }

    lemma StepsBefore(start: seq<Id>, ids: seq<Id>, bound: nat, i: nat)
      requires i < |ids| && SteppedAll(start, ids[..i], bound)
      ensures sc.Ranked() && sc.Below(ids[..i], bound) && PostAll(sc, start, ids[..i], bound) == stepIds
    {
    }

    lemma StepsNext(start: seq<Id>, before: seq<Id>, ids: seq<Id>, bound: nat, i: nat)
      requires sc.Ranked() && sc.Below(ids, bound) && i < |ids| && sc.Below(ids[..i], bound)
      requires PostAll(sc, start, ids[..i], bound) == before && Stepped(before, ids[i])
      ensures SteppedAll(start, ids[..i + 1], bound)
    {
      PostNext(sc, start, ids, bound, i);
      hide Post, PostAll, Scope.Ranked;
    }

    /** A step op with its step computed: put the step, record the label. */
    method EmitStep(id: Id, step: Step, ghost active: set<Id>, ghost before: set<Id>)
      returns (msgs: seq<Msg>)
      requires Valid(active + {id}) && id !in active && EmitsStep(sc, id, step)
      requires id !in before && InputsDone(sc, id, before, done)
      modifies this
      ensures msgs == [Packed(User, StepLabel(id, sc.g[id]))]
      ensures Valid(active) && Adds(sc, before, id, done) && Keeps(old(buffer), buffer, active)
      ensures stepIds == old(stepIds) + [id] && id !in old(stepIds)
    {
      hide Accumulated, Memo, Reach, ReachAll, TraceOp, Traces, TracesTo, Scope.Ranked, StepOf, StepLabel, Children;
      hide StepTraces, EmitsStep, InputsDone, Adds;
      Emitted(sc, id, step);
      Inside(id, active);
      StillNew(sc, id, before, done);
      NotListed(id, active);
      StepReady(sc, columns, steps, upstream, done, stepIds, id, before);
      steps := steps.Put(StepLabel(id, sc.g[id]), step);
      msgs := [Packed(User, StepLabel(id, sc.g[id]))];
      Record(id, msgs, active, stepIds + [id]);
    }

    lemma NotListed(id: Id, active: set<Id>)
      requires Valid(active + {id}) && id !in done
      ensures id !in stepIds
    {
    }

    /** The step of an op comes behind those of its inputs. */
    lemma StepLast(start: seq<Id>, before: seq<Id>, id: Id)
      requires sc.Ranked() && id in sc.g && IsStep(sc.g[id]) && sc.Below(Children(sc.g[id]), sc.rank(id))
      requires PostAll(sc, start, Children(sc.g[id]), sc.rank(id)) == before && id !in before && stepIds == before + [id]
      ensures Stepped(start, id)
    {
      PostStep(sc, start, id);
      hide Post, PostAll, Scope.Ranked;
    }

    lemma Inside(id: Id, active: set<Id>)
      requires Valid(active + {id}) && StepTraces(sc, id)
      ensures Memo(sc, buffer, done, active + {id}) && Accumulated(sc, columns, steps, upstream, done, stepIds)
      ensures visited == base + done + (active + {id}) && sc.Ranked() && id in sc.g
    {
    }

    lemma InputsBelow(id: Id, active: set<Id>)
      requires Entering(id, active)
      ensures sc.Ranked() && id in sc.g && sc.Below(Children(sc.g[id]), sc.rank(id)) && sc.rank(id) <= sc.rank(target)
      ensures Valid(active + {id})
      ensures Above(active + {id}, sc.rank(id)) && id !in active && id !in done
    {
      hide Memo, ColumnsExact, StepsExact, EarlierSteps, AllTrace, Closed, DistinctLabels, Generators, Reach, Children;
    }

    method TraceFormatOp(id: Id, ghost active: set<Id>) returns (r: Result<seq<Msg>, Error>)
      requires Entering(id, active) && sc.g[id].FormatOp?
      modifies this
      ensures r == TraceOp(sc, id)
      ensures r.Ok? ==> Valid(active) && Adds(sc, old(done), id, done)
      ensures r.Ok? ==> Keeps(old(buffer), buffer, active) && Stepped(old(stepIds), id)
      decreases sc.rank(id), 1
    {
      hide Accumulated, Memo, TraceAll, TraceOp, Reach, ReachAll, Scope.Ranked, Children, StepOf, StepLabel, BindKwargs;
      hide TracesTo, LabelsFor, AllOne, Entering, Above, Scope.Below, Valid, Stepped, Post, PostAll;
      InputsBelow(id, active);
      FormatErrors(sc, id);
      var ids := Children(sc.g[id]);
      if ids == [] {
        return Err(NoFormatInput);
      }
      var traced := TraceInputs(ids, sc.rank(id), active + {id});
      if traced.Err? {
        return Err(traced.error);
      }
      var labels := traced.value;
      ghost var before := stepIds;
      FormatTrace(sc, id, labels);
      if !AllOne(labels) {
        return Err(FormatInputNotSingle);
      }
      var step := Template(sc.g[id].template, BindKwargs(labels, sc.g[id].kwargs));
      Emitted(sc, id, step);
      var msgs := EmitStep(id, step, active, old(done));
      StepLast(old(stepIds), before, id);
      r := Ok(msgs);
    }

    method TraceLambdaOp(id: Id, ghost active: set<Id>) returns (r: Result<seq<Msg>, Error>)
      requires Entering(id, active) && sc.g[id].LambdaOp?
      modifies this
      ensures r == TraceOp(sc, id)
      ensures r.Ok? ==> Valid(active) && Adds(sc, old(done), id, done)
      ensures r.Ok? ==> Keeps(old(buffer), buffer, active) && Stepped(old(stepIds), id)
      decreases sc.rank(id), 1
    {
      hide Accumulated, Memo, TraceAll, TraceOp, Reach, ReachAll, Scope.Ranked, Children, StepOf, StepLabel, BindArgs;
      hide TracesTo, LabelsFor, NoneEmpty, Entering, Above, Scope.Below, Valid, Stepped, Post, PostAll;
      InputsBelow(id, active);
      FormatErrors(sc, id);
      var ids := Children(sc.g[id]);
      var traced := TraceInputs(ids, sc.rank(id), active + {id});
      if traced.Err? {
        return Err(traced.error);
      }
      var labels := traced.value;
      ghost var before := stepIds;
      LambdaTrace(sc, id, labels);
      if !NoneEmpty(labels) {
        return Err(EmptyLambdaArgument);
      }
      var step := Function(sc.g[id].code, BindArgs(labels, sc.g[id].inputs));
      Emitted(sc, id, step);
      var msgs := EmitStep(id, step, active, old(done));
      StepLast(old(stepIds), before, id);
      r := Ok(msgs);
    }

    /** The loop over the messages a reference resolves to (runtime_graph.py:1626-1635). */
    method AppendRetagged(id: Id, role: string, msgs: seq<Msg>, ghost active: set<Id>)
      returns (failure: Option<Error>)
      requires Valid(active + {id}) && id !in done && id in buffer
      modifies this`buffer
      ensures failure.Some? <==> Retag(role, msgs).Err?
      ensures failure.Some? ==> failure.value == Retag(role, msgs).error
      ensures failure.None? ==> Valid(active + {id}) && id in buffer && buffer == old(buffer)[id := buffer[id]]
      ensures failure.None? ==> buffer[id] == old(buffer)[id] + Retag(role, msgs).value
    {
      hide Accumulated, Memo;
      ghost var start := buffer[id];
      assert msgs[..|msgs|] == msgs && buffer == buffer[id := buffer[id]];
      for i := 0 to |msgs|
        invariant Valid(active + {id}) && id in buffer && Retag(role, msgs[..i]).Ok?
        invariant buffer == old(buffer)[id := buffer[id]] && buffer[id] == start + Retag(role, msgs[..i]).value
      {
        assert msgs[..i + 1][..i] == msgs[..i];
        var packed := msgs[i];
        if packed.Bare? || packed.role != User || ParseRole(role).None? {
          RetagErr(role, msgs, i);
          return Some(if packed.Bare? then ContextInMessageOp
                      else if packed.role != User then NonUserInMessageOp else BadRole);
        }
        MemoSet(sc, buffer, done, active, id, buffer[id] + [Packed(ParseRole(role).value, packed.text)]);
        buffer := buffer[id := buffer[id] + [Packed(ParseRole(role).value, packed.text)]];
      }
      failure := None;
    }

    /** What one message appends to the entry of its op. */
    ghost predicate Appended(id: Id, i: nat, before: map<Id, seq<Msg>>)
      reads this
    {
      MessageAt(sc, id, i) && id in before && id in buffer &&
      TraceMessage(sc, sc.g[id].messages[i], sc.rank(id)).Ok? &&
      buffer[id] == before[id] + TraceMessage(sc, sc.g[id].messages[i], sc.rank(id)).value
    }

    /** `_trace_ancestors(message.content)` and the loop over what it returns. */
    method TraceReference(id: Id, i: nat, c: Id, role: string, ghost active: set<Id>) returns (failure: Option<Error>)
      requires Valid(active + {id}) && id !in done && id in buffer && id !in active
      requires MessageAt(sc, id, i) && sc.g[id].messages[i] == OpMessage(role, Ref(c))
      requires sc.rank(id) <= sc.rank(target) && Above(active + {id}, sc.rank(id))
      modifies this
      ensures failure.Some? ==> TraceMessage(sc, sc.g[id].messages[i], sc.rank(id)) == Err(failure.value)
      ensures failure.None? ==> Valid(active + {id}) && Appended(id, i, old(buffer)) && id !in done
      ensures failure.None? ==> Keeps(old(buffer), buffer, active) && Adds(sc, old(done), c, done)
      ensures failure.None? ==> Stepped(old(stepIds), c)
      decreases sc.rank(id), 0
    {
      hide Accumulated, Memo, TraceOp, Reach, Scope.Ranked, Adds, Retag, Keeps, Post;
      var traced := TraceAncestors(c, active + {id});
      if traced.Err? {
        return Some(traced.error);
      }
      RefKeepsNew(sc, id, c, old(done), done);
      StillThere(old(buffer), buffer, active, id);
      ghost var middle := buffer;
      failure := AppendRetagged(id, role, traced.value, active);
      if failure.None? {
        KeepsTwice(old(buffer), middle, buffer, active, id);
      }
    }

    /** What one turn of that loop does: `buffer0`, `done0` and `steps0` are the values before it. */
    ghost predicate Turned(id: Id, i: nat, active: set<Id>, buffer0: map<Id, seq<Msg>>, done0: set<Id>, steps0: seq<Id>)
      reads this
    {
      MessageAt(sc, id, i) &&
      (if sc.g[id].messages[i].content.Ref? then Stepped(steps0, sc.g[id].messages[i].content.id) else stepIds == steps0) &&
      Valid(active + {id}) && Appended(id, i, buffer0) && id !in done && Keeps(buffer0, buffer, active) &&
      if sc.g[id].messages[i].content.Ref? then Adds(sc, done0, sc.g[id].messages[i].content.id, done) else done == done0
    }

    ghost predicate TurnFails(id: Id, i: nat, error: Error) {
      MessageAt(sc, id, i) && TraceMessage(sc, sc.g[id].messages[i], sc.rank(id)) == Err(error)
    }

    /** One turn of the loop over the messages of a MessageOp. */
    method TraceOneMessage(id: Id, i: nat, ghost active: set<Id>) returns (failure: Option<Error>)
      requires Valid(active + {id}) && id !in done && id in buffer && id !in active && MessageAt(sc, id, i)
      requires sc.rank(id) <= sc.rank(target) && Above(active + {id}, sc.rank(id))
      modifies this
      ensures failure.Some? ==> TurnFails(id, i, failure.value)
      ensures failure.None? ==> Turned(id, i, active, old(buffer), old(done), old(stepIds))
      decreases sc.rank(id), 1
    {
      hide Accumulated, Memo, TraceOp, Reach, Scope.Ranked, Adds, Stepped;
      var m := sc.g[id].messages[i];
      if m.content.Ref? {
        failure := TraceReference(id, i, m.content.id, m.role, active);
      } else if ParseRole(m.role).None? {
        failure := Some(BadRole);
      } else {
        MemoSet(sc, buffer, done, active, id, buffer[id] + [Packed(ParseRole(m.role).value, m.content.text)]);
        buffer := buffer[id := buffer[id] + [Packed(ParseRole(m.role).value, m.content.text)]];
        failure := None;
      }
    }

    /** The steps of the references in the first `i` messages are finished. */
    ghost predicate RefsStepped(id: Id, i: nat, steps0: seq<Id>)
      reads this`stepIds
    {
      id in sc.g && sc.g[id].MessageOp? && i <= |sc.g[id].messages| &&
      SteppedAll(steps0, MessageRefs(sc.g[id].messages[..i]), sc.rank(id))
    }

    lemma RefStepped(id: Id, i: nat, steps0: seq<Id>, before: seq<Id>)
      requires MessageAt(sc, id, i) && sc.Below(MessageRefs(sc.g[id].messages[..i]), sc.rank(id))
      requires before == PostAll(sc, steps0, MessageRefs(sc.g[id].messages[..i]), sc.rank(id))
      requires var m := sc.g[id].messages[i];
        if m.content.Ref? then Stepped(before, m.content.id) else stepIds == before
      ensures RefsStepped(id, i + 1, steps0)
    {
      hide MessageRefs, Post, PostAll, Scope.Ranked, Scope.Below;
      PrefixBelow(sc, id, i + 1);
      RefsOfPrefix(sc.g[id].messages, i);
      var m, refs := sc.g[id].messages[i], MessageRefs(sc.g[id].messages[..i]);
      if m.content.Ref? {
        PostSnoc(sc, steps0, refs, m.content.id, sc.rank(id));
      } else {
        assert refs + [] == refs;
      }
    }

    /** Between two turns of that loop: `buffer0`, `done0` and `steps0` are the values on entry. */
    ghost predicate InMessage(id: Id, active: set<Id>, i: nat, buffer0: map<Id, seq<Msg>>, done0: set<Id>,
                              steps0: seq<Id>)
      reads this
    {
      RefsStepped(id, i, steps0) &&
      Valid(active + {id}) && id !in done && id in buffer && id !in active && id !in done0 &&
      sc.rank(id) <= sc.rank(target) && Above(active + {id}, sc.rank(id)) && Keeps(buffer0, buffer, active) &&
      MessagesTo(sc, id, i, buffer[id]) && RefsReached(sc, id, i, done0, done)
    }

    lemma NextMessage(id: Id, active: set<Id>, i: nat, buffer0: map<Id, seq<Msg>>, done0: set<Id>, steps0: seq<Id>,
                      before: map<Id, seq<Msg>>, doneBefore: set<Id>, stepsBefore: seq<Id>)
      requires MessageAt(sc, id, i) && id in before && MessagesTo(sc, id, i, before[id])
      requires RefsReached(sc, id, i, done0, doneBefore) && Keeps(buffer0, before, active)
      requires sc.Below(MessageRefs(sc.g[id].messages[..i]), sc.rank(id))
      requires stepsBefore == PostAll(sc, steps0, MessageRefs(sc.g[id].messages[..i]), sc.rank(id))
      requires Turned(id, i, active, before, doneBefore, stepsBefore) && id !in active && id !in done0
      requires sc.rank(id) <= sc.rank(target) && Above(active + {id}, sc.rank(id))
      ensures InMessage(id, active, i + 1, buffer0, done0, steps0)
    {
      hide Accumulated, TraceMessage, TraceMessages, Scope.Ranked, Adds, RefsReached, MessagesTo, Memo, RefsStepped, Stepped,
           PostAll;
      RefStepped(id, i, steps0, stepsBefore);
      MessagesNext(sc, id, i, before[id], TraceMessage(sc, sc.g[id].messages[i], sc.rank(id)).value);
      RefNext(sc, id, i, done0, doneBefore, done);
    }

    lemma EndMessage(id: Id, active: set<Id>, buffer0: map<Id, seq<Msg>>, done0: set<Id>, steps0: seq<Id>)
      requires sc.Ranked() && id in sc.g && sc.g[id].MessageOp?
      requires InMessage(id, active, |sc.g[id].messages|, buffer0, done0, steps0)
      ensures Memo(sc, buffer, done, active + {id}) && TracesTo(sc, id, buffer[id])
      ensures Accumulated(sc, columns, steps, upstream, done + {id}, stepIds)
      ensures visited == base + done + (active + {id}) && Adds(sc, done0, id, done + {id})
      ensures Stepped(steps0, id)
    {
      MessageStepped(id, steps0);
      hide Accumulated, Memo, Scope.Ranked, TraceMessages, Reach, ReachAll, Children, TraceOp, Stepped, RefsStepped;
      MessagesEnd(sc, id, buffer[id], done0, done);
      MessageReady(sc, columns, steps, upstream, done, stepIds, id, done0);
    }

    lemma MessageStepped(id: Id, steps0: seq<Id>)
      requires id in sc.g && sc.g[id].MessageOp? && RefsStepped(id, |sc.g[id].messages|, steps0)
      ensures Stepped(steps0, id)
    {
      assert sc.g[id].messages[..|sc.g[id].messages|] == sc.g[id].messages;
      PostStep(sc, steps0, id);
      hide Post, PostAll, Scope.Ranked, MessageRefs;
    }

    /** `for message in op.messages`. */
    method MessageLoop(id: Id, ghost active: set<Id>, ghost buffer0: map<Id, seq<Msg>>, ghost done0: set<Id>,
                       ghost steps0: seq<Id>)
      returns (failure: Option<Error>)
      requires sc.Ranked() && id in sc.g && sc.g[id].MessageOp? && InMessage(id, active, 0, buffer0, done0, steps0)
      modifies this
      ensures failure.Some? ==> TraceOp(sc, id) == Err(failure.value)
      ensures failure.None? ==> InMessage(id, active, |sc.g[id].messages|, buffer0, done0, steps0)
      decreases sc.rank(id), 2
    {
      hide *;
      for i := 0 to |sc.g[id].messages|
        invariant InMessage(id, active, i, buffer0, done0, steps0)
      {
        MessageFacts(id, active, i, buffer0, done0, steps0);
        ghost var before, doneBefore, stepsBefore := buffer, done, stepIds;
        failure := TraceOneMessage(id, i, active);
        if failure.Some? {
          TurnError(id, i, failure.value);
          MessagesFail(sc, id, i, before[id]);
          return failure;
        }
        NextMessage(id, active, i, buffer0, done0, steps0, before, doneBefore, stepsBefore);
      }
      failure := None;
    }

    lemma TurnError(id: Id, i: nat, error: Error)
      requires TurnFails(id, i, error)
      ensures MessageAt(sc, id, i) && TraceMessage(sc, sc.g[id].messages[i], sc.rank(id)) == Err(error)
    {
    }

    lemma MessageFacts(id: Id, active: set<Id>, i: nat, buffer0: map<Id, seq<Msg>>, done0: set<Id>, steps0: seq<Id>)
      requires sc.Ranked() && id in sc.g && sc.g[id].MessageOp? && i < |sc.g[id].messages|
      requires InMessage(id, active, i, buffer0, done0, steps0)
      ensures Valid(active + {id}) && id !in done && id in buffer && id !in active && id !in done0
      ensures sc.rank(id) <= sc.rank(target) && Above(active + {id}, sc.rank(id)) && Keeps(buffer0, buffer, active)
      ensures MessagesTo(sc, id, i, buffer[id]) && RefsReached(sc, id, i, done0, done) && MessageAt(sc, id, i)
      ensures sc.Below(MessageRefs(sc.g[id].messages[..i]), sc.rank(id))
      ensures stepIds == PostAll(sc, steps0, MessageRefs(sc.g[id].messages[..i]), sc.rank(id))
    {
      PrefixBelow(sc, id, i);
    }

    lemma BeginMessage(id: Id, active: set<Id>, buffer0: map<Id, seq<Msg>>)
      requires Accumulated(sc, columns, steps, upstream, done, stepIds) && Memo(sc, buffer0, done, active + {id})
      requires visited == base + done + (active + {id}) && buffer == buffer0[id := []]
      requires id in sc.g && sc.g[id].MessageOp? && id !in active && id !in done
      requires sc.rank(id) <= sc.rank(target) && Above(active + {id}, sc.rank(id))
      ensures sc.Ranked() && InMessage(id, active, 0, buffer0, done, stepIds)
    {
      MessagesBegin(sc, id, done);
      assert MessageRefs(sc.g[id].messages[..0]) == [];
    }

    method TraceMessageOp(id: Id, ghost active: set<Id>) returns (r: Result<seq<Msg>, Error>)
      requires Entering(id, active) && sc.g[id].MessageOp?
      modifies this
      ensures r == TraceOp(sc, id)
      ensures r.Ok? ==> Valid(active) && Adds(sc, old(done), id, done)
      ensures r.Ok? ==> Keeps(old(buffer), buffer, active) && Stepped(old(stepIds), id)
      decreases sc.rank(id), 3
    {
      hide Accumulated, Memo, TraceOp, Reach, Scope.Ranked, Adds, InMessage, Above, Traces, Post;
      InputsBelow(id, active);
      buffer := buffer[id := []];
      BeginMessage(id, active, old(buffer));
      var failure := MessageLoop(id, active, old(buffer), done, stepIds);
      if failure.Some? {
        return Err(failure.value);
      }
      MessageEntry(id, active, old(buffer), old(done), old(stepIds));
      EndMessage(id, active, old(buffer), old(done), old(stepIds));
      r := Ok(buffer[id]);
      Record(id, buffer[id], active, stepIds);
    }

    lemma MessageEntry(id: Id, active: set<Id>, buffer0: map<Id, seq<Msg>>, done0: set<Id>, steps0: seq<Id>)
      requires id in sc.g && sc.g[id].MessageOp? && InMessage(id, active, |sc.g[id].messages|, buffer0, done0, steps0)
      ensures id in buffer && id !in active && sc.Ranked() && TraceOp(sc, id) == Ok(buffer[id])
      ensures Keeps(buffer0, buffer, active)
    {
      MessagesEnd(sc, id, buffer[id], done0, done);
    }
  }

  // ---- the lowered program -----------------------------------------------------------------

  datatype Lowered = Lowered(upstream: set<Id>, program: Program, visited: set<Id>)

  /** The program holds the columns and steps of exactly the ops reached from `root`, the steps
      in the order `stepIds`, and the messages `root` traces to. */
  ghost predicate LoweredBy(sc: Scope, root: Id, p: Program, stepIds: seq<Id>) {
    Traces(sc, root) && DistinctLabels(sc) && AllTrace(sc, Reach(sc, root)) &&
    ColumnsExact(sc, p.columns, Reach(sc, root)) && StepsExact(sc, p.steps, Reach(sc, root), stepIds) &&
    EarlierSteps(sc, stepIds) && p.messages == Traced(sc, root)
  }

  ghost predicate IsLowering(sc: Scope, root: Id, p: Program) {
    exists stepIds :: LoweredBy(sc, root, p, stepIds)
  }

  /** The steps that a trace of `root` finishes, in its order. */
  ghost function Steps(sc: Scope, root: Id): (r: seq<Id>)
    requires sc.Ranked() && root in sc.g
  {
    Post(sc, [], root)
  }

  /** The program of a trace of `root`: its steps are in the order of the trace. */
  ghost predicate IsTraced(sc: Scope, root: Id, p: Program) {
    sc.Ranked() && root in sc.g && LoweredBy(sc, root, p, Steps(sc, root))
  }

  lemma TracedIsLowering(sc: Scope, root: Id, p: Program)
    requires IsTraced(sc, root, p)
    ensures IsLowering(sc, root, p)
  {
    hide LoweredBy, Steps;
  }

  /** Lower the message op of one LLM call. The trace fails exactly when `TraceOp` does, visits
      exactly the ops reachable before another generator, and names exactly that frontier. */
  method InferStructuralMessages(sc: Scope, target: Id, root: Id, visited: set<Id>)
    returns (r: Result<Lowered, Error>)
    requires sc.Ranked() && DistinctLabels(sc) && root in sc.g && sc.rank(root) < sc.rank(target)
    ensures r.Ok? <==> Traces(sc, root)
    ensures r.Err? ==> TraceOp(sc, root) == Err(r.error)
    ensures r.Ok? ==> IsLowering(sc, root, r.value.program) && IsTraced(sc, root, r.value.program)
    ensures r.Ok? ==> r.value.visited == visited + Reach(sc, root)
    ensures r.Ok? ==> r.value.upstream == Generators(sc, Reach(sc, root))
  {
    hide TraceOp, Reach, Scope.Ranked, DistinctLabels;
    var tracer := new Tracer(sc, target, visited);
    var messages := tracer.TraceAncestors(root, {});
    if messages.Err? {
      return Err(messages.error);
    }
    assert tracer.done == Reach(sc, root);
    var program := Program(tracer.columns, tracer.steps, messages.value);
    assert LoweredBy(sc, root, program, tracer.stepIds);
    r := Ok(Lowered(tracer.upstream, program, tracer.visited));
  }
}
