/** Whether lowering keeps the meaning of a graph, told by the graph alone (runtime/runtime_graph.py:1540-1724). */
module LoweringCheck {
  import opened Collections
  import opened Ops
  import opened Lowering
  import opened StepOrder
  import opened Tracer
  import opened LoweringMeaning

  /** The columns of the ops that the trace reaches. */
  ghost function ColumnLabels(sc: Scope, root: Id): (r: set<string>)
    requires sc.Ranked() && root in sc.g
  {
    set y, l | y in Reach(sc, root) && y in sc.g && l in ColumnsOf(y, sc.g[y], sc.inputs) :: l
  }

  /** The labels of the first `i` steps of the trace. */
  ghost function StepLabels(sc: Scope, root: Id, i: nat): (r: set<string>)
    requires sc.Ranked() && root in sc.g
  {
    set k | 0 <= k < i && k < |Steps(sc, root)| && Steps(sc, root)[k] in sc.g ::
      StepLabel(Steps(sc, root)[k], sc.g[Steps(sc, root)[k]])
  }

  ghost predicate ReadsSafe(sc: Scope, root: Id, i: nat)
    requires sc.Ranked() && root in sc.g && i < |Steps(sc, root)|
  {
    var x := Steps(sc, root)[i];
    x in sc.g && forall c :: c in Children(sc.g[x]) ==>
      Literals(sc, c) !! ColumnLabels(sc, root) + StepLabels(sc, root, i)
  }

  /** No literal among the messages is a label, and none that a step reads is a column or a step finished before it. */
  ghost predicate LiteralsSafe(sc: Scope, root: Id)
    requires sc.Ranked() && root in sc.g
  {
    Literals(sc, root) !! ColumnLabels(sc, root) + StepLabels(sc, root, |Steps(sc, root)|) &&
    forall i :: 0 <= i < |Steps(sc, root)| ==> ReadsSafe(sc, root, i)
  }

  /** The labels written are those that the graph tells. */
  lemma WrittenLabels(sc: Scope, root: Id, p: Program, n: nat)
    requires sc.Ranked() && root in sc.g && LoweredBy(sc, root, p, Steps(sc, root)) && n <= |p.steps.keys|
    ensures |p.steps.keys| == |Steps(sc, root)|
    ensures Written(p, n) == ColumnLabels(sc, root) + StepLabels(sc, root, n)
  {
    hide Reach, Steps, ColumnsOf, StepOf, StepLabel, TraceOp, Scope.Ranked, EarlierSteps, DistinctLabels, AllTrace;
    var stepIds := Steps(sc, root);
    ColumnsWritten(sc, root, p.columns);
    forall i | 0 <= i < n ensures p.steps.keys[i] in StepLabels(sc, root, n) {
      assert IsStepAt(sc, p.steps, stepIds[i], i);
    }
    forall l | l in StepLabels(sc, root, n) ensures l in Elems(p.steps.keys[..n]) {
      var k :| 0 <= k < n && k < |stepIds| && stepIds[k] in sc.g && l == StepLabel(stepIds[k], sc.g[stepIds[k]]);
      assert IsStepAt(sc, p.steps, stepIds[k], k);
      assert p.steps.keys[..n][k] == l;
    }
  }

  lemma ColumnsWritten(sc: Scope, root: Id, columns: Dict<Column>)
    requires sc.Ranked() && root in sc.g && ColumnsExact(sc, columns, Reach(sc, root))
    ensures columns.vals.Keys == ColumnLabels(sc, root)
  {
    hide Reach, ColumnsOf, Scope.Ranked;
    forall l ensures l in columns.vals <==> l in ColumnLabels(sc, root) {
      if l in columns.vals {
        var x :| x in Reach(sc, root) && HasColumn(sc, x, l);
      }
      if l in ColumnLabels(sc, root) {
        var y :| y in Reach(sc, root) && y in sc.g && l in ColumnsOf(y, sc.g[y], sc.inputs);
        assert HasColumn(sc, y, l);
      }
    }
  }

  /** Where a step stands. */
  lemma StepPosition(sc: Scope, root: Id, p: Program, x: Id, i: nat)
    requires sc.Ranked() && root in sc.g && LoweredBy(sc, root, p, Steps(sc, root))
    requires x in Reach(sc, root) && IsStepOf(sc, p, x, i)
    ensures i < |Steps(sc, root)| && Steps(sc, root)[i] == x
  {
    hide Reach, Steps, StepOf, StepLabel, TraceOp, Scope.Ranked, EarlierSteps, DistinctLabels, AllTrace, ColumnsExact;
    var stepIds := Steps(sc, root);
    assert x in stepIds;
    var k :| 0 <= k < |stepIds| && stepIds[k] == x;
    assert IsStepAt(sc, p.steps, x, k);
  }

  lemma StepAt(sc: Scope, root: Id, p: Program, i: nat)
    requires sc.Ranked() && root in sc.g && LoweredBy(sc, root, p, Steps(sc, root)) && i < |Steps(sc, root)|
    ensures Steps(sc, root)[i] in Reach(sc, root) && IsStepOf(sc, p, Steps(sc, root)[i], i)
  {
    hide Reach, Steps, StepOf, StepLabel, TraceOp, Scope.Ranked, EarlierSteps, DistinctLabels, AllTrace, ColumnsExact;
    assert IsStepAt(sc, p.steps, Steps(sc, root)[i], i);
    assert Steps(sc, root)[i] in Steps(sc, root);
  }

  lemma SafeIff(sc: Scope, root: Id, p: Program)
    requires sc.Ranked() && root in sc.g && LoweredBy(sc, root, p, Steps(sc, root))
    ensures LiteralsKept(sc, root, p) <==> LiteralsSafe(sc, root)
  {
    hide Reach, Steps, Scope.Ranked, LoweredBy, Literals, Written, ColumnLabels, StepLabels, IsStepOf, Children;
    WrittenLabels(sc, root, p, 0);
    WrittenLabels(sc, root, p, |p.steps.keys|);
    forall i | 0 <= i < |Steps(sc, root)|
      ensures Steps(sc, root)[i] in Reach(sc, root) && IsStepOf(sc, p, Steps(sc, root)[i], i)
      ensures ReadsKept(sc, p, Steps(sc, root)[i], i) <==> ReadsSafe(sc, root, i)
    {
      StepAt(sc, root, p, i);
      WrittenLabels(sc, root, p, i);
    }
    forall x, i: nat | x in Reach(sc, root) && IsStepOf(sc, p, x, i)
      ensures 0 <= i < |Steps(sc, root)| && Steps(sc, root)[i] == x
    {
      StepPosition(sc, root, p, x, i);
    }
  }

  /** What the graph tells before it is lowered: the program of its trace has its meaning under every interpretation
      exactly when no visited format op has a positional argument and no literal is taken for a label. */
  lemma MeaningKeptBeforehandIff(sc: Scope, root: Id, p: Program)
    requires IsTraced(sc, root, p)
    ensures sc.Ranked() && root in sc.g && StepsPresent(p) && Traces(sc, root)
    ensures (forall I: Interp<Term> :: Run(I, p) == Meaning(sc, I, root)) <==>
              KeywordOnly(sc, Reach(sc, root)) && LiteralsSafe(sc, root)
  {
    assert sc.Ranked() && root in sc.g && LoweredBy(sc, root, p, Steps(sc, root));
    hide *;
    SafeIff(sc, root, p);
    TracedIsLowering(sc, root, p);
    MeaningKeptIff(sc, root, p);
  }
}
