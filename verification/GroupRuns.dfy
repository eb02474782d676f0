/** The run of a group of slices: the merged inputs, slice 0's graph with its list literals rewritten to them, and the
    outputs cut apart again (runtime/server.py:1437-1591, 2604-2648). */
module GroupRuns {
  import opened Collections
  import opened Slicing
  import opened Coalescing
  import opened Reassembly
  import opened RequestRuns
  import L = LiteralRewrite

  /** One result of a run: an output, or the chat history behind one. */
  datatype Key = Key(history: bool, output: string)

  /** A submitted workflow. The parser takes the list literals of its graph from the inputs or from its text. `compute`
      is the runtime: it sees the literals and what the input operators read. `run` is what it means for a row.
      `names` are the outputs, and `told` those that come with a chat history. */
  datatype Job = Job(graph: string, inputs: Inputs, rows: nat, workflows: seq<Workflow>, names: set<string>,
                     told: set<string>, template: seq<L.Literal>, inputOps: set<string>,
                     compute: Key -> (seq<L.Slot>, Inputs) -> seq<string>, run: Key -> Row -> string)
  {
    ghost predicate Valid() {
      Tiling(inputs, rows, SlicesOf(workflows)) && rows > 0 && names != {} && RowWise() &&
      forall i :: 0 <= i < |workflows| ==> workflows[i].graph == graph
    }

    /** The outputs, or those with a history. */
    function Names(history: bool): (r: set<string>) {
      if history then told else names
    }

    function Read(values: Inputs): (r: Inputs) {
      map k | k in values && k in inputOps :: values[k]
    }

    /** Rows of the job's shape. */
    ghost predicate Shaped(values: Inputs, n: nat) {
      n > 0 && Even(values, n) && values.Keys == inputs.Keys && Varying(values) <= Varying(inputs)
    }

    ghost predicate RunsByRow(key: Key, values: Inputs, n: nat)
      requires Even(values, n)
    {
      L.Closed(template, values) &&
      compute(key)(L.Parsed(template, values), Read(values)) == Outputs(run(key), Rows(values, n))
    }

    /** The graph that any rows compile to is computed row by row. */
    ghost predicate RowWise() {
      forall key, values, n :: Shaped(values, n) ==> RunsByRow(key, values, n)
    }

    /** The unsliced computation of one result. */
    ghost function Whole(key: Key): (r: seq<string>)
      requires Even(inputs, rows)
      ensures |r| == rows
    {
      Outputs(run(key), Rows(inputs, rows))
    }
  }

  function SlicesOf(ws: seq<Workflow>): (r: seq<Slice>)
    ensures |r| == |ws| && forall i :: 0 <= i < |ws| ==> r[i] == ws[i].slice
  {
    seq(|ws|, i requires 0 <= i < |ws| => ws[i].slice)
  }

  function WorkflowsOf(log: seq<Event>): (r: seq<Workflow>)
    ensures |r| == |log| && forall i :: 0 <= i < |log| ==> r[i] == log[i].w
  {
    seq(|log|, i requires 0 <= i < |log| => log[i].w)
  }

  ghost function Present(values: seq<string>): (r: Values)
    ensures |r| == |values| && forall p :: 0 <= p < |r| ==> r[p] == Some(values[p])
  {
    seq(|values|, p requires 0 <= p < |values| => Some(values[p]))
  }

  // ---- one group ---------------------------------------------------------------------------

  ghost predicate NamesOf(entries: seq<Entry>, names: set<string>) {
    DistinctOutputs(entries) && forall o :: o in names <==> exists i :: 0 <= i < |entries| && entries[i].output == o
  }

  /** The workflow ran, and reports the job's outputs and histories. */
  ghost predicate Succeeded(job: Job, o: Outcome) {
    !o.cancelled && !o.failed && Reports(job, o, false) && Reports(job, o, true)
  }

  ghost predicate Reports(job: Job, o: Outcome, history: bool) {
    (PayloadOf(o, history).Some? <==> job.Names(history) != {}) &&
    (PayloadOf(o, history).Some? ==> NamesOf(PayloadOf(o, history).value, job.Names(history)))
  }

  /** The workflows of one job that share a batch. */
  ghost predicate Group(job: Job, ws: seq<Workflow>) {
    ws != [] && Distinct(ws) && forall i :: 0 <= i < |ws| ==> ws[i] in job.workflows
  }

  ghost predicate Runnable(ordered: seq<Slice>) {
    Mergeable(ordered) && Joinable(ordered) && Even(MergedOf(ordered), Total(ordered))
  }

  /** Slice 0's graph is compiled, and more than one slice passes the rewrite. */
  ghost predicate Accepted(job: Job, ordered: seq<Slice>)
    requires Runnable(ordered)
  {
    var first := ordered[0].inputs;
    L.Closed(job.template, first) &&
    (|ordered| > 1 ==>
      L.Unambiguous(L.Parsed(job.template, first), first, ordered[0].varying) &&
      L.AllHit(L.Parsed(job.template, first), first, ordered[0].varying, job.inputOps))
  }

  /** No label of the graph clashes with slice 0 (`LiteralRewrite.NoClash`). */
  ghost predicate Unclashed(job: Job, ordered: seq<Slice>)
    requires Runnable(ordered)
  {
    |ordered| > 1 ==>
      L.Closed(job.template, ordered[0].inputs) && L.NoClash(job.template, ordered[0].inputs, ordered[0].varying)
  }

  /** The literals that the group runs with. */
  ghost function GroupSlots(job: Job, ordered: seq<Slice>): (r: seq<L.Slot>)
    requires Runnable(ordered) && L.Closed(job.template, ordered[0].inputs)
  {
    var first := ordered[0].inputs;
    var slots := L.Parsed(job.template, first);
    if |ordered| == 1 then slots else L.Rewritten(slots, first, MergedOf(ordered), ordered[0].varying)
  }

  /** A flat result of the group's run. */
  ghost function Flat(job: Job, ordered: seq<Slice>, key: Key): (r: seq<string>)
    requires Runnable(ordered) && L.Closed(job.template, ordered[0].inputs)
  {
    job.compute(key)(GroupSlots(job, ordered), job.Read(MergedOf(ordered)))
  }

  /** Every flat result has a value for each row of the group, as the demux demands. */
  ghost predicate Cuttable(job: Job, ordered: seq<Slice>)
    requires Runnable(ordered) && L.Closed(job.template, ordered[0].inputs)
  {
    forall key: Key :: key.output in job.Names(key.history) ==> |Flat(job, ordered, key)| == Total(ordered)
  }

  /** The events of a batch that merged the group: a refused merge or a result of another length fails every workflow,
      otherwise the graph is run and its results are cut apart. */
  ghost predicate GroupRan(job: Job, events: seq<Event>) {
    var ordered := Sorted(WorkflowsOf(events));
    forall k, j :: Runnable(ordered) && 0 <= k < |events| && 0 <= j < |ordered| && ordered[j] == events[k].w.slice ==>
      EventRan(job, ordered, j, events[k])
  }

  ghost predicate EventRan(job: Job, ordered: seq<Slice>, j: nat, e: Event)
    requires Runnable(ordered) && j < |ordered|
  {
    if Accepted(job, ordered) && Cuttable(job, ordered) then
      Succeeded(job, e.o) && forall history :: SharesOf(job, ordered, j, e.o, history)
    else Refused(e.o)
  }

  /** What the batch reports when the merge or the demux raises. */
  ghost predicate Refused(o: Outcome) {
    !o.cancelled && o.failed && o.outputs == None && o.histories == None
  }

  /** The entries are slice `j`'s parts of the flat results. */
  ghost predicate SharesOf(job: Job, ordered: seq<Slice>, j: nat, o: Outcome, history: bool)
    requires Runnable(ordered) && L.Closed(job.template, ordered[0].inputs) && Cuttable(job, ordered)
    requires Reports(job, o, history) && j < |ordered|
  {
    var payload := PayloadOf(o, history);
    payload.Some? ==> forall i :: 0 <= i < |payload.value| ==>
      payload.value[i].output in job.Names(history) &&
      payload.value[i].values == Present(Part(Flat(job, ordered, Key(history, payload.value[i].output)), ordered, j))
  }

  ghost predicate Placed(job: Job, w: Workflow) {
    Even(job.inputs, job.rows) && w.slice.start + w.slice.length <= job.rows
  }

  /** The workflow's rows of the unsliced computation. */
  ghost function Due(job: Job, w: Workflow, key: Key): (r: Values)
    requires Placed(job, w)
    ensures |r| == w.slice.length
  {
    Present(job.Whole(key)[w.slice.start..w.slice.start + w.slice.length])
  }

  /** The event reports a value for each of its rows. */
  ghost predicate Reported(job: Job, e: Event) {
    e.w in job.workflows && Succeeded(job, e.o) && forall history :: ReportedFor(e, history)
  }

  ghost predicate ReportedFor(e: Event, history: bool) {
    var payload := PayloadOf(e.o, history);
    payload.Some? ==> forall i :: 0 <= i < |payload.value| ==> ReportedEntry(e.w, payload.value[i])
  }

  ghost predicate ReportedEntry(w: Workflow, entry: Entry) {
    |entry.values| == w.slice.length && forall p :: 0 <= p < |entry.values| ==> entry.values[p].Some?
  }

  /** The event reports its rows of the unsliced computation. */
  ghost predicate Faithful(job: Job, e: Event) {
    Reported(job, e) && Placed(job, e.w) && forall history :: DueFor(job, e, history)
  }

  ghost predicate DueFor(job: Job, e: Event, history: bool)
    requires Placed(job, e.w)
  {
    var payload := PayloadOf(e.o, history);
    payload.Some? ==> forall i :: 0 <= i < |payload.value| ==>
      payload.value[i].values == Due(job, e.w, Key(history, payload.value[i].output))
  }

  lemma JobSlice(job: Job, w: Workflow)
    requires job.Valid() && w in job.workflows
    ensures SliceOf(job.inputs, job.rows, w.slice) && w.slice.length > 0 && w.graph == job.graph
    ensures Even(job.inputs, job.rows) && w.slice.start + w.slice.length <= job.rows && w.slice.total == job.rows
  {
    var i :| 0 <= i < |job.workflows| && job.workflows[i] == w;
    assert SlicesOf(job.workflows)[i] == w.slice;
    TilingAt(job.inputs, job.rows, SlicesOf(job.workflows), i);
  }

  /** Two workflows of a job with slices of the same index are the same. */
  lemma JobApart(job: Job, v: Workflow, w: Workflow)
    requires job.Valid() && v in job.workflows && w in job.workflows
    ensures v.slice.index == w.slice.index ==> v == w
    ensures v.slice.index < w.slice.index ==> v.slice.start + v.slice.length <= w.slice.start
  {
    var i :| 0 <= i < |job.workflows| && job.workflows[i] == v;
    var j :| 0 <= j < |job.workflows| && job.workflows[j] == w;
    var slices := SlicesOf(job.workflows);
    assert slices[i] == v.slice && slices[j] == w.slice;
    hide Tiling;
    TilingAt(job.inputs, job.rows, slices, i);
    TilingAt(job.inputs, job.rows, slices, j);
    if i < j {
      TilingApart(job.inputs, job.rows, slices, i, j);
    }
  }

  function Sorted(ws: seq<Workflow>): (r: seq<Slice>)
    ensures |r| == |ws|
  {
    var r := StableSort(SlicesOf(ws), IndexOf);
    assert |multiset(r)| == |r| && |multiset(SlicesOf(ws))| == |ws|;
    r
  }

  lemma FromSorted(ws: seq<Workflow>, j: nat) returns (k: nat)
    requires j < |ws|
    ensures k < |ws| && ws[k].slice == Sorted(ws)[j]
  {
    assert Sorted(ws)[j] in multiset(Sorted(ws));
    assert Sorted(ws)[j] in multiset(SlicesOf(ws));
    k :| 0 <= k < |ws| && SlicesOf(ws)[k] == Sorted(ws)[j];
  }

  lemma ToSorted(ws: seq<Workflow>, k: nat) returns (j: nat)
    requires k < |ws|
    ensures j < |ws| && Sorted(ws)[j] == ws[k].slice
  {
    assert SlicesOf(ws)[k] in multiset(SlicesOf(ws));
    assert SlicesOf(ws)[k] in multiset(Sorted(ws));
    j :| 0 <= j < |ws| && Sorted(ws)[j] == ws[k].slice;
  }

  lemma SortedStrictly(job: Job, ws: seq<Workflow>, i: nat, j: nat)
    requires job.Valid() && Group(job, ws) && i < j < |ws|
    ensures Sorted(ws)[i].start + Sorted(ws)[i].length <= Sorted(ws)[j].start
  {
    var ordered := Sorted(ws);
    SlicesDistinct(job, ws);
    SameElements(ordered, SlicesOf(ws));
    assert ordered[i] != ordered[j] && IndexOf(ordered[i]) <= IndexOf(ordered[j]);
    hide Sorted;
    var k := FromSorted(ws, i);
    var m := FromSorted(ws, j);
    JobApart(job, ws[k], ws[m]);
  }

  /** The sorted slices of a group are a selection of the job's slices. */
  lemma GroupSelection(job: Job, ws: seq<Workflow>)
    requires job.Valid() && Group(job, ws)
    ensures Selection(job.inputs, job.rows, Sorted(ws))
  {
    hide Tiling, SliceOf, Sorted, Even;
    forall i | 0 <= i < |ws| ensures SliceOf(job.inputs, job.rows, Sorted(ws)[i]) && Sorted(ws)[i].length > 0 {
      var k := FromSorted(ws, i);
      JobSlice(job, ws[k]);
    }
    forall i, j | 0 <= i < j < |ws| ensures Sorted(ws)[i].start + Sorted(ws)[i].length <= Sorted(ws)[j].start {
      SortedStrictly(job, ws, i, j);
    }
    JobSlice(job, ws[0]);
  }

  lemma SlicesDistinct(job: Job, ws: seq<Workflow>)
    requires job.Valid() && Group(job, ws)
    ensures Distinct(SlicesOf(ws))
  {
    forall i, j | 0 <= i < j < |ws| ensures SlicesOf(ws)[i] != SlicesOf(ws)[j] {
      JobApart(job, ws[i], ws[j]);
    }
  }

  /** A group is always accepted by the merge. */
  lemma GroupRunnable(job: Job, ws: seq<Workflow>)
    requires job.Valid() && Group(job, ws)
    ensures Runnable(Sorted(ws))
  {
    hide *;
    GroupSelection(job, ws);
    var ordered := Sorted(ws);
    SelectionMergeable(job.inputs, job.rows, ordered);
    SelectionEven(job.inputs, job.rows, ordered);
    MergedEven(job.inputs, job.rows, ordered);
    RunnableBy(ordered);
  }

  lemma RunnableBy(ordered: seq<Slice>)
    requires ordered != [] && Mergeable(ordered) && Joinable(ordered) && Even(MergedOf(ordered), Total(ordered))
    ensures Runnable(ordered)
  {
  }

  // ---- rewriting slice 0's graph is parsing the merge ----------------------------------------

  /** The first slice of a group and its merge have the job's shape. */
  lemma GroupShaped(job: Job, ws: seq<Workflow>)
    requires job.Valid() && Group(job, ws) && Runnable(Sorted(ws))
    ensures job.Shaped(MergedOf(Sorted(ws)), Total(Sorted(ws)))
    ensures L.Closed(job.template, MergedOf(Sorted(ws))) && L.Closed(job.template, Sorted(ws)[0].inputs)
    ensures Sorted(ws)[0].varying == Varying(job.inputs)
  {
    hide *;
    var ordered := Sorted(ws);
    GroupSelection(job, ws);
    SelectionMergeable(job.inputs, job.rows, ordered);
    SomeSlice(job, ws);
    MergedKeys(job.inputs, job.rows, ordered);
    MergedEven(job.inputs, job.rows, ordered);
    SelectionFits(job.inputs, job.rows, ordered);
    SelectionAt(job.inputs, job.rows, ordered, 0);
    SliceVarying(job.inputs, job.rows, ordered[0]);
    forall k | k in job.inputs && k !in Varying(job.inputs) ensures |MergedOf(ordered)[k]| == 1 {
      MergedLength(job.inputs, job.rows, ordered, k);
    }
    ShapedBy(job, MergedOf(ordered), Total(ordered));
    ClosedBy(job, MergedOf(ordered), Total(ordered));
    SameKeysClosed(job.template, MergedOf(ordered), ordered[0].inputs);
  }

  lemma SomeSlice(job: Job, ws: seq<Workflow>)
    requires Group(job, ws)
    ensures |Sorted(ws)| > 0
  {
    hide Sorted;
  }

  lemma SliceVarying(inputs: Inputs, n: nat, s: Slice)
    requires SliceOf(inputs, n, s)
    ensures s.varying == Varying(inputs) && s.inputs.Keys == inputs.Keys
  {
  }

  lemma ShapedBy(job: Job, values: Inputs, n: nat)
    requires n > 0 && Even(values, n) && values.Keys == job.inputs.Keys
    requires forall k :: k in job.inputs && k !in Varying(job.inputs) ==> |values[k]| == 1
    ensures job.Shaped(values, n)
  {
  }

  lemma ClosedBy(job: Job, values: Inputs, n: nat)
    requires job.Valid() && job.Shaped(values, n)
    ensures L.Closed(job.template, values) && Even(values, n)
    ensures forall key :: job.RunsByRow(key, values, n)
  {
    hide Tiling, L.Closed;
    assert job.RunsByRow(Key(false, ""), values, n);
  }

  lemma SameKeysClosed(template: seq<L.Literal>, a: Inputs, b: Inputs)
    requires L.Closed(template, a) && a.Keys == b.Keys
    ensures L.Closed(template, b)
  {
  }

  /** The literals that the group runs with are those that the merged inputs would compile to. */
  lemma GroupSlotsParsed(job: Job, ws: seq<Workflow>)
    requires job.Valid() && Group(job, ws) && Runnable(Sorted(ws))
    requires Accepted(job, Sorted(ws)) && Unclashed(job, Sorted(ws))
    ensures L.Closed(job.template, MergedOf(Sorted(ws)))
    ensures GroupSlots(job, Sorted(ws)) == L.Parsed(job.template, MergedOf(Sorted(ws)))
  {
    var ordered := Sorted(ws);
    hide Sorted, Job.Valid, Group, L.Closed, L.Parsed, L.Rewritten, L.Unambiguous, L.AllHit, L.NoClash, L.Extends;
    GroupShaped(job, ws);
    GroupSelection(job, ws);
    if |ordered| > 1 {
      var first, merged := ordered[0].inputs, MergedOf(ordered);
      L.MergeExtends(job.inputs, job.rows, ordered);
      ExtendsKeys(first, merged, ordered[0].varying);
      L.RewritingIsParsing(job.template, first, ordered[0].varying);
      assert L.Commutes(job.template, first, merged, ordered[0].varying);
    }
  }

  lemma ExtendsKeys(first: Inputs, merged: Inputs, varying: set<string>)
    requires L.Extends(first, merged, varying)
    ensures varying <= first.Keys
  {
  }

  /** The run of an accepted group computes the merged rows. */
  lemma FlatIsRows(job: Job, ws: seq<Workflow>, key: Key)
    requires job.Valid() && Group(job, ws) && Runnable(Sorted(ws))
    requires Accepted(job, Sorted(ws)) && Unclashed(job, Sorted(ws))
    ensures L.Closed(job.template, Sorted(ws)[0].inputs)
    ensures Flat(job, Sorted(ws), key) == Outputs(job.run(key), Rows(MergedOf(Sorted(ws)), Total(Sorted(ws))))
    ensures |Flat(job, Sorted(ws), key)| == Total(Sorted(ws))
  {
    var ordered := Sorted(ws);
    hide Sorted, Job.Valid, Group, L.Closed, L.Parsed, Accepted, Unclashed, GroupSlots, Job.Shaped, MergedOf, Rows, Total,
         Outputs, Runnable;
    RunnableGives(ordered);
    GroupShaped(job, ws);
    GroupSlotsParsed(job, ws);
    ClosedBy(job, MergedOf(ordered), Total(ordered));
    assert job.RunsByRow(key, MergedOf(ordered), Total(ordered));
    OutputsLength(job.run(key), MergedOf(ordered), Total(ordered));
  }

  lemma RunnableGives(ordered: seq<Slice>)
    requires Runnable(ordered)
    ensures ordered != [] && Joinable(ordered)
  {
  }

  /** Without a clash the results can always be cut. */
  lemma UnclashedCuts(job: Job, ws: seq<Workflow>)
    requires job.Valid() && Group(job, ws) && Runnable(Sorted(ws))
    requires Accepted(job, Sorted(ws)) && Unclashed(job, Sorted(ws))
    ensures L.Closed(job.template, Sorted(ws)[0].inputs) && Cuttable(job, Sorted(ws))
  {
    hide Sorted, Job.Valid, Group, Accepted, Unclashed, Runnable, L.Closed, Flat, Total, Rows, MergedOf, Outputs;
    FlatIsRows(job, ws, Key(false, ""));
    forall key: Key ensures |Flat(job, Sorted(ws), key)| == Total(Sorted(ws)) {
      FlatIsRows(job, ws, key);
    }
  }

  /** One result of one event of a group. */
  lemma ShareIsDue(job: Job, ws: seq<Workflow>, j: nat, w: Workflow, key: Key)
    requires job.Valid() && Group(job, ws) && j < |ws| && Sorted(ws)[j] == w.slice && Runnable(Sorted(ws))
    requires Accepted(job, Sorted(ws)) && Unclashed(job, Sorted(ws)) && w in job.workflows
    ensures Placed(job, w) && L.Closed(job.template, Sorted(ws)[0].inputs)
    ensures |Flat(job, Sorted(ws), key)| == Total(Sorted(ws))
    ensures Present(Part(Flat(job, Sorted(ws), key), Sorted(ws), j)) == Due(job, w, key)
  {
    hide Sorted, Tiling, Selection, SliceOf, Even, Joinable, Mergeable, MergedOf, Part, Outputs, Rows, Total, Group,
         Accepted, Unclashed, Flat, L.Closed, Job.RowWise;
    GroupSelection(job, ws);
    JobSlice(job, w);
    FlatIsRows(job, ws, key);
    DemuxRestores(job.run(key), job.inputs, job.rows, Sorted(ws), j);
  }

  lemma EventIsFaithful(job: Job, ws: seq<Workflow>, j: nat, e: Event)
    requires job.Valid() && Group(job, ws) && j < |ws| && Sorted(ws)[j] == e.w.slice && Runnable(Sorted(ws))
    requires Accepted(job, Sorted(ws)) && Unclashed(job, Sorted(ws))
    requires e.w in job.workflows && EventRan(job, Sorted(ws), j, e)
    ensures Faithful(job, e)
  {
    hide Sorted, Runnable, Flat, Due, Job.Valid, Group, Placed, Unclashed, Accepted, Cuttable, L.Closed, Part, Total, Reported,
         Reports, SharesOf, DueFor;
    JobPlaces(job, e.w);
    UnclashedCuts(job, ws);
    EventIsReported(job, ws, j, e);
    forall history ensures DueFor(job, e, history) {
      assert Reports(job, e.o, history);
      EntriesAreDue(job, ws, j, e, history);
    }
  }

  lemma EntriesAreDue(job: Job, ws: seq<Workflow>, j: nat, e: Event, history: bool)
    requires job.Valid() && Group(job, ws) && j < |ws| && Sorted(ws)[j] == e.w.slice && Runnable(Sorted(ws))
    requires Accepted(job, Sorted(ws)) && Unclashed(job, Sorted(ws)) && Cuttable(job, Sorted(ws))
    requires e.w in job.workflows && Reports(job, e.o, history) && SharesOf(job, Sorted(ws), j, e.o, history)
    ensures Placed(job, e.w) && DueFor(job, e, history)
  {
    hide Sorted, Runnable, Flat, Due, Job.Valid, Group, Placed, Unclashed, Accepted, Cuttable, L.Closed, Part, Total, Reports;
    JobPlaces(job, e.w);
    var payload := PayloadOf(e.o, history);
    if payload.Some? {
      forall i | 0 <= i < |payload.value|
        ensures payload.value[i].values == Due(job, e.w, Key(history, payload.value[i].output))
      {
        ShareIsDue(job, ws, j, e.w, Key(history, payload.value[i].output));
      }
    }
  }

  /** An accepted group with results of the right length reports a value for each row, clash or not. */
  lemma EventIsReported(job: Job, ws: seq<Workflow>, j: nat, e: Event)
    requires j < |ws| && Sorted(ws)[j] == e.w.slice && Runnable(Sorted(ws))
    requires Accepted(job, Sorted(ws)) && Cuttable(job, Sorted(ws))
    requires e.w in job.workflows && EventRan(job, Sorted(ws), j, e)
    ensures Reported(job, e)
  {
    var ordered := Sorted(ws);
    hide Sorted, Runnable, Flat, Accepted, Cuttable, L.Closed, Part, Total, ReportedEntry;
    AcceptedGives(job, ordered);
    forall history ensures ReportedFor(e, history) {
      assert SharesOf(job, ordered, j, e.o, history);
      var payload := PayloadOf(e.o, history);
      if payload.Some? {
        forall i | 0 <= i < |payload.value| ensures ReportedEntry(e.w, payload.value[i]) {
          PartIsReported(job, ordered, j, e.w, Key(history, payload.value[i].output), payload.value[i]);
        }
      }
    }
  }

  lemma AcceptedGives(job: Job, ordered: seq<Slice>)
    requires Runnable(ordered) && Accepted(job, ordered)
    ensures L.Closed(job.template, ordered[0].inputs)
  {
  }

  lemma PartIsReported(job: Job, ordered: seq<Slice>, j: nat, w: Workflow, key: Key, entry: Entry)
    requires Runnable(ordered) && L.Closed(job.template, ordered[0].inputs) && Cuttable(job, ordered)
    requires j < |ordered| && ordered[j] == w.slice && key.output in job.Names(key.history)
    requires entry.values == Present(Part(Flat(job, ordered, key), ordered, j))
    ensures ReportedEntry(w, entry)
  {
    hide Runnable, L.Closed, Flat, Part, Total;
    PartAt(Flat(job, ordered, key), ordered, j);
  }

  lemma JobPlaces(job: Job, w: Workflow)
    requires job.Valid() && w in job.workflows
    ensures Placed(job, w)
  {
    hide Job.Valid;
    JobSlice(job, w);
  }

  // ---- which groups run ----------------------------------------------------------------------

  /** A batch's group passes the merge. */
  ghost predicate Passes(job: Job, events: seq<Event>) {
    var ordered := Sorted(WorkflowsOf(events));
    Runnable(ordered) && Accepted(job, ordered)
  }

  /** It also passes the demux. */
  ghost predicate Completes(job: Job, events: seq<Event>) {
    var ordered := Sorted(WorkflowsOf(events));
    Runnable(ordered) && Accepted(job, ordered) && Cuttable(job, ordered)
  }

  /** No label clashes with the first slice of the batch's group. */
  ghost predicate ClashFree(job: Job, events: seq<Event>) {
    var ordered := Sorted(WorkflowsOf(events));
    Runnable(ordered) ==> Unclashed(job, ordered)
  }

  /** Whatever the group, its workflows report a value for each of their rows, or all of them fail. */
  lemma GroupOutcome(job: Job, events: seq<Event>, k: nat)
    requires job.Valid() && Group(job, WorkflowsOf(events)) && GroupRan(job, events) && k < |events|
    ensures if Completes(job, events) then Reported(job, events[k]) else Refused(events[k].o)
  {
    hide Sorted, Runnable, Job.Valid, EventRan, Reported, Accepted, Cuttable;
    GroupRunnable(job, WorkflowsOf(events));
    var j := ToSorted(WorkflowsOf(events), k);
    EventOutcome(job, Sorted(WorkflowsOf(events)), j, events[k]);
    if Completes(job, events) {
      EventIsReported(job, WorkflowsOf(events), j, events[k]);
    }
  }

  lemma EventOutcome(job: Job, ordered: seq<Slice>, j: nat, e: Event)
    requires Runnable(ordered) && j < |ordered| && EventRan(job, ordered, j, e)
    ensures !(Accepted(job, ordered) && Cuttable(job, ordered)) ==> Refused(e.o)
  {
  }

  /** Without a clash, a passed merge gives each workflow the rows of the unsliced computation. */
  lemma GroupIsFaithful(job: Job, events: seq<Event>, k: nat)
    requires job.Valid() && Group(job, WorkflowsOf(events)) && GroupRan(job, events) && k < |events|
    requires ClashFree(job, events) && Passes(job, events)
    ensures Completes(job, events) && Faithful(job, events[k])
  {
    hide Sorted, Runnable, Job.Valid, EventRan, Faithful, Accepted, Unclashed, Cuttable;
    var j := ToSorted(WorkflowsOf(events), k);
    UnclashedCuts(job, WorkflowsOf(events));
    EventIsFaithful(job, WorkflowsOf(events), j, events[k]);
  }

  /** Without a clash, the merge of several slices passes exactly when the workflow reads every varying input. */
  lemma PassesIff(job: Job, events: seq<Event>)
    requires job.Valid() && Group(job, WorkflowsOf(events)) && ClashFree(job, events)
    ensures Passes(job, events) <==> |events| == 1 || L.AllRead(job.template, Varying(job.inputs), job.inputOps)
    ensures Passes(job, events) <==> Completes(job, events)
  {
    hide Sorted, Runnable, Job.Valid, Group, Cuttable, L.Closed, L.Parsed, L.Unambiguous, L.AllHit, L.NoClash, L.AllRead;
    var ordered := Sorted(WorkflowsOf(events));
    GroupRunnable(job, WorkflowsOf(events));
    GroupShaped(job, WorkflowsOf(events));
    assert |ordered| == |events|;
    if |ordered| > 1 {
      L.NoClashIsUnambiguous(job.template, ordered[0].inputs, ordered[0].varying);
      L.HitsIff(job.template, ordered[0].inputs, ordered[0].varying, job.inputOps);
    }
    if Passes(job, events) {
      UnclashedCuts(job, WorkflowsOf(events));
    }
  }
}
