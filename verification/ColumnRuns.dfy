/** A runtime that takes one cell per row from every list it is given, and what a clash of labels does to its results. */
module ColumnRuns {
  import opened Collections
  import opened Slicing
  import opened Coalescing
  import opened Reassembly
  import opened RequestRuns
  import opened GroupRuns
  import opened Pipeline
  import L = LiteralRewrite

  type Reader = (seq<string>, Row) -> string

  /** Row `i` of a list, a single value repeated. */
  function CellIn(items: seq<string>, i: nat): (r: string) {
    if |items| == 1 then items[0] else if i < |items| then items[i] else ""
  }

  function Cells(slots: seq<L.Slot>, i: nat): (r: seq<string>)
    ensures |r| == |slots|
  {
    seq(|slots|, j requires 0 <= j < |slots| => CellIn(slots[j].items, i))
  }

  function RowIn(values: Inputs, i: nat): (r: Row) {
    map k | k in values :: CellIn(values[k], i)
  }

  ghost predicate HasLength(slots: seq<L.Slot>, values: Inputs, n: nat) {
    (exists j :: 0 <= j < |slots| && |slots[j].items| == n) || exists k :: k in values && |values[k]| == n
  }

  /** The length of the lists that are no single values. */
  ghost function RowCount(slots: seq<L.Slot>, values: Inputs): (r: nat) {
    if n: nat :| n > 1 && HasLength(slots, values, n) then n else 1
  }

  ghost function ByColumn(f: Reader, slots: seq<L.Slot>, values: Inputs): (r: seq<string>) {
    seq(RowCount(slots, values), i requires 0 <= i => f(Cells(slots, i), RowIn(values, i)))
  }

  // ---- it is row-wise ----------------------------------------------------------------------

  ghost function CellOf(l: L.Literal, row: Row): (r: string) {
    match l.source
    case Bound(k) => if k in row then row[k] else ""
    case Static(items) => CellIn(items, 0)
  }

  /** What the graph computes for a row of the inputs. */
  ghost function Meaning(f: Reader, template: seq<L.Literal>, inputOps: set<string>): (r: Row -> string) {
    (row: Row) => f(seq(|template|, j requires 0 <= j < |template| => CellOf(template[j], row)),
                    map k | k in row && k in inputOps :: row[k])
  }

  ghost predicate SingleTexts(template: seq<L.Literal>) {
    forall j :: 0 <= j < |template| && template[j].source.Static? ==> |template[j].source.items| == 1
  }

  ghost function Seen(values: Inputs, inputOps: set<string>): (r: Inputs) {
    map k | k in values && k in inputOps :: values[k]
  }

  lemma CountIsRows(template: seq<L.Literal>, inputOps: set<string>, values: Inputs, n: nat)
    requires Even(values, n) && n > 0 && L.Closed(template, values) && SingleTexts(template)
    requires L.AllRead(template, Varying(values), inputOps)
    ensures RowCount(L.Parsed(template, values), Seen(values, inputOps)) == n
  {
    var slots, seen := L.Parsed(template, values), Seen(values, inputOps);
    forall m: nat | m > 1 && HasLength(slots, seen, m) ensures m == n {
    }
    if n > 1 {
      var key :| key in values && |values[key]| == n;
      assert key in Varying(values);
      if key in inputOps {
        assert |seen[key]| == n;
      } else {
        assert L.Binds(template, key);
        var j :| 0 <= j < |template| && template[j].source == L.Bound(key);
        assert |slots[j].items| == n;
      }
      assert HasLength(slots, seen, n);
    }
  }

  lemma RowIsMeant(f: Reader, template: seq<L.Literal>, inputOps: set<string>, values: Inputs, n: nat, i: nat)
    requires Even(values, n) && i < n && L.Closed(template, values) && SingleTexts(template)
    ensures f(Cells(L.Parsed(template, values), i), RowIn(Seen(values, inputOps), i)) ==
            Meaning(f, template, inputOps)(RowAt(values, i))
  {
    var row := RowAt(values, i);
    var cells := seq(|template|, j requires 0 <= j < |template| => CellOf(template[j], row));
    forall j | 0 <= j < |template| ensures Cells(L.Parsed(template, values), i)[j] == cells[j] {
    }
    assert Cells(L.Parsed(template, values), i) == cells;
    assert RowIn(Seen(values, inputOps), i) == map k | k in row && k in inputOps :: row[k];
  }

  /** Such a runtime computes row by row when the workflow reads every varying input and its own lists are single
      values. */
  lemma ColumnsRunByRow(f: Reader, template: seq<L.Literal>, inputOps: set<string>, values: Inputs, n: nat)
    requires Even(values, n) && n > 0 && L.Closed(template, values) && SingleTexts(template)
    requires L.AllRead(template, Varying(values), inputOps)
    ensures ByColumn(f, L.Parsed(template, values), Seen(values, inputOps)) ==
            Outputs(Meaning(f, template, inputOps), Rows(values, n))
  {
    CountIsRows(template, inputOps, values, n);
    hide Even, L.Parsed, Cells, RowIn, Meaning, SingleTexts, L.AllRead, L.Closed, RowAt;
    var a := ByColumn(f, L.Parsed(template, values), Seen(values, inputOps));
    var b := Outputs(Meaning(f, template, inputOps), Rows(values, n));
    forall i | 0 <= i < n ensures a[i] == b[i] {
      RowIsMeant(f, template, inputOps, values, n, i);
    }
    assert a == b;
  }

  lemma ColumnsAreRowWise(job: Job, readers: Key -> Reader)
    requires L.Closed(job.template, job.inputs) && SingleTexts(job.template)
    requires L.AllRead(job.template, Varying(job.inputs), job.inputOps)
    requires forall k, slots, values :: job.compute(k)(slots, values) == ByColumn(readers(k), slots, values)
    requires forall k :: job.run(k) == Meaning(readers(k), job.template, job.inputOps)
    ensures job.RowWise()
  {
    hide ByColumn, Meaning, SingleTexts, Even;
    forall k, values, n | job.Shaped(values, n) ensures job.RunsByRow(k, values, n) {
      assert L.Closed(job.template, values);
      assert L.AllRead(job.template, Varying(values), job.inputOps);
      assert job.Read(values) == Seen(values, job.inputOps);
      ColumnsRunByRow(readers(k), job.template, job.inputOps, values, n);
    }
  }

  // ---- a clash shows in the results ----------------------------------------------------------

  ghost function SliceAt(k: nat): (r: Slice) {
    Slice(k, k, 1, 2, {"v"}, map["v" := [if k == 0 then "7" else "8"]])
  }

  /** The text of the workflow holds the price 7, and the first of two rows is 7. */
  ghost function Template(): seq<L.Literal> {
    [L.Literal("v", L.Bound("v")), L.Literal("price", L.Static(["7"]))]
  }

  ghost function Price(cells: seq<string>, row: Row): (r: string) {
    if |cells| == 2 then cells[1] else ""
  }

  ghost function Priced(): (r: Job) {
    Job("g", map["v" := ["7", "8"]], 2, [Workflow("a", "g", SliceAt(0)), Workflow("b", "g", SliceAt(1))], {"price"}, {},
        Template(), {}, _ => (slots, values) => ByColumn(Price, slots, values), _ => Meaning(Price, Template(), {}))
  }

  lemma PricedSlice(k: nat)
    requires k < 2
    ensures SliceOf(Priced().inputs, 2, SliceAt(k))
  {
    var inputs, s := Priced().inputs, SliceAt(k);
    assert |inputs["v"]| == 2 && |s.inputs["v"]| == 1 && Varying(inputs) == {"v"};
    assert Rows(s.inputs, 1)[0] == RowAt(inputs, k);
    assert Rows(s.inputs, 1) == Rows(inputs, 2)[k..k + 1];
  }

  lemma PricedValid()
    ensures Priced().Valid()
  {
    var job := Priced();
    PricedSlice(0);
    PricedSlice(1);
    assert SlicesOf(job.workflows) == [SliceAt(0), SliceAt(1)];
    assert Varying(job.inputs) == {"v"} && L.Binds(job.template, "v") by { assert job.template[0].source == L.Bound("v"); }
    ColumnsAreRowWise(job, _ => Price);
  }

  lemma PricedGroup()
    ensures Priced().Valid() && Group(Priced(), Priced().workflows)
    ensures Sorted(Priced().workflows) == [SliceAt(0), SliceAt(1)] && Runnable(Sorted(Priced().workflows))
  {
    var job := Priced();
    PricedValid();
    hide Sorted, Job.Valid;
    GroupRunnable(job, job.workflows);
    SortedStrictly(job, job.workflows, 0, 1);
    var i := FromSorted(job.workflows, 0);
    var j := FromSorted(job.workflows, 1);
    assert Sorted(job.workflows)[0] in [SliceAt(0), SliceAt(1)] && Sorted(job.workflows)[1] in [SliceAt(0), SliceAt(1)];
  }

  lemma PricedRewrite()
    ensures var first, merged := SliceAt(0).inputs, map["v" := ["7", "8"]];
      L.Closed(Template(), first) && L.Unambiguous(L.Parsed(Template(), first), first, {"v"}) &&
      L.AllHit(L.Parsed(Template(), first), first, {"v"}, {}) && !L.NoClash(Template(), first, {"v"}) &&
      L.Rewritten(L.Parsed(Template(), first), first, merged, {"v"}) == [L.Slot("v", ["7", "8"]), L.Slot("price", ["7", "8"])]
  {
    var first := SliceAt(0).inputs;
    var slots := L.Parsed(Template(), first);
    assert slots == [L.Slot("v", ["7"]), L.Slot("price", ["7"])];
    assert L.Matches(first, {"v"}, ["7"]) == {"v"};
    assert slots[..1] == [L.Slot("v", ["7"])] && slots[..1][..0] == [];
    assert L.Aliases([], first, {"v"}) == map[] && L.Aliases(slots[..1], first, {"v"}) == map[];
    assert L.Aliases(slots, first, {"v"}) == map["price" := "v"];
    assert L.Chosen(map["price" := "v"], {"v"}, slots[0].name) == Some("v");
    assert L.Due(Template()[1], {"v"}) == None;
  }

  lemma PricedRuns()
    ensures var slots := [L.Slot("v", ["7", "8"]), L.Slot("price", ["7", "8"])];
      |ByColumn(Price, slots, map[])| == 2 && ByColumn(Price, slots, map[])[1] == "8"
  {
    var slots := [L.Slot("v", ["7", "8"]), L.Slot("price", ["7", "8"])];
    assert |slots[0].items| == 2;
    assert HasLength(slots, map[], 2);
    assert forall n: nat :: HasLength(slots, map[], n) ==> n == 2;
    assert ByColumn(Price, slots, map[])[1] == Price(Cells(slots, 1), RowIn(map[], 1));
    assert Cells(slots, 1)[1] == "8";
  }

  /** For each row the price is the one of the text. */
  lemma PriceIsText(inputOps: set<string>, row: Row)
    ensures Meaning(Price, Template(), inputOps)(row) == "7"
  {
    var cells := seq(2, j requires 0 <= j < 2 => CellOf(Template()[j], row));
    assert Meaning(Price, Template(), inputOps)(row) == Price(cells, map k | k in row && k in inputOps :: row[k]);
    assert cells[1] == "7";
  }

  lemma PricedFlat(ordered: seq<Slice>, key: Key)
    requires ordered == [SliceAt(0), SliceAt(1)] && Runnable(ordered) && L.Closed(Template(), ordered[0].inputs)
    ensures var flat := Flat(Priced(), ordered, key); |flat| == 2 && flat[1] == "8"
  {
    hide Runnable, ByColumn, L.Closed, Meaning, L.Rewritten, L.Parsed;
    PricedRewrite();
    PricedRuns();
    assert MergedOf(ordered) == map["v" := ["7", "8"]] by { RunnableGives(ordered); PricedMerge(ordered); }
    assert Priced().Read(MergedOf(ordered)) == map[];
  }

  lemma PricedWhole()
    ensures Even(Priced().inputs, 2) && Priced().rows == 2 && Priced().Whole(Key(false, "price"))[1] == "7"
  {
    PricedSlice(0);
    var inputs := Priced().inputs;
    PriceIsText({}, RowAt(inputs, 1));
    assert Rows(inputs, 2)[1] == RowAt(inputs, 1);
    hide ByColumn, Meaning, SliceOf, Even, RowAt;
  }

  /** The workflows run in one batch, which completes although labels clash. */
  lemma PricedCompletes(events: seq<Event>)
    requires WorkflowsOf(events) == Priced().workflows
    ensures Completes(Priced(), events) && !ClashFree(Priced(), events)
    ensures Runnable(Sorted(WorkflowsOf(events))) && L.Closed(Template(), Sorted(WorkflowsOf(events))[0].inputs)
  {
    hide *;
    var ordered := Sorted(Priced().workflows);
    PricedGroup();
    PricedAccepted(ordered);
    PricedTotal(ordered);
    forall key: Key ensures |Flat(Priced(), ordered, key)| == Total(ordered) {
      PricedFlat(ordered, key);
    }
    CompletesBy(Priced(), events);
  }

  lemma CompletesBy(job: Job, events: seq<Event>)
    requires var ordered := Sorted(WorkflowsOf(events));
      Runnable(ordered) && Accepted(job, ordered) && !Unclashed(job, ordered) &&
      L.Closed(job.template, ordered[0].inputs) && forall key: Key :: |Flat(job, ordered, key)| == Total(ordered)
    ensures Completes(job, events) && !ClashFree(job, events)
  {
    hide Runnable, Accepted, Unclashed, L.Closed, Flat, Total, Sorted;
  }

  lemma PricedTotal(ordered: seq<Slice>)
    requires ordered == [SliceAt(0), SliceAt(1)]
    ensures Total(ordered) == 2 && Offset(ordered, 1) == 1
  {
    OffsetIsZero(ordered);
    OffsetNext(ordered, 0);
    OffsetNext(ordered, 1);
    hide Offset;
  }

  /** The outcome of the workflow at position `k` of the batch. */
  ghost function PricedEvent(ordered: seq<Slice>, flat: seq<string>, k: nat): (r: Event)
    requires k < 2 == |ordered| && |flat| == Total(ordered)
  {
    Event(Priced().workflows[k],
          Outcome(false, false, Some([Entry("price", Present(Part(flat, ordered, k)))]), None))
  }

  lemma PricedRun() returns (events: seq<Event>)
    ensures WorkflowsOf(events) == Priced().workflows && GroupRan(Priced(), events)
  {
    hide *;
    var job, ordered := Priced(), Sorted(Priced().workflows);
    PricedGroup();
    PricedAccepted(ordered);
    PricedTotal(ordered);
    PricedFlat(ordered, Key(false, "price"));
    var flat := Flat(job, ordered, Key(false, "price"));
    events := [PricedEvent(ordered, flat, 0), PricedEvent(ordered, flat, 1)];
    PricedWorkflows(ordered, flat);
    PricedCompletes(events);
    PricedCut(events);
    PricedRan(ordered, flat, 0);
    PricedRan(ordered, flat, 1);
    RanByPosition(job, events, ordered);
  }

  lemma PricedCut(events: seq<Event>)
    requires Completes(Priced(), events)
    ensures var ordered := Sorted(WorkflowsOf(events));
            Runnable(ordered) && L.Closed(Priced().template, ordered[0].inputs) && Cuttable(Priced(), ordered)
  {
    hide Runnable, Cuttable, L.Closed, Sorted, Priced, L.Unambiguous, L.AllHit;
  }

  lemma PricedWorkflows(ordered: seq<Slice>, flat: seq<string>)
    requires |ordered| == 2 && |flat| == Total(ordered)
    ensures WorkflowsOf([PricedEvent(ordered, flat, 0), PricedEvent(ordered, flat, 1)]) == Priced().workflows
    ensures forall k: nat :: k < 2 ==> PricedEvent(ordered, flat, k).w.slice == SliceAt(k)
  {
    hide Total, Part;
  }

  lemma PricedRan(ordered: seq<Slice>, flat: seq<string>, k: nat)
    requires k < 2 && ordered == [SliceAt(0), SliceAt(1)] && Runnable(ordered) && Accepted(Priced(), ordered)
    requires L.Closed(Template(), ordered[0].inputs) && Cuttable(Priced(), ordered) && |flat| == Total(ordered)
    requires flat == Flat(Priced(), ordered, Key(false, "price"))
    ensures EventRan(Priced(), ordered, k, PricedEvent(ordered, flat, k))
  {
    hide Runnable, Accepted, L.Closed, Cuttable, Flat, Total, Part;
    var job, e := Priced(), PricedEvent(ordered, flat, k);
    assert PayloadOf(e.o, false).value[0].output == "price";
    assert Reports(job, e.o, false) && Reports(job, e.o, true);
    assert SharesOf(job, ordered, k, e.o, false) && SharesOf(job, ordered, k, e.o, true);
  }

  /** Each slice is at one position only. */
  lemma RanByPosition(job: Job, events: seq<Event>, ordered: seq<Slice>)
    requires ordered == Sorted(WorkflowsOf(events)) == [SliceAt(0), SliceAt(1)] && |events| == 2 && Runnable(ordered)
    requires events[0].w.slice == SliceAt(0) && events[1].w.slice == SliceAt(1)
    requires EventRan(job, ordered, 0, events[0]) && EventRan(job, ordered, 1, events[1])
    ensures GroupRan(job, events)
  {
    hide EventRan, Runnable, Sorted;
    forall k, j | 0 <= k < 2 && 0 <= j < 2 && ordered[j] == events[k].w.slice ensures j == k {
      assert ordered[j].index == j && events[k].w.slice.index == k;
    }
  }

  /** The merge accepts a batch whose labels clash: the response has no error, and another row than the job's. */
  lemma ClashMisleads(pending: set<string>) returns (events: seq<Event>, totals: map<string, nat>, r: Response)
    ensures Priced().Valid() && WorkflowsOf(events) == Priced().workflows && GroupRan(Priced(), events)
    ensures !ClashFree(Priced(), events) && Orderly(events, totals)
    ensures Responds(Replay(Initial(pending), events, totals), r) && r.errors == []
    ensures var t := Target("g", "price");
            t in r.outputs && Even(Priced().inputs, Priced().rows) && r.outputs[t] != Priced().Whole(Key(false, "price"))
  {
    hide *;
    events := PricedRun();
    totals := map["g" := 2];
    PricedGroup();
    PricedOrderly(events);
    r := SomeResponse(Replay(Initial(pending), events, totals));
    PricedResponse(events, totals, pending, r);
  }

  lemma PricedOrderly(events: seq<Event>)
    requires WorkflowsOf(events) == Priced().workflows
    ensures Orderly(events, map["g" := 2])
    ensures forall pending :: Steady(Initial(pending), map["g" := 2])
  {
    forall k | 0 <= k < |events| ensures Agrees(events[k].w, map["g" := 2]) {
      assert events[k].w == WorkflowsOf(events)[k];
    }
  }

  /** Every response to such a run has the other row. */
  lemma PricedResponse(events: seq<Event>, totals: map<string, nat>, pending: set<string>, r: Response)
    requires WorkflowsOf(events) == Priced().workflows && GroupRan(Priced(), events)
    requires Orderly(events, totals) && Responds(Replay(Initial(pending), events, totals), r)
    ensures Priced().Valid() && !ClashFree(Priced(), events) && r.errors == []
    ensures var t := Target("g", "price");
            t in r.outputs && Even(Priced().inputs, Priced().rows) && r.outputs[t] != Priced().Whole(Key(false, "price"))
  {
    hide *;
    var job, t := Priced(), Target("g", "price");
    PricedGroup();
    PricedCompletes(events);
    PricedWhole();
    OneBatch(job, events);
    ErrorFreeIff(job, [events], events, totals, pending, r);
    PricedTarget(job, events, r);
    SecondRow(events, r.outputs[t]);
  }

  /** A job whose workflows are all in one batch. */
  lemma OneBatch(job: Job, events: seq<Event>)
    requires WorkflowsOf(events) == job.workflows && Group(job, job.workflows) && GroupRan(job, events)
    requires Completes(job, events)
    ensures Batched(job, [events]) && Interleaves([events], events) && EachOnce(job, events) && AllComplete(job, [events])
  {
    hide Group, GroupRan, Completes;
    forall j | 0 <= j < |events| ensures InBatch([events], events[j]) {
      assert events[j] in [events][0];
    }
  }

  lemma PricedTarget(job: Job, events: seq<Event>, r: Response)
    requires job == Priced() && ShowsRows(job, events, false, r.outputs)
    ensures var t := Target("g", "price");
            t in r.outputs && |r.outputs[t]| == 2 && ShowsReported(job, events, false, t, r.outputs[t])
  {
    hide ShowsReported;
    assert IsTarget(job, false, Target("g", "price"));
  }

  /** The second row of the response is the second slice's share of the flat output. */
  lemma SecondRow(events: seq<Event>, rows: seq<string>)
    requires WorkflowsOf(events) == Priced().workflows && GroupRan(Priced(), events) && |rows| == 2
    requires ShowsReported(Priced(), events, false, Target("g", "price"), rows)
    ensures rows[1] == "8"
  {
    hide *;
    var job, ordered, t := Priced(), Sorted(Priced().workflows), Target("g", "price");
    PricedGroup();
    PricedCompletes(events);
    PricedTotal(ordered);
    PricedFlat(ordered, Key(false, "price"));
    SecondEvent(events, rows);
    SecondRan(job, events);
    WrittenShare(job, ordered, events[1], t, rows[1]);
  }

  lemma SecondEvent(events: seq<Event>, rows: seq<string>)
    requires WorkflowsOf(events) == Priced().workflows && |rows| == 2
    requires ShowsReported(Priced(), events, false, Target("g", "price"), rows)
    ensures |events| == 2 && events[1].w == Workflow("b", "g", SliceAt(1))
    ensures ReportsRow(events[1], false, Target("g", "price"), 1, rows[1])
  {
    hide ReportsRow;
    assert |WorkflowsOf(events)| == 2 && WorkflowsOf(events)[1] == Workflow("b", "g", SliceAt(1));
    assert InSlice(events[1].w, 1);
  }

  lemma SecondRan(job: Job, events: seq<Event>)
    requires GroupRan(job, events) && Completes(job, events) && |events| == 2
    requires Sorted(WorkflowsOf(events)) == [SliceAt(0), SliceAt(1)] && events[1].w.slice == SliceAt(1)
    ensures var ordered := Sorted(WorkflowsOf(events));
      Runnable(ordered) && L.Closed(job.template, ordered[0].inputs) && Cuttable(job, ordered) &&
      Reports(job, events[1].o, false) && SharesOf(job, ordered, 1, events[1].o, false)
  {
    hide Runnable, Cuttable, L.Closed, Reports, SharesOf, Sorted, L.Unambiguous, L.AllHit;
    var ordered := Sorted(WorkflowsOf(events));
    assert ordered[1] == events[1].w.slice;
    assert EventRan(job, ordered, 1, events[1]);
  }

  lemma WrittenShare(job: Job, ordered: seq<Slice>, e: Event, t: Target, row: string)
    requires Runnable(ordered) && L.Closed(job.template, ordered[0].inputs) && Cuttable(job, ordered)
    requires |ordered| == 2 && Reports(job, e.o, false) && SharesOf(job, ordered, 1, e.o, false)
    requires ordered == [SliceAt(0), SliceAt(1)] && e.w.slice == ordered[1] && Total(ordered) == 2 && Offset(ordered, 1) == 1
    requires ReportsRow(e, false, t, 1, row)
    requires var flat := Flat(job, ordered, Key(false, t.output)); |flat| == 2 && flat[1] == "8"
    ensures row == "8"
  {
    hide Runnable, L.Closed, Cuttable, Flat, Offset, Total, Written, Part;
    var entries := PayloadOf(e.o, false).value;
    WrittenFrom(entries, t.output, e.w.slice.length);
    PartAt(Flat(job, ordered, Key(false, t.output)), ordered, 1);
  }

  lemma PricedAccepted(ordered: seq<Slice>)
    requires ordered == [SliceAt(0), SliceAt(1)] && Runnable(ordered)
    ensures Accepted(Priced(), ordered) && !Unclashed(Priced(), ordered) && L.Closed(Template(), ordered[0].inputs)
    ensures Priced().template == Template()
  {
    hide Runnable, L.Closed, L.NoClash, L.Parsed, L.Rewritten, L.AllHit, L.Unambiguous;
    PricedRewrite();
  }

  lemma PricedMerge(ordered: seq<Slice>)
    requires ordered == [SliceAt(0), SliceAt(1)] && Joinable(ordered)
    ensures MergedOf(ordered) == map["v" := ["7", "8"]]
  {
    assert ordered[..1] == [SliceAt(0)] && ordered[..1][..0] == [];
    assert Concat(ordered[..1], "v") == ["7"];
    assert Concat(ordered, "v") == ["7", "8"];
  }
}
