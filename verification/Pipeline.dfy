/** Slicing, batching and reassembling a workflow is invisible in its results: the whole path from
    `submit_job` (routes/jobs.py:2071-2106) through coalescing and demux (runtime/server.py:1437-1591,
    2604-2648) to the finished buffers (runtime/server.py:1905-2018). */
module Pipeline {
  import opened Collections
  import opened Slicing
  import opened Coalescing
  import opened Reassembly
  import opened RequestRuns
  import opened GroupRuns
  import L = LiteralRewrite

  // ---- the whole run -----------------------------------------------------------------------

  ghost predicate InSlice(w: Workflow, p: nat) {
    w.slice.start <= p < w.slice.start + w.slice.length
  }

  ghost predicate Covered(log: seq<Event>, p: nat) {
    exists j :: 0 <= j < |log| && InSlice(log[j].w, p)
  }

  lemma {:induction false} WrittenPresent(entries: seq<Entry>, i: nat, length: nat)
    requires DistinctOutputs(entries) && i < |entries| && |entries[i].values| == length
    ensures Written(entries, entries[i].output, length) == Some(entries[i].values)
  {
    if i < |entries| - 1 {
      WrittenPresent(entries[..|entries| - 1], i, length);
    }
  }

  /** What a reporting event has for an output. */
  lemma ReportedWritten(job: Job, e: Event, history: bool, output: string)
    requires Reported(job, e) && PayloadOf(e.o, history).Some?
    ensures var r := Written(PayloadOf(e.o, history).value, output, e.w.slice.length);
            (r.Some? <==> output in job.Names(history)) &&
            (r.Some? ==> forall p :: 0 <= p < |r.value| ==> r.value[p].Some?)
  {
    var entries := PayloadOf(e.o, history).value;
    assert Reports(job, e.o, history) && ReportedFor(e, history);
    if output in job.Names(history) {
      var i :| 0 <= i < |entries| && entries[i].output == output;
      assert ReportedEntry(e.w, entries[i]);
      WrittenPresent(entries, i, e.w.slice.length);
    } else {
      WrittenAbsent(entries, output, e.w.slice.length);
    }
  }

  /** The target is one of the job's outputs, or of its histories. */
  ghost predicate IsTarget(job: Job, history: bool, t: Target) {
    t.graph == job.graph && t.output in job.Names(history)
  }

  lemma ReportedWrites(job: Job, e: Event, history: bool, t: Target, p: nat)
    requires job.Valid() && Reported(job, e)
    ensures Writes(e, history, t, p) <==> IsTarget(job, history, t) && InSlice(e.w, p)
    ensures Writes(e, history, t, p) ==> WrittenBy(e, history, t, p).Some?
    ensures Feeds(e, history, t) <==> IsTarget(job, history, t)
  {
    JobSlice(job, e.w);
    assert Reports(job, e.o, history);
    if PayloadOf(e.o, history).Some? {
      ReportedWritten(job, e, history, t.output);
    }
    hide Written, Job.Valid, SliceOf, Even, Reported, Reports;
  }

  ghost predicate AllReported(job: Job, log: seq<Event>) {
    forall j :: 0 <= j < |log| ==> Reported(job, log[j])
  }

  lemma {:induction false} ReportedLastWrite(job: Job, log: seq<Event>, history: bool, t: Target, p: nat)
    requires job.Valid() && AllReported(job, log)
    ensures LastWrite(log, history, t, p).Some? <==> IsTarget(job, history, t) && Covered(log, p)
  {
    hide Reported, Job.Valid, Writes, WrittenBy, Feeds, InSlice, IsTarget;
    if log != [] {
      var k := |log| - 1;
      ReportedLastWrite(job, log[..k], history, t, p);
      ReportedWrites(job, log[k], history, t, p);
      assert forall j :: 0 <= j < k ==> log[..k][j] == log[j];
      assert Covered(log, p) <==> Covered(log[..k], p) || InSlice(log[k].w, p);
    }
  }

  /** Each workflow of the job is handled once, in some order. */
  ghost predicate EachOnce(job: Job, log: seq<Event>) {
    multiset(WorkflowsOf(log)) == multiset(job.workflows)
  }

  lemma LogApart(job: Job, log: seq<Event>, i: nat, j: nat, p: nat)
    requires job.Valid() && EachOnce(job, log) && i < j < |log| && InSlice(log[j].w, p)
    ensures !InSlice(log[i].w, p)
  {
    var ws := WorkflowsOf(log);
    JobDistinct(job);
    SameElements(ws, job.workflows);
    assert ws[i] in multiset(ws) && ws[j] in multiset(ws) && ws[i] != ws[j];
    hide Job.Valid;
    JobApart(job, ws[i], ws[j]);
    JobApart(job, ws[j], ws[i]);
  }

  lemma JobDistinct(job: Job)
    requires job.Valid()
    ensures Distinct(job.workflows)
  {
    forall i, j | 0 <= i < j < |job.workflows| ensures job.workflows[i] != job.workflows[j] {
      TilingAt(job.inputs, job.rows, SlicesOf(job.workflows), i);
      TilingAt(job.inputs, job.rows, SlicesOf(job.workflows), j);
      assert SlicesOf(job.workflows)[i].index == i && SlicesOf(job.workflows)[j].index == j;
    }
  }

  /** The slices of a job cover its rows. */
  lemma LogCovers(job: Job, log: seq<Event>, p: nat)
    requires job.Valid() && EachOnce(job, log) && p < job.rows
    ensures Covered(log, p)
  {
    var slices := SlicesOf(job.workflows);
    hide Offset, Total, SliceOf, Tiling;
    TilingTotal(job.inputs, job.rows, slices);
    TotalIsOffset(slices);
    var j, i := Locate(slices, |slices|, p);
    TilingOffset(job.inputs, job.rows, slices, j);
    assert job.workflows[j] in multiset(job.workflows);
    assert job.workflows[j] in multiset(WorkflowsOf(log));
    var k :| 0 <= k < |log| && WorkflowsOf(log)[k] == job.workflows[j];
    assert InSlice(log[k].w, p);
  }

  lemma TotalIsOffset(slices: seq<Slice>)
    ensures Total(slices) == Offset(slices, |slices|)
  {
  }

  /** A row is written by the one event whose slice holds it. */
  lemma {:induction false} OnlyWrite(job: Job, log: seq<Event>, n: nat, k: nat, history: bool, t: Target, p: nat)
    requires job.Valid() && AllReported(job, log) && EachOnce(job, log) && k < n <= |log|
    requires InSlice(log[k].w, p) && IsTarget(job, history, t)
    ensures Writes(log[k], history, t, p) && LastWrite(log[..n], history, t, p) == WrittenBy(log[k], history, t, p)
    decreases n
  {
    hide Reported, Job.Valid, Writes, WrittenBy, InSlice, IsTarget, EachOnce;
    var last := log[..n];
    assert last[..n - 1] == log[..n - 1] && last[n - 1] == log[n - 1];
    ReportedWrites(job, log[n - 1], history, t, p);
    if k < n - 1 {
      OnlyWrite(job, log, n - 1, k, history, t, p);
      NotBoth(job, log, k, n - 1, p);
    }
  }

  lemma NotBoth(job: Job, log: seq<Event>, i: nat, j: nat, p: nat)
    requires job.Valid() && EachOnce(job, log) && i < j < |log| && InSlice(log[i].w, p)
    ensures !InSlice(log[j].w, p)
  {
    hide Job.Valid, EachOnce, InSlice;
    if InSlice(log[j].w, p) {
      LogApart(job, log, i, j, p);
    }
  }

  lemma LogIsClean(job: Job, log: seq<Event>)
    requires job.Valid() && AllReported(job, log) && EachOnce(job, log)
    ensures AllClean(log) && AllKeyed(log)
  {
    hide Job.Valid, EachOnce, Clean, WellKeyed, Reported;
    forall j | 0 <= j < |log| ensures Clean(log[..j], log[j]) && WellKeyed(log[j]) {
      EventIsClean(job, log, j);
      KeyedIfReported(job, log[j]);
    }
  }

  lemma KeyedIfReported(job: Job, e: Event)
    requires Reported(job, e) || Refused(e.o)
    ensures WellKeyed(e)
  {
    if Reported(job, e) {
      assert Reports(job, e.o, false) && Reports(job, e.o, true);
    }
  }

  lemma EventIsClean(job: Job, log: seq<Event>, j: nat)
    requires job.Valid() && AllReported(job, log) && EachOnce(job, log) && j < |log|
    ensures Clean(log[..j], log[j])
  {
    var e := log[j];
    hide Job.Valid, EachOnce, LastWrite, SliceOf, Even, RowsUntouched, ReportedEntry;
    assert Reported(job, e) && Reports(job, e.o, false);
    JobInRange(job, e.w);
    assert ReportedFor(e, false) && ReportedFor(e, true);
    forall history, i | PayloadOf(e.o, history).Some? && 0 <= i < |PayloadOf(e.o, history).value|
      ensures |PayloadOf(e.o, history).value[i].values| == e.w.slice.length
      ensures RowsUntouched(log[..j], history, e.w, PayloadOf(e.o, history).value[i].output)
    {
      EntryIsClean(job, log, j, history, i);
    }
  }

  lemma JobInRange(job: Job, w: Workflow)
    requires job.Valid() && w in job.workflows
    ensures InRange(w) && job.names != {}
  {
    JobSlice(job, w);
    hide SliceOf, Even, Tiling;
  }

  lemma EntryIsClean(job: Job, log: seq<Event>, j: nat, history: bool, i: nat)
    requires job.Valid() && AllReported(job, log) && EachOnce(job, log) && j < |log|
    requires PayloadOf(log[j].o, history).Some? && i < |PayloadOf(log[j].o, history).value|
    ensures var entry := PayloadOf(log[j].o, history).value[i];
            |entry.values| == log[j].w.slice.length && RowsUntouched(log[..j], history, log[j].w, entry.output)
  {
    hide Job.Valid, LastWrite, EachOnce, AllReported, Reported;
    var entry := PayloadOf(log[j].o, history).value[i];
    assert ReportedEntry(log[j].w, entry) by { EntryIsReported(job, log, j, history, i); }
    var before := log[..j];
    assert AllReported(job, before) by { PrefixReported(job, log, j); }
    forall p: nat | InSlice(log[j].w, p)
      ensures LastWrite(before, history, Target(log[j].w.graph, entry.output), p) == None
    {
      ReportedLastWrite(job, before, history, Target(log[j].w.graph, entry.output), p);
      forall k | 0 <= k < j ensures !InSlice(before[k].w, p) {
        LogApart(job, log, k, j, p);
      }
    }
  }

  lemma EntryIsReported(job: Job, log: seq<Event>, j: nat, history: bool, i: nat)
    requires AllReported(job, log) && j < |log|
    requires PayloadOf(log[j].o, history).Some? && i < |PayloadOf(log[j].o, history).value|
    ensures ReportedEntry(log[j].w, PayloadOf(log[j].o, history).value[i])
  {
    assert Reported(job, log[j]) && ReportedFor(log[j], history);
  }

  lemma PrefixReported(job: Job, log: seq<Event>, j: nat)
    requires AllReported(job, log) && j <= |log|
    ensures AllReported(job, log[..j])
  {
    hide Reported;
  }

  lemma LogFeeds(job: Job, log: seq<Event>, history: bool, t: Target)
    requires job.Valid() && AllReported(job, log) && EachOnce(job, log)
    ensures (exists j :: 0 <= j < |log| && Feeds(log[j], history, t)) <==> IsTarget(job, history, t)
  {
    hide Feeds, Reported, Tiling, IsTarget;
    assert |multiset(WorkflowsOf(log))| == |log| && |multiset(job.workflows)| == |job.workflows|;
    LogCovers(job, log, 0);
    forall j | 0 <= j < |log| ensures Feeds(log[j], history, t) <==> IsTarget(job, history, t) {
      ReportedWrites(job, log[j], history, t, 0);
    }
  }

  /** The rows shown are those that the job's workflows reported, each in its place. */
  ghost predicate ShowsRows(job: Job, log: seq<Event>, history: bool, shown: map<Target, seq<string>>) {
    (forall t :: t in shown <==> IsTarget(job, history, t)) &&
    forall t :: t in shown ==> |shown[t]| == job.rows && ShowsReported(job, log, history, t, shown[t])
  }

  ghost predicate ShowsReported(job: Job, log: seq<Event>, history: bool, t: Target, rows: seq<string>) {
    forall k, p :: 0 <= k < |log| && 0 <= p < |rows| && InSlice(log[k].w, p) ==>
      ReportsRow(log[k], history, t, p, rows[p])
  }

  ghost predicate ReportsRow(e: Event, history: bool, t: Target, p: nat, row: string) {
    Writes(e, history, t, p) && WrittenBy(e, history, t, p) == Some(row)
  }

  /** The response to a run of reporting events, each workflow once: what they reported, without error. */
  lemma ReportedRun(job: Job, log: seq<Event>, totals: map<string, nat>, pending: set<string>, r: Response)
    requires job.Valid() && AllReported(job, log) && EachOnce(job, log) && Orderly(log, totals)
    requires Responds(Replay(Initial(pending), log, totals), r)
    ensures r.errors == [] && ShowsRows(job, log, false, r.outputs) && ShowsRows(job, log, true, r.histories)
  {
    hide *;
    LogIsClean(job, log);
    ResponseIsFaithful(log, totals, pending, r);
    ShownRows(job, log, totals, false, "", r.outputs);
    ShownRows(job, log, totals, true, NO_HISTORY, r.histories);
  }

  lemma ShownRows(job: Job, log: seq<Event>, totals: map<string, nat>, history: bool, blank: string,
                  shown: map<Target, seq<string>>)
    requires job.Valid() && AllReported(job, log) && EachOnce(job, log) && Orderly(log, totals)
    requires ShowsRun(shown, log, totals, history, blank)
    ensures ShowsRows(job, log, history, shown) && Complete(shown, log, history)
  {
    hide Job.Valid, AllReported, EachOnce, Orderly, ShowsTarget, IsTarget, LastWrite, ShowsReported;
    forall t
      ensures t in shown <==> IsTarget(job, history, t)
      ensures t in shown ==> |shown[t]| == job.rows && ShowsReported(job, log, history, t, shown[t])
      ensures t in shown ==> forall p :: 0 <= p < |shown[t]| ==> LastWrite(log, history, t, p).Some?
    {
      assert ShowsTarget(shown, log, totals, history, blank, t);
      ShownTarget(job, log, totals, history, blank, shown, t);
    }
  }

  lemma ShownTarget(job: Job, log: seq<Event>, totals: map<string, nat>, history: bool, blank: string,
                    shown: map<Target, seq<string>>, t: Target)
    requires job.Valid() && AllReported(job, log) && EachOnce(job, log) && Orderly(log, totals)
    requires ShowsTarget(shown, log, totals, history, blank, t)
    ensures t in shown <==> IsTarget(job, history, t)
    ensures t in shown ==> |shown[t]| == job.rows && ShowsReported(job, log, history, t, shown[t])
    ensures t in shown ==> forall p :: 0 <= p < |shown[t]| ==> LastWrite(log, history, t, p).Some?
  {
    hide Job.Valid, AllReported, LastWrite, Feeds, EachOnce, Orderly, IsTarget, InSlice, Writes, WrittenBy;
    LogFeeds(job, log, history, t);
    if t in shown {
      GraphTotal(job, log, totals) by { assert t.graph == job.graph by { TargetGraph(job, history, t); } }
      assert t.graph == job.graph by { TargetGraph(job, history, t); }
      forall p | 0 <= p < job.rows ensures LastWrite(log, history, t, p).Some? {
        LogCovers(job, log, p);
        ReportedLastWrite(job, log, history, t, p);
      }
      forall k, p | 0 <= k < |log| && 0 <= p < |shown[t]| && InSlice(log[k].w, p)
        ensures ReportsRow(log[k], history, t, p, shown[t][p])
      {
        assert log[..|log|] == log;
        OnlyWrite(job, log, |log|, k, history, t, p);
      }
    }
  }

  lemma TargetGraph(job: Job, history: bool, t: Target)
    requires IsTarget(job, history, t)
    ensures t.graph == job.graph
  {
  }

  lemma GraphTotal(job: Job, log: seq<Event>, totals: map<string, nat>)
    requires job.Valid() && AllReported(job, log) && EachOnce(job, log) && Orderly(log, totals)
    ensures job.graph in totals && totals[job.graph] == job.rows
  {
    LogCovers(job, log, 0);
    var k :| 0 <= k < |log| && InSlice(log[k].w, 0);
    assert Reported(job, log[k]);
    JobSlice(job, log[k].w);
    assert Agrees(log[k].w, totals);
  }

  // ---- faithful events -----------------------------------------------------------------------

  /** What a faithful event writes. */
  lemma FaithfulValue(job: Job, e: Event, history: bool, t: Target, p: nat)
    requires job.Valid() && Faithful(job, e) && Writes(e, history, t, p)
    ensures p < job.rows && Even(job.inputs, job.rows)
    ensures WrittenBy(e, history, t, p) == Some(job.Whole(Key(history, t.output))[p])
  {
    hide Written, Job.Valid, Job.Whole, SliceOf, Due, Rows;
    var entries := PayloadOf(e.o, history).value;
    assert Reports(job, e.o, history) && DueFor(job, e, history);
    WrittenFrom(entries, t.output, e.w.slice.length);
    DueAt(job, e.w, Key(history, t.output), p);
  }

  lemma {:induction false} WrittenFrom(entries: seq<Entry>, output: string, length: nat)
    requires Written(entries, output, length).Some?
    ensures exists i :: 0 <= i < |entries| && entries[i].output == output &&
                        Written(entries, output, length) == Some(entries[i].values)
  {
    var n := |entries| - 1;
    if entries[n].output != output || |entries[n].values| != length {
      WrittenFrom(entries[..n], output, length);
      var i :| 0 <= i < n && entries[..n][i].output == output &&
               Written(entries[..n], output, length) == Some(entries[..n][i].values);
      assert entries[i].output == output;
    }
  }

  lemma DueAt(job: Job, w: Workflow, key: Key, p: nat)
    requires Placed(job, w) && InSlice(w, p)
    ensures |Due(job, w, key)| == w.slice.length
    ensures Due(job, w, key)[p - w.slice.start] == Some(job.Whole(key)[p])
  {
    hide Even, Job.Whole;
    WholeLength(job, key);
  }

  lemma WholeLength(job: Job, key: Key)
    requires Even(job.inputs, job.rows)
    ensures |job.Whole(key)| == job.rows
  {
  }

  ghost predicate AllFaithful(job: Job, log: seq<Event>) {
    forall j :: 0 <= j < |log| ==> Faithful(job, log[j])
  }

  /** Faithful events show the unsliced computation. */
  lemma FaithfulRows(job: Job, log: seq<Event>, history: bool, t: Target, rows: seq<string>)
    requires job.Valid() && AllFaithful(job, log) && EachOnce(job, log)
    requires |rows| == job.rows && ShowsReported(job, log, history, t, rows)
    ensures Even(job.inputs, job.rows) && rows == job.Whole(Key(history, t.output))
  {
    hide Job.Valid, EachOnce, Faithful, Job.Whole, Even, Writes, WrittenBy, InSlice;
    JobEven(job);
    WholeLength(job, Key(history, t.output));
    var whole := job.Whole(Key(history, t.output));
    forall p: nat | p < job.rows ensures rows[p] == whole[p] {
      LogCovers(job, log, p);
      var k :| 0 <= k < |log| && InSlice(log[k].w, p);
      assert ReportsRow(log[k], history, t, p, rows[p]);
      FaithfulValue(job, log[k], history, t, p);
    }
    assert rows == whole;
  }

  lemma JobEven(job: Job)
    requires job.Valid()
    ensures Even(job.inputs, job.rows)
  {
    TilingAt(job.inputs, job.rows, SlicesOf(job.workflows), 0);
  }

  // ---- batches -------------------------------------------------------------------------------

  /** The job's workflows in batches, each a group that is merged, run and cut apart, or refused. */
  ghost predicate Batched(job: Job, batches: seq<seq<Event>>) {
    forall b :: 0 <= b < |batches| ==> Group(job, WorkflowsOf(batches[b])) && GroupRan(job, batches[b])
  }

  ghost predicate InBatch(batches: seq<seq<Event>>, e: Event) {
    exists b :: 0 <= b < |batches| && e in batches[b]
  }

  /** The events of the batches, in any order. */
  ghost predicate Interleaves(batches: seq<seq<Event>>, log: seq<Event>) {
    (forall j :: 0 <= j < |log| ==> InBatch(batches, log[j])) &&
    forall b, k :: 0 <= b < |batches| && 0 <= k < |batches[b]| ==> batches[b][k] in log
  }

  ghost predicate AllComplete(job: Job, batches: seq<seq<Event>>) {
    forall b :: 0 <= b < |batches| ==> Completes(job, batches[b])
  }

  ghost predicate NoneClash(job: Job, batches: seq<seq<Event>>) {
    forall b :: 0 <= b < |batches| ==> ClashFree(job, batches[b])
  }

  /** An event of the log, in its batch. */
  lemma BatchOf(job: Job, batches: seq<seq<Event>>, log: seq<Event>, j: nat) returns (b: nat, k: nat)
    requires job.Valid() && Batched(job, batches) && Interleaves(batches, log) && j < |log|
    ensures b < |batches| && k < |batches[b]| && batches[b][k] == log[j]
    ensures if Completes(job, batches[b]) then Reported(job, log[j]) else Refused(log[j].o)
  {
    hide Job.Valid, GroupRan, Group, Reported, Completes, Refused;
    assert InBatch(batches, log[j]);
    b :| 0 <= b < |batches| && log[j] in batches[b];
    k :| 0 <= k < |batches[b]| && batches[b][k] == log[j];
    GroupOutcome(job, batches[b], k);
  }

  /** A batch that is refused, by the merge or by the demux, shows as an error of the response. */
  lemma RefusalShows(job: Job, batches: seq<seq<Event>>, log: seq<Event>, totals: map<string, nat>,
                     pending: set<string>, r: Response, b: nat)
    requires job.Valid() && Batched(job, batches) && Interleaves(batches, log)
    requires Orderly(log, totals) && Responds(Replay(Initial(pending), log, totals), r)
    requires b < |batches| && !Completes(job, batches[b])
    ensures r.errors != []
  {
    hide Orderly, Responds, Job.Valid, Completes, Reported, Refused, Replay, Initial, GroupRan, ShowsRun, Complete,
         WellKeyed, Clean;
    forall j | 0 <= j < |log| ensures WellKeyed(log[j]) {
      var _, _ := BatchOf(job, batches, log, j);
      KeyedIfReported(job, log[j]);
    }
    ResponseIsFaithful(log, totals, pending, r);
    assert Group(job, WorkflowsOf(batches[b])) && GroupRan(job, batches[b]);
    assert |WorkflowsOf(batches[b])| == |batches[b]| > 0;
    GroupOutcome(job, batches[b], 0);
    var j :| 0 <= j < |log| && log[j] == batches[b][0];
    RefusedIsUnclean(log[..j], log[j]);
  }

  lemma RefusedIsUnclean(before: seq<Event>, e: Event)
    requires Refused(e.o)
    ensures !Clean(before, e)
  {
  }

  /** For every cut of the rows, every partition of the slices into batches and every order of completion, the response
      has no error exactly when no batch is refused, and then it shows what the workflows reported. */
  lemma ErrorFreeIff(job: Job, batches: seq<seq<Event>>, log: seq<Event>, totals: map<string, nat>,
                     pending: set<string>, r: Response)
    requires job.Valid() && Batched(job, batches) && Interleaves(batches, log) && EachOnce(job, log)
    requires Orderly(log, totals) && Responds(Replay(Initial(pending), log, totals), r)
    ensures r.errors == [] <==> AllComplete(job, batches)
    ensures r.errors == [] ==> AllReported(job, log)
    ensures r.errors == [] ==> ShowsRows(job, log, false, r.outputs) && ShowsRows(job, log, true, r.histories)
  {
    hide EachOnce, Orderly, Responds, Job.Valid, Batched, Interleaves, Completes, Reported, Replay, Initial, ShowsRows;
    if AllComplete(job, batches) {
      forall j | 0 <= j < |log| ensures Reported(job, log[j]) {
        var _, _ := BatchOf(job, batches, log, j);
      }
      ReportedRun(job, log, totals, pending, r);
    } else {
      var b :| 0 <= b < |batches| && !Completes(job, batches[b]);
      RefusalShows(job, batches, log, totals, pending, r, b);
    }
  }

  /** The response is the computation over all rows. */
  ghost predicate ShowsWhole(job: Job, r: Response)
    requires Even(job.inputs, job.rows)
  {
    (forall t :: t in r.outputs <==> IsTarget(job, false, t)) && (forall t :: t in r.histories <==> IsTarget(job, true, t)) &&
    (forall t :: t in r.outputs ==>
      r.outputs[t] == Outputs(job.run(Key(false, t.output)), Rows(job.inputs, job.rows))) &&
    forall t :: t in r.histories ==>
      r.histories[t] == Outputs(job.run(Key(true, t.output)), Rows(job.inputs, job.rows))
  }

  /** Each batch has one slice, or the workflow reads every varying input. */
  ghost predicate AllRewritable(job: Job, batches: seq<seq<Event>>) {
    forall b :: 0 <= b < |batches| ==>
      |batches[b]| == 1 || L.AllRead(job.template, Varying(job.inputs), job.inputOps)
  }

  /** Slicing is transparent: where no label clashes, the response has no error exactly when each batch has one slice
      or the workflow reads every varying input, and then it is the computation over all rows. */
  lemma SlicingIsTransparent(job: Job, batches: seq<seq<Event>>, log: seq<Event>, totals: map<string, nat>,
                             pending: set<string>, r: Response)
    requires job.Valid() && Batched(job, batches) && Interleaves(batches, log) && EachOnce(job, log)
    requires NoneClash(job, batches)
    requires Orderly(log, totals) && Responds(Replay(Initial(pending), log, totals), r)
    ensures r.errors == [] <==> AllRewritable(job, batches)
    ensures Even(job.inputs, job.rows) && (r.errors == [] ==> ShowsWhole(job, r))
  {
    hide EachOnce, Orderly, Responds, Job.Valid, Interleaves, Completes, Faithful, Replay, Initial, ClashFree, IsTarget,
         Group, GroupRan, L.AllRead, ShowsReported, Even;
    JobEven(job);
    ErrorFreeIff(job, batches, log, totals, pending, r);
    forall b | 0 <= b < |batches|
      ensures Completes(job, batches[b]) <==>
                |batches[b]| == 1 || L.AllRead(job.template, Varying(job.inputs), job.inputOps)
    {
      PassesIff(job, batches[b]);
    }
    if r.errors == [] {
      forall j | 0 <= j < |log| ensures Faithful(job, log[j]) {
        var b, k := BatchOf(job, batches, log, j);
        PassesIff(job, batches[b]);
        GroupIsFaithful(job, batches[b], k);
      }
      forall t | t in r.outputs ensures r.outputs[t] == job.Whole(Key(false, t.output)) {
        FaithfulRows(job, log, false, t, r.outputs[t]);
      }
      forall t | t in r.histories ensures r.histories[t] == job.Whole(Key(true, t.output)) {
        FaithfulRows(job, log, true, t, r.histories[t]);
      }
    }
  }

  /** A job without rows is never clean: its only slice is refused when it is collected. */
  lemma NoRowsNeverClean(log: seq<Event>, totals: map<string, nat>, pending: set<string>, j: nat)
    requires Orderly(log, totals) && AllKeyed(log) && j < |log| && log[j].w.slice.total == 0
    ensures Replay(Initial(pending), log, totals).errors != []
  {
    var before, e := log[..j], log[j];
    assert AllClean(log) ==> Clean(before, e);
    NoErrorIffAllClean(log, totals, pending);
  }
}
