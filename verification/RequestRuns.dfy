/** What a request reports after any run of handled workflows: complete results, or an error for
    every reason they are not (runtime/server.py:1888-2087). */
module RequestRuns {
  import opened Collections
  import opened Slicing
  import opened Reassembly

  // ---- errors ------------------------------------------------------------------------------

  ghost predicate WellKeyed(e: Event) {
    (e.o.outputs.Some? ==> DistinctOutputs(e.o.outputs.value)) &&
    (e.o.histories.Some? ==> DistinctOutputs(e.o.histories.value))
  }

  /** The workflow finished, and its payloads fill empty rows of their buffers. */
  ghost predicate CleanIn(st: State, e: Event) {
    !e.o.cancelled && !e.o.failed && e.o.outputs.Some? && InRange(e.w) &&
    Lands(st.outputs, e.w, e.o.outputs.value) &&
    (e.o.histories.Some? ==> Lands(st.histories, e.w, e.o.histories.value))
  }

  lemma PayloadLands(buffers: Buffers, errors: seq<Failure>, w: Workflow, entries: seq<Entry>)
    requires Sized(buffers, w.graph, w.slice.total) && DistinctOutputs(entries)
    ensures errors <= MergePayload(buffers, errors, w, entries).errors
    ensures MergePayload(buffers, errors, w, entries).errors == errors <==> InRange(w) && Lands(buffers, w, entries)
    ensures MergePayload(buffers, errors, w, entries).clean <==> InRange(w) && Lands(buffers, w, entries)
  {
    if InRange(w) {
      EntriesLand(Merge(buffers, errors, true), w, entries);
    }
  }

  ghost function Noted(st: State, e: Event): State {
    if e.o.failed then st.(errors := st.errors + [BatchError(e.w.id)]) else st
  }

  ghost function Collected(st: State, e: Event, totals: map<string, nat>): (r: State)
    requires Steady(st, totals) && Agrees(e.w, totals)
    ensures Steady(r, totals)
  {
    var noted := Noted(st, e);
    if e.o.outputs.Some? then Collect(noted, e.w, e.o.outputs.value, totals)
    else if e.o.failed then noted
    else noted.(errors := noted.errors + [MissingOutput(e.w.id)])
  }

  lemma CollectedErrors(st: State, e: Event, totals: map<string, nat>)
    requires Steady(st, totals) && Agrees(e.w, totals) && WellKeyed(e)
    ensures st.errors <= Collected(st, e, totals).errors && Collected(st, e, totals).histories == st.histories
    ensures Collected(st, e, totals).errors == st.errors <==>
            !e.o.failed && e.o.outputs.Some? && InRange(e.w) && Lands(st.outputs, e.w, e.o.outputs.value)
  {
    SizedOne(st.outputs, totals, e.w);
    if e.o.outputs.Some? {
      PayloadLands(st.outputs, Noted(st, e).errors, e.w, e.o.outputs.value);
    }
  }

  /** Errors are never dropped, and a workflow adds none exactly when it is clean. */
  lemma HandleErrors(st: State, e: Event, totals: map<string, nat>)
    requires Steady(st, totals) && Agrees(e.w, totals) && WellKeyed(e)
    ensures st.errors <= Handle(st, e, totals).errors
    ensures Handle(st, e, totals).errors == st.errors <==> CleanIn(st, e)
  {
    if !e.o.cancelled {
      CollectedErrors(st, e, totals);
      var collected := Collected(st, e, totals);
      hide Collect, Lands, InRange, MergePayload;
      if e.o.histories.Some? {
        SizedOne(st.histories, totals, e.w);
        PayloadLands(st.histories, collected.errors, e.w, e.o.histories.value);
      }
    }
  }

  /** `CleanIn` after the events of `log`, told by the run alone. */
  ghost predicate Clean(log: seq<Event>, e: Event) {
    !e.o.cancelled && !e.o.failed && e.o.outputs.Some? && InRange(e.w) && Untouched(log, e, false, e.o.outputs.value) &&
    (e.o.histories.Some? ==> Untouched(log, e, true, e.o.histories.value))
  }

  ghost predicate RowsUntouched(log: seq<Event>, history: bool, w: Workflow, output: string) {
    forall p :: w.slice.start <= p < w.slice.start + w.slice.length ==>
      LastWrite(log, history, Target(w.graph, output), p) == None
  }

  ghost predicate Untouched(log: seq<Event>, e: Event, history: bool, entries: seq<Entry>) {
    forall i :: 0 <= i < |entries| ==>
      |entries[i].values| == e.w.slice.length && RowsUntouched(log, history, e.w, entries[i].output)
  }

  lemma UntouchedRows(log: seq<Event>, totals: map<string, nat>, pending: set<string>, history: bool, w: Workflow,
                      output: string)
    requires Orderly(log, totals)
    ensures RowsUntouched(log, history, w, output) <==>
            RowsFree(BuffersOf(Replay(Initial(pending), log, totals), history), w, output)
  {
    forall p: nat {
      BufferHoldsLastWrite(log, totals, pending, history, Target(w.graph, output), p);
    }
  }

  lemma CleanAfter(log: seq<Event>, totals: map<string, nat>, pending: set<string>, e: Event)
    requires Orderly(log, totals)
    ensures Clean(log, e) <==> CleanIn(Replay(Initial(pending), log, totals), e)
  {
    var st := Replay(Initial(pending), log, totals);
    hide RowsUntouched, RowsFree, InRange, Replay, Steady;
    if e.o.outputs.Some? {
      forall i | 0 <= i < |e.o.outputs.value| {
        UntouchedRows(log, totals, pending, false, e.w, e.o.outputs.value[i].output);
      }
      assert Untouched(log, e, false, e.o.outputs.value) <==> Lands(st.outputs, e.w, e.o.outputs.value);
    }
    if e.o.histories.Some? {
      forall i | 0 <= i < |e.o.histories.value| {
        UntouchedRows(log, totals, pending, true, e.w, e.o.histories.value[i].output);
      }
      assert Untouched(log, e, true, e.o.histories.value) <==> Lands(st.histories, e.w, e.o.histories.value);
    }
  }

  ghost predicate AllClean(log: seq<Event>) {
    forall j :: 0 <= j < |log| ==> Clean(log[..j], log[j])
  }

  ghost predicate AllKeyed(log: seq<Event>) {
    forall j :: 0 <= j < |log| ==> WellKeyed(log[j])
  }

  lemma AllCleanNext(log: seq<Event>, k: nat)
    requires |log| == k + 1
    ensures AllClean(log) <==> AllClean(log[..k]) && Clean(log[..k], log[k])
  {
    hide Clean;
    forall j | 0 <= j < k ensures log[..k][..j] == log[..j] && log[..k][j] == log[j] {
    }
  }

  /** A run leaves no error exactly when each of its workflows was clean. */
  lemma {:induction false} NoErrorIffAllClean(log: seq<Event>, totals: map<string, nat>, pending: set<string>)
    requires Orderly(log, totals) && AllKeyed(log)
    ensures Replay(Initial(pending), log, totals).errors == [] <==> AllClean(log)
  {
    hide Handle, CleanIn, Clean;
    if log != [] {
      var k := |log| - 1;
      NoErrorIffAllClean(log[..k], totals, pending);
      var st := Replay(Initial(pending), log[..k], totals);
      assert Replay(Initial(pending), log, totals) == Handle(st, log[k], totals);
      hide Replay, Orderly, AllClean;
      AllCleanNext(log, k);
      CleanAfter(log[..k], totals, pending, log[k]);
      HandleErrors(st, log[k], totals);
    }
  }

  // ---- which buffers exist -----------------------------------------------------------------

  /** The event creates or extends the buffer. */
  ghost predicate Feeds(e: Event, history: bool, t: Target) {
    var payload := PayloadOf(e.o, history);
    payload.Some? && InRange(e.w) && t.graph == e.w.graph && Written(payload.value, t.output, e.w.slice.length).Some?
  }

  lemma {:induction false} EntriesFeed(m: Merge, w: Workflow, entries: seq<Entry>, t: Target)
    requires Sized(m.buffers, w.graph, w.slice.total) && InRange(w)
    ensures t in MergeEntries(m, w, entries).buffers <==>
            t in m.buffers || (t.graph == w.graph && Written(entries, t.output, w.slice.length).Some?)
  {
    if entries != [] {
      EntriesFeed(m, w, entries[..|entries| - 1], t);
    }
  }

  lemma HandleFeeds(st: State, e: Event, totals: map<string, nat>, history: bool, t: Target)
    requires Steady(st, totals) && Agrees(e.w, totals)
    ensures t in BuffersOf(Handle(st, e, totals), history) <==> t in BuffersOf(st, history) || Feeds(e, history, t)
  {
    SizedOne(st.outputs, totals, e.w);
    SizedOne(st.histories, totals, e.w);
    var payload, collected := PayloadOf(e.o, history), Collected(st, e, totals);
    hide MergeEntries, Written;
    if payload.Some? && InRange(e.w) {
      var errors := if history then collected.errors else Noted(st, e).errors;
      EntriesFeed(Merge(BuffersOf(st, history), errors, true), e.w, payload.value, t);
    }
  }

  lemma {:induction false} BufferIffFed(log: seq<Event>, totals: map<string, nat>, pending: set<string>, history: bool,
                                        t: Target)
    requires Orderly(log, totals)
    ensures t in BuffersOf(Replay(Initial(pending), log, totals), history) <==>
            exists j :: 0 <= j < |log| && Feeds(log[j], history, t)
  {
    hide Feeds, Handle, BuffersOf;
    if log == [] {
      assert BuffersOf(Initial(pending), history) == map[] by { NoBuffers(pending, history); }
    } else {
      var k := |log| - 1;
      BufferIffFed(log[..k], totals, pending, history, t);
      HandleFeeds(Replay(Initial(pending), log[..k], totals), log[k], totals, history, t);
      assert forall j :: 0 <= j < k ==> log[..k][j] == log[j];
    }
  }

  lemma NoBuffers(pending: set<string>, history: bool)
    ensures BuffersOf(Initial(pending), history) == map[]
  {
  }

  // ---- the response ------------------------------------------------------------------------

  ghost function Shown(cell: Option<string>, blank: string): string {
    if cell.Some? then cell.value else blank
  }

  /** A buffer that any event fed is shown at full length, each row as last written, blank where nothing was. */
  ghost predicate ShowsTarget(shown: map<Target, seq<string>>, log: seq<Event>, totals: map<string, nat>, history: bool,
                              blank: string, t: Target) {
    (t in shown <==> exists j :: 0 <= j < |log| && Feeds(log[j], history, t)) &&
    (t in shown ==> t.graph in totals && |shown[t]| == totals[t.graph]) &&
    (t in shown ==> forall p :: 0 <= p < |shown[t]| ==> shown[t][p] == Shown(LastWrite(log, history, t, p), blank))
  }

  ghost predicate ShowsRun(shown: map<Target, seq<string>>, log: seq<Event>, totals: map<string, nat>, history: bool,
                           blank: string) {
    forall t :: ShowsTarget(shown, log, totals, history, blank, t)
  }

  /** Every row of every buffer was written. */
  ghost predicate Complete(shown: map<Target, seq<string>>, log: seq<Event>, history: bool) {
    forall t, p :: t in shown && 0 <= p < |shown[t]| ==> LastWrite(log, history, t, p).Some?
  }

  lemma BufferCell(log: seq<Event>, totals: map<string, nat>, pending: set<string>, history: bool, buffers: Buffers,
                   t: Target)
    requires Orderly(log, totals) && buffers == BuffersOf(Replay(Initial(pending), log, totals), history)
    ensures t in buffers <==> exists j :: 0 <= j < |log| && Feeds(log[j], history, t)
    ensures t in buffers ==> t.graph in totals && |buffers[t]| == totals[t.graph]
    ensures t in buffers ==> forall p :: 0 <= p < |buffers[t]| ==> buffers[t][p] == LastWrite(log, history, t, p)
  {
    hide Replay, Feeds, LastWrite;
    BufferIffFed(log, totals, pending, history, t);
    assert AllSized(buffers, totals);
    forall p | t in buffers && 0 <= p < |buffers[t]| ensures buffers[t][p] == LastWrite(log, history, t, p) {
      BufferHoldsLastWrite(log, totals, pending, history, t, p);
    }
  }

  lemma ShowsBuffer(log: seq<Event>, totals: map<string, nat>, pending: set<string>, history: bool, blank: string,
                    t: Target)
    requires Orderly(log, totals)
    ensures ShowsTarget(FinishedAll(BuffersOf(Replay(Initial(pending), log, totals), history), blank), log, totals,
                        history, blank, t)
  {
    var buffers := BuffersOf(Replay(Initial(pending), log, totals), history);
    hide Replay, Feeds, LastWrite, Steady, BuffersOf, Orderly;
    BufferCell(log, totals, pending, history, buffers, t);
  }

  lemma ShowsBuffers(log: seq<Event>, totals: map<string, nat>, pending: set<string>, history: bool, blank: string)
    requires Orderly(log, totals)
    ensures ShowsRun(FinishedAll(BuffersOf(Replay(Initial(pending), log, totals), history), blank), log, totals, history,
                     blank)
  {
    hide ShowsTarget, FinishedAll, Replay, BuffersOf, Orderly;
    forall t {
      ShowsBuffer(log, totals, pending, history, blank, t);
    }
  }

  lemma HolesReported(log: seq<Event>, totals: map<string, nat>, pending: set<string>, history: bool, blank: string,
                      missing: seq<Failure>)
    requires Orderly(log, totals)
    requires ReportsHoles(BuffersOf(Replay(Initial(pending), log, totals), history), history, missing)
    ensures missing == [] <==>
            Complete(FinishedAll(BuffersOf(Replay(Initial(pending), log, totals), history), blank), log, history)
  {
    var buffers := BuffersOf(Replay(Initial(pending), log, totals), history);
    hide Replay, LastWrite, Steady, BuffersOf, Orderly, Feeds;
    forall t | t in buffers
      ensures forall p :: 0 <= p < |buffers[t]| ==> buffers[t][p] == LastWrite(log, history, t, p)
    {
      BufferCell(log, totals, pending, history, buffers, t);
    }
    if missing == [] {
      forall t | t in buffers ensures !HasHole(buffers[t]) {
        assert MissingIndices(t, history) !in missing;
      }
    } else {
      assert missing[0] in missing;
      assert HasHole(buffers[missing[0].target]);
    }
  }

  /** Over every run: the response shows what the run wrote, and it carries no error exactly when
      every workflow was clean and every row of every buffer was written. */
  lemma ResponseIsFaithful(log: seq<Event>, totals: map<string, nat>, pending: set<string>, r: Response)
    requires Orderly(log, totals) && AllKeyed(log)
    requires Responds(Replay(Initial(pending), log, totals), r)
    ensures ShowsRun(r.outputs, log, totals, false, "") && ShowsRun(r.histories, log, totals, true, NO_HISTORY)
    ensures r.errors == [] <==> AllClean(log) && Complete(r.outputs, log, false) && Complete(r.histories, log, true)
  {
    var st := Replay(Initial(pending), log, totals);
    var missing, untold :| IsResponse(st, r, missing, untold);
    hide Replay, AllClean, Complete, ShowsRun, Steady, FinishedAll, ReportsHoles, AllKeyed, Orderly;
    NoErrorIffAllClean(log, totals, pending);
    ShowsBuffers(log, totals, pending, false, "");
    ShowsBuffers(log, totals, pending, true, NO_HISTORY);
    HolesReported(log, totals, pending, false, "", missing);
    HolesReported(log, totals, pending, true, NO_HISTORY, untold);
  }

  /** Every state has a response. */
  lemma SomeResponse(st: State) returns (r: Response)
    ensures Responds(st, r)
  {
    var missing := HolesOf(st.outputs, st.outputs.Keys, false);
    var untold := HolesOf(st.histories, st.histories.Keys, true);
    r := Response(FinishedAll(st.outputs, ""), FinishedAll(st.histories, NO_HISTORY), st.errors + missing + untold);
    assert IsResponse(st, r, missing, untold);
  }

  lemma {:induction false} HolesOf(buffers: Buffers, keys: set<Target>, history: bool) returns (errors: seq<Failure>)
    requires keys <= buffers.Keys
    ensures forall e :: e in errors <==>
              e.MissingIndices? && e.history == history && e.target in keys && HasHole(buffers[e.target])
  {
    hide HasHole;
    errors := [];
    if keys != {} {
      var t :| t in keys;
      var rest := HolesOf(buffers, keys - {t}, history);
      errors := rest + if HasHole(buffers[t]) then [MissingIndices(t, history)] else [];
    }
  }

  // ---- completed rows ----------------------------------------------------------------------

  /** The slice length of each workflow id of the request. */
  ghost predicate Measures(lengths: map<string, nat>, log: seq<Event>) {
    forall j :: 0 <= j < |log| ==> log[j].w.id in lengths && lengths[log[j].w.id] == log[j].w.slice.length
  }

  ghost predicate Accounted(st: State, lengths: map<string, nat>) {
    st.successful <= lengths.Keys && st.completed == Weight(st.successful, lengths)
  }

  lemma HandleCounts(st: State, e: Event, totals: map<string, nat>, lengths: map<string, nat>)
    requires Steady(st, totals) && Agrees(e.w, totals) && WellKeyed(e)
    requires Accounted(st, lengths) && e.w.id in lengths && lengths[e.w.id] == e.w.slice.length
    ensures Accounted(Handle(st, e, totals), lengths)
    ensures st.successful <= Handle(st, e, totals).successful <= st.successful + {e.w.id}
    ensures CleanIn(st, e) ==> e.w.id in Handle(st, e, totals).successful
  {
    hide MergeEntries, Lands, AllSized;
    if !e.o.cancelled && e.o.outputs.Some? {
      SizedOne(st.outputs, totals, e.w);
      PayloadLands(st.outputs, Noted(st, e).errors, e.w, e.o.outputs.value);
      if e.w.id !in st.successful {
        WeightAdd(st.successful, lengths, e.w.id);
      }
    }
  }

  ghost function Ids(log: seq<Event>): (r: set<string>) {
    set j | 0 <= j < |log| :: log[j].w.id
  }

  lemma IdsNext(log: seq<Event>, k: nat)
    requires |log| == k + 1
    ensures Ids(log) == Ids(log[..k]) + {log[k].w.id}
  {
    assert forall j :: 0 <= j < k ==> log[..k][j] == log[j];
    forall id | id in Ids(log) ensures id in Ids(log[..k]) + {log[k].w.id} {
      var j :| 0 <= j < |log| && log[j].w.id == id;
      assert j < k ==> log[..k][j].w.id == id;
    }
    forall id | id in Ids(log[..k]) + {log[k].w.id} ensures id in Ids(log) {
      if id != log[k].w.id {
        var j :| 0 <= j < k && log[..k][j].w.id == id;
        assert log[j].w.id == id;
      }
    }
  }

  /** A request waits for exactly the workflows not handled yet. */
  lemma {:induction false} PendingIsUnhandled(log: seq<Event>, totals: map<string, nat>, pending: set<string>)
    requires Orderly(log, totals)
    ensures Replay(Initial(pending), log, totals).pending == pending - Ids(log)
  {
    if log != [] {
      var k := |log| - 1;
      PendingIsUnhandled(log[..k], totals, pending);
      IdsNext(log, k);
      hide Ids, Collect, CollectHistory;
    }
  }

  /** Over every run, repeats included: the completed count is the rows of the successful workflows, each
      counted once, and a run without error has completed every workflow it handled. */
  lemma {:induction false} CompletedCountsOnce(log: seq<Event>, totals: map<string, nat>, pending: set<string>,
                                               lengths: map<string, nat>)
    requires Orderly(log, totals) && AllKeyed(log) && Measures(lengths, log)
    ensures Accounted(Replay(Initial(pending), log, totals), lengths)
    ensures Replay(Initial(pending), log, totals).successful <= Ids(log)
    ensures AllClean(log) ==> Replay(Initial(pending), log, totals).successful == Ids(log)
  {
    hide Handle, CleanIn, Clean, AllClean, Accounted, Ids, WellKeyed;
    if log == [] {
      NothingCounted(pending, lengths);
    } else {
      var k := |log| - 1;
      CompletedCountsOnce(log[..k], totals, pending, lengths);
      var st := Replay(Initial(pending), log[..k], totals);
      IdsNext(log, k);
      CleanAfter(log[..k], totals, pending, log[k]);
      AllCleanNext(log, k);
      assert Replay(Initial(pending), log, totals) == Handle(st, log[k], totals);
      hide Replay, Measures, Orderly, AllKeyed;
      HandleCounts(st, log[k], totals, lengths);
    }
  }

  lemma NothingCounted(pending: set<string>, lengths: map<string, nat>)
    ensures Accounted(Initial(pending), lengths) && Ids([]) == {} && Initial(pending).successful == {}
  {
  }

  // ---- the plan of a request ---------------------------------------------------------------

  type Plan = map<string, seq<Workflow>>

  /** Every graph is cut into workflows whose slices have as many rows as the graph, under ids of their own. */
  ghost predicate IsPlan(plan: Plan, totals: map<string, nat>, lengths: map<string, nat>) {
    plan.Keys == totals.Keys && lengths.Keys == IdsOf(plan, plan.Keys) &&
    (forall g :: g in plan ==> Sum(WorkflowLengths(plan[g])) == totals[g]) &&
    (forall g, i :: g in plan && 0 <= i < |plan[g]| ==> lengths[plan[g][i].id] == plan[g][i].slice.length) &&
    forall g, h, i, j :: g in plan && h in plan && 0 <= i < |plan[g]| && 0 <= j < |plan[h]| ==>
      (plan[g][i].id == plan[h][j].id ==> g == h && i == j)
  }

  ghost function WorkflowLengths(ws: seq<Workflow>): (r: seq<nat>)
    ensures |r| == |ws|
  {
    seq(|ws|, i requires 0 <= i < |ws| => ws[i].slice.length)
  }

  ghost function IdsOf(plan: Plan, graphs: set<string>): (r: set<string>) {
    set g, i | g in graphs && g in plan && 0 <= i < |plan[g]| :: plan[g][i].id
  }

  ghost function WorkflowIds(ws: seq<Workflow>): (r: set<string>) {
    set i | 0 <= i < |ws| :: ws[i].id
  }

  lemma {:induction false} WeightOfWorkflows(ws: seq<Workflow>, lengths: map<string, nat>)
    requires forall i :: 0 <= i < |ws| ==> ws[i].id in lengths && lengths[ws[i].id] == ws[i].slice.length
    requires forall i, j :: 0 <= i < j < |ws| ==> ws[i].id != ws[j].id
    ensures WorkflowIds(ws) <= lengths.Keys && Weight(WorkflowIds(ws), lengths) == Sum(WorkflowLengths(ws))
  {
    if ws == [] {
      assert WorkflowIds(ws) == {};
    } else {
      var k := |ws| - 1;
      WeightOfWorkflows(ws[..k], lengths);
      WorkflowIdsNext(ws, k);
      assert WorkflowLengths(ws)[..k] == WorkflowLengths(ws[..k]);
      WeightAdd(WorkflowIds(ws[..k]), lengths, ws[k].id);
    }
  }

  lemma WorkflowIdsNext(ws: seq<Workflow>, k: nat)
    requires |ws| == k + 1
    ensures WorkflowIds(ws) == WorkflowIds(ws[..k]) + {ws[k].id}
    ensures (forall i, j :: 0 <= i < j < |ws| ==> ws[i].id != ws[j].id) ==> ws[k].id !in WorkflowIds(ws[..k])
  {
    assert forall j :: 0 <= j < k ==> ws[..k][j] == ws[j];
    forall id | id in WorkflowIds(ws) ensures id in WorkflowIds(ws[..k]) + {ws[k].id} {
      var j :| 0 <= j < |ws| && ws[j].id == id;
      assert j < k ==> ws[..k][j].id == id;
    }
    forall id | id in WorkflowIds(ws[..k]) ensures id in WorkflowIds(ws) {
      var j :| 0 <= j < k && ws[..k][j].id == id;
      assert ws[j].id == id;
    }
  }

  lemma IdsOfRemove(plan: Plan, graphs: set<string>, g: string)
    requires g in graphs && g in plan
    ensures IdsOf(plan, graphs) == IdsOf(plan, graphs - {g}) + WorkflowIds(plan[g])
  {
    forall id | id in IdsOf(plan, graphs) ensures id in IdsOf(plan, graphs - {g}) + WorkflowIds(plan[g]) {
      var h, i :| h in graphs && h in plan && 0 <= i < |plan[h]| && plan[h][i].id == id;
    }
    forall id | id in WorkflowIds(plan[g]) ensures id in IdsOf(plan, graphs) {
      var i :| 0 <= i < |plan[g]| && plan[g][i].id == id;
    }
  }

  lemma GraphApart(plan: Plan, totals: map<string, nat>, lengths: map<string, nat>, graphs: set<string>, g: string)
    requires IsPlan(plan, totals, lengths) && g in plan && g !in graphs
    ensures IdsOf(plan, graphs) !! WorkflowIds(plan[g])
  {
  }

  lemma {:induction false} PlanWeight(plan: Plan, totals: map<string, nat>, lengths: map<string, nat>,
                                      graphs: set<string>)
    requires IsPlan(plan, totals, lengths) && graphs <= plan.Keys
    ensures IdsOf(plan, graphs) <= lengths.Keys && Weight(IdsOf(plan, graphs), lengths) == Weight(graphs, totals)
  {
    if graphs == {} {
      assert IdsOf(plan, graphs) == {};
    } else {
      var g :| g in graphs;
      PlanWeight(plan, totals, lengths, graphs - {g});
      IdsOfRemove(plan, graphs, g);
      GraphApart(plan, totals, lengths, graphs - {g}, g);
      PlanKnows(plan, totals, lengths, g);
      WeightOfWorkflows(plan[g], lengths);
      WeightRemove(graphs, totals, g);
      hide IsPlan, IdsOf, WorkflowIds;
      WeightUnion(IdsOf(plan, graphs - {g}), WorkflowIds(plan[g]), lengths);
    }
  }

  lemma PlanKnows(plan: Plan, totals: map<string, nat>, lengths: map<string, nat>, g: string)
    requires IsPlan(plan, totals, lengths) && g in plan
    ensures forall i :: 0 <= i < |plan[g]| ==>
      plan[g][i].id in lengths && lengths[plan[g][i].id] == plan[g][i].slice.length
    ensures forall i, j :: 0 <= i < j < |plan[g]| ==> plan[g][i].id != plan[g][j].id
    ensures g in totals && totals[g] == Sum(WorkflowLengths(plan[g]))
  {
    forall i | 0 <= i < |plan[g]| ensures plan[g][i].id in lengths {
      assert plan[g][i].id in IdsOf(plan, plan.Keys);
    }
  }

  lemma PlanTotal(plan: Plan, totals: map<string, nat>, lengths: map<string, nat>)
    requires IsPlan(plan, totals, lengths)
    ensures Weight(lengths.Keys, lengths) == Weight(totals.Keys, totals)
  {
    PlanWeight(plan, totals, lengths, plan.Keys);
  }

  /** `completed_input_items_success` never exceeds `total_input_items`, and reaches it in every run that
      handles each planned workflow without error. */
  lemma CompletedWithinTotal(plan: Plan, log: seq<Event>, totals: map<string, nat>, pending: set<string>,
                             lengths: map<string, nat>)
    requires IsPlan(plan, totals, lengths) && Orderly(log, totals) && AllKeyed(log) && Measures(lengths, log)
    ensures Replay(Initial(pending), log, totals).completed <= Weight(totals.Keys, totals)
    ensures AllClean(log) && Ids(log) == lengths.Keys ==>
      Replay(Initial(pending), log, totals).completed == Weight(totals.Keys, totals)
  {
    hide Replay, AllClean, Ids, IsPlan, Measures, AllKeyed, Weight;
    PlanTotal(plan, totals, lengths);
    CompletedCountsOnce(log, totals, pending, lengths);
    WeightMonotone(Replay(Initial(pending), log, totals).successful, lengths.Keys, lengths);
  }
}
