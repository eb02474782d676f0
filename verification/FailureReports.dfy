/** Which failures a request reports: each kind for its own reason, over any run (runtime/server.py:1888-2087). */
module FailureReports {
  import opened Collections
  import opened Slicing
  import opened Reassembly
  import opened RequestRuns

  /** Whether a position of a buffer holds a value. */
  type Cells = (Target, nat) -> bool

  ghost predicate Ascending(s: seq<nat>) {
    forall i, j :: 0 <= i < j < |s| ==> s[i] < s[j]
  }

  /** One entry of a payload is reported for its length, or for the rows that are already filled. */
  ghost predicate EntryReports(filled: Cells, w: Workflow, entry: Entry, f: Failure) {
    match f
    case LengthMismatch(id, output) => id == w.id && output == entry.output && |entry.values| != w.slice.length
    case Overlap(id, output, indices) =>
      id == w.id && output == entry.output && |entry.values| == w.slice.length && indices != [] && Ascending(indices) &&
      forall p :: p in indices <==>
        w.slice.start <= p < w.slice.start + w.slice.length && filled(Target(w.graph, entry.output), p)
    case _ => false
  }

  /** A payload is reported for a buffer without rows, for a slice that does not fit, or for its entries. */
  ghost predicate PayloadReports(filled: Cells, w: Workflow, entries: seq<Entry>, f: Failure) {
    if w.slice.total == 0 then f == InvalidTotal(w.id)
    else if w.slice.start + w.slice.length > w.slice.total then f == OutOfBounds(w.id)
    else exists i :: 0 <= i < |entries| && EntryReports(filled, w, entries[i], f)
  }

  ghost function CellsOf(buffers: Buffers): (r: Cells) {
    (t: Target, p: nat) => CellAt(buffers, t, p).Some?
  }

  /** What the events of `before` filled. */
  ghost function FilledBy(before: seq<Event>, history: bool): (r: Cells) {
    (t: Target, p: nat) => LastWrite(before, history, t, p).Some?
  }

  /** What is reported for an event that is handled after those of `before`. */
  ghost predicate EventReports(before: seq<Event>, e: Event, f: Failure) {
    if e.o.cancelled then f == RequestCancelled(e.w.id)
    else
      (e.o.failed && f == BatchError(e.w.id)) ||
      (!e.o.failed && e.o.outputs == None && f == MissingOutput(e.w.id)) ||
      (e.o.outputs.Some? && PayloadReports(FilledBy(before, false), e.w, e.o.outputs.value, f)) ||
      (e.o.histories.Some? && PayloadReports(FilledBy(before, true), e.w, e.o.histories.value, f))
  }

  // ---- one entry ---------------------------------------------------------------------------

  lemma {:induction false} FilledMembers(target: Values, start: nat, stop: nat)
    requires stop <= |target|
    ensures Ascending(Filled(target, start, stop))
    ensures forall p :: p in Filled(target, start, stop) <==> start <= p < stop && target[p].Some?
    decreases stop
  {
    if start < stop {
      FilledMembers(target, start, stop - 1);
      var init := Filled(target, start, stop - 1);
      assert forall i :: 0 <= i < |init| ==> init[i] in init;
      assert Filled(target, start, stop) == init + if target[stop - 1].Some? then [stop - 1] else [];
      hide Filled;
    }
  }

  lemma {:induction false} AscendingUnique(a: seq<nat>, b: seq<nat>)
    requires Ascending(a) && Ascending(b) && forall p :: p in a <==> p in b
    ensures a == b
  {
    HeadMember(a);
    HeadMember(b);
    if a != [] {
      var i :| 0 <= i < |b| && b[i] == a[0];
      var j :| 0 <= j < |a| && a[j] == b[0];
      assert a[0] == b[0];
      forall p ensures p in a[1..] <==> p in b[1..] {
        TailMember(a, p);
        TailMember(b, p);
      }
      AscendingUnique(a[1..], b[1..]);
      assert a == [a[0]] + a[1..] && b == [b[0]] + b[1..];
    }
  }

  lemma HeadMember(a: seq<nat>)
    ensures a == [] || a[0] in a
  {
  }

  lemma TailMember(a: seq<nat>, p: nat)
    requires a != [] && Ascending(a)
    ensures p in a[1..] <==> p in a && p != a[0]
  {
  }

  lemma EntryErrors(m: Merge, w: Workflow, e: Entry, f: Failure)
    requires Sized(m.buffers, w.graph, w.slice.total) && InRange(w)
    ensures f in MergeEntry(m, w, e).errors <==> f in m.errors || EntryReports(CellsOf(m.buffers), w, e, f)
  {
    var overlap := Filled(BufferOf(m.buffers, w, e.output), w.slice.start, w.slice.start + w.slice.length);
    BufferCells(m.buffers, w, e.output);
    hide Filled, Write, EntryReports, CellsOf, BufferOf;
    OverlapIff(m.buffers, w, e, f);
    if |e.values| != w.slice.length {
      LengthIff(CellsOf(m.buffers), w, e, f);
    }
  }

  lemma LengthIff(filled: Cells, w: Workflow, e: Entry, f: Failure)
    requires |e.values| != w.slice.length
    ensures EntryReports(filled, w, e, f) <==> f == LengthMismatch(w.id, e.output)
  {
  }

  /** The overlap that is reported is the list of the filled rows. */
  lemma OverlapIff(buffers: Buffers, w: Workflow, e: Entry, f: Failure)
    requires Sized(buffers, w.graph, w.slice.total) && InRange(w)
    ensures |BufferOf(buffers, w, e.output)| == w.slice.total
    ensures |e.values| == w.slice.length ==>
              var overlap := Filled(BufferOf(buffers, w, e.output), w.slice.start, w.slice.start + w.slice.length);
              (EntryReports(CellsOf(buffers), w, e, f) <==> overlap != [] && f == Overlap(w.id, e.output, overlap))
  {
    hide *;
    BufferCells(buffers, w, e.output);
    var target, start, stop := BufferOf(buffers, w, e.output), w.slice.start, w.slice.start + w.slice.length;
    InRangeGives(w);
    FilledMembers(target, start, stop);
    if |e.values| == w.slice.length {
      forall p: nat ensures p in Filled(target, start, stop) <==>
                            start <= p < stop && CellsOf(buffers)(Target(w.graph, e.output), p) {
        CellsAt(buffers, Target(w.graph, e.output), p);
      }
      OverlapBy(CellsOf(buffers), w, e, f, Filled(target, start, stop));
    }
  }

  lemma InRangeGives(w: Workflow)
    requires InRange(w)
    ensures w.slice.start + w.slice.length <= w.slice.total
  {
  }

  lemma CellsAt(buffers: Buffers, t: Target, p: nat)
    ensures CellsOf(buffers)(t, p) <==> CellAt(buffers, t, p).Some?
  {
  }

  lemma OverlapBy(filled: Cells, w: Workflow, e: Entry, f: Failure, overlap: seq<nat>)
    requires |e.values| == w.slice.length && Ascending(overlap)
    requires forall p: nat :: p in overlap <==>
      w.slice.start <= p < w.slice.start + w.slice.length && filled(Target(w.graph, e.output), p)
    ensures EntryReports(filled, w, e, f) <==> overlap != [] && f == Overlap(w.id, e.output, overlap)
  {
    hide Ascending;
    if EntryReports(filled, w, e, f) {
      AscendingUnique(f.indices, overlap);
    }
  }

  lemma BufferCells(buffers: Buffers, w: Workflow, output: string)
    requires Sized(buffers, w.graph, w.slice.total)
    ensures |BufferOf(buffers, w, output)| == w.slice.total
    ensures forall p: nat :: p < w.slice.total ==>
              BufferOf(buffers, w, output)[p] == CellAt(buffers, Target(w.graph, output), p)
  {
  }

  // ---- one payload -------------------------------------------------------------------------

  /** Entries of other outputs do not touch the cells of an entry. */
  lemma OthersKeepCells(m: Merge, w: Workflow, entries: seq<Entry>, n: nat, f: Failure)
    requires Sized(m.buffers, w.graph, w.slice.total) && InRange(w) && DistinctOutputs(entries) && n < |entries|
    ensures EntryReports(CellsOf(MergeEntries(m, w, entries[..n]).buffers), w, entries[n], f) <==>
            EntryReports(CellsOf(m.buffers), w, entries[n], f)
  {
    var t := Target(w.graph, entries[n].output);
    forall p: nat ensures CellAt(MergeEntries(m, w, entries[..n]).buffers, t, p) == CellAt(m.buffers, t, p) {
      EntriesAt(m, w, entries[..n], t, p);
      WrittenAbsent(entries[..n], t.output, w.slice.length);
    }
    hide MergeEntries, CellAt;
  }

  lemma {:induction false} EntriesErrors(m: Merge, w: Workflow, entries: seq<Entry>, f: Failure)
    requires Sized(m.buffers, w.graph, w.slice.total) && InRange(w) && DistinctOutputs(entries)
    ensures f in MergeEntries(m, w, entries).errors <==>
              f in m.errors || exists i :: 0 <= i < |entries| && EntryReports(CellsOf(m.buffers), w, entries[i], f)
  {
    if entries != [] {
      var n := |entries| - 1;
      EntriesErrors(m, w, entries[..n], f);
      EntryErrors(MergeEntries(m, w, entries[..n]), w, entries[n], f);
      OthersKeepCells(m, w, entries, n, f);
      hide EntryReports, MergeEntry;
      if i :| 0 <= i < n && EntryReports(CellsOf(m.buffers), w, entries[..n][i], f) {
        assert EntryReports(CellsOf(m.buffers), w, entries[i], f);
      }
      if i :| 0 <= i < |entries| && EntryReports(CellsOf(m.buffers), w, entries[i], f) {
        assert i < n ==> entries[..n][i] == entries[i];
      }
    }
  }

  lemma PayloadErrors(buffers: Buffers, errors: seq<Failure>, w: Workflow, entries: seq<Entry>, f: Failure)
    requires Sized(buffers, w.graph, w.slice.total) && DistinctOutputs(entries)
    ensures f in MergePayload(buffers, errors, w, entries).errors <==>
              f in errors || PayloadReports(CellsOf(buffers), w, entries, f)
  {
    if InRange(w) {
      EntriesErrors(Merge(buffers, errors, true), w, entries, f);
    }
    hide MergeEntries, EntryReports;
  }

  // ---- one event ---------------------------------------------------------------------------

  lemma SameReports(a: Cells, b: Cells, w: Workflow, entries: seq<Entry>, f: Failure)
    requires forall t, p :: a(t, p) == b(t, p)
    ensures PayloadReports(a, w, entries, f) <==> PayloadReports(b, w, entries, f)
  {
    forall i | 0 <= i < |entries| ensures EntryReports(a, w, entries[i], f) <==> EntryReports(b, w, entries[i], f) {
    }
    hide EntryReports;
  }

  lemma CellsAreWrites(log: seq<Event>, totals: map<string, nat>, pending: set<string>, history: bool)
    requires Orderly(log, totals)
    ensures forall t, p :: CellsOf(BuffersOf(Replay(Initial(pending), log, totals), history))(t, p) ==
                           FilledBy(log, history)(t, p)
  {
    hide Replay, LastWrite;
    forall t: Target, p: nat
      ensures CellAt(BuffersOf(Replay(Initial(pending), log, totals), history), t, p) == LastWrite(log, history, t, p)
    {
      BufferHoldsLastWrite(log, totals, pending, history, t, p);
    }
  }

  /** What handling an event adds to the errors of a state. */
  ghost predicate StateReports(st: State, e: Event, f: Failure) {
    if e.o.cancelled then f == RequestCancelled(e.w.id)
    else
      (e.o.failed && f == BatchError(e.w.id)) ||
      (!e.o.failed && e.o.outputs == None && f == MissingOutput(e.w.id)) ||
      (e.o.outputs.Some? && PayloadReports(CellsOf(st.outputs), e.w, e.o.outputs.value, f)) ||
      (e.o.histories.Some? && PayloadReports(CellsOf(st.histories), e.w, e.o.histories.value, f))
  }

  lemma HandleReports(st: State, e: Event, totals: map<string, nat>, f: Failure)
    requires Steady(st, totals) && Agrees(e.w, totals) && WellKeyed(e)
    ensures f in Handle(st, e, totals).errors <==> f in st.errors || StateReports(st, e, f)
  {
    if !e.o.cancelled {
      SizedOne(st.outputs, totals, e.w);
      SizedOne(st.histories, totals, e.w);
      var noted := if e.o.failed then st.(errors := st.errors + [BatchError(e.w.id)]) else st;
      var collected :=
        if e.o.outputs.Some? then Collect(noted, e.w, e.o.outputs.value, totals)
        else if e.o.failed then noted
        else noted.(errors := noted.errors + [MissingOutput(e.w.id)]);
      if e.o.outputs.Some? {
        PayloadErrors(noted.outputs, noted.errors, e.w, e.o.outputs.value, f);
      }
      if e.o.histories.Some? {
        PayloadErrors(collected.histories, collected.errors, e.w, e.o.histories.value, f);
      }
      hide MergePayload, PayloadReports, Sized;
    }
  }

  lemma StateIsRun(log: seq<Event>, totals: map<string, nat>, pending: set<string>, e: Event, f: Failure)
    requires Orderly(log, totals)
    ensures StateReports(Replay(Initial(pending), log, totals), e, f) <==> EventReports(log, e, f)
  {
    var st := Replay(Initial(pending), log, totals);
    CellsAreWrites(log, totals, pending, false);
    CellsAreWrites(log, totals, pending, true);
    hide Replay, PayloadReports, CellsOf, FilledBy, Steady;
    if e.o.outputs.Some? {
      SameReports(CellsOf(st.outputs), FilledBy(log, false), e.w, e.o.outputs.value, f);
    }
    if e.o.histories.Some? {
      SameReports(CellsOf(st.histories), FilledBy(log, true), e.w, e.o.histories.value, f);
    }
  }

  // ---- a run -------------------------------------------------------------------------------

  /** Over every run a failure is among the errors exactly when some event was reported for it. */
  lemma {:induction false} RunReports(log: seq<Event>, totals: map<string, nat>, pending: set<string>, f: Failure)
    requires Orderly(log, totals) && AllKeyed(log)
    ensures f in Replay(Initial(pending), log, totals).errors <==>
              exists j :: 0 <= j < |log| && EventReports(log[..j], log[j], f)
  {
    hide Handle, EventReports, WellKeyed, StateReports;
    if log != [] {
      var k := |log| - 1;
      var init := log[..k];
      RunReports(init, totals, pending, f);
      var st := Replay(Initial(pending), init, totals);
      assert Replay(Initial(pending), log, totals) == Handle(st, log[k], totals);
      hide Replay, Steady;
      HandleReports(st, log[k], totals, f);
      StateIsRun(init, totals, pending, log[k], f);
      forall j | 0 <= j < k ensures init[..j] == log[..j] && init[j] == log[j] {
      }
    }
  }

  /** An error of the response is a failure of an event, or a buffer that was fed and has a row nothing was written to. */
  lemma ResponseReports(log: seq<Event>, totals: map<string, nat>, pending: set<string>, r: Response, f: Failure)
    requires Orderly(log, totals) && AllKeyed(log) && Responds(Replay(Initial(pending), log, totals), r)
    ensures f in r.errors <==>
              (exists j :: 0 <= j < |log| && EventReports(log[..j], log[j], f)) ||
              (f.MissingIndices? && Unwritten(log, totals, f.history, f.target))
  {
    var st := Replay(Initial(pending), log, totals);
    var missing, untold :| IsResponse(st, r, missing, untold);
    hide Replay, EventReports, Steady, Orderly, AllKeyed, FinishedAll, HasHole, Unwritten;
    RunReports(log, totals, pending, f);
    if f.MissingIndices? {
      HoleIff(log, totals, pending, f.history, f.target);
    }
  }

  /** The buffer was fed, and one of its rows was not written. */
  ghost predicate Unwritten(log: seq<Event>, totals: map<string, nat>, history: bool, t: Target) {
    (exists j :: 0 <= j < |log| && Feeds(log[j], history, t)) && t.graph in totals &&
    exists p: nat :: p < totals[t.graph] && LastWrite(log, history, t, p) == None
  }

  lemma HoleIff(log: seq<Event>, totals: map<string, nat>, pending: set<string>, history: bool, t: Target)
    requires Orderly(log, totals)
    ensures var buffers := BuffersOf(Replay(Initial(pending), log, totals), history);
            t in buffers && HasHole(buffers[t]) <==> Unwritten(log, totals, history, t)
  {
    var buffers := BuffersOf(Replay(Initial(pending), log, totals), history);
    BufferCell(log, totals, pending, history, buffers, t);
    hide Replay, LastWrite, Steady, Feeds, Orderly;
    if t in buffers && HasHole(buffers[t]) {
      var p :| 0 <= p < |buffers[t]| && buffers[t][p] == None;
      assert LastWrite(log, history, t, p) == None;
    }
  }

  // ---- the reasons, kind by kind -------------------------------------------------------------

  /** A batch error is reported for exactly the workflows whose batch failed without being cancelled, a cancellation for
      those that were cancelled, and a missing output for those that finished without one. */
  lemma KindsReported(log: seq<Event>, totals: map<string, nat>, pending: set<string>, id: string)
    requires Orderly(log, totals) && AllKeyed(log)
    ensures var errors := Replay(Initial(pending), log, totals).errors;
            (BatchError(id) in errors <==>
              exists j :: 0 <= j < |log| && log[j].w.id == id && log[j].o.failed && !log[j].o.cancelled) &&
            (RequestCancelled(id) in errors <==> exists j :: 0 <= j < |log| && log[j].w.id == id && log[j].o.cancelled) &&
            (MissingOutput(id) in errors <==>
              exists j :: 0 <= j < |log| && log[j].w.id == id && !log[j].o.failed && !log[j].o.cancelled && log[j].o.outputs == None)
  {
    hide *;
    FailedReported(log, totals, pending, id);
    CancelledReported(log, totals, pending, id);
    MissingReported(log, totals, pending, id);
  }

  lemma FailedReported(log: seq<Event>, totals: map<string, nat>, pending: set<string>, id: string)
    requires Orderly(log, totals) && AllKeyed(log)
    ensures BatchError(id) in Replay(Initial(pending), log, totals).errors <==>
              exists j :: 0 <= j < |log| && log[j].w.id == id && log[j].o.failed && !log[j].o.cancelled
  {
    RunReports(log, totals, pending, BatchError(id));
    hide Replay, Steady, Orderly, AllKeyed, FilledBy;
    forall j | 0 <= j < |log|
      ensures EventReports(log[..j], log[j], BatchError(id)) <==> log[j].w.id == id && log[j].o.failed && !log[j].o.cancelled
    {
    }
    hide EventReports;
  }

  lemma CancelledReported(log: seq<Event>, totals: map<string, nat>, pending: set<string>, id: string)
    requires Orderly(log, totals) && AllKeyed(log)
    ensures RequestCancelled(id) in Replay(Initial(pending), log, totals).errors <==>
              exists j :: 0 <= j < |log| && log[j].w.id == id && log[j].o.cancelled
  {
    RunReports(log, totals, pending, RequestCancelled(id));
    hide Replay, Steady, Orderly, AllKeyed, FilledBy;
    forall j | 0 <= j < |log|
      ensures EventReports(log[..j], log[j], RequestCancelled(id)) <==> log[j].w.id == id && log[j].o.cancelled
    {
    }
    hide EventReports;
  }

  lemma MissingReported(log: seq<Event>, totals: map<string, nat>, pending: set<string>, id: string)
    requires Orderly(log, totals) && AllKeyed(log)
    ensures MissingOutput(id) in Replay(Initial(pending), log, totals).errors <==>
              exists j :: 0 <= j < |log| && log[j].w.id == id && !log[j].o.failed && !log[j].o.cancelled && log[j].o.outputs == None
  {
    RunReports(log, totals, pending, MissingOutput(id));
    hide Replay, Steady, Orderly, AllKeyed, FilledBy;
    forall j | 0 <= j < |log|
      ensures EventReports(log[..j], log[j], MissingOutput(id)) <==>
                log[j].w.id == id && !log[j].o.failed && !log[j].o.cancelled && log[j].o.outputs == None
    {
    }
    hide EventReports;
  }
}
