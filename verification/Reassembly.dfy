/** Collecting slice results into one request's buffers (runtime/server.py:1876-2087). */
module Reassembly {
  import opened Collections
  import opened Slicing

  datatype Target = Target(graph: string, output: string)

  type Values = seq<Option<string>>

  type Buffers = map<Target, Values>

  /** One entry of a payload dictionary, in insertion order. */
  datatype Entry = Entry(output: string, values: Values)

  datatype Workflow = Workflow(id: string, graph: string, slice: Slice)

  /** What a batch reports for one workflow; a failed batch usually reports no outputs. */
  datatype Outcome = Outcome(cancelled: bool, failed: bool, outputs: Option<seq<Entry>>, histories: Option<seq<Entry>>)

  datatype Failure =
    | InvalidTotal(id: string)
    | OutOfBounds(id: string)
    | LengthMismatch(id: string, output: string)
    | Overlap(id: string, output: string, indices: seq<nat>)
    | RequestCancelled(id: string)
    | BatchError(id: string)
    | MissingOutput(id: string)
    | MissingIndices(target: Target, history: bool)

  // ---- one buffer --------------------------------------------------------------------------

  function Blank(n: nat): (r: Values)
    ensures |r| == n && forall p :: 0 <= p < n ==> r[p] == None
  {
    seq(n, _ => None)
  }

  /** `values` written into `target` from `start` on. */
  ghost function Write(target: Values, start: nat, values: Values): (r: Values)
    requires start + |values| <= |target|
    ensures |r| == |target|
    ensures forall p :: 0 <= p < |r| ==> r[p] == if start <= p < start + |values| then values[p - start] else target[p]
  {
    target[..start] + values + target[start + |values|..]
  }

  /** The positions of `start .. stop` already filled. */
  ghost function Filled(target: Values, start: nat, stop: nat): (r: seq<nat>)
    requires stop <= |target|
    ensures r == [] <==> forall p :: start <= p < stop ==> target[p] == None
    decreases stop
  {
    if stop <= start then []
    else Filled(target, start, stop - 1) + if target[stop - 1].Some? then [stop - 1] else []
  }

  method CollectFilled(target: Values, start: nat, stop: nat) returns (r: seq<nat>)
    requires start <= stop <= |target|
    ensures r == Filled(target, start, stop)
  {
    r := [];
    for p := start to stop
      invariant r == Filled(target, start, p)
    {
      if target[p].Some? {
        r := r + [p];
      }
    }
  }

  method WriteValues(buffer: Values, start: nat, values: Values) returns (target: Values)
    requires start + |values| <= |buffer|
    ensures target == Write(buffer, start, values)
  {
    target := buffer;
    for i := 0 to |values|
      invariant |target| == |buffer|
      invariant forall p :: 0 <= p < |buffer| ==>
        target[p] == if start <= p < start + i then values[p - start] else buffer[p]
    {
      target := target[start + i := values[i]];
    }
    assert target == Write(buffer, start, values);
  }

  // ---- one payload -------------------------------------------------------------------------

  datatype Merge = Merge(buffers: Buffers, errors: seq<Failure>, clean: bool)

  /** Every buffer of a graph has the row count of its workflow. */
  ghost predicate Sized(buffers: Buffers, graph: string, total: nat) {
    forall t :: t in buffers && t.graph == graph ==> |buffers[t]| == total
  }

  ghost predicate InRange(w: Workflow) {
    0 < w.slice.total && w.slice.start + w.slice.length <= w.slice.total
  }

  ghost function BufferOf(buffers: Buffers, w: Workflow, output: string): (r: Values) {
    var t := Target(w.graph, output);
    if t in buffers then buffers[t] else Blank(w.slice.total)
  }

  ghost function MergeEntry(m: Merge, w: Workflow, e: Entry): (r: Merge)
    requires Sized(m.buffers, w.graph, w.slice.total) && InRange(w)
    ensures Sized(r.buffers, w.graph, w.slice.total)
  {
    if |e.values| != w.slice.length then
      m.(errors := m.errors + [LengthMismatch(w.id, e.output)], clean := false)
    else
      var target := BufferOf(m.buffers, w, e.output);
      var overlap := Filled(target, w.slice.start, w.slice.start + w.slice.length);
      var errors := if overlap == [] then [] else [Overlap(w.id, e.output, overlap)];
      Merge(m.buffers[Target(w.graph, e.output) := Write(target, w.slice.start, e.values)], m.errors + errors,
            m.clean && overlap == [])
  }

  ghost function MergeEntries(m: Merge, w: Workflow, entries: seq<Entry>): (r: Merge)
    requires Sized(m.buffers, w.graph, w.slice.total) && InRange(w)
    ensures Sized(r.buffers, w.graph, w.slice.total)
  {
    if entries == [] then m
    else MergeEntry(MergeEntries(m, w, entries[..|entries| - 1]), w, entries[|entries| - 1])
  }

  ghost function MergePayload(buffers: Buffers, errors: seq<Failure>, w: Workflow, entries: seq<Entry>): (r: Merge)
    requires Sized(buffers, w.graph, w.slice.total)
    ensures Sized(r.buffers, w.graph, w.slice.total)
  {
    if w.slice.total == 0 then Merge(buffers, errors + [InvalidTotal(w.id)], false)
    else if !InRange(w) then Merge(buffers, errors + [OutOfBounds(w.id)], false)
    else MergeEntries(Merge(buffers, errors, true), w, entries)
  }

  /** The body of the loop over one payload. */
  method MergeOutput(m: Merge, w: Workflow, e: Entry) returns (r: Merge)
    requires Sized(m.buffers, w.graph, w.slice.total) && InRange(w)
    ensures r == MergeEntry(m, w, e)
  {
    var start, stop := w.slice.start, w.slice.start + w.slice.length;
    if |e.values| != w.slice.length {
      return m.(errors := m.errors + [LengthMismatch(w.id, e.output)], clean := false);
    }
    r := m;
    var t := Target(w.graph, e.output);
    var target := if t in r.buffers then r.buffers[t] else Blank(w.slice.total);
    var overlap := CollectFilled(target, start, stop);
    if overlap != [] {
      r := r.(errors := r.errors + [Overlap(w.id, e.output, overlap)], clean := false);
    }
    hide Filled, Write;
    var written := WriteValues(target, start, e.values);
    r := r.(buffers := r.buffers[t := written]);
    assert overlap == [] ==> m.errors + [] == m.errors;
  }

  /** `merge_slice_payload`. */
  method MergeSlicePayload(buffers: Buffers, errors: seq<Failure>, w: Workflow, entries: seq<Entry>) returns (r: Merge)
    requires Sized(buffers, w.graph, w.slice.total)
    ensures r == MergePayload(buffers, errors, w, entries)
  {
    if w.slice.total == 0 {
      return Merge(buffers, errors + [InvalidTotal(w.id)], false);
    }
    if w.slice.start + w.slice.length > w.slice.total {
      return Merge(buffers, errors + [OutOfBounds(w.id)], false);
    }
    hide MergeEntry;
    ghost var m := Merge(buffers, errors, true);
    r := Merge(buffers, errors, true);
    for i := 0 to |entries|
      invariant Sized(r.buffers, w.graph, w.slice.total) && r == MergeEntries(m, w, entries[..i])
    {
      assert entries[..i + 1][..i] == entries[..i];
      r := MergeOutput(r, w, entries[i]);
    }
    assert entries[..|entries|] == entries;
  }

  /** The values a payload writes for an output: the last entry of the right length. */
  ghost function Written(entries: seq<Entry>, output: string, length: nat): (r: Option<Values>)
    ensures r.Some? ==> |r.value| == length
  {
    if entries == [] then None
    else
      var last := entries[|entries| - 1];
      if last.output == output && |last.values| == length then Some(last.values)
      else Written(entries[..|entries| - 1], output, length)
  }

  /** The workflow's payload writes position `p` of the buffer. */
  ghost predicate Covers(w: Workflow, entries: seq<Entry>, t: Target, p: nat) {
    InRange(w) && t.graph == w.graph && w.slice.start <= p < w.slice.start + w.slice.length &&
    Written(entries, t.output, w.slice.length).Some?
  }

  ghost function CellAt(buffers: Buffers, t: Target, p: nat): Option<string> {
    if t in buffers && p < |buffers[t]| then buffers[t][p] else None
  }

  ghost function CellOf(w: Workflow, entries: seq<Entry>, t: Target, p: nat): Option<string>
    requires Covers(w, entries, t, p)
  {
    Written(entries, t.output, w.slice.length).value[p - w.slice.start]
  }

  lemma EntryAt(m: Merge, w: Workflow, e: Entry, t: Target, p: nat)
    requires Sized(m.buffers, w.graph, w.slice.total) && InRange(w)
    ensures CellAt(MergeEntry(m, w, e).buffers, t, p) ==
            if Covers(w, [e], t, p) then CellOf(w, [e], t, p) else CellAt(m.buffers, t, p)
  {
    assert Written([e], t.output, w.slice.length) ==
           if e.output == t.output && |e.values| == w.slice.length then Some(e.values) else None;
  }

  lemma {:induction false} EntriesAt(m: Merge, w: Workflow, entries: seq<Entry>, t: Target, p: nat)
    requires Sized(m.buffers, w.graph, w.slice.total) && InRange(w)
    ensures CellAt(MergeEntries(m, w, entries).buffers, t, p) ==
            if Covers(w, entries, t, p) then CellOf(w, entries, t, p) else CellAt(m.buffers, t, p)
  {
    hide MergeEntry, Sized, InRange, CellAt;
    if entries != [] {
      var k := |entries| - 1;
      EntriesAt(m, w, entries[..k], t, p);
      EntryAt(MergeEntries(m, w, entries[..k]), w, entries[k], t, p);
      assert Written([entries[k]], t.output, w.slice.length) ==
        if entries[k].output == t.output && |entries[k].values| == w.slice.length then Some(entries[k].values) else None;
    }
  }

  /** A payload writes its slice's rows and nothing else. */
  lemma PayloadAt(buffers: Buffers, errors: seq<Failure>, w: Workflow, entries: seq<Entry>, t: Target, p: nat)
    requires Sized(buffers, w.graph, w.slice.total)
    ensures CellAt(MergePayload(buffers, errors, w, entries).buffers, t, p) ==
            if Covers(w, entries, t, p) then CellOf(w, entries, t, p) else CellAt(buffers, t, p)
  {
    if InRange(w) {
      EntriesAt(Merge(buffers, errors, true), w, entries, t, p);
    }
  }

  // ---- the request state -------------------------------------------------------------------

  datatype State = State(outputs: Buffers, histories: Buffers, errors: seq<Failure>, successful: set<string>,
                         completed: nat, pending: set<string>)

  datatype Event = Event(w: Workflow, o: Outcome)

  /** All slices of a graph state the same row count, which sizes its buffers. */
  ghost predicate Agrees(w: Workflow, totals: map<string, nat>) {
    w.graph in totals && totals[w.graph] == w.slice.total
  }

  ghost predicate AllSized(buffers: Buffers, totals: map<string, nat>) {
    forall t :: t in buffers ==> t.graph in totals && |buffers[t]| == totals[t.graph]
  }

  ghost predicate Steady(st: State, totals: map<string, nat>) {
    AllSized(st.outputs, totals) && AllSized(st.histories, totals)
  }

  lemma SizedOne(buffers: Buffers, totals: map<string, nat>, w: Workflow)
    requires AllSized(buffers, totals) && Agrees(w, totals)
    ensures Sized(buffers, w.graph, w.slice.total)
  {
  }

  lemma {:induction false} EntriesSized(m: Merge, w: Workflow, entries: seq<Entry>, totals: map<string, nat>)
    requires AllSized(m.buffers, totals) && Agrees(w, totals) && InRange(w)
    requires Sized(m.buffers, w.graph, w.slice.total)
    ensures AllSized(MergeEntries(m, w, entries).buffers, totals)
  {
    if entries != [] {
      EntriesSized(m, w, entries[..|entries| - 1], totals);
    }
  }

  ghost function MergeInto(buffers: Buffers, errors: seq<Failure>, w: Workflow, entries: seq<Entry>,
                           totals: map<string, nat>): (r: Merge)
    requires AllSized(buffers, totals) && Agrees(w, totals)
    ensures AllSized(r.buffers, totals)
  {
    SizedOne(buffers, totals, w);
    if InRange(w) then
      EntriesSized(Merge(buffers, errors, true), w, entries, totals);
      MergePayload(buffers, errors, w, entries)
    else MergePayload(buffers, errors, w, entries)
  }

  ghost function Collect(st: State, w: Workflow, entries: seq<Entry>, totals: map<string, nat>): (r: State)
    requires Steady(st, totals) && Agrees(w, totals)
    ensures Steady(r, totals)
  {
    var m := MergeInto(st.outputs, st.errors, w, entries, totals);
    var first := m.clean && w.id !in st.successful;
    st.(outputs := m.buffers, errors := m.errors,
        successful := if first then st.successful + {w.id} else st.successful,
        completed := if first then st.completed + w.slice.length else st.completed)
  }

  ghost function CollectHistory(st: State, w: Workflow, entries: seq<Entry>, totals: map<string, nat>): (r: State)
    requires Steady(st, totals) && Agrees(w, totals)
    ensures Steady(r, totals)
  {
    var m := MergeInto(st.histories, st.errors, w, entries, totals);
    st.(histories := m.buffers, errors := m.errors)
  }

  /** The effect of one workflow of a finished batch. */
  ghost function Handle(st: State, e: Event, totals: map<string, nat>): (r: State)
    requires Steady(st, totals) && Agrees(e.w, totals)
    ensures Steady(r, totals)
  {
    var rest := st.pending - {e.w.id};
    if e.o.cancelled then st.(errors := st.errors + [RequestCancelled(e.w.id)], pending := rest)
    else
      var noted := if e.o.failed then st.(errors := st.errors + [BatchError(e.w.id)]) else st;
      var collected :=
        if e.o.outputs.Some? then Collect(noted, e.w, e.o.outputs.value, totals)
        else if e.o.failed then noted
        else noted.(errors := noted.errors + [MissingOutput(e.w.id)]);
      var told := if e.o.histories.Some? then CollectHistory(collected, e.w, e.o.histories.value, totals) else collected;
      told.(pending := rest)
  }

  ghost predicate Orderly(log: seq<Event>, totals: map<string, nat>) {
    forall i :: 0 <= i < |log| ==> Agrees(log[i].w, totals)
  }

  /** The state after any number of handled workflows, in any order and possibly repeated. */
  ghost function Replay(st: State, log: seq<Event>, totals: map<string, nat>): (r: State)
    requires Steady(st, totals) && Orderly(log, totals)
    ensures Steady(r, totals)
  {
    if log == [] then st
    else Handle(Replay(st, log[..|log| - 1], totals), log[|log| - 1], totals)
  }

  // ---- closing the request -----------------------------------------------------------------

  datatype Response = Response(outputs: map<Target, seq<string>>, histories: map<Target, seq<string>>,
                               errors: seq<Failure>)

  const NO_HISTORY := "[]"

  ghost predicate HasHole(values: Values) {
    exists p :: 0 <= p < |values| && values[p] == None
  }

  ghost function Finished(values: Values, blank: string): (r: seq<string>)
    ensures |r| == |values|
    ensures forall p :: 0 <= p < |r| ==> r[p] == if values[p].Some? then values[p].value else blank
  {
    seq(|values|, p requires 0 <= p < |values| => if values[p].Some? then values[p].value else blank)
  }

  ghost function FinishedAll(buffers: Buffers, blank: string): (r: map<Target, seq<string>>) {
    map t | t in buffers :: Finished(buffers[t], blank)
  }

  /** The error entries for buffers with a hole, in any order. */
  ghost predicate ReportsHoles(buffers: Buffers, history: bool, errors: seq<Failure>) {
    forall e :: e in errors <==>
      e.MissingIndices? && e.history == history && e.target in buffers && HasHole(buffers[e.target])
  }

  method FinishBuffer(values: Values, blank: string) returns (r: seq<string>, hole: bool)
    ensures r == Finished(values, blank) && (hole <==> HasHole(values))
  {
    r, hole := [], false;
    for p := 0 to |values|
      invariant |r| == p && (hole <==> exists q :: 0 <= q < p && values[q] == None)
      invariant forall q :: 0 <= q < p ==> r[q] == if values[q].Some? then values[q].value else blank
    {
      r := r + [if values[p].Some? then values[p].value else blank];
      hole := hole || values[p] == None;
    }
  }

  /** One of the two loops of `finalize_state`. */
  method FinishBuffers(buffers: Buffers, blank: string, history: bool)
    returns (r: map<Target, seq<string>>, errors: seq<Failure>)
    ensures r == FinishedAll(buffers, blank) && ReportsHoles(buffers, history, errors)
  {
    hide HasHole;
    r, errors := map[], [];
    var todo := buffers.Keys;
    while todo != {}
      invariant todo <= buffers.Keys && r.Keys == buffers.Keys - todo
      invariant forall t :: t in r ==> r[t] == Finished(buffers[t], blank)
      invariant forall e :: e in errors <==>
        e.MissingIndices? && e.history == history && e.target in r && HasHole(buffers[e.target])
    {
      var t :| t in todo;
      todo := todo - {t};
      var values, hole := FinishBuffer(buffers[t], blank);
      if hole {
        errors := errors + [MissingIndices(t, history)];
      }
      r := r[t := values];
    }
  }

  class RequestState {
    const totals: map<string, nat>
    var outputs: Buffers
    var histories: Buffers
    var errors: seq<Failure>
    var successful: set<string>
    var completed: nat
    var pending: set<string>
    var ready: bool

    constructor (totals: map<string, nat>, pending: set<string>)
      ensures this.totals == totals && Value() == Initial(pending) && ready
    {
      this.totals := totals;
      outputs, histories, errors, successful, completed := map[], map[], [], {}, 0;
      this.pending, ready := pending, true;
    }

    function Value(): State
      reads this
    {
      State(outputs, histories, errors, successful, completed, pending)
    }

    method CollectOutputs(w: Workflow, entries: seq<Entry>)
      requires Steady(Value(), totals) && Agrees(w, totals)
      modifies this
      ensures Value() == Collect(old(Value()), w, entries, totals) && ready == old(ready)
    {
      SizedOne(outputs, totals, w);
      hide MergePayload, AllSized;
      var m := MergeSlicePayload(outputs, errors, w, entries);
      outputs, errors := m.buffers, m.errors;
      if m.clean && w.id !in successful {
        successful, completed := successful + {w.id}, completed + w.slice.length;
      }
    }

    method CollectHistories(w: Workflow, entries: seq<Entry>)
      requires Steady(Value(), totals) && Agrees(w, totals)
      modifies this
      ensures Value() == CollectHistory(old(Value()), w, entries, totals) && ready == old(ready)
    {
      SizedOne(histories, totals, w);
      hide MergePayload, AllSized;
      var m := MergeSlicePayload(histories, errors, w, entries);
      histories, errors := m.buffers, m.errors;
    }

    /** The body of the loop over the workflows of a batch. */
    method HandleWorkflow(e: Event)
      requires Steady(Value(), totals) && Agrees(e.w, totals)
      modifies this
      ensures Value() == Handle(old(Value()), e, totals) && ready == old(ready)
    {
      hide MergeInto, AllSized;
      if e.o.cancelled {
        errors, pending := errors + [RequestCancelled(e.w.id)], pending - {e.w.id};
        return;
      }
      if e.o.failed {
        errors := errors + [BatchError(e.w.id)];
      }
      if e.o.outputs.Some? {
        CollectOutputs(e.w, e.o.outputs.value);
      } else if !e.o.failed {
        errors := errors + [MissingOutput(e.w.id)];
      }
      if e.o.histories.Some? {
        CollectHistories(e.w, e.o.histories.value);
      }
      pending := pending - {e.w.id};
    }

    /** `_handle_batch_results` for the workflows of one request: the response is sent when none is pending. */
    method HandleBatch(batch: seq<Event>) returns (response: Option<Response>)
      requires Steady(Value(), totals) && Orderly(batch, totals)
      modifies this
      ensures ready == old(ready)
      ensures Closes(old(Value()), batch, totals, ready, Value(), response)
    {
      hide Handle, Steady, Agrees, HasHole, ReportsHoles, FinishedAll;
      for i := 0 to |batch|
        invariant Steady(Value(), totals) && ready == old(ready)
        invariant Value() == Replay(old(Value()), batch[..i], totals)
      {
        assert batch[..i + 1][..i] == batch[..i];
        HandleWorkflow(batch[i]);
      }
      assert batch[..|batch|] == batch;
      if batch == [] || pending != {} || !ready {
        return None;
      }
      ghost var before := errors;
      var finished, missing := FinishBuffers(outputs, "", false);
      var told, untold := FinishBuffers(histories, NO_HISTORY, true);
      errors := errors + missing + untold;
      response := Some(Response(finished, told, errors));
      assert IsResponse(Value().(errors := before), response.value, missing, untold);
    }
  }

  /** The response closes the state: buffers finished, one error entry per buffer with a hole. */
  ghost predicate IsResponse(st: State, r: Response, missing: seq<Failure>, untold: seq<Failure>) {
    r.outputs == FinishedAll(st.outputs, "") && r.histories == FinishedAll(st.histories, NO_HISTORY) &&
    r.errors == st.errors + missing + untold &&
    ReportsHoles(st.outputs, false, missing) && ReportsHoles(st.histories, true, untold)
  }

  ghost predicate Responds(st: State, r: Response) {
    exists missing, untold :: IsResponse(st, r, missing, untold)
  }

  /** A handled batch replays its workflows and responds exactly when the request has none left. */
  ghost predicate Closes(before: State, batch: seq<Event>, totals: map<string, nat>, ready: bool, now: State,
                         response: Option<Response>)
    requires Steady(before, totals) && Orderly(batch, totals)
  {
    var st := Replay(before, batch, totals);
    (response.Some? <==> batch != [] && st.pending == {} && ready) &&
    (response.None? ==> now == st) &&
    (response.Some? ==> Responds(st, response.value) && now == st.(errors := response.value.errors))
  }

  function Initial(pending: set<string>): State {
    State(map[], map[], [], {}, 0, pending)
  }

  // ---- what a run leaves in the buffers ----------------------------------------------------

  ghost function BuffersOf(st: State, history: bool): Buffers {
    if history then st.histories else st.outputs
  }

  ghost function PayloadOf(o: Outcome, history: bool): Option<seq<Entry>> {
    if o.cancelled then None else if history then o.histories else o.outputs
  }

  /** The event writes position `p` of a buffer. */
  ghost predicate Writes(e: Event, history: bool, t: Target, p: nat) {
    var payload := PayloadOf(e.o, history);
    payload.Some? && Covers(e.w, payload.value, t, p)
  }

  ghost function WrittenBy(e: Event, history: bool, t: Target, p: nat): Option<string>
    requires Writes(e, history, t, p)
  {
    CellOf(e.w, PayloadOf(e.o, history).value, t, p)
  }

  /** The value of the last event that writes the position; none when no event does. */
  ghost function LastWrite(log: seq<Event>, history: bool, t: Target, p: nat): Option<string> {
    if log == [] then None
    else
      var e := log[|log| - 1];
      if Writes(e, history, t, p) then WrittenBy(e, history, t, p) else LastWrite(log[..|log| - 1], history, t, p)
  }

  lemma HandleAt(st: State, e: Event, totals: map<string, nat>, history: bool, t: Target, p: nat)
    requires Steady(st, totals) && Agrees(e.w, totals)
    ensures CellAt(BuffersOf(Handle(st, e, totals), history), t, p) ==
            if Writes(e, history, t, p) then WrittenBy(e, history, t, p) else CellAt(BuffersOf(st, history), t, p)
  {
    var payload := PayloadOf(e.o, history);
    SizedOne(BuffersOf(st, history), totals, e.w);
    if payload.Some? {
      var errors := if e.o.failed then st.errors + [BatchError(e.w.id)] else st.errors;
      PayloadAt(BuffersOf(st, history), errors, e.w, payload.value, t, p);
      var noted := if e.o.failed then st.(errors := st.errors + [BatchError(e.w.id)]) else st;
      var collected := if e.o.outputs.Some? then Collect(noted, e.w, e.o.outputs.value, totals) else
        if e.o.failed then noted else noted.(errors := noted.errors + [MissingOutput(e.w.id)]);
      PayloadAt(BuffersOf(st, history), collected.errors, e.w, payload.value, t, p);
    }
  }

  /** Over every run, a buffer position holds what was last written to it. */
  lemma {:induction false} BufferHoldsLastWrite(log: seq<Event>, totals: map<string, nat>, pending: set<string>,
                                                history: bool, t: Target, p: nat)
    requires Orderly(log, totals)
    ensures CellAt(BuffersOf(Replay(Initial(pending), log, totals), history), t, p) == LastWrite(log, history, t, p)
  {
    if log != [] {
      var k := |log| - 1;
      BufferHoldsLastWrite(log[..k], totals, pending, history, t, p);
      hide Handle, Covers, CellOf, CellAt, Steady, BuffersOf, Writes;
      HandleAt(Replay(Initial(pending), log[..k], totals), log[k], totals, history, t, p);
    }
  }

  // ---- when nothing goes wrong -------------------------------------------------------------

  ghost predicate DistinctOutputs(entries: seq<Entry>) {
    forall i, j :: 0 <= i < j < |entries| ==> entries[i].output != entries[j].output
  }

  /** The slice's rows of the output are still empty. */
  ghost predicate RowsFree(buffers: Buffers, w: Workflow, output: string) {
    forall p :: w.slice.start <= p < w.slice.start + w.slice.length ==>
      CellAt(buffers, Target(w.graph, output), p) == None
  }

  /** Every entry has one value per row and lands on empty rows. */
  ghost predicate Lands(buffers: Buffers, w: Workflow, entries: seq<Entry>) {
    forall i :: 0 <= i < |entries| ==> |entries[i].values| == w.slice.length && RowsFree(buffers, w, entries[i].output)
  }

  lemma {:induction false} WrittenAbsent(entries: seq<Entry>, output: string, length: nat)
    requires forall i :: 0 <= i < |entries| ==> entries[i].output != output
    ensures Written(entries, output, length) == None
  {
    if entries != [] {
      WrittenAbsent(entries[..|entries| - 1], output, length);
    }
  }

  lemma EntryLands(m: Merge, w: Workflow, e: Entry)
    requires Sized(m.buffers, w.graph, w.slice.total) && InRange(w)
    ensures m.errors <= MergeEntry(m, w, e).errors
    ensures MergeEntry(m, w, e).errors == m.errors <==> |e.values| == w.slice.length && RowsFree(m.buffers, w, e.output)
    ensures MergeEntry(m, w, e).clean <==> m.clean && MergeEntry(m, w, e).errors == m.errors
  {
    var start, stop := w.slice.start, w.slice.start + w.slice.length;
    var target := BufferOf(m.buffers, w, e.output);
    assert forall p :: start <= p < stop ==> target[p] == CellAt(m.buffers, Target(w.graph, e.output), p);
    assert RowsFree(m.buffers, w, e.output) <==> Filled(target, start, stop) == [];
  }

  lemma OtherRowsFree(m: Merge, w: Workflow, entries: seq<Entry>, output: string)
    requires Sized(m.buffers, w.graph, w.slice.total) && InRange(w)
    requires forall i :: 0 <= i < |entries| ==> entries[i].output != output
    ensures RowsFree(MergeEntries(m, w, entries).buffers, w, output) <==> RowsFree(m.buffers, w, output)
  {
    var t := Target(w.graph, output);
    WrittenAbsent(entries, output, w.slice.length);
    forall p: nat
      ensures CellAt(MergeEntries(m, w, entries).buffers, t, p) == CellAt(m.buffers, t, p)
    {
      EntriesAt(m, w, entries, t, p);
    }
  }

  lemma {:induction false} EntriesLand(m: Merge, w: Workflow, entries: seq<Entry>)
    requires Sized(m.buffers, w.graph, w.slice.total) && InRange(w) && DistinctOutputs(entries)
    ensures m.errors <= MergeEntries(m, w, entries).errors
    ensures MergeEntries(m, w, entries).errors == m.errors <==> Lands(m.buffers, w, entries)
    ensures MergeEntries(m, w, entries).clean <==> m.clean && MergeEntries(m, w, entries).errors == m.errors
  {
    hide MergeEntry, RowsFree, Sized, InRange;
    if entries != [] {
      var k := |entries| - 1;
      EntriesLand(m, w, entries[..k]);
      EntryLands(MergeEntries(m, w, entries[..k]), w, entries[k]);
      OtherRowsFree(m, w, entries[..k], entries[k].output);
      LandsNext(m.buffers, w, entries, k);
    }
  }

  lemma LandsNext(buffers: Buffers, w: Workflow, entries: seq<Entry>, k: nat)
    requires |entries| == k + 1
    ensures Lands(buffers, w, entries) <==>
            Lands(buffers, w, entries[..k]) && |entries[k].values| == w.slice.length &&
            RowsFree(buffers, w, entries[k].output)
  {
    hide RowsFree;
    assert forall i :: 0 <= i < k ==> entries[..k][i] == entries[i];
  }
}
