/** The server's sections of code that update shared state, each proved to be its step of the protocol:
    worker selection (runtime/server.py:822-868, 983-1043), submission (662-732) and the parts of
    `_run_batch_inner`, `_process_batch` and `_handle_batch_results` between awaits. */
module Dispatcher {
  import opened Collections
  import opened Scheduling
  import opened Apportionment

  // ---- choosing workers --------------------------------------------------------------------

  /** A worker's profile; unknown values are absent. `gpus` lists the memory of each device. */
  datatype Profile = Profile(cores: Option<int>, memory: Option<int>, gpus: seq<Option<int>>)

  datatype Hardware = Hardware(cpu: Option<int>, memory: Option<int>, gpu: Option<int>, gpuMemory: Option<int>)

  /** A known value below a stated requirement. */
  predicate Short(known: Option<int>, required: Option<int>) {
    known.Some? && required.Some? && known.value < required.value
  }

  /** `_worker_meets_hardware`: requirements on devices concern only workers that have some. */
  predicate Meets(p: Profile, required: Option<Hardware>) {
    required.Some? ==>
      !Short(p.cores, required.value.cpu) && !Short(p.memory, required.value.memory) &&
      (p.gpus != [] ==>
        !Short(Some(|p.gpus|), required.value.gpu) &&
        forall d :: 0 <= d < |p.gpus| ==> !Short(p.gpus[d], required.value.gpuMemory))
  }

  /** The candidates of one kind, in the order of the worker list. */
  function Eligible(workers: seq<string>, busy: set<string>, profiles: map<string, Profile>, required: Option<Hardware>,
                    gpu: bool): (r: seq<string>)
    ensures forall w :: w in r <==> w in workers && Usable(w, busy, profiles, required, gpu)
  {
    if workers == [] then []
    else
      var last := workers[|workers| - 1];
      Eligible(workers[..|workers| - 1], busy, profiles, required, gpu) +
      if Usable(last, busy, profiles, required, gpu) then [last] else []
  }

  /** A free worker of the kind whose profile could be fetched and meets the requirement. */
  predicate Usable(w: string, busy: set<string>, profiles: map<string, Profile>, required: Option<Hardware>, gpu: bool) {
    w !in busy && w in profiles && Meets(profiles[w], required) && (profiles[w].gpus != []) == gpu
  }

  /** What a requirement asks of a profile, number by number: a value that is not known passes. */
  ghost predicate Fits(p: Profile, h: Hardware) {
    (p.cores.Some? && h.cpu.Some? ==> p.cores.value >= h.cpu.value) &&
    (p.memory.Some? && h.memory.Some? ==> p.memory.value >= h.memory.value) &&
    (p.gpus != [] && h.gpu.Some? ==> |p.gpus| >= h.gpu.value) &&
    (h.gpuMemory.Some? ==> forall d :: 0 <= d < |p.gpus| && p.gpus[d].Some? ==> p.gpus[d].value >= h.gpuMemory.value)
  }

  /** The worker is free, has a profile with or without devices, and fits. */
  ghost predicate Serves(w: string, busy: set<string>, profiles: map<string, Profile>, required: Option<Hardware>,
                         gpu: bool)
  {
    w !in busy && w in profiles && (gpu <==> |profiles[w].gpus| > 0) &&
    (required.Some? ==> Fits(profiles[w], required.value))
  }

  /** The workers that serve, in the order of the list. */
  ghost function Serving(workers: seq<string>, busy: set<string>, profiles: map<string, Profile>,
                         required: Option<Hardware>, gpu: bool): (r: seq<string>)
  {
    if workers == [] then []
    else
      Serving(workers[..|workers| - 1], busy, profiles, required, gpu) +
      if Serves(workers[|workers| - 1], busy, profiles, required, gpu) then [workers[|workers| - 1]] else []
  }

  lemma UsableIff(w: string, busy: set<string>, profiles: map<string, Profile>, required: Option<Hardware>, gpu: bool)
    ensures Usable(w, busy, profiles, required, gpu) <==> Serves(w, busy, profiles, required, gpu)
  {
    if w in profiles && required.Some? {
      var p, h := profiles[w], required.value;
      assert (forall d :: 0 <= d < |p.gpus| ==> !Short(p.gpus[d], h.gpuMemory)) <==>
             (h.gpuMemory.Some? ==> forall d :: 0 <= d < |p.gpus| && p.gpus[d].Some? ==> p.gpus[d].value >= h.gpuMemory.value);
    }
  }

  /** The filter of the loop is the requirement. */
  lemma {:induction false} EligibleServe(workers: seq<string>, busy: set<string>, profiles: map<string, Profile>,
                                         required: Option<Hardware>, gpu: bool)
    ensures Eligible(workers, busy, profiles, required, gpu) == Serving(workers, busy, profiles, required, gpu)
  {
    hide Usable, Serves;
    if workers != [] {
      EligibleServe(workers[..|workers| - 1], busy, profiles, required, gpu);
      UsableIff(workers[|workers| - 1], busy, profiles, required, gpu);
    }
  }

  /** A group of the required numbers of workers of each kind, all of them fit for the requirement. */
  ghost predicate IsGroup(group: seq<string>, cpus: nat, gpus: nat, workers: seq<string>, busy: set<string>,
                          profiles: map<string, Profile>, required: Option<Hardware>) {
    |group| == gpus + cpus && Elems(group) <= Elems(workers) && (Distinct(workers) ==> Distinct(group)) &&
    (forall i :: 0 <= i < gpus ==> Serves(group[i], busy, profiles, required, true)) &&
    forall i :: gpus <= i < |group| ==> Serves(group[i], busy, profiles, required, false)
  }

  /** One pass of `_wait_for_available_worker_group` over a snapshot of the workers: a group is found exactly
      when enough workers of each kind serve, and it holds the first of them, those with devices before the others. */
  method SelectGroup(workers: seq<string>, busy: set<string>, profiles: map<string, Profile>, required: Option<Hardware>,
                     cpus: nat, gpus: nat)
    returns (group: Option<seq<string>>)
    ensures group.Some? <==>
              |Serving(workers, busy, profiles, required, false)| >= cpus &&
              |Serving(workers, busy, profiles, required, true)| >= gpus
    ensures group.Some? ==> group.value == Serving(workers, busy, profiles, required, true)[..gpus] +
                                           Serving(workers, busy, profiles, required, false)[..cpus]
    ensures group.Some? ==> IsGroup(group.value, cpus, gpus, workers, busy, profiles, required)
  {
    var freeGpus: seq<string>, freeCpus: seq<string> := [], [];
    for i := 0 to |workers|
      invariant freeGpus == Eligible(workers[..i], busy, profiles, required, true)
      invariant freeCpus == Eligible(workers[..i], busy, profiles, required, false)
    {
      assert workers[..i + 1][..i] == workers[..i];
      var w := workers[i];
      if w !in busy && w in profiles && Meets(profiles[w], required) {
        if profiles[w].gpus != [] {
          freeGpus := freeGpus + [w];
        } else {
          freeCpus := freeCpus + [w];
        }
      }
    }
    assert workers[..|workers|] == workers;
    EligibleServe(workers, busy, profiles, required, true);
    EligibleServe(workers, busy, profiles, required, false);
    if |freeCpus| < cpus || |freeGpus| < gpus {
      return None;
    }
    group := Some(freeGpus[..gpus] + freeCpus[..cpus]);
    GroupIsSound(workers, busy, profiles, required, cpus, gpus);
  }

  lemma {:induction false} ServingMembers(workers: seq<string>, busy: set<string>, profiles: map<string, Profile>,
                                          required: Option<Hardware>, gpu: bool)
    ensures forall w :: w in Serving(workers, busy, profiles, required, gpu) <==>
              w in workers && Serves(w, busy, profiles, required, gpu)
    ensures Distinct(workers) ==> Distinct(Serving(workers, busy, profiles, required, gpu))
  {
    hide Serves;
    if workers != [] {
      var n := |workers| - 1;
      ServingMembers(workers[..n], busy, profiles, required, gpu);
      assert forall w :: w in workers <==> w in workers[..n] || w == workers[n];
      if Distinct(workers) {
        assert workers[n] !in workers[..n];
      }
    }
  }

  lemma GroupIsSound(workers: seq<string>, busy: set<string>, profiles: map<string, Profile>, required: Option<Hardware>,
                     cpus: nat, gpus: nat)
    requires |Serving(workers, busy, profiles, required, false)| >= cpus
    requires |Serving(workers, busy, profiles, required, true)| >= gpus
    ensures IsGroup(Serving(workers, busy, profiles, required, true)[..gpus] +
                    Serving(workers, busy, profiles, required, false)[..cpus], cpus, gpus, workers, busy, profiles, required)
  {
    hide *;
    var a, b := Serving(workers, busy, profiles, required, true), Serving(workers, busy, profiles, required, false);
    ServingMembers(workers, busy, profiles, required, true);
    ServingMembers(workers, busy, profiles, required, false);
    KindsDiffer(busy, profiles, required);
    GroupBy(a, b, workers, busy, profiles, required, cpus, gpus);
  }

  lemma KindsDiffer(busy: set<string>, profiles: map<string, Profile>, required: Option<Hardware>)
    ensures forall w :: !(Serves(w, busy, profiles, required, true) && Serves(w, busy, profiles, required, false))
  {
  }

  lemma GroupBy(a: seq<string>, b: seq<string>, workers: seq<string>, busy: set<string>, profiles: map<string, Profile>,
                required: Option<Hardware>, cpus: nat, gpus: nat)
    requires |a| >= gpus && |b| >= cpus && (Distinct(workers) ==> Distinct(a) && Distinct(b))
    requires forall w :: w in a ==> w in workers && Serves(w, busy, profiles, required, true)
    requires forall w :: w in b ==> w in workers && Serves(w, busy, profiles, required, false)
    requires forall w :: !(Serves(w, busy, profiles, required, true) && Serves(w, busy, profiles, required, false))
    ensures IsGroup(a[..gpus] + b[..cpus], cpus, gpus, workers, busy, profiles, required)
  {
    hide Serves;
    var group := a[..gpus] + b[..cpus];
    assert forall i :: 0 <= i < gpus ==> group[i] == a[i] && a[i] in a;
    assert forall i :: gpus <= i < |group| ==> group[i] == b[i - gpus] && b[i - gpus] in b;
  }

  // ---- shared state ------------------------------------------------------------------------

  lemma StartedIsUpdated(requests: map<string, Request>, b: string, active: seq<Item>, raw: map<string, nat>)
    requires raw.Keys == RequestsOf(active) && forall r :: r in raw ==> raw[r] == RawOf(active, r)
    ensures Updated(requests, raw.Keys, Starting(b, raw)) == StartAll(requests, b, active)
  {
    hide RawOf, RequestsOf, StartRequest;
  }

  lemma StartUnderflows(s: State, b: string, cancelled: set<string>, raw: map<string, nat>)
    requires Enabled(s, Start(b, cancelled)) && raw.Keys == RequestsOf(Active(s.batches[b].items, cancelled))
    requires forall r :: r in raw ==> raw[r] == RawOf(Active(s.batches[b].items, cancelled), r)
    ensures Underflows(s, Start(b, cancelled)) <==> exists r :: r in raw && r in s.requests && s.requests[r].waiting < raw[r]
  {
    hide RawOf, RequestsOf, Active;
  }

  /** The requests with some of them updated by a function. */
  ghost function Updated(requests: map<string, Request>, some: set<string>, f: (string, Request) -> Request):
    map<string, Request>
  {
    map r | r in requests :: if r in some then f(r, requests[r]) else requests[r]
  }

  lemma UpdatedNext(requests: map<string, Request>, some: set<string>, f: (string, Request) -> Request, r: string)
    requires r !in some
    ensures r !in requests ==> Updated(requests, some + {r}, f) == Updated(requests, some, f)
    ensures r in requests ==> Updated(requests, some, f)[r] == requests[r]
    ensures r in requests ==> Updated(requests, some + {r}, f) == Updated(requests, some, f)[r := f(r, requests[r])]
    ensures Updated(requests, {}, f) == requests
  {
  }

  ghost function Starting(b: string, raw: map<string, nat>): (string, Request) -> Request {
    (r, q) => if r in raw then StartRequest(q, b, raw[r]) else q
  }

  ghost function Recording(b: string, shares: map<string, nat>): (string, Request) -> Request {
    (r, q) => if r in shares then RecordRequest(q, b, shares[r]) else q
  }

  ghost function Finishing(b: string): (string, Request) -> Request {
    (r, q) => FinishRequest(q, b)
  }

  ghost function Answering(): (string, Request) -> Request {
    (r, q: Request) => q.(responses := q.responses + if q.pending == {} then 1 else 0)
  }

  ghost function Discarded(requests: map<string, Request>, items: seq<Item>): map<string, Request> {
    map r | r in requests :: requests[r].(pending := requests[r].pending - IdsFor(items, r))
  }

  /** `request_raw_nodes`. */
  method RawNodes(active: seq<Item>) returns (raw: map<string, nat>)
    ensures raw.Keys == RequestsOf(active) && forall r :: r in raw ==> raw[r] == RawOf(active, r)
  {
    raw := map[];
    for i := 0 to |active|
      invariant raw.Keys == RequestsOf(active[..i])
      invariant forall r :: r in raw ==> raw[r] == RawOf(active[..i], r)
      invariant forall r :: r !in raw ==> RawOf(active[..i], r) == 0
    {
      RequestsOfNext(active, i);
      assert active[..i + 1][..i] == active[..i];
      var x := active[i];
      raw := raw[x.request := (if x.request in raw then raw[x.request] else 0) + x.nodes];
    }
    assert active[..|active|] == active;
  }

  lemma RequestsOfNext(items: seq<Item>, i: nat)
    requires i < |items|
    ensures RequestsOf(items[..i + 1]) == RequestsOf(items[..i]) + {items[i].request}
  {
    forall r | r in RequestsOf(items[..i]) ensures r in RequestsOf(items[..i + 1]) {
      var j :| 0 <= j < i && items[..i][j].request == r;
      assert items[..i + 1][j].request == r;
    }
    forall r | r in RequestsOf(items[..i + 1]) ensures r in RequestsOf(items[..i]) + {items[i].request} {
      var j :| 0 <= j < i + 1 && items[..i + 1][j].request == r;
      assert j < i ==> items[..i][j].request == r;
    }
    assert items[..i + 1][i] == items[i];
  }

  method RequestIds(items: seq<Item>) returns (r: set<string>)
    ensures r == RequestsOf(items)
  {
    r := set i | 0 <= i < |items| :: items[i].request;
  }

  predicate Unrecorded(q: Request, b: string) {
    b in q.counts && q.counts[b].optimized == 0
  }

  predicate Covered(q: Request, b: string) {
    b in q.counts ==> q.running >= q.counts[b].raw && q.runningOptimized >= q.counts[b].optimized
  }

  class Server {
    var requests: map<string, Request>
    var queue: set<Item>
    var reservation: Option<Reservation>
    var batches: map<string, Batch>
    var busy: set<string>
    ghost var taken: set<string>
    ghost var lost: set<string>
    ghost var leaked: set<string>

    constructor ()
      ensures Value() == EMPTY
    {
      requests, queue, reservation, batches, busy := map[], {}, None, map[], {};
      taken, lost, leaked := {}, {}, {};
    }

    ghost function Value(): State
      reads this
    {
      State(requests, queue, reservation, batches, busy, taken, lost, leaked)
    }

    /** The end of a wait for workers: the group is claimed unless one of it was claimed meanwhile. */
    method ClaimWorkers(group: seq<string>) returns (claimed: bool)
      requires reservation.Some? && reservation.value.workers == None
      modifies this
      ensures claimed <==> Enabled(old(Value()), Claim(Elems(group)))
      ensures claimed ==> Value() == Apply(old(Value()), Claim(Elems(group)))
      ensures !claimed ==> Value() == old(Value())
    {
      claimed := forall w :: w in group ==> w !in busy;
      if claimed {
        busy := busy + Elems(group);
        reservation := Some(Reservation(reservation.value.items, Some(Elems(group))));
      }
    }

    /** The loop that moves a starting batch's nodes from waiting to running. */
    method CountStarted(b: string, raw: map<string, nat>) returns (underflow: bool)
      modifies this`requests
      ensures underflow <==> exists r :: r in raw && r in old(requests) && old(requests)[r].waiting < raw[r]
      ensures !underflow ==> requests == Updated(old(requests), raw.Keys, Starting(b, raw))
    {
      ghost var before := requests;
      var todo := raw.Keys;
      UpdatedNext(before, {}, Starting(b, raw), "");
      hide Updated;
      while todo != {}
        invariant todo <= raw.Keys && requests == Updated(before, raw.Keys - todo, Starting(b, raw))
        invariant forall r :: r in raw.Keys - todo && r in before ==> before[r].waiting >= raw[r]
      {
        var r :| r in todo;
        ghost var past := raw.Keys - todo;
        UpdatedNext(before, past, Starting(b, raw), r);
        SameKeys(before, past, Starting(b, raw));
        todo := todo - {r};
        assert raw.Keys - todo == past + {r};
        if r in requests {
          var q := requests[r];
          if q.waiting < raw[r] {
            return true;
          }
          q := q.(waiting := q.waiting - raw[r], running := q.running + raw[r]);
          requests := requests[r := q.(counts := q.counts[b := Counts(raw[r], 0)])];
        }
      }
      underflow := false;
    }

    /** The section after the first check for cancelled requests. */
    method StartBatch(b: string, cancelled: set<string>) returns (underflow: bool)
      requires Enabled(Value(), Start(b, cancelled))
      modifies this
      ensures underflow <==> Underflows(old(Value()), Start(b, cancelled))
      ensures !underflow ==> Value() == Apply(old(Value()), Start(b, cancelled))
    {
      hide IdSet, RawOf, RequestsOf, DistinctIds, Active, Updated, StartAll, StartRequest;
      var active := Active(batches[b].items, cancelled);
      var raw := RawNodes(active);
      underflow := CountStarted(b, raw);
      StartUnderflows(old(Value()), b, cancelled, raw);
      if !underflow {
        StartedIsUpdated(old(requests), b, active, raw);
        batches := batches[b := batches[b].(phase := Started, active := active)];
        taken := taken + IdSet(active);
      }
    }

    method CountShares(b: string, shares: map<string, nat>) returns (failed: bool)
      modifies this`requests
      ensures failed <==> exists r :: r in shares && r in old(requests) && !Unrecorded(old(requests)[r], b)
      ensures !failed ==> requests == Updated(old(requests), shares.Keys, Recording(b, shares))
    {
      ghost var before := requests;
      var todo := shares.Keys;
      UpdatedNext(before, {}, Recording(b, shares), "");
      hide Updated;
      while todo != {}
        invariant todo <= shares.Keys && requests == Updated(before, shares.Keys - todo, Recording(b, shares))
        invariant forall r :: r in shares.Keys - todo && r in before ==> Unrecorded(before[r], b)
      {
        var r :| r in todo;
        ghost var past := shares.Keys - todo;
        UpdatedNext(before, past, Recording(b, shares), r);
        SameKeys(before, past, Recording(b, shares));
        todo := todo - {r};
        assert shares.Keys - todo == past + {r};
        if r in requests {
          var q := requests[r];
          if b !in q.counts || q.counts[b].optimized != 0 {
            return true;
          }
          q := q.(runningOptimized := q.runningOptimized + shares[r]);
          requests := requests[r := q.(counts := q.counts[b := Counts(q.counts[b].raw, shares[r])])];
        }
      }
      failed := false;
    }

    /** The apportionment of the optimized nodes, `order` being the requests of the batch in order. */
    method RecordShares(b: string, total: nat, order: seq<string>) returns (failed: bool, shares: map<string, nat>)
      requires InPhase(Value(), b, Started) && !batches[b].recorded
      requires Distinct(order) && Elems(order) == RequestsOf(batches[b].active)
      modifies this
      ensures Enabled(old(Value()), Record(b, shares))
      ensures failed <==> Underflows(old(Value()), Record(b, shares))
      ensures !failed ==> Value() == Apply(old(Value()), Record(b, shares))
      ensures AreApportioned(total, order, old(batches[b].active), shares)
    {
      var raw := RawNodes(batches[b].active);
      hide RawOf, RequestsOf, Distinct;
      shares := ShareOut(total, order, raw, batches[b].active);
      assert shares.Keys == Elems(order);
      hide AreApportioned;
      failed := CountShares(b, shares);
      if !failed {
        assert requests == RecordAll(old(requests), b, shares);
        batches := batches[b := batches[b].(recorded := true)];
      }
    }

    /** Each workflow is discarded from its request. */
    method DiscardAll(items: seq<Item>)
      modifies this`requests
      ensures requests == Discarded(old(requests), items)
    {
      ghost var before := requests;
      assert items[..0] == [];
      DiscardedNone(before);
      for i := 0 to |items|
        invariant requests == Discarded(before, items[..i])
      {
        var x := items[i];
        DiscardedNext(before, items, i);
        hide Discarded;
        if x.request in requests {
          var q := requests[x.request];
          requests := requests[x.request := q.(pending := q.pending - {x.id})];
        }
      }
      assert items[..|items|] == items;
    }

    /** Each request of the batch that waits for nothing more is answered. */
    method AnswerAll(affected: set<string>)
      modifies this`requests
      ensures requests == Updated(old(requests), affected, Answering())
    {
      ghost var before := requests;
      var todo := affected;
      UpdatedNext(before, {}, Answering(), "");
      hide Updated;
      while todo != {}
        invariant todo <= affected && requests == Updated(before, affected - todo, Answering())
      {
        var r :| r in todo;
        ghost var past := affected - todo;
        UpdatedNext(before, past, Answering(), r);
        SameKeys(before, past, Answering());
        todo := todo - {r};
        assert affected - todo == past + {r};
        if r in requests {
          var q := requests[r];
          requests := requests[r := if q.pending == {} then q.(responses := q.responses + 1) else q];
        }
      }
    }

    /** `_handle_batch_results`, what it does to pending workflows and responses. */
    method HandleResults(b: string)
      requires Enabled(Value(), Handle(b))
      modifies this
      ensures Value() == Apply(old(Value()), Handle(b))
    {
      var items := batches[b].items;
      DiscardAll(items);
      var affected := RequestIds(items);
      AnswerAll(affected);
      HandledAll(old(requests), items);
      batches := batches[b := batches[b].(phase := Handled)];
    }

    method CountFinished(b: string, counted: set<string>) returns (underflow: bool)
      modifies this`requests
      ensures underflow <==> exists r :: r in counted && r in old(requests) && !Covered(old(requests)[r], b)
      ensures !underflow ==> requests == Updated(old(requests), counted, Finishing(b))
    {
      ghost var before := requests;
      var todo := counted;
      UpdatedNext(before, {}, Finishing(b), "");
      hide Updated;
      while todo != {}
        invariant todo <= counted && requests == Updated(before, counted - todo, Finishing(b))
        invariant forall r :: r in counted - todo && r in before ==> Covered(before[r], b)
      {
        var r :| r in todo;
        ghost var past := counted - todo;
        UpdatedNext(before, past, Finishing(b), r);
        SameKeys(before, past, Finishing(b));
        todo := todo - {r};
        assert counted - todo == past + {r};
        if r in requests && b in requests[r].counts {
          var q := requests[r];
          var c := q.counts[b];
          if q.running < c.raw || q.runningOptimized < c.optimized {
            return true;
          }
          q := q.(running := q.running - c.raw, finished := q.finished + c.raw, counts := q.counts - {b});
          q := q.(runningOptimized := q.runningOptimized - c.optimized, finishedOptimized := q.finishedOptimized + c.optimized);
          requests := requests[r := q];
        }
      }
      underflow := false;
    }

    /** The `finally` section. */
    method FinishBatch(b: string) returns (underflow: bool)
      requires Enabled(Value(), Finish(b))
      modifies this
      ensures underflow <==> Underflows(old(Value()), Finish(b))
      ensures !underflow ==> Value() == Apply(old(Value()), Finish(b))
    {
      var counted := RequestIds(batches[b].active);
      hide RequestsOf;
      underflow := CountFinished(b, counted);
      if !underflow {
        assert requests == FinishAll(old(requests), b, batches[b].active);
        busy := busy - batches[b].workers;
        batches := batches - {b};
      }
    }
  }

  lemma SameKeys(requests: map<string, Request>, some: set<string>, f: (string, Request) -> Request)
    ensures Updated(requests, some, f).Keys == requests.Keys
  {
  }

  lemma DiscardedNext(requests: map<string, Request>, items: seq<Item>, i: nat)
    requires i < |items|
    ensures Discarded(requests, items[..i]).Keys == requests.Keys
    ensures var x, some := items[i], Discarded(requests, items[..i]);
      Discarded(requests, items[..i + 1]) ==
      if x.request in requests then some[x.request := some[x.request].(pending := some[x.request].pending - {x.id})] else some
  {
    var x, before, after := items[i], Discarded(requests, items[..i]), Discarded(requests, items[..i + 1]);
    forall r | r in requests
      ensures after[r].pending == if x.request == r then before[r].pending - {x.id} else before[r].pending
    {
      IdsForMore(items, i, r);
      hide IdsFor;
    }
  }

  lemma DiscardedNone(requests: map<string, Request>)
    ensures Discarded(requests, []) == requests
  {
    forall r | r in requests ensures IdsFor([], r) == {} && requests[r].pending - {} == requests[r].pending {
    }
  }

  lemma IdsForMore(items: seq<Item>, i: nat, r: string)
    requires i < |items|
    ensures IdsFor(items[..i + 1], r) == IdsFor(items[..i], r) + if items[i].request == r then {items[i].id} else {}
  {
    forall id | id in IdsFor(items[..i], r) ensures id in IdsFor(items[..i + 1], r) {
      var j :| 0 <= j < i && items[..i][j].request == r && items[..i][j].id == id;
      assert items[..i + 1][j].request == r && items[..i + 1][j].id == id;
    }
    forall id | id in IdsFor(items[..i + 1], r) && !(items[i].request == r && items[i].id == id)
      ensures id in IdsFor(items[..i], r)
    {
      var j :| 0 <= j < i + 1 && items[..i + 1][j].request == r && items[..i + 1][j].id == id;
      assert items[..i][j].request == r && items[..i][j].id == id;
    }
    assert items[..i + 1][i] == items[i];
  }

  lemma HandledAll(requests: map<string, Request>, items: seq<Item>)
    ensures Updated(Discarded(requests, items), RequestsOf(items), Answering()) == HandleAll(requests, items)
  {
    var now := Updated(Discarded(requests, items), RequestsOf(items), Answering());
    forall r | r in requests ensures now[r] == HandleAll(requests, items)[r] {
      assert r !in RequestsOf(items) ==> IdsFor(items, r) == {} by {
        assert forall i :: 0 <= i < |items| && items[i].request == r ==> items[i].request in RequestsOf(items);
      }
    }
  }

  /** The shares of `Apportionment.Apportion`, by request. */
  ghost predicate AreApportioned(total: nat, order: seq<string>, active: seq<Item>, shares: map<string, nat>) {
    shares.Keys == Elems(order) &&
    var raws := seq(|order|, i requires 0 <= i < |order| => RawOf(active, order[i]));
    var values := seq(|order|, i requires 0 <= i < |order| => if order[i] in shares then shares[order[i]] else 0);
    (Sum(values) == total <==> Sum(raws) > 0 || total <= |order|) && Sum(values) <= total &&
    forall i :: 0 <= i < |order| ==>
      Floor(total, raws[i], Sum(raws)) <= values[i] <= Floor(total, raws[i], Sum(raws)) + 1
  }

  method ShareOut(total: nat, order: seq<string>, raw: map<string, nat>, ghost active: seq<Item>)
    returns (shares: map<string, nat>)
    requires Distinct(order) && Elems(order) == raw.Keys && forall r :: r in raw ==> raw[r] == RawOf(active, r)
    ensures AreApportioned(total, order, active, shares)
  {
    hide Sum, Floor, RawOf;
    var raws := seq(|order|, i requires 0 <= i < |order| => raw[order[i]]);
    assert raws == seq(|order|, i requires 0 <= i < |order| => RawOf(active, order[i]));
    var values := Apportion(total, raws);
    shares := map[];
    for i := 0 to |order|
      invariant shares.Keys == Elems(order[..i]) && forall j :: 0 <= j < i ==> shares[order[j]] == values[j]
    {
      ElemsSnoc(order, i);
      shares := shares[order[i] := values[i]];
    }
    assert order[..|order|] == order;
    assert values == seq(|order|, i requires 0 <= i < |order| => if order[i] in shares then shares[order[i]] else 0);
  }
}
