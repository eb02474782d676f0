/** Node counters, responses and workers over every run of the batch protocol. */
module SchedulingBooks {
  import opened Collections
  import opened Scheduling
  import opened SchedulingInvariants

  // ---- nodes of a batch --------------------------------------------------------------------

  lemma IdsForNext(items: seq<Item>, n: nat, request: string)
    requires |items| == n + 1
    ensures IdsFor(items, request) == IdsFor(items[..n], request) + if items[n].request == request then {items[n].id} else {}
    ensures DistinctIds(items) ==> items[n].id !in IdsFor(items[..n], request)
  {
    forall id | id in IdsFor(items[..n], request) ensures id in IdsFor(items, request) {
      var i :| 0 <= i < n && items[..n][i].request == request && items[..n][i].id == id;
      assert items[i].id == id;
    }
    forall id | id in IdsFor(items, request) && !(items[n].request == request && items[n].id == id)
      ensures id in IdsFor(items[..n], request)
    {
      var i :| 0 <= i < |items| && items[i].request == request && items[i].id == id;
      assert items[..n][i].id == id;
    }
  }

  /** The nodes a batch runs for a request are the weight of the request's workflows in it. */
  lemma {:induction false} RawIsWeight(items: seq<Item>, request: string, plan: map<string, nat>)
    requires DistinctIds(items)
    requires forall i :: 0 <= i < |items| && items[i].request == request ==>
      items[i].id in plan && plan[items[i].id] == items[i].nodes
    ensures IdsFor(items, request) <= plan.Keys && RawOf(items, request) == Weight(IdsFor(items, request), plan)
  {
    if items == [] {
      assert IdsFor(items, request) == {};
    } else {
      var n := |items| - 1;
      RawIsWeight(items[..n], request, plan);
      IdsForNext(items, n, request);
      hide IdsFor, DistinctIds;
      if items[n].request == request {
        WeightAdd(IdsFor(items[..n], request), plan, items[n].id);
      } else {
        assert IdsFor(items, request) == IdsFor(items[..n], request);
      }
    }
  }

  lemma WeightPut(w: map<string, nat>, b: string, v: nat)
    requires b in w ==> w[b] == 0
    ensures Weight(w[b := v].Keys, w[b := v]) == Weight(w.Keys, w) + v
  {
    var rest := w.Keys - {b};
    WeightRemove(w[b := v].Keys, w[b := v], b);
    assert w[b := v].Keys - {b} == rest;
    WeightSame(rest, w, w[b := v]);
    if b in w {
      WeightRemove(w.Keys, w, b);
    } else {
      assert rest == w.Keys;
    }
  }

  lemma WeightDrop(w: map<string, nat>, b: string)
    requires b in w
    ensures Weight((w - {b}).Keys, w - {b}) == Weight(w.Keys, w) - w[b]
  {
    WeightRemove(w.Keys, w, b);
    assert (w - {b}).Keys == w.Keys - {b};
    WeightSame(w.Keys - {b}, w, w - {b});
  }

  // ---- one request at a time ---------------------------------------------------------------

  ghost predicate BookOf(q: Request, r: string, batches: map<string, Batch>, taken: set<string>) {
    Balanced(q, Untaken(q, taken)) && CountsLive(q, r, batches) && Answered(q)
  }

  lemma StartBalanced(q: Request, b: string, raw: nat, untaken: set<string>, ids: set<string>)
    requires Balanced(q, untaken) && b !in q.counts && ids <= untaken && raw == Weight(ids, q.plan)
    ensures q.waiting >= raw && Balanced(StartRequest(q, b, raw), untaken - ids)
  {
    hide Weight;
    var p := StartRequest(q, b, raw);
    assert untaken - ids + ids == untaken;
    WeightUnion(untaken - ids, ids, q.plan);
    WeightPut(RawCounts(q), b, raw);
    WeightPut(OptimizedCounts(q), b, 0);
    assert RawCounts(p) == RawCounts(q)[b := raw] && OptimizedCounts(p) == OptimizedCounts(q)[b := 0];
  }

  lemma RecordBalanced(q: Request, b: string, share: nat, untaken: set<string>)
    requires Balanced(q, untaken) && b in q.counts && q.counts[b].optimized == 0
    ensures Balanced(RecordRequest(q, b, share), untaken)
  {
    hide Weight;
    var p := RecordRequest(q, b, share);
    WeightPut(OptimizedCounts(q), b, share);
    assert RawCounts(p) == RawCounts(q) && OptimizedCounts(p) == OptimizedCounts(q)[b := share];
  }

  lemma FinishBalanced(q: Request, b: string, untaken: set<string>)
    requires Balanced(q, untaken) && b in q.counts
    ensures q.running >= q.counts[b].raw && q.runningOptimized >= q.counts[b].optimized
    ensures Balanced(FinishRequest(q, b), untaken)
  {
    hide Weight;
    var p := FinishRequest(q, b);
    WeightDrop(RawCounts(q), b);
    WeightDrop(OptimizedCounts(q), b);
    assert RawCounts(p) == RawCounts(q) - {b} && OptimizedCounts(p) == OptimizedCounts(q) - {b};
  }

  /** The workflows a starting batch takes from a request. */
  lemma Taking(s: State, b: string, active: seq<Item>, r: string)
    requires Places(s) && InPhase(s, b, Spawned) && r in s.requests
    requires DistinctIds(active) && forall x :: x in active ==> x in s.batches[b].items
    ensures var q := s.requests[r];
      IdsFor(active, r) <= Untaken(q, s.taken) && RawOf(active, r) == Weight(IdsFor(active, r), q.plan) &&
      Untaken(q, s.taken + IdSet(active)) == Untaken(q, s.taken) - IdsFor(active, r)
  {
    var q := s.requests[r];
    assert BatchSound(s, s.batches[b]);
    SubIds(s.batches[b].items, active);
    forall i | 0 <= i < |active| ensures Known(s.requests, active[i]) {
      var j :| 0 <= j < |s.batches[b].items| && s.batches[b].items[j] == active[i];
    }
    RawIsWeight(active, r, q.plan);
    forall id | id in IdsFor(active, r) ensures id in IdSet(active) {
      var i :| 0 <= i < |active| && active[i].request == r && active[i].id == id;
    }
    forall id | id in IdSet(active) && id in q.plan ensures id in IdsFor(active, r) {
      var i :| 0 <= i < |active| && active[i].id == id;
      assert active[i].request == r;
    }
  }

  lemma NobodysIds(items: seq<Item>, r: string)
    requires r !in RequestsOf(items)
    ensures IdsFor(items, r) == {}
  {
    assert forall i :: 0 <= i < |items| ==> items[i].request != r;
  }

  lemma SpawnedIdle(s: State, b: string, r: string)
    requires Places(s) && InPhase(s, b, Spawned)
    ensures b !in Live(s.batches, r) && s.batches[b].active == [] && !s.batches[b].recorded
  {
    assert BatchSound(s, s.batches[b]);
  }

  /** The live batches after batch `b` changed. */
  lemma LiveAfter(batches: map<string, Batch>, b: string, now: Batch, r: string)
    ensures Live(batches[b := now], r) ==
            if r in RequestsOf(now.active) then Live(batches, r) + {b} else Live(batches, r) - {b}
    ensures Live(batches - {b}, r) == Live(batches, r) - {b}
  {
  }

  lemma StartBook(s: State, b: string, active: seq<Item>, r: string, now: Batch)
    requires Places(s) && InPhase(s, b, Spawned) && r in s.requests && BookOf(s.requests[r], r, s.batches, s.taken)
    requires DistinctIds(active) && (forall x :: x in active ==> x in s.batches[b].items) && now.active == active
    ensures r in RequestsOf(active) ==> s.requests[r].waiting >= RawOf(active, r)
    ensures r in RequestsOf(active) ==>
      BookOf(StartRequest(s.requests[r], b, RawOf(active, r)), r, s.batches[b := now], s.taken + IdSet(active))
    ensures r !in RequestsOf(active) ==> BookOf(s.requests[r], r, s.batches[b := now], s.taken + IdSet(active))
  {
    hide Places, RawOf, IdSet, DistinctIds, Weight, RequestsOf, Balanced, Live, IdsFor, RawCounts, OptimizedCounts;
    var q := s.requests[r];
    Taking(s, b, active, r);
    SpawnedIdle(s, b, r);
    LiveAfter(s.batches, b, now, r);
    if r in RequestsOf(active) {
      StartBalanced(q, b, RawOf(active, r), Untaken(q, s.taken), IdsFor(active, r));
    } else {
      NobodysIds(active, r);
      assert Untaken(q, s.taken + IdSet(active)) == Untaken(q, s.taken);
      assert Live(s.batches[b := now], r) == Live(s.batches, r);
    }
  }

  lemma RecordBook(s: State, b: string, share: nat, r: string, now: Batch)
    requires InPhase(s, b, Started) && !s.batches[b].recorded
    requires r in s.requests && BookOf(s.requests[r], r, s.batches, s.taken)
    requires now.active == s.batches[b].active && now.recorded
    ensures r in RequestsOf(now.active) ==>
      b in s.requests[r].counts && s.requests[r].counts[b].optimized == 0 &&
      BookOf(RecordRequest(s.requests[r], b, share), r, s.batches[b := now], s.taken)
    ensures r !in RequestsOf(now.active) ==> BookOf(s.requests[r], r, s.batches[b := now], s.taken)
  {
    var q := s.requests[r];
    RecordCounts(q, r, s.batches, b, share, now);
    LiveMember(s.batches, b, r);
    hide RawOf, Weight, RequestsOf, Balanced, Live, RawCounts, OptimizedCounts;
    if r in RequestsOf(now.active) {
      RecordBalanced(q, b, share, Untaken(q, s.taken));
      hide CountsLive;
      assert Untaken(RecordRequest(q, b, share), s.taken) == Untaken(q, s.taken);
    }
  }

  lemma RecordCounts(q: Request, r: string, batches: map<string, Batch>, b: string, share: nat, now: Batch)
    requires b in batches && CountsLive(q, r, batches) && !batches[b].recorded
    requires now.active == batches[b].active && now.recorded
    ensures r in RequestsOf(now.active) ==> b in q.counts && q.counts[b].optimized == 0
    ensures r in RequestsOf(now.active) ==> CountsLive(RecordRequest(q, b, share), r, batches[b := now])
    ensures r !in RequestsOf(now.active) ==> CountsLive(q, r, batches[b := now])
  {
    LiveMember(batches, b, r);
    LiveAfter(batches, b, now, r);
    hide RawOf, RequestsOf, Live;
    assert Live(batches[b := now], r) == Live(batches, r);
  }

  lemma LiveMember(batches: map<string, Batch>, b: string, r: string)
    requires b in batches
    ensures b in Live(batches, r) <==> r in RequestsOf(batches[b].active)
  {
  }

  lemma HandleBook(s: State, b: string, r: string, now: Batch)
    requires Places(s) && InPhase(s, b, Started) && r in s.requests && BookOf(s.requests[r], r, s.batches, s.taken)
    requires now == s.batches[b].(phase := Handled)
    ensures r in RequestsOf(s.batches[b].items) ==>
      s.requests[r].pending != {} && s.requests[r].responses == 0 &&
      BookOf(HandleRequest(s.requests[r], IdsFor(s.batches[b].items, r)), r, s.batches[b := now], s.taken)
    ensures r !in RequestsOf(s.batches[b].items) ==> BookOf(s.requests[r], r, s.batches[b := now], s.taken)
  {
    MovedOnBook(s.requests[r], r, s.batches, b, now, s.taken);
    hide RawOf, Weight, Balanced, Live, CountsLive, IdsFor, DistinctIds;
    if r in RequestsOf(s.batches[b].items) {
      var i :| 0 <= i < |s.batches[b].items| && s.batches[b].items[i].request == r;
      assert Awaited(s.requests, s.batches[b].items[i]) by { assert BatchSound(s, s.batches[b]); }
      hide Places;
      HandledBook(s.requests[r], r, s.batches[b := now], IdsFor(s.batches[b].items, r), s.taken);
    }
  }

  lemma HandledBook(q: Request, r: string, batches: map<string, Batch>, ids: set<string>, taken: set<string>)
    requires BookOf(q, r, batches, taken) && q.pending != {}
    ensures BookOf(HandleRequest(q, ids), r, batches, taken)
  {
    var p := HandleRequest(q, ids);
    assert RawCounts(p) == RawCounts(q) && OptimizedCounts(p) == OptimizedCounts(q);
    hide Weight, Live, RawOf;
  }

  /** A batch that counts the same workflows as before changes no book. */
  lemma MovedOnBook(q: Request, r: string, batches: map<string, Batch>, b: string, now: Batch, taken: set<string>)
    requires BookOf(q, r, batches, taken)
    requires b in batches ==> now.active == batches[b].active && now.recorded == batches[b].recorded
    requires b !in batches ==> now.active == []
    ensures BookOf(q, r, batches[b := now], taken)
  {
    hide Balanced, Weight, RawOf;
    MovedOnLive(batches, b, now, r);
    hide RequestsOf, Live;
  }

  lemma MovedOnLive(batches: map<string, Batch>, b: string, now: Batch, r: string)
    requires b in batches ==> now.active == batches[b].active
    requires b !in batches ==> now.active == []
    ensures Live(batches[b := now], r) == Live(batches, r)
  {
    LiveAfter(batches, b, now, r);
    assert b !in batches ==> b !in Live(batches, r) && r !in RequestsOf(now.active);
    assert b in batches ==> (b in Live(batches, r) <==> r in RequestsOf(now.active));
  }

  /** A batch that counts nothing can go without any book changing. */
  lemma GoneBook(q: Request, r: string, batches: map<string, Batch>, b: string, taken: set<string>)
    requires BookOf(q, r, batches, taken) && b !in Live(batches, r)
    ensures BookOf(q, r, batches - {b}, taken)
  {
    hide RawOf, Weight, RequestsOf, Balanced;
    assert Live(batches - {b}, r) == Live(batches, r);
  }

  lemma FinishBook(s: State, b: string, r: string)
    requires b in s.batches && r in s.requests && BookOf(s.requests[r], r, s.batches, s.taken)
    ensures r in RequestsOf(s.batches[b].active) ==>
      b in s.requests[r].counts && s.requests[r].running >= s.requests[r].counts[b].raw &&
      s.requests[r].runningOptimized >= s.requests[r].counts[b].optimized &&
      BookOf(FinishRequest(s.requests[r], b), r, s.batches - {b}, s.taken)
    ensures r !in RequestsOf(s.batches[b].active) ==> BookOf(s.requests[r], r, s.batches - {b}, s.taken)
  {
    LiveMember(s.batches, b, r);
    hide RawOf, Weight, RequestsOf, Balanced, Live, RawCounts, OptimizedCounts;
    LiveAfter(s.batches, b, s.batches[b], r);
    if r in RequestsOf(s.batches[b].active) {
      FinishBalanced(s.requests[r], b, Untaken(s.requests[r], s.taken));
    } else {
      GoneBook(s.requests[r], r, s.batches, b, s.taken);
    }
  }
}
