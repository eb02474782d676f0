/** Every step of the batch protocol keeps its invariants. */
module SchedulingInvariants {
  import opened Collections
  import opened Scheduling

  // ---- workers -----------------------------------------------------------------------------

  lemma OwnedKept(s: State, step: Step)
    requires Owned(s) && Enabled(s, step)
    ensures Owned(Apply(s, step))
  {
    var t := Apply(s, step);
    hide Owned, StartAll, RecordAll, HandleAll, FinishAll, IdSet, DistinctIds, IsNew, Active, NewRequest, RequestsOf;
    match step
    case Finish(b) => RemovalKeepsOwned(s, b, t);
    case Vanish(b) => RemovalKeepsOwned(s, b, t);
    case Commit(b) => CommitKeepsOwned(s, b);
    case Start(b, _) => MoveKeepsOwned(s, t, b);
    case Record(b, _) => MoveKeepsOwned(s, t, b);
    case Handle(b) => MoveKeepsOwned(s, t, b);
    case Stop(b) => MoveKeepsOwned(s, t, b);
    case _ => SchedulerKeepsOwned(s, t);
  }

  lemma MoveKeepsOwned(s: State, t: State, b: string)
    requires Owned(s) && b in s.batches && t.batches.Keys == s.batches.Keys
    requires t.busy == s.busy && t.leaked == s.leaked && t.reservation == s.reservation
    requires forall c :: c in s.batches ==> t.batches[c].workers == s.batches[c].workers
    ensures Owned(t)
  {
  }

  /** The scheduler only moves workers between the open claim and the leaked ones, or claims idle ones. */
  lemma SchedulerKeepsOwned(s: State, t: State)
    requires Owned(s) && t.batches == s.batches && s.busy <= t.busy && Claimed(t) !! t.leaked
    requires t.busy == s.busy + Claimed(t) && Claimed(t) + t.leaked == Claimed(s) + s.leaked + (t.busy - s.busy)
    ensures Owned(t)
  {
  }

  lemma RemovalKeepsOwned(s: State, b: string, t: State)
    requires Owned(s) && b in s.batches && t.batches == s.batches - {b} && t.reservation == s.reservation
    requires (t.busy == s.busy - s.batches[b].workers && t.leaked == s.leaked) ||
             (t.busy == s.busy && t.leaked == s.leaked + s.batches[b].workers)
    ensures Owned(t)
  {
    forall w | w in t.busy
      ensures w in Claimed(t) || w in t.leaked || exists c :: c in t.batches && w in t.batches[c].workers
    {
      if w !in Claimed(s) && w !in s.leaked {
        var c :| c in s.batches && w in s.batches[c].workers;
        assert c != b ==> c in t.batches && w in t.batches[c].workers;
      }
    }
  }

  lemma CommitKeepsOwned(s: State, b: string)
    requires Owned(s) && Enabled(s, Commit(b))
    ensures Owned(Apply(s, Commit(b)))
  {
    var t := Apply(s, Commit(b));
    forall w | w in t.busy
      ensures w in Claimed(t) || w in t.leaked || exists c :: c in t.batches && w in t.batches[c].workers
    {
      if w in Claimed(s) {
        assert b in t.batches && w in t.batches[b].workers;
      } else if w !in s.leaked {
        var c :| c in s.batches && w in s.batches[c].workers;
        assert c in t.batches && w in t.batches[c].workers;
      }
    }
  }

  // ---- places ------------------------------------------------------------------------------

  /** The requests keep their workflows and go on waiting for all but the given ones. */
  ghost predicate Continues(a: map<string, Request>, b: map<string, Request>, answered: set<string>) {
    forall r :: r in a ==> r in b && b[r].plan == a[r].plan && a[r].pending - answered <= b[r].pending
  }

  lemma KnownContinues(a: map<string, Request>, b: map<string, Request>, answered: set<string>, x: Item)
    requires Continues(a, b, answered)
    ensures Known(a, x) ==> Known(b, x)
    ensures Awaited(a, x) && x.id !in answered ==> Awaited(b, x)
  {
  }

  lemma IdIn(items: seq<Item>, i: nat)
    requires i < |items|
    ensures items[i].id in IdSet(items)
  {
  }

  lemma SubIds(items: seq<Item>, active: seq<Item>)
    requires forall i :: 0 <= i < |active| ==> active[i] in items
    ensures IdSet(active) <= IdSet(items)
  {
    forall id | id in IdSet(active) ensures id in IdSet(items) {
      var i :| 0 <= i < |active| && active[i].id == id;
      var j :| 0 <= j < |items| && items[j] == active[i];
    }
  }

  lemma {:induction false} ActiveDistinct(items: seq<Item>, cancelled: set<string>)
    requires DistinctIds(items)
    ensures DistinctIds(Active(items, cancelled))
  {
    if items != [] {
      var n := |items| - 1;
      ActiveDistinct(items[..n], cancelled);
      assert forall x :: x in Active(items[..n], cancelled) ==> x.id != items[n].id;
    }
  }

  lemma ElemIds(items: seq<Item>, x: Item)
    requires x in items
    ensures x.id in IdSet(items)
  {
    var i :| 0 <= i < |items| && items[i] == x;
  }

  /** Steps that leave the queue, the reservation and the ids of the batches alone, and move one batch on. */
  lemma MovedBatchSound(s: State, t: State, b: string)
    requires Places(s) && b in s.batches && t.queue == s.queue && t.reservation == s.reservation
    requires t.batches.Keys == s.batches.Keys && t.batches[b].items == s.batches[b].items
    requires forall c :: c in s.batches && c != b ==> t.batches[c] == s.batches[c]
    requires Continues(s.requests, t.requests, IdSet(s.batches[b].items)) && PlansApart(t.requests)
    requires s.taken <= t.taken <= s.taken + IdSet(s.batches[b].items)
    requires BatchSound(t, t.batches[b])
    ensures Places(t)
  {
    var ids := IdSet(s.batches[b].items);
    forall x | x in t.queue ensures Known(t.requests, x) && Awaited(t.requests, x) && x.id !in t.taken {
      assert QueueApart(s, s.batches[b]);
      KnownContinues(s.requests, t.requests, ids, x);
    }
    forall c | c in t.batches ensures BatchSound(t, t.batches[c]) && QueueApart(t, t.batches[c]) {
      assert QueueApart(s, s.batches[c]);
      if c != b {
        OtherBatchSound(s, t, ids, s.batches[c]);
      }
    }
  }

  lemma OtherBatchSound(s: State, t: State, ids: set<string>, c: Batch)
    requires BatchSound(s, c) && Continues(s.requests, t.requests, ids) && IdSet(c.items) !! ids
    requires t.taken <= s.taken + ids
    ensures BatchSound(t, c)
  {
    forall i | 0 <= i < |c.items|
      ensures Known(t.requests, c.items[i])
      ensures Awaited(s.requests, c.items[i]) ==> Awaited(t.requests, c.items[i])
    {
      IdIn(c.items, i);
      KnownContinues(s.requests, t.requests, ids, c.items[i]);
    }
  }

  /** The counters' steps leave plans alone, and only handling ends a wait. */
  lemma StartContinues(requests: map<string, Request>, b: string, active: seq<Item>)
    requires PlansApart(requests)
    ensures Continues(requests, StartAll(requests, b, active), {}) && PlansApart(StartAll(requests, b, active))
  {
    hide RequestsOf, RawOf;
  }

  lemma RecordContinues(requests: map<string, Request>, b: string, shares: map<string, nat>)
    requires PlansApart(requests)
    ensures Continues(requests, RecordAll(requests, b, shares), {}) && PlansApart(RecordAll(requests, b, shares))
  {
  }

  lemma HandleContinues(requests: map<string, Request>, items: seq<Item>)
    requires PlansApart(requests)
    ensures Continues(requests, HandleAll(requests, items), IdSet(items)) && PlansApart(HandleAll(requests, items))
  {
    forall r ensures IdsFor(items, r) <= IdSet(items) {
      forall id | id in IdsFor(items, r) ensures id in IdSet(items) {
        var i :| 0 <= i < |items| && items[i].request == r && items[i].id == id;
      }
    }
    hide RequestsOf, IdSet, IdsFor;
  }

  lemma FinishContinues(requests: map<string, Request>, b: string, active: seq<Item>)
    requires PlansApart(requests)
    ensures Continues(requests, FinishAll(requests, b, active), {}) && PlansApart(FinishAll(requests, b, active))
  {
    hide RequestsOf;
  }

  lemma StartPlaces(s: State, b: string, cancelled: set<string>)
    requires Places(s) && Enabled(s, Start(b, cancelled))
    ensures Places(Apply(s, Start(b, cancelled)))
  {
    var t := Apply(s, Start(b, cancelled));
    var batch := s.batches[b];
    StartContinues(s.requests, b, t.batches[b].active);
    ActiveDistinct(batch.items, cancelled);
    SubIds(batch.items, t.batches[b].active);
    assert BatchSound(s, batch);
    hide StartAll, IdSet, DistinctIds, Places;
    MovedSound(s, t, batch, t.batches[b]);
    MovedBatchSound(s, t, b);
  }

  /** A batch that was waited for moves on with the same workflows. */
  lemma MovedSound(s: State, t: State, b: Batch, c: Batch)
    requires BatchSound(s, b) && Continues(s.requests, t.requests, {}) && (b.phase == Spawned || b.phase == Started)
    requires c.items == b.items && c.phase == Started && DistinctIds(c.active)
    requires forall x :: x in c.active ==> x in b.items
    ensures BatchSound(t, c)
  {
    forall i | 0 <= i < |b.items| ensures Known(t.requests, b.items[i]) && Awaited(t.requests, b.items[i]) {
      KnownContinues(s.requests, t.requests, {}, b.items[i]);
    }
  }

  lemma RecordPlaces(s: State, b: string, shares: map<string, nat>)
    requires Places(s) && Enabled(s, Record(b, shares))
    ensures Places(Apply(s, Record(b, shares)))
  {
    var t := Apply(s, Record(b, shares));
    RecordContinues(s.requests, b, shares);
    assert BatchSound(s, s.batches[b]);
    hide RecordAll, IdSet, DistinctIds, Places;
    MovedSound(s, t, s.batches[b], t.batches[b]);
    MovedBatchSound(s, t, b);
  }

  lemma HandlePlaces(s: State, b: string)
    requires Places(s) && Enabled(s, Handle(b))
    ensures Places(Apply(s, Handle(b)))
  {
    var t := Apply(s, Handle(b));
    HandleContinues(s.requests, s.batches[b].items);
    assert BatchSound(s, s.batches[b]);
    hide HandleAll, IdSet, DistinctIds, Places;
    forall i | 0 <= i < |s.batches[b].items| ensures Known(t.requests, s.batches[b].items[i]) {
      KnownContinues(s.requests, t.requests, IdSet(s.batches[b].items), s.batches[b].items[i]);
    }
    MovedBatchSound(s, t, b);
  }

  lemma StopPlaces(s: State, b: string)
    requires Places(s) && Enabled(s, Stop(b))
    ensures Places(Apply(s, Stop(b)))
  {
    var t := Apply(s, Stop(b));
    assert BatchSound(s, s.batches[b]);
    MovedBatchSound(s, t, b);
  }

  /** A finished or vanished batch leaves the others as they were. */
  lemma RemovedPlaces(s: State, t: State, b: string)
    requires Places(s) && b in s.batches && t.batches == s.batches - {b}
    requires t.queue == s.queue && t.reservation == s.reservation && t.taken == s.taken
    requires Continues(s.requests, t.requests, {}) && PlansApart(t.requests)
    ensures Places(t)
  {
    forall x | x in t.queue ensures Known(t.requests, x) && Awaited(t.requests, x) {
      KnownContinues(s.requests, t.requests, {}, x);
    }
    forall c | c in t.batches ensures BatchSound(t, t.batches[c]) && QueueApart(t, t.batches[c]) {
      assert QueueApart(s, s.batches[c]);
      OtherBatchSound(s, t, {}, s.batches[c]);
    }
  }

  lemma CommitPlaces(s: State, b: string)
    requires Places(s) && Enabled(s, Commit(b))
    ensures Places(Apply(s, Commit(b)))
  {
    var t := Apply(s, Commit(b));
    var items := s.reservation.value.items;
    hide IdSet;
    forall i | 0 <= i < |items| ensures Known(s.requests, items[i]) && Awaited(s.requests, items[i]) {
      assert items[i] in s.queue;
    }
    ReservedApart(s);
    forall x | x in t.queue ensures x.id !in IdSet(items) {
      LeftBehind(s, x);
    }
    forall c | c in s.batches ensures BatchSound(t, t.batches[c]) && QueueApart(t, t.batches[c]) {
      assert BatchSound(s, s.batches[c]) && QueueApart(s, s.batches[c]);
    }
    assert BatchSound(t, t.batches[b]) && QueueApart(t, t.batches[b]);
  }

  /** The reserved workflows are untaken and in no batch. */
  lemma ReservedApart(s: State)
    requires Places(s) && s.reservation.Some?
    ensures IdSet(s.reservation.value.items) !! s.taken
    ensures forall c :: c in s.batches ==> IdSet(s.reservation.value.items) !! IdSet(s.batches[c].items)
    ensures IdSet([]) == {}
  {
    var items := s.reservation.value.items;
    forall id | id in IdSet(items)
      ensures id !in s.taken && forall c :: c in s.batches ==> id !in IdSet(s.batches[c].items)
    {
      var i :| 0 <= i < |items| && items[i].id == id;
      assert items[i] in s.queue;
      forall c | c in s.batches ensures id !in IdSet(s.batches[c].items) {
        assert QueueApart(s, s.batches[c]);
      }
    }
  }

  /** What is not reserved has another id. */
  lemma LeftBehind(s: State, x: Item)
    requires Places(s) && s.reservation.Some? && x in s.queue - Elems(s.reservation.value.items)
    ensures x.id !in IdSet(s.reservation.value.items)
  {
    var items := s.reservation.value.items;
    forall i | 0 <= i < |items| ensures items[i].id != x.id {
      assert items[i] in s.queue && items[i] != x;
      assert Known(s.requests, items[i]) && Known(s.requests, x);
    }
  }

  lemma {:induction false} PlanHolds(items: seq<Item>, i: nat)
    requires DistinctIds(items) && i < |items|
    ensures items[i].id in PlanOf(items) && PlanOf(items)[items[i].id] == items[i].nodes
  {
    if i < |items| - 1 {
      PlanHolds(items[..|items| - 1], i);
    }
  }

  /** A new request brings ids nobody has. */
  lemma SubmitPlaces(s: State, r: string, items: seq<Item>)
    requires Places(s) && Books(s) && TakenKnown(s) && Enabled(s, Submit(r, items))
    ensures Places(Apply(s, Submit(r, items)))
  {
    var t := Apply(s, Submit(r, items));
    SubmitContinues(s, r, items);
    forall x | x in t.queue
      ensures Known(t.requests, x) && Awaited(t.requests, x) && x.id !in t.taken
      ensures forall c :: c in s.batches ==> x.id !in IdSet(s.batches[c].items)
    {
      if x in s.queue {
        KnownContinues(s.requests, t.requests, {}, x);
        forall c | c in s.batches ensures x.id !in IdSet(s.batches[c].items) {
          assert QueueApart(s, s.batches[c]);
        }
      } else {
        NewItem(s, r, items, x);
      }
    }
    forall c | c in t.batches ensures BatchSound(t, t.batches[c]) && QueueApart(t, t.batches[c]) {
      OtherBatchSound(s, t, {}, s.batches[c]);
    }
  }

  lemma SubmitContinues(s: State, r: string, items: seq<Item>)
    requires Places(s) && Enabled(s, Submit(r, items))
    ensures Continues(s.requests, Apply(s, Submit(r, items)).requests, {})
    ensures PlansApart(Apply(s, Submit(r, items)).requests)
  {
    var t := Apply(s, Submit(r, items));
    forall q, id | q in s.requests && id in t.requests[r].plan ensures id !in s.requests[q].plan {
      var i :| 0 <= i < |items| && items[i].id == id;
    }
  }

  /** Only workflows of known requests were ever taken. */
  ghost predicate TakenKnown(s: State) {
    forall id :: id in s.taken ==> exists r :: r in s.requests && id in s.requests[r].plan
  }

  lemma NewItem(s: State, r: string, items: seq<Item>, x: Item)
    requires Places(s) && TakenKnown(s) && Enabled(s, Submit(r, items)) && x in items
    ensures Known(Apply(s, Submit(r, items)).requests, x) && Awaited(Apply(s, Submit(r, items)).requests, x)
    ensures x.id !in s.taken
    ensures forall c :: c in s.batches ==> x.id !in IdSet(s.batches[c].items)
  {
    var i :| 0 <= i < |items| && items[i] == x;
    PlanHolds(items, i);
    forall c | c in s.batches ensures x.id !in IdSet(s.batches[c].items) {
      assert BatchSound(s, s.batches[c]);
    }
  }
}
