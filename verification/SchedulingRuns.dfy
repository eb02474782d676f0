/** Safety over every run of the batch protocol, however its tasks interleave. */
module SchedulingRuns {
  import opened Collections
  import opened Scheduling
  import opened SchedulingInvariants
  import opened SchedulingBooks

  // ---- lost workflows ----------------------------------------------------------------------

  ghost predicate Pending(s: State, id: string) {
    exists r :: r in s.requests && id in s.requests[r].pending
  }

  ghost predicate NowhereElse(s: State, id: string) {
    (forall x :: x in s.queue ==> x.id != id) &&
    forall b :: b in s.batches && Unhandled(s.batches[b]) ==> id !in IdSet(s.batches[b].items)
  }

  /** The workflows of a dead task stay pending and come back nowhere. */
  ghost predicate LostForGood(s: State) {
    forall id :: id in s.lost ==> Pending(s, id) && NowhereElse(s, id)
  }

  ghost predicate Sound(s: State) {
    Places(s) && Books(s) && TakenKnown(s) && Owned(s) && Accounted(s) && LostForGood(s)
  }

  // ---- books -------------------------------------------------------------------------------

  lemma BookAt(s: State, r: string)
    requires Books(s) && r in s.requests
    ensures BookOf(s.requests[r], r, s.batches, s.taken)
  {
  }

  lemma SubmitBooks(s: State, r: string, items: seq<Item>)
    requires Places(s) && Books(s) && TakenKnown(s) && Enabled(s, Submit(r, items))
    ensures Books(Apply(s, Submit(r, items)))
  {
    hide Weight, RawOf, Places, RequestsOf, DistinctIds, Live;
    var q := NewRequest(items);
    UnseenIds(s, r, items);
    NobodyCounts(s, r);
    assert Untaken(q, s.taken) == q.plan.Keys;
    assert RawCounts(q) == map[] && OptimizedCounts(q) == map[];
    NoWeight(RawCounts(q));
    NoWeight(OptimizedCounts(q));
    assert items[0].id in IdSet(items);
    assert BookOf(q, r, s.batches, s.taken);
    hide PlanOf, BookOf;
    forall p | p in s.requests ensures BookOf(s.requests[p], p, s.batches, s.taken) {
      BookAt(s, p);
    }
    BooksBy(Apply(s, Submit(r, items)));
  }

  lemma NoWeight(w: map<string, nat>)
    requires w == map[]
    ensures Weight({}, w) == 0 && Weight(w.Keys, w) == 0
  {
  }

  lemma BooksBy(s: State)
    requires forall r :: r in s.requests ==> BookOf(s.requests[r], r, s.batches, s.taken)
    ensures Books(s)
  {
    hide Balanced, CountsLive, Answered;
  }

  lemma UnseenIds(s: State, r: string, items: seq<Item>)
    requires TakenKnown(s) && Enabled(s, Submit(r, items))
    ensures IdSet(items) !! s.taken
  {
    forall id | id in IdSet(items) ensures id !in s.taken {
      var i :| 0 <= i < |items| && items[i].id == id;
    }
  }

  lemma NobodyCounts(s: State, r: string)
    requires Places(s) && r !in s.requests
    ensures Live(s.batches, r) == {}
  {
    forall b | b in s.batches ensures r !in RequestsOf(s.batches[b].active) {
      var batch := s.batches[b];
      assert BatchSound(s, batch);
      forall i | 0 <= i < |batch.active| ensures batch.active[i].request != r {
        var j :| 0 <= j < |batch.items| && batch.items[j] == batch.active[i];
        assert Known(s.requests, batch.items[j]);
      }
    }
  }

  lemma StartBooks(s: State, b: string, cancelled: set<string>)
    requires Places(s) && Books(s) && Enabled(s, Start(b, cancelled))
    ensures !Underflows(s, Start(b, cancelled)) && Books(Apply(s, Start(b, cancelled)))
  {
    var t := Apply(s, Start(b, cancelled));
    var active := t.batches[b].active;
    ActiveDistinct(s.batches[b].items, cancelled) by { assert BatchSound(s, s.batches[b]); }
    hide Places, Books, BookOf, RawOf, RequestsOf, IdSet, DistinctIds, StartRequest, Active;
    forall r | r in s.requests
      ensures r in RequestsOf(active) ==> s.requests[r].waiting >= RawOf(active, r)
      ensures BookOf(t.requests[r], r, t.batches, t.taken)
    {
      BookAt(s, r);
      StartBook(s, b, active, r, t.batches[b]);
    }
    BooksBy(t);
  }

  lemma RecordBooks(s: State, b: string, shares: map<string, nat>)
    requires Books(s) && Enabled(s, Record(b, shares))
    ensures !Underflows(s, Record(b, shares)) && Books(Apply(s, Record(b, shares)))
  {
    var t := Apply(s, Record(b, shares));
    hide Books, BookOf, RequestsOf, RecordRequest;
    forall r | r in s.requests
      ensures r in shares ==> b in s.requests[r].counts && s.requests[r].counts[b].optimized == 0
      ensures BookOf(t.requests[r], r, t.batches, t.taken)
    {
      BookAt(s, r);
      RecordBook(s, b, if r in shares then shares[r] else 0, r, t.batches[b]);
    }
    BooksBy(t);
  }

  lemma HandleBooks(s: State, b: string)
    requires Places(s) && Books(s) && Enabled(s, Handle(b))
    ensures Books(Apply(s, Handle(b)))
  {
    var t := Apply(s, Handle(b));
    hide Places, Books, BookOf, RequestsOf, HandleRequest, IdSet;
    forall r | r in s.requests ensures BookOf(t.requests[r], r, t.batches, t.taken) {
      BookAt(s, r);
      HandleBook(s, b, r, t.batches[b]);
    }
    BooksBy(t);
  }

  lemma FinishBooks(s: State, b: string)
    requires Books(s) && Enabled(s, Finish(b))
    ensures !Underflows(s, Finish(b)) && Books(Apply(s, Finish(b)))
  {
    var t := Apply(s, Finish(b));
    hide Books, BookOf, RequestsOf, FinishRequest;
    forall r | r in s.requests
      ensures r in RequestsOf(s.batches[b].active) ==> b in s.requests[r].counts
      ensures r in RequestsOf(s.batches[b].active) ==> s.requests[r].running >= s.requests[r].counts[b].raw
      ensures r in RequestsOf(s.batches[b].active) ==>
        s.requests[r].runningOptimized >= s.requests[r].counts[b].optimized
      ensures BookOf(t.requests[r], r, t.batches, t.taken)
    {
      BookAt(s, r);
      FinishBook(s, b, r);
    }
    BooksBy(t);
  }

  lemma CommitBooks(s: State, b: string)
    requires Books(s) && Enabled(s, Commit(b))
    ensures Books(Apply(s, Commit(b)))
  {
    var t := Apply(s, Commit(b));
    hide Books, BookOf;
    forall r | r in s.requests ensures BookOf(t.requests[r], r, t.batches, t.taken) {
      BookAt(s, r);
      MovedOnBook(s.requests[r], r, s.batches, b, t.batches[b], s.taken);
    }
    BooksBy(t);
  }

  lemma StopBooks(s: State, b: string)
    requires Books(s) && Enabled(s, Stop(b))
    ensures Books(Apply(s, Stop(b)))
  {
    var t := Apply(s, Stop(b));
    hide Books, BookOf, IdSet;
    forall r | r in s.requests ensures BookOf(t.requests[r], r, t.batches, t.taken) {
      BookAt(s, r);
      MovedOnBook(s.requests[r], r, s.batches, b, t.batches[b], s.taken);
    }
    BooksBy(t);
  }

  lemma VanishBooks(s: State, b: string)
    requires Places(s) && Books(s) && Enabled(s, Vanish(b))
    ensures Books(Apply(s, Vanish(b)))
  {
    var t := Apply(s, Vanish(b));
    hide Places, Books, BookOf, IdSet, Live;
    forall r | r in s.requests ensures BookOf(t.requests[r], r, t.batches, t.taken) {
      BookAt(s, r);
      SpawnedIdle(s, b, r);
      GoneBook(s.requests[r], r, s.batches, b, s.taken);
    }
    BooksBy(t);
  }

  /** Counters never underflow, and every step keeps the books. */
  lemma BooksKept(s: State, step: Step)
    requires Places(s) && Books(s) && TakenKnown(s) && Enabled(s, step)
    ensures !Underflows(s, step) && Books(Apply(s, step))
  {
    hide Books, Places, TakenKnown;
    match step
    case Submit(r, items) => SubmitBooks(s, r, items);
    case Commit(b) => CommitBooks(s, b);
    case Vanish(b) => VanishBooks(s, b);
    case Start(b, cancelled) => StartBooks(s, b, cancelled);
    case Record(b, shares) => RecordBooks(s, b, shares);
    case Handle(b) => HandleBooks(s, b);
    case Stop(b) => StopBooks(s, b);
    case Finish(b) => FinishBooks(s, b);
    case _ => SameBooks(s, Apply(s, step));
  }

  lemma SameBooks(s: State, t: State)
    requires Books(s) && t.requests == s.requests && t.batches == s.batches && t.taken == s.taken
    ensures Books(t)
  {
    hide Balanced, CountsLive, Answered;
  }

  // ---- places ------------------------------------------------------------------------------

  lemma FinishPlaces(s: State, b: string)
    requires Places(s) && Enabled(s, Finish(b))
    ensures Places(Apply(s, Finish(b)))
  {
    var t := Apply(s, Finish(b));
    FinishContinues(s.requests, b, s.batches[b].active) by { assert PlansApart(s.requests); }
    hide Places, FinishAll;
    RemovedPlaces(s, t, b);
  }

  lemma VanishPlaces(s: State, b: string)
    requires Places(s) && Enabled(s, Vanish(b))
    ensures Places(Apply(s, Vanish(b)))
  {
    var t := Apply(s, Vanish(b));
    assert PlansApart(s.requests) && Continues(s.requests, t.requests, {});
    hide Places, IdSet;
    RemovedPlaces(s, t, b);
  }

  lemma PlacesKept(s: State, step: Step)
    requires Places(s) && Books(s) && TakenKnown(s) && Enabled(s, step)
    ensures Places(Apply(s, step))
  {
    hide Books, Places, TakenKnown;
    match step
    case Submit(r, items) => SubmitPlaces(s, r, items);
    case Commit(b) => CommitPlaces(s, b);
    case Vanish(b) => VanishPlaces(s, b);
    case Start(b, cancelled) => StartPlaces(s, b, cancelled);
    case Record(b, shares) => RecordPlaces(s, b, shares);
    case Handle(b) => HandlePlaces(s, b);
    case Stop(b) => StopPlaces(s, b);
    case Finish(b) => FinishPlaces(s, b);
    case _ => SchedulerPlaces(s, step);
  }

  lemma SchedulerPlaces(s: State, step: Step)
    requires Places(s) && Enabled(s, step) && (step.Reserve? || step.Claim? || step.GiveUp? || step.CommitFails?)
    ensures Places(Apply(s, step))
  {
    var t := Apply(s, step);
    hide IdSet, DistinctIds, Known, Awaited;
    forall b | b in t.batches ensures BatchSound(t, t.batches[b]) && QueueApart(t, t.batches[b]) {
      assert BatchSound(s, s.batches[b]) && QueueApart(s, s.batches[b]);
    }
    assert ReservationSound(t) by { hide BatchSound, QueueApart; }
  }

  lemma TakenKnownKept(s: State, step: Step)
    requires Places(s) && TakenKnown(s) && Enabled(s, step)
    ensures TakenKnown(Apply(s, step))
  {
    var t := Apply(s, step);
    PlansStay(s, step);
    forall id | id in t.taken ensures exists r :: r in t.requests && id in t.requests[r].plan {
      if id !in s.taken {
        TakenNow(s, step, id);
      }
      var r :| r in s.requests && id in s.requests[r].plan;
      assert r in t.requests && id in t.requests[r].plan;
    }
  }

  /** No step drops a request or changes its plan. */
  lemma PlansStay(s: State, step: Step)
    requires Enabled(s, step)
    ensures forall r :: r in s.requests ==> r in Apply(s, step).requests && Apply(s, step).requests[r].plan == s.requests[r].plan
  {
    hide RequestsOf, IdSet, RawOf, PlanOf, Active, DistinctIds;
  }

  lemma TakenNow(s: State, step: Step, id: string)
    requires Places(s) && Enabled(s, step) && step.Start?
    requires id in IdSet(Active(s.batches[step.batch].items, step.cancelled))
    ensures exists r :: r in s.requests && id in s.requests[r].plan
  {
    var batch := s.batches[step.batch];
    var active := Active(batch.items, step.cancelled);
    var i :| 0 <= i < |active| && active[i].id == id;
    var j :| 0 <= j < |batch.items| && batch.items[j] == active[i];
    assert BatchSound(s, batch) && Known(s.requests, batch.items[j]);
  }

  // ---- nothing is forgotten ----------------------------------------------------------------

  /** The workflows a step ends the wait for. */
  ghost function HandledBy(s: State, step: Step): set<string> {
    if step.Handle? && step.batch in s.batches then IdSet(s.batches[step.batch].items) else {}
  }

  /** A request stops waiting for exactly the workflows that are handled. */
  lemma PendingAfter(s: State, step: Step, r: string)
    requires Places(s) && Books(s) && Enabled(s, step) && r in s.requests
    ensures r in Apply(s, step).requests
    ensures Apply(s, step).requests[r].pending == s.requests[r].pending - HandledBy(s, step)
  {
    hide Weight, RawOf, PlanOf, Active, RequestsOf, IdSet, IdsFor, DistinctIds, IsNew, Places, Books;
    if step.Handle? {
      HandledForRequest(s, step.batch, r);
    } else {
      assert Apply(s, step).requests[r].pending == s.requests[r].pending;
    }
  }

  /** Of the workflows of a batch, a request waits for its own only. */
  lemma HandledForRequest(s: State, b: string, r: string)
    requires Places(s) && Books(s) && b in s.batches && r in s.requests
    ensures s.requests[r].pending - IdSet(s.batches[b].items) == s.requests[r].pending - IdsFor(s.batches[b].items, r)
    ensures r !in RequestsOf(s.batches[b].items) ==> IdsFor(s.batches[b].items, r) == {}
  {
    var items := s.batches[b].items;
    assert BatchSound(s, s.batches[b]) && Answered(s.requests[r]);
    hide Books;
    forall id | id in s.requests[r].pending ensures id in IdSet(items) <==> id in IdsFor(items, r) {
      if id in IdSet(items) {
        var i :| 0 <= i < |items| && items[i].id == id;
        assert Known(s.requests, items[i]);
        assert items[i].request == r;
      }
      if id in IdsFor(items, r) {
        var i :| 0 <= i < |items| && items[i].request == r && items[i].id == id;
      }
    }
    if r !in RequestsOf(items) {
      NobodysIds(items, r);
    }
  }

  /** A workflow in flight stays so until it is handled. */
  lemma InFlightAfter(s: State, step: Step, id: string)
    requires Enabled(s, step) && InFlight(s, id) && id !in HandledBy(s, step)
    ensures InFlight(Apply(s, step), id)
  {
    var t := Apply(s, step);
    hide IdSet, PlanOf, StartAll, RecordAll, HandleAll, FinishAll, Active, Weight;
    if x :| x in s.queue && x.id == id {
      if x !in t.queue {
        ReservedId(s, x);
        assert InBatch(t, step.batch, id);
      }
    } else if id !in s.lost {
      var b :| b in s.batches && Unhandled(s.batches[b]) && id in IdSet(s.batches[b].items);
      assert id in t.lost || InBatch(t, b, id);
    }
  }

  ghost predicate InBatch(s: State, b: string, id: string) {
    b in s.batches && Unhandled(s.batches[b]) && id in IdSet(s.batches[b].items)
  }

  lemma ReservedId(s: State, x: Item)
    requires s.reservation.Some? && x in Elems(s.reservation.value.items)
    ensures x.id in IdSet(s.reservation.value.items)
  {
    ElemIds(s.reservation.value.items, x);
  }

  lemma AccountedKept(s: State, step: Step)
    requires Places(s) && Books(s) && Accounted(s) && Enabled(s, step)
    ensures Accounted(Apply(s, step))
  {
    var t := Apply(s, step);
    forall r, id | r in t.requests && id in t.requests[r].pending ensures InFlight(t, id) {
      if r in s.requests {
        PendingAfter(s, step, r);
        InFlightAfter(s, step, id);
      } else {
        var i :| 0 <= i < |step.items| && step.items[i].id == id;
        assert step.items[i] in t.queue && step.items[i].id == id;
      }
    }
  }

  lemma LostKept(s: State, step: Step)
    requires Places(s) && Books(s) && LostForGood(s) && Enabled(s, step)
    ensures LostForGood(Apply(s, step))
  {
    var t := Apply(s, step);
    hide Places, Books, Enabled, Apply, Pending, NowhereElse;
    forall id | id in t.lost ensures Pending(t, id) && NowhereElse(t, id) {
      if id in s.lost {
        LostStays(s, step, id);
      } else {
        LostNow(s, step, id);
      }
    }
  }

  lemma PendingStays(s: State, step: Step, id: string)
    requires Places(s) && Books(s) && Enabled(s, step) && Pending(s, id) && id !in HandledBy(s, step)
    ensures Pending(Apply(s, step), id)
  {
    var r :| r in s.requests && id in s.requests[r].pending;
    PendingAfter(s, step, r);
  }

  lemma LostStays(s: State, step: Step, id: string)
    requires Places(s) && Books(s) && Enabled(s, step) && Pending(s, id) && NowhereElse(s, id)
    ensures Pending(Apply(s, step), id) && NowhereElse(Apply(s, step), id)
  {
    NotHandled(s, step, id);
    hide Places, Books, Enabled, Apply, Pending;
    PendingStays(s, step, id);
    QueueStaysClear(s, step, id);
    BatchesStayClear(s, step, id);
  }

  lemma BatchesStayClear(s: State, step: Step, id: string)
    requires Places(s) && Enabled(s, step) && NowhereElse(s, id)
    ensures forall b :: b in Apply(s, step).batches && Unhandled(Apply(s, step).batches[b]) ==>
      id !in IdSet(Apply(s, step).batches[b].items)
  {
    if step.Commit? {
      ReservedElsewhere(s, id);
    }
    hide PlanOf, StartAll, RecordAll, HandleAll, FinishAll, Active, Weight, IdSet, Places, DistinctIds, RequestsOf;
    var t := Apply(s, step);
    forall b | b in t.batches && Unhandled(t.batches[b]) ensures id !in IdSet(t.batches[b].items) {
      assert b in s.batches ==> t.batches[b].items == s.batches[b].items && Unhandled(s.batches[b]);
    }
  }

  lemma NotHandled(s: State, step: Step, id: string)
    requires Enabled(s, step) && NowhereElse(s, id)
    ensures id !in HandledBy(s, step)
  {
    hide IdSet, DistinctIds, RequestsOf;
  }

  lemma QueueStaysClear(s: State, step: Step, id: string)
    requires Books(s) && Enabled(s, step) && Pending(s, id) && NowhereElse(s, id)
    ensures forall x :: x in Apply(s, step).queue ==> x.id != id
  {
    hide PlanOf, StartAll, RecordAll, HandleAll, FinishAll, Active, Weight, IdSet, Balanced, CountsLive;
    if step.Submit? {
      var r :| r in s.requests && id in s.requests[r].pending;
      assert Answered(s.requests[r]);
      assert forall i :: 0 <= i < |step.items| ==> step.items[i].id != id;
    }
  }

  lemma ReservedElsewhere(s: State, id: string)
    requires Places(s) && s.reservation.Some? && NowhereElse(s, id)
    ensures id !in IdSet(s.reservation.value.items)
  {
    var items := s.reservation.value.items;
    assert forall i :: 0 <= i < |items| ==> items[i] in s.queue;
  }

  lemma LostNow(s: State, step: Step, id: string)
    requires Places(s) && Enabled(s, step) && id in Apply(s, step).lost - s.lost
    ensures Pending(Apply(s, step), id) && NowhereElse(Apply(s, step), id)
  {
    var b, t := step.batch, Apply(s, step);
    LostAlone(s, b, id);
    hide Places, IdSet;
    assert t.requests == s.requests && t.queue == s.queue;
    assert forall c :: c in t.batches && Unhandled(t.batches[c]) ==> c != b && t.batches[c] == s.batches[c];
  }

  /** An unhandled workflow is pending, and in no other place. */
  lemma LostAlone(s: State, b: string, id: string)
    requires Places(s) && b in s.batches && Unhandled(s.batches[b]) && id in IdSet(s.batches[b].items)
    ensures Pending(s, id) && (forall x :: x in s.queue ==> x.id != id)
    ensures forall c :: c in s.batches && c != b ==> id !in IdSet(s.batches[c].items)
  {
    var items := s.batches[b].items;
    var i :| 0 <= i < |items| && items[i].id == id;
    assert BatchSound(s, s.batches[b]) && QueueApart(s, s.batches[b]);
    assert Awaited(s.requests, items[i]);
    assert Pending(s, id);
    hide BatchSound, IdSet, DistinctIds, Known;
  }

  // ---- runs --------------------------------------------------------------------------------

  /** Every step keeps every invariant, and no step runs into an underflow. */
  lemma SoundKept(s: State, step: Step)
    requires Sound(s) && Enabled(s, step)
    ensures !Underflows(s, step) && Sound(Apply(s, step))
  {
    hide Places, Books, TakenKnown, Owned, Accounted, LostForGood;
    PlacesKept(s, step);
    BooksKept(s, step);
    TakenKnownKept(s, step);
    OwnedKept(s, step);
    AccountedKept(s, step);
    LostKept(s, step);
  }

  lemma StartsSound()
    ensures Sound(EMPTY)
  {
  }

  ghost predicate IsRun(run: seq<State>, steps: seq<Step>) {
    |run| == |steps| + 1 && run[0] == EMPTY &&
    forall i :: 0 <= i < |steps| ==> Enabled(run[i], steps[i]) && run[i + 1] == Apply(run[i], steps[i])
  }

  /** Every reachable state is sound: with any interleaving, any cancellations and any dying tasks. */
  lemma {:induction false} RunsAreSound(run: seq<State>, steps: seq<Step>, i: nat)
    requires IsRun(run, steps) && i < |run|
    ensures Sound(run[i])
  {
    if i == 0 {
      StartsSound();
    } else {
      RunsAreSound(run, steps, i - 1);
      SoundKept(run[i - 1], steps[i - 1]);
    }
  }

  // ---- what the invariants mean ------------------------------------------------------------

  /** Nodes are conserved, the running ones are those of the live batches, and the three errors that guard
      the counters are unreachable. */
  lemma NodesAreConserved(run: seq<State>, steps: seq<Step>, i: nat, r: string)
    requires IsRun(run, steps) && i < |run| && r in run[i].requests
    ensures var q := run[i].requests[r];
      q.waiting + q.running + q.finished == Weight(q.plan.Keys, q.plan) &&
      q.running == Weight(q.counts.Keys, RawCounts(q)) &&
      q.runningOptimized == Weight(q.counts.Keys, OptimizedCounts(q)) &&
      q.waiting >= 0 && q.running >= 0 && q.runningOptimized >= 0
    ensures i < |steps| ==> !Underflows(run[i], steps[i])
  {
    RunsAreSound(run, steps, i);
    hide Sound;
    BalancedAt(run[i], r);
    if i < |steps| {
      SoundKept(run[i], steps[i]);
    }
  }

  lemma BalancedAt(s: State, r: string)
    requires Sound(s) && r in s.requests
    ensures Balanced(s.requests[r], Untaken(s.requests[r], s.taken)) && Answered(s.requests[r])
  {
    hide Balanced, Answered, CountsLive, Places, Owned, LostForGood, Accounted, TakenKnown;
  }

  /** A request is answered at most once, at the step that handles its last pending workflow. */
  lemma AnsweredAtLastHandle(run: seq<State>, steps: seq<Step>, i: nat, r: string)
    requires IsRun(run, steps) && i < |steps| && r in run[i].requests
    ensures r in run[i + 1].requests && run[i].requests[r].responses <= run[i + 1].requests[r].responses <= 1
    ensures run[i + 1].requests[r].responses == run[i].requests[r].responses + 1 <==>
            run[i].requests[r].pending != {} && run[i + 1].requests[r].pending == {}
    ensures run[i].requests[r].pending != run[i + 1].requests[r].pending ==> steps[i].Handle?
  {
    hide Sound, Enabled, Apply, HandledBy;
    RunsAreSound(run, steps, i);
    RunsAreSound(run, steps, i + 1);
    SoundPending(run[i], steps[i], r);
    BalancedAt(run[i], r);
    BalancedAt(run[i + 1], r);
    assert !steps[i].Handle? ==> HandledBy(run[i], steps[i]) == {} by { NothingHandled(run[i], steps[i]); }
  }

  lemma NothingHandled(s: State, step: Step)
    ensures !step.Handle? ==> HandledBy(s, step) == {}
  {
  }

  lemma SoundPending(s: State, step: Step, r: string)
    requires Sound(s) && Enabled(s, step) && r in s.requests
    ensures r in Apply(s, step).requests
    ensures Apply(s, step).requests[r].pending == s.requests[r].pending - HandledBy(s, step)
  {
    hide Places, Books, Enabled, Apply, HandledBy;
    PendingAfter(s, step, r);
  }

  ghost predicate Quiescent(s: State) {
    s.queue == {} && s.reservation == None && s.batches == map[]
  }

  /** When everything has run, a request was answered exactly if none of its workflows died with its task;
      no node is counted as running, and the busy workers are the leaked ones. */
  lemma QuiescentIsSettled(run: seq<State>, steps: seq<Step>, i: nat, r: string)
    requires IsRun(run, steps) && i < |run| && Quiescent(run[i]) && r in run[i].requests
    ensures var q := run[i].requests[r];
      (q.responses == if q.plan.Keys !! run[i].lost then 1 else 0) && q.running == 0 && q.runningOptimized == 0 &&
      q.counts == map[]
    ensures run[i].busy == run[i].leaked
  {
    RunsAreSound(run, steps, i);
    var s := run[i];
    SettledWorkers(s);
    SettledRequest(s, r);
  }

  lemma SettledWorkers(s: State)
    requires Owned(s) && Quiescent(s)
    ensures s.busy == s.leaked
  {
  }

  lemma SettledRequest(s: State, r: string)
    requires Sound(s) && Quiescent(s) && r in s.requests
    ensures var q := s.requests[r];
      (q.responses == if q.plan.Keys !! s.lost then 1 else 0) && q.running == 0 && q.runningOptimized == 0 &&
      q.counts == map[]
  {
    var q := s.requests[r];
    assert Live(s.batches, r) == {};
    assert q.counts.Keys == {};
    NoWeight(RawCounts(q));
    NoWeight(OptimizedCounts(q));
    hide Weight, Places, Owned, TakenKnown, RawOf;
    forall id | id in q.pending ensures id in q.plan && id in s.lost {
      assert InFlight(s, id);
    }
    forall id | id in q.plan && id in s.lost ensures id in q.pending {
      LostIsPending(s, r, id);
    }
  }

  lemma LostIsPending(s: State, r: string, id: string)
    requires Sound(s) && r in s.requests && id in s.requests[r].plan && id in s.lost
    ensures id in s.requests[r].pending
  {
    var p :| p in s.requests && id in s.requests[p].pending;
    assert Answered(s.requests[p]);
    assert p == r;
  }

  /** No two live batches share a worker, and the busy workers are exactly those of the live batches, the
      open claim and the leaked ones. */
  lemma WorkersAreExclusive(run: seq<State>, steps: seq<Step>, i: nat)
    requires IsRun(run, steps) && i < |run|
    ensures Owned(run[i])
  {
    RunsAreSound(run, steps, i);
  }

  ghost predicate Leaks(step: Step) {
    step.CommitFails? || step.Vanish?
  }

  /** No worker leaks unless a commit fails after a claim, or a task dies before its start; `LeakIsForever` is the
      other half: each of the two leaks its workers. */
  lemma {:induction false} NothingLeaks(run: seq<State>, steps: seq<Step>, i: nat)
    requires IsRun(run, steps) && i < |run| && forall j :: 0 <= j < i ==> !Leaks(steps[j])
    ensures run[i].leaked == {}
  {
    if i > 0 {
      NothingLeaks(run, steps, i - 1);
    }
  }

  /** What leaked is never released. */
  lemma LeakIsForever(s: State, step: Step)
    requires Sound(s) && Enabled(s, step)
    ensures s.leaked <= Apply(s, step).leaked <= Apply(s, step).busy
    ensures step.CommitFails? ==> s.reservation.value.workers.value <= Apply(s, step).leaked
    ensures step.Vanish? ==> s.batches[step.batch].workers <= Apply(s, step).leaked
  {
    SoundKept(s, step);
  }
}
