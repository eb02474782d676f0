/** The batch protocol of the server as a state machine: one step per section of code between two
    awaits, with any number of batches in flight (runtime/server.py:662-790, 1593-1798, 2020-2114,
    2281-2322). */
module Scheduling {
  import opened Collections

  /** A queued workflow and the nodes of its runtime graph. */
  datatype Item = Item(id: string, request: string, nodes: nat)

  /** One entry of `batch_node_counts`. */
  datatype Counts = Counts(raw: nat, optimized: nat)

  /** A request: the nodes of its workflows, the workflows it waits for, its node counters and the
      number of responses sent. */
  datatype Request = Request(plan: map<string, nat>, pending: set<string>, waiting: int, running: int, finished: int,
                             runningOptimized: int, finishedOptimized: int, counts: map<string, Counts>, responses: nat)

  /** How far the asyncio task of a batch is: `Stopped` when it was cancelled after its start. */
  datatype Phase = Spawned | Started | Handled | Stopped

  /** A running task and its local variables. */
  datatype Batch = Batch(workers: set<string>, items: seq<Item>, phase: Phase, active: seq<Item>, recorded: bool)

  datatype Reservation = Reservation(items: seq<Item>, workers: Option<set<string>>)

  /** The server; `taken`, `lost` and `leaked` only remember what happened: workflows whose nodes were
      counted as running, workflows whose task died, workers nobody will release. */
  datatype State = State(requests: map<string, Request>, queue: set<Item>, reservation: Option<Reservation>,
                         batches: map<string, Batch>, busy: set<string>, taken: set<string>, lost: set<string>,
                         leaked: set<string>)

  datatype Step =
    | Submit(request: string, items: seq<Item>)
    | Reserve(items: seq<Item>)
    | Claim(workers: set<string>)
    | GiveUp
    | Commit(batch: string)
    | CommitFails
    | Vanish(batch: string)
    | Start(batch: string, cancelled: set<string>)
    | Record(batch: string, shares: map<string, nat>)
    | Handle(batch: string)
    | Stop(batch: string)
    | Finish(batch: string)

  // ---- workflows of a batch ----------------------------------------------------------------

  ghost function IdSet(items: seq<Item>): (r: set<string>) {
    set i | 0 <= i < |items| :: items[i].id
  }

  ghost function IdsFor(items: seq<Item>, request: string): (r: set<string>) {
    set i | 0 <= i < |items| && items[i].request == request :: items[i].id
  }

  ghost predicate DistinctIds(items: seq<Item>) {
    forall i, j :: 0 <= i < j < |items| ==> items[i].id != items[j].id
  }

  ghost function RequestsOf(items: seq<Item>): (r: set<string>) {
    set i | 0 <= i < |items| :: items[i].request
  }

  /** `request_raw_nodes`: the nodes a batch runs for one request. */
  function RawOf(items: seq<Item>, request: string): (r: nat) {
    if items == [] then 0
    else
      var last := items[|items| - 1];
      RawOf(items[..|items| - 1], request) + if last.request == request then last.nodes else 0
  }

  /** The workflows whose request was not cancelled. */
  function Active(items: seq<Item>, cancelled: set<string>): (r: seq<Item>)
    ensures forall x :: x in r <==> x in items && x.request !in cancelled
  {
    if items == [] then []
    else
      var last := items[|items| - 1];
      Active(items[..|items| - 1], cancelled) + if last.request in cancelled then [] else [last]
  }

  ghost function PlanOf(items: seq<Item>): (r: map<string, nat>)
    ensures r.Keys == IdSet(items)
  {
    if items == [] then map[]
    else
      var n := |items| - 1;
      assert IdSet(items) == IdSet(items[..n]) + {items[n].id} by { IdSetNext(items, n); }
      PlanOf(items[..n])[items[n].id := items[n].nodes]
  }

  lemma IdSetNext(items: seq<Item>, n: nat)
    requires |items| == n + 1
    ensures IdSet(items) == IdSet(items[..n]) + {items[n].id}
  {
    forall id | id in IdSet(items[..n]) ensures id in IdSet(items) {
      var i :| 0 <= i < n && items[..n][i].id == id;
      assert items[i].id == id;
    }
    forall id | id in IdSet(items) ensures id in IdSet(items[..n]) + {items[n].id} {
      var i :| 0 <= i < |items| && items[i].id == id;
      assert i < n ==> items[..n][i].id == id;
    }
  }

  // ---- steps -------------------------------------------------------------------------------

  ghost predicate IsNew(s: State, items: seq<Item>) {
    forall i, r :: 0 <= i < |items| && r in s.requests ==> items[i].id !in s.requests[r].plan
  }

  ghost predicate InPhase(s: State, batch: string, phase: Phase) {
    batch in s.batches && s.batches[batch].phase == phase
  }

  ghost predicate Holding(s: State) {
    s.reservation.Some? && s.reservation.value.workers.Some?
  }

  /** When a step can happen. The scheduler is one task, so one reservation is open at a time. */
  ghost predicate Enabled(s: State, step: Step) {
    match step
    case Submit(r, items) =>
      r !in s.requests && items != [] && DistinctIds(items) && IsNew(s, items) &&
      forall i :: 0 <= i < |items| ==> items[i].request == r
    case Reserve(items) =>
      s.reservation == None && items != [] && DistinctIds(items) && forall i :: 0 <= i < |items| ==> items[i] in s.queue
    case Claim(workers) => s.reservation.Some? && s.reservation.value.workers == None && workers !! s.busy
    case GiveUp => s.reservation.Some? && s.reservation.value.workers == None
    case Commit(b) => Holding(s) && b !in s.batches
    case CommitFails => Holding(s)
    case Vanish(b) => InPhase(s, b, Spawned)
    case Start(b, _) => InPhase(s, b, Spawned)
    case Record(b, shares) =>
      InPhase(s, b, Started) && !s.batches[b].recorded && shares.Keys == RequestsOf(s.batches[b].active)
    case Handle(b) => InPhase(s, b, Started)
    case Stop(b) => InPhase(s, b, Started)
    case Finish(b) => InPhase(s, b, Handled) || InPhase(s, b, Stopped)
  }

  /** The errors the code raises instead of letting a counter go wrong. */
  ghost predicate Underflows(s: State, step: Step)
    requires Enabled(s, step)
  {
    match step
    case Start(b, cancelled) =>
      var active := Active(s.batches[b].items, cancelled);
      exists r :: r in RequestsOf(active) && r in s.requests && s.requests[r].waiting < RawOf(active, r)
    case Record(b, shares) =>
      exists r :: r in shares && r in s.requests &&
        (b !in s.requests[r].counts || s.requests[r].counts[b].optimized != 0)
    case Finish(b) =>
      exists r :: r in RequestsOf(s.batches[b].active) && r in s.requests && b in s.requests[r].counts &&
        (s.requests[r].running < s.requests[r].counts[b].raw ||
         s.requests[r].runningOptimized < s.requests[r].counts[b].optimized)
    case _ => false
  }

  ghost function StartRequest(q: Request, batch: string, raw: nat): Request {
    q.(waiting := q.waiting - raw, running := q.running + raw, counts := q.counts[batch := Counts(raw, 0)])
  }

  ghost function RecordRequest(q: Request, batch: string, share: nat): Request {
    if batch !in q.counts then q
    else q.(runningOptimized := q.runningOptimized + share, counts := q.counts[batch := Counts(q.counts[batch].raw, share)])
  }

  ghost function HandleRequest(q: Request, ids: set<string>): Request {
    var rest := q.pending - ids;
    q.(pending := rest, responses := q.responses + if rest == {} then 1 else 0)
  }

  ghost function FinishRequest(q: Request, batch: string): Request {
    if batch !in q.counts then q
    else
      var c := q.counts[batch];
      q.(running := q.running - c.raw, finished := q.finished + c.raw,
         runningOptimized := q.runningOptimized - c.optimized, finishedOptimized := q.finishedOptimized + c.optimized,
         counts := q.counts - {batch})
  }

  ghost function StartAll(requests: map<string, Request>, batch: string, active: seq<Item>): map<string, Request> {
    map r | r in requests :: if r in RequestsOf(active) then StartRequest(requests[r], batch, RawOf(active, r)) else requests[r]
  }

  ghost function RecordAll(requests: map<string, Request>, batch: string, shares: map<string, nat>): map<string, Request> {
    map r | r in requests :: if r in shares then RecordRequest(requests[r], batch, shares[r]) else requests[r]
  }

  ghost function HandleAll(requests: map<string, Request>, items: seq<Item>): map<string, Request> {
    map r | r in requests :: if r in RequestsOf(items) then HandleRequest(requests[r], IdsFor(items, r)) else requests[r]
  }

  ghost function FinishAll(requests: map<string, Request>, batch: string, active: seq<Item>): map<string, Request> {
    map r | r in requests :: if r in RequestsOf(active) then FinishRequest(requests[r], batch) else requests[r]
  }

  ghost function NewRequest(items: seq<Item>): Request {
    Request(PlanOf(items), IdSet(items), Weight(IdSet(items), PlanOf(items)), 0, 0, 0, 0, map[], 0)
  }

  ghost function Apply(s: State, step: Step): State
    requires Enabled(s, step)
  {
    match step
    case Submit(r, items) =>
      s.(requests := s.requests[r := NewRequest(items)], queue := s.queue + Elems(items))
    case Reserve(items) => s.(reservation := Some(Reservation(items, None)))
    case Claim(workers) =>
      s.(reservation := Some(Reservation(s.reservation.value.items, Some(workers))), busy := s.busy + workers)
    case GiveUp => s.(reservation := None)
    case Commit(b) =>
      var held := s.reservation.value;
      s.(reservation := None, queue := s.queue - Elems(held.items),
         batches := s.batches[b := Batch(held.workers.value, held.items, Spawned, [], false)])
    case CommitFails => s.(reservation := None, leaked := s.leaked + s.reservation.value.workers.value)
    case Vanish(b) =>
      s.(batches := s.batches - {b}, leaked := s.leaked + s.batches[b].workers, lost := s.lost + IdSet(s.batches[b].items))
    case Start(b, cancelled) =>
      var active := Active(s.batches[b].items, cancelled);
      s.(requests := StartAll(s.requests, b, active), taken := s.taken + IdSet(active),
         batches := s.batches[b := s.batches[b].(phase := Started, active := active)])
    case Record(b, shares) =>
      s.(requests := RecordAll(s.requests, b, shares), batches := s.batches[b := s.batches[b].(recorded := true)])
    case Handle(b) =>
      s.(requests := HandleAll(s.requests, s.batches[b].items), batches := s.batches[b := s.batches[b].(phase := Handled)])
    case Stop(b) =>
      s.(batches := s.batches[b := s.batches[b].(phase := Stopped)], lost := s.lost + IdSet(s.batches[b].items))
    case Finish(b) =>
      s.(requests := FinishAll(s.requests, b, s.batches[b].active), batches := s.batches - {b},
         busy := s.busy - s.batches[b].workers)
  }

  const EMPTY: State := State(map[], {}, None, map[], {}, {}, {}, {})

  // ---- invariants: where workflows are -----------------------------------------------------

  ghost predicate Known(requests: map<string, Request>, x: Item) {
    x.request in requests && x.id in requests[x.request].plan && requests[x.request].plan[x.id] == x.nodes
  }

  ghost predicate Awaited(requests: map<string, Request>, x: Item) {
    x.request in requests && x.id in requests[x.request].pending
  }

  /** Workflow ids belong to one request. */
  ghost predicate PlansApart(requests: map<string, Request>) {
    forall q, r, id :: q in requests && r in requests && id in requests[q].plan && id in requests[r].plan ==> q == r
  }

  ghost predicate QueueSound(s: State) {
    forall x :: x in s.queue ==> Known(s.requests, x) && Awaited(s.requests, x) && x.id !in s.taken
  }

  ghost predicate ReservationSound(s: State) {
    s.reservation.Some? ==>
      s.reservation.value.items != [] && DistinctIds(s.reservation.value.items) &&
      forall i :: 0 <= i < |s.reservation.value.items| ==> s.reservation.value.items[i] in s.queue
  }

  ghost predicate BatchSound(s: State, b: Batch) {
    DistinctIds(b.items) && DistinctIds(b.active) && (b.phase == Spawned ==> b.active == [] && !b.recorded) &&
    (forall i :: 0 <= i < |b.active| ==> b.active[i] in b.items) &&
    (forall i :: 0 <= i < |b.items| ==> Known(s.requests, b.items[i])) &&
    (b.phase == Spawned ==> IdSet(b.items) !! s.taken) &&
    (b.phase.Spawned? || b.phase.Started? ==> forall i :: 0 <= i < |b.items| ==> Awaited(s.requests, b.items[i]))
  }

  ghost predicate QueueApart(s: State, b: Batch) {
    forall x :: x in s.queue ==> x.id !in IdSet(b.items)
  }

  /** Every workflow is in one place: the queue, or one batch. */
  ghost predicate Places(s: State) {
    PlansApart(s.requests) && QueueSound(s) && ReservationSound(s) &&
    (forall b :: b in s.batches ==> BatchSound(s, s.batches[b]) && QueueApart(s, s.batches[b])) &&
    forall b, c :: b in s.batches && c in s.batches && b != c ==> IdSet(s.batches[b].items) !! IdSet(s.batches[c].items)
  }

  // ---- invariants: node counters and responses ---------------------------------------------

  ghost function RawCounts(q: Request): (r: map<string, nat>)
    ensures r.Keys == q.counts.Keys
  {
    map b | b in q.counts :: q.counts[b].raw
  }

  ghost function OptimizedCounts(q: Request): (r: map<string, nat>)
    ensures r.Keys == q.counts.Keys
  {
    map b | b in q.counts :: q.counts[b].optimized
  }

  /** The batches that count nodes for the request. */
  ghost function Live(batches: map<string, Batch>, request: string): (r: set<string>) {
    set b | b in batches && request in RequestsOf(batches[b].active)
  }

  /** The workflows of the request not yet taken by a batch. */
  ghost function Untaken(q: Request, taken: set<string>): (r: set<string>)
    ensures r <= q.plan.Keys
  {
    q.plan.Keys - taken
  }

  /** Nodes wait until their workflow is taken, then run, then are finished: none appears or disappears. */
  ghost predicate Balanced(q: Request, untaken: set<string>) {
    untaken <= q.plan.Keys && q.waiting == Weight(untaken, q.plan) &&
    q.running == Weight(q.counts.Keys, RawCounts(q)) &&
    q.runningOptimized == Weight(q.counts.Keys, OptimizedCounts(q)) &&
    q.waiting + q.running + q.finished == Weight(q.plan.Keys, q.plan)
  }

  /** The counted batches are the live ones, each with the nodes it runs for the request. */
  ghost predicate CountsLive(q: Request, request: string, batches: map<string, Batch>) {
    q.counts.Keys == Live(batches, request) &&
    forall b :: b in q.counts && b in batches ==>
      q.counts[b].raw == RawOf(batches[b].active, request) && (batches[b].recorded || q.counts[b].optimized == 0)
  }

  /** One response, exactly when nothing is pending. */
  ghost predicate Answered(q: Request) {
    q.plan.Keys != {} && q.pending <= q.plan.Keys && q.responses == if q.pending == {} then 1 else 0
  }

  ghost predicate Books(s: State) {
    forall r :: r in s.requests ==>
      Balanced(s.requests[r], Untaken(s.requests[r], s.taken)) && CountsLive(s.requests[r], r, s.batches) &&
      Answered(s.requests[r])
  }

  // ---- invariants: workers -----------------------------------------------------------------

  ghost function Claimed(s: State): set<string> {
    if Holding(s) then s.reservation.value.workers.value else {}
  }

  /** The busy workers are the disjoint union of the live batches' workers, the open claim and the leaked ones. */
  ghost predicate Owned(s: State) {
    Claimed(s) <= s.busy && s.leaked <= s.busy && Claimed(s) !! s.leaked &&
    (forall b :: b in s.batches ==>
      s.batches[b].workers <= s.busy && s.batches[b].workers !! Claimed(s) && s.batches[b].workers !! s.leaked) &&
    (forall b, c :: b in s.batches && c in s.batches && b != c ==> s.batches[b].workers !! s.batches[c].workers) &&
    forall w :: w in s.busy ==> w in Claimed(s) || w in s.leaked || exists b :: b in s.batches && w in s.batches[b].workers
  }

  // ---- invariants: nothing is forgotten ----------------------------------------------------

  ghost predicate Unhandled(b: Batch) {
    b.phase == Spawned || b.phase == Started
  }

  ghost predicate InFlight(s: State, id: string) {
    (exists x :: x in s.queue && x.id == id) || id in s.lost ||
    exists b :: b in s.batches && Unhandled(s.batches[b]) && id in IdSet(s.batches[b].items)
  }

  /** A pending workflow is queued, in a batch not handled yet, or lost with its task. */
  ghost predicate Accounted(s: State) {
    forall r, id :: r in s.requests && id in s.requests[r].pending ==> InFlight(s, id)
  }
}
