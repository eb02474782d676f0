/** The round-robin schedule (examples/plugins/simple_plugin/simple_optimizer.py:8-22), its validation
    (src/lumilake_server/runtime/server.py:1261-1290) and why it cannot block. */
module RoundRobin {
  import opened Collections
  import opened RuntimeGraphs
  import opened ExecutionOrder
  import opened GraphComponents
  import opened Delays

  datatype ScheduleError = NoWorkers

  type Schedule = map<string, seq<Id>>

  // ---- the schedule ------------------------------------------------------------------------

  /** The worker that position `i` falls to. */
  function WorkerAt(workers: seq<string>, i: nat): (r: string)
    requires workers != []
    ensures r in workers
  {
    workers[i % |workers|]
  }

  /** The nodes at the positions that fall to the worker. */
  ghost function QueueOf(order: seq<Id>, workers: seq<string>, w: string): (r: seq<Id>)
    requires workers != []
  {
    if order == [] then []
    else
      var n := |order| - 1;
      QueueOf(order[..n], workers, w) + if WorkerAt(workers, n) == w then [order[n]] else []
  }

  ghost predicate IsRoundRobin(order: seq<Id>, workers: seq<string>, s: Schedule) {
    workers != [] && s.Keys == Elems(workers) && forall w :: w in s ==> s[w] == QueueOf(order, workers, w)
  }

  method GenerateSchedule(order: seq<Id>, workers: seq<string>) returns (r: Result<Schedule, ScheduleError>)
    ensures r.Err? <==> workers == []
    ensures r.Ok? ==> IsRoundRobin(order, workers, r.value)
  {
    if workers == [] {
      return Err(NoWorkers);
    }
    var assignment: Schedule := map w | w in workers :: [];
    for i := 0 to |order|
      invariant assignment.Keys == Elems(workers)
      invariant forall w :: w in assignment ==> assignment[w] == QueueOf(order[..i], workers, w)
    {
      assert order[..i + 1][..i] == order[..i];
      var worker := workers[i % |workers|];
      assignment := assignment[worker := assignment[worker] + [order[i]]];
    }
    assert order[..|order|] == order;
    r := Ok(assignment);
  }

  // ---- validity ----------------------------------------------------------------------------

  ghost function Scheduled(s: Schedule): (r: set<Id>) {
    set w, n | w in s && n in s[w] :: n
  }

  /** What `_validate_schedule` accepts. */
  ghost predicate Accepted(s: Schedule, workers: seq<string>, nodes: set<Id>) {
    s.Keys == Elems(workers) && Scheduled(s) == nodes && forall w :: w in s ==> Distinct(s[w])
  }

  method IsDuplicateFree(queue: seq<Id>) returns (r: bool)
    ensures r <==> Distinct(queue)
  {
    var seen: set<Id> := {};
    assert queue[..0] == [];
    for i := 0 to |queue|
      invariant seen == Elems(queue[..i]) && Distinct(queue[..i])
    {
      ElemsSnoc(queue, i);
      if queue[i] in seen {
        var j :| 0 <= j < i && queue[..i][j] == queue[i];
        return false;
      }
      seen := seen + {queue[i]};
    }
    assert queue[..|queue|] == queue;
    r := true;
  }

  method ValidateSchedule(s: Schedule, workers: seq<string>, nodes: set<Id>) returns (ok: bool)
    ensures ok <==> Accepted(s, workers, nodes)
  {
    if s.Keys != Elems(workers) {
      return false;
    }
    var scheduled := set w, n | w in s && n in s[w] :: n;
    if scheduled != nodes {
      return false;
    }
    var todo := s.Keys;
    while todo != {}
      invariant todo <= s.Keys && forall w :: w in s && w !in todo ==> Distinct(s[w])
    {
      var w :| w in todo;
      todo := todo - {w};
      var unique := IsDuplicateFree(s[w]);
      if !unique {
        return false;
      }
    }
    ok := true;
  }

  /** Position `p` of a queue is a position of the order that falls to the worker, with the same nodes before. */
  lemma {:induction false} QueueAt(order: seq<Id>, workers: seq<string>, w: string, p: nat) returns (i: nat)
    requires workers != [] && p < |QueueOf(order, workers, w)|
    ensures i < |order| && order[i] == QueueOf(order, workers, w)[p] && WorkerAt(workers, i) == w
    ensures QueueOf(order[..i], workers, w) == QueueOf(order, workers, w)[..p]
  {
    var n := |order| - 1;
    var before := QueueOf(order[..n], workers, w);
    if p < |before| {
      i := QueueAt(order[..n], workers, w, p);
      assert order[..n][..i] == order[..i] && QueueOf(order, workers, w)[..p] == before[..p];
    } else {
      i := n;
      assert QueueOf(order, workers, w)[..p] == before;
    }
  }

  /** Every position of the order is in the queue of its worker, after the earlier positions that fall to it. */
  lemma {:induction false} QueueHolds(order: seq<Id>, workers: seq<string>, i: nat) returns (p: nat)
    requires workers != [] && i < |order|
    ensures p < |QueueOf(order, workers, WorkerAt(workers, i))|
    ensures QueueOf(order, workers, WorkerAt(workers, i))[p] == order[i]
    ensures QueueOf(order, workers, WorkerAt(workers, i))[..p] == QueueOf(order[..i], workers, WorkerAt(workers, i))
  {
    var n, w := |order| - 1, WorkerAt(workers, i);
    if i < n {
      p := QueueHolds(order[..n], workers, i);
      assert order[..n][..i] == order[..i];
      assert QueueOf(order, workers, w)[..p] == QueueOf(order[..n], workers, w)[..p];
    } else {
      p := |QueueOf(order[..n], workers, w)|;
      assert QueueOf(order, workers, w)[..p] == QueueOf(order[..n], workers, w);
    }
  }

  /** Queue positions are in the order of the positions they come from. */
  lemma QueueApart(order: seq<Id>, workers: seq<string>, w: string, p: nat, q: nat) returns (i: nat, j: nat)
    requires workers != [] && p < q < |QueueOf(order, workers, w)|
    ensures i < j < |order| && order[i] == QueueOf(order, workers, w)[p] && order[j] == QueueOf(order, workers, w)[q]
    ensures WorkerAt(workers, i) == w
  {
    j := QueueAt(order, workers, w, q);
    i := QueueAt(order[..j], workers, w, p);
  }

  lemma QueueElems(order: seq<Id>, workers: seq<string>, w: string)
    requires workers != []
    ensures Elems(QueueOf(order, workers, w)) <= Elems(order)
    ensures Distinct(order) ==> Distinct(QueueOf(order, workers, w))
  {
    var queue := QueueOf(order, workers, w);
    forall x | x in Elems(queue) ensures x in Elems(order) {
      var p :| 0 <= p < |queue| && queue[p] == x;
      var i := QueueAt(order, workers, w, p);
    }
    forall p, q | 0 <= p < q < |queue| && Distinct(order) ensures queue[p] != queue[q] {
      var i, j := QueueApart(order, workers, w, p, q);
    }
  }

  /** Every round-robin schedule of an order passes the validation. */
  lemma RoundRobinIsAccepted(order: seq<Id>, workers: seq<string>, s: Schedule)
    requires Distinct(order) && IsRoundRobin(order, workers, s)
    ensures Accepted(s, workers, Elems(order))
  {
    forall w | w in s ensures Distinct(s[w]) && Elems(s[w]) <= Elems(order) {
      QueueElems(order, workers, w);
    }
    forall x | x in Elems(order) ensures x in Scheduled(s) {
      var i :| 0 <= i < |order| && order[i] == x;
      var p := QueueHolds(order, workers, i);
      assert WorkerAt(workers, i) in s && x in s[WorkerAt(workers, i)];
    }
    forall x | x in Scheduled(s) ensures x in Elems(order) {
      var w :| w in s && x in s[w];
      assert x in Elems(s[w]);
    }
  }

  /** With distinct workers every node is in one queue only. */
  lemma EachNodeOnce(order: seq<Id>, workers: seq<string>, s: Schedule, v: string, w: string)
    requires Distinct(order) && IsRoundRobin(order, workers, s) && v in s && w in s && v != w
    ensures Elems(s[v]) !! Elems(s[w])
  {
    forall x | x in Elems(s[v]) && x in Elems(s[w]) ensures false {
      var p :| 0 <= p < |s[v]| && s[v][p] == x;
      var q :| 0 <= q < |s[w]| && s[w][q] == x;
      var i := QueueAt(order, workers, v, p);
      var j := QueueAt(order, workers, w, q);
    }
  }

  // ---- loads -------------------------------------------------------------------------------

  /** With distinct workers the loads are the quotient, one more for the first `|order| % |workers|` of them. */
  lemma {:induction false} LoadsAreEven(order: seq<Id>, workers: seq<string>, k: nat)
    requires Distinct(workers) && k < |workers|
    ensures |QueueOf(order, workers, workers[k])| ==
            |order| / |workers| + if k < |order| % |workers| then 1 else 0
  {
    if order == [] {
      SmallQuotient(0, |workers|);
    } else {
      var n := |order| - 1;
      LoadsAreEven(order[..n], workers, k);
      NextQuotient(n, |workers|);
      assert WorkerAt(workers, n) == workers[k] <==> n % |workers| == k;
    }
  }

  lemma SmallQuotient(a: nat, m: nat)
    requires a < m
    ensures a / m == 0 && a % m == a
  {
  }

  lemma NextQuotient(n: nat, m: nat)
    requires m > 0
    ensures n % m + 1 < m ==> (n + 1) / m == n / m && (n + 1) % m == n % m + 1
    ensures n % m + 1 == m ==> (n + 1) / m == n / m + 1 && (n + 1) % m == 0
  {
    var q, r := n / m, n % m;
    assert n == q * m + r;
    if r + 1 < m {
      QuotientIs(n + 1, m, q, r + 1);
    } else {
      assert n + 1 == (q + 1) * m + 0;
      QuotientIs(n + 1, m, q + 1, 0);
    }
  }

  lemma QuotientIs(a: nat, m: nat, q: nat, r: nat)
    requires a == q * m + r && r < m
    ensures a / m == q && a % m == r
  {
    var d := a / m - q;
    assert a == (a / m) * m + a % m;
    assert d * m == r - a % m;
    ScaleAtLeast(d, m);
  }

  lemma ScaleAtLeast(d: int, m: nat)
    ensures d >= 1 ==> d * m >= m
    ensures d <= -1 ==> -(d * m) >= m
  {
  }

  /** The loads of distinct workers are within one. */
  lemma LoadsWithinOne(order: seq<Id>, workers: seq<string>, j: nat, k: nat)
    requires Distinct(workers) && j < |workers| && k < |workers|
    ensures |QueueOf(order, workers, workers[j])| <= |QueueOf(order, workers, workers[k])| + 1
  {
    LoadsAreEven(order, workers, j);
    LoadsAreEven(order, workers, k);
  }

  // ---- running a schedule ------------------------------------------------------------------

  /** How many nodes of its queue each worker has finished. */
  type Progress = map<string, nat>

  ghost predicate InBounds(s: Schedule, at: Progress) {
    at.Keys == s.Keys && forall w :: w in s ==> at[w] <= |s[w]|
  }

  ghost predicate IsFinished(s: Schedule, at: Progress, n: Id)
    requires InBounds(s, at)
  {
    exists w :: w in s && n in s[w][..at[w]]
  }

  /** The worker's next node has everything it depends on. */
  ghost predicate Ready(s: Schedule, dependsOn: map<Id, seq<Id>>, at: Progress, w: string)
    requires InBounds(s, at)
  {
    w in s && at[w] < |s[w]| && s[w][at[w]] in dependsOn &&
    forall d :: d in dependsOn[s[w][at[w]]] ==> IsFinished(s, at, d)
  }

  /** Workers run their queues in order and wait for dependencies, in any interleaving. */
  ghost predicate IsExecution(s: Schedule, dependsOn: map<Id, seq<Id>>, run: seq<Progress>) {
    run != [] && (forall i :: 0 <= i < |run| ==> InBounds(s, run[i])) && (forall w :: w in s ==> run[0][w] == 0) &&
    forall i, j :: 0 <= i && j == i + 1 && j < |run| ==> Advances(s, dependsOn, run[i], run[j])
  }

  ghost predicate Advances(s: Schedule, dependsOn: map<Id, seq<Id>>, a: Progress, b: Progress)
    requires InBounds(s, a)
  {
    exists w :: Ready(s, dependsOn, a, w) && b == a[w := a[w] + 1]
  }

  ghost predicate Complete(s: Schedule, at: Progress) {
    InBounds(s, at) && forall w :: w in s ==> at[w] == |s[w]|
  }

  ghost predicate SomeoneIsReady(s: Schedule, dependsOn: map<Id, seq<Id>>, at: Progress)
    requires InBounds(s, at)
  {
    exists w :: Ready(s, dependsOn, at, w)
  }

  /** When all queues are done, every node of the order is finished. */
  lemma CompleteFinishesAll(order: seq<Id>, workers: seq<string>, s: Schedule, at: Progress)
    requires IsRoundRobin(order, workers, s) && Complete(s, at)
    ensures forall i :: 0 <= i < |order| ==> IsFinished(s, at, order[i])
  {
    forall i | 0 <= i < |order| ensures IsFinished(s, at, order[i]) {
      var p := QueueHolds(order, workers, i);
      var w := WorkerAt(workers, i);
      assert s[w][..at[w]] == s[w] && s[w][p] == order[i];
    }
  }

  /** In every reachable state either all queues are done or some worker can go on. */
  ghost predicate NeverBlocks(s: Schedule, dependsOn: map<Id, seq<Id>>) {
    forall run :: IsExecution(s, dependsOn, run) ==>
      Complete(s, run[|run| - 1]) || SomeoneIsReady(s, dependsOn, run[|run| - 1])
  }

  /** Every dependency that the run waits for comes earlier in the order. */
  ghost predicate Forward(order: seq<Id>, dependsOn: map<Id, seq<Id>>) {
    forall j, d :: 0 <= j < |order| && order[j] in dependsOn && d in dependsOn[order[j]] ==> d in order[..j]
  }

  /** The first unfinished position of the order. */
  lemma {:induction false} FirstUnfinished(order: seq<Id>, s: Schedule, at: Progress, i: nat) returns (k: nat)
    requires InBounds(s, at) && i < |order| && !IsFinished(s, at, order[i])
    ensures k < |order| && !IsFinished(s, at, order[k]) && forall j :: 0 <= j < k ==> IsFinished(s, at, order[j])
  {
    if j :| 0 <= j < i && !IsFinished(s, at, order[j]) {
      k := FirstUnfinished(order, s, at, j);
    } else {
      k := i;
    }
  }

  /** The first unfinished node of the order is at the head of its queue. */
  lemma FirstIsHead(order: seq<Id>, workers: seq<string>, s: Schedule, at: Progress, k: nat) returns (w: string)
    requires Distinct(order) && IsRoundRobin(order, workers, s) && InBounds(s, at) && k < |order|
    requires !IsFinished(s, at, order[k]) && forall j :: 0 <= j < k ==> IsFinished(s, at, order[j])
    ensures w in s && at[w] < |s[w]| && s[w][at[w]] == order[k]
  {
    hide WorkerAt, QueueOf;
    w := WorkerAt(workers, k);
    var p := QueueHolds(order, workers, k);
    assert w in s && s[w][p] == order[k];
    forall q | 0 <= q < at[w] ensures s[w][q] != order[k] {
      assert s[w][..at[w]][q] == s[w][q];
    }
    if at[w] < p {
      var i, j := QueueApart(order, workers, w, at[w], p);
      assert j == k;
      HeadIsUnfinished(order, workers, s, at, w, i);
    }
  }

  /** The head of a queue is not finished by any worker. */
  lemma HeadIsUnfinished(order: seq<Id>, workers: seq<string>, s: Schedule, at: Progress, w: string, i: nat)
    requires Distinct(order) && IsRoundRobin(order, workers, s) && InBounds(s, at) && i < |order|
    requires w in s && at[w] < |s[w]| && s[w][at[w]] == order[i] && WorkerAt(workers, i) == w
    ensures !IsFinished(s, at, order[i])
  {
    QueueElems(order, workers, w);
    forall v, q | v in s && 0 <= q < at[v] ensures s[v][q] != order[i] {
      var j := QueueAt(order, workers, v, q);
      assert order[j] == order[i] ==> j == i;
      assert v == w ==> s[v][q] != s[w][at[w]];
    }
  }

  /** Some worker can go on while the schedule is incomplete, whatever the workers have done so far. */
  lemma ForwardIsReady(order: seq<Id>, workers: seq<string>, s: Schedule, dependsOn: map<Id, seq<Id>>, at: Progress)
    requires Distinct(order) && IsRoundRobin(order, workers, s) && InBounds(s, at) && !Complete(s, at)
    requires dependsOn.Keys == Elems(order) && Forward(order, dependsOn)
    ensures SomeoneIsReady(s, dependsOn, at)
  {
    var v :| v in s && at[v] < |s[v]|;
    var i := QueueAt(order, workers, v, at[v]);
    HeadIsUnfinished(order, workers, s, at, v, i);
    var k := FirstUnfinished(order, s, at, i);
    var w := FirstIsHead(order, workers, s, at, k);
    assert order[k] in Elems(order);
    forall d | d in dependsOn[order[k]] ensures IsFinished(s, at, d) {
      assert d in order[..k];
    }
    assert Ready(s, dependsOn, at, w);
  }

  // ---- when it blocks ----------------------------------------------------------------------

  lemma {:induction false} OneQueue(order: seq<Id>, w: string)
    ensures QueueOf(order, [w], w) == order
  {
    if order != [] {
      OneQueue(order[..|order| - 1], w);
    }
  }

  /** One worker runs the first `k` nodes of the order when all they wait for comes earlier. */
  lemma {:induction false} RunUpTo(order: seq<Id>, dependsOn: map<Id, seq<Id>>, w: string, k: nat) returns (run: seq<Progress>)
    requires k <= |order| && dependsOn.Keys == Elems(order)
    requires forall j, d :: 0 <= j < k && order[j] in dependsOn && d in dependsOn[order[j]] ==> d in order[..j]
    ensures IsExecution(map[w := order], dependsOn, run) && run[|run| - 1] == map[w := k]
  {
    var s: Schedule := map[w := order];
    if k == 0 {
      run := [map[w := 0]];
    } else {
      var before := RunUpTo(order, dependsOn, w, k - 1);
      var at: Progress := map[w := k - 1];
      run := before + [map[w := k]];
      assert order[k - 1] in Elems(order);
      forall d | d in dependsOn[order[k - 1]] ensures IsFinished(s, at, d) {
        assert d in s[w][..at[w]];
      }
      assert Ready(s, dependsOn, at, w) && map[w := k] == at[w := at[w] + 1];
      forall i, j | 0 <= i && j == i + 1 && j < |run| ensures Advances(s, dependsOn, run[i], run[j]) {
        if j < |before| {
          assert run[i] == before[i] && run[j] == before[j];
        } else {
          assert run[i] == at && run[j] == map[w := k];
        }
      }
    }
  }

  /** The first node that waits for something not before it. */
  lemma {:induction false} FirstBackward(order: seq<Id>, dependsOn: map<Id, seq<Id>>, i: nat, c: Id) returns (k: nat, d: Id)
    requires i < |order| && order[i] in dependsOn && c in dependsOn[order[i]] && c !in order[..i]
    ensures k < |order| && order[k] in dependsOn && d in dependsOn[order[k]] && d !in order[..k]
    ensures forall j, e :: 0 <= j < k && order[j] in dependsOn && e in dependsOn[order[j]] ==> e in order[..j]
  {
    if j, e :| 0 <= j < i && order[j] in dependsOn && e in dependsOn[order[j]] && e !in order[..j] {
      k, d := FirstBackward(order, dependsOn, j, e);
    } else {
      k, d := i, c;
    }
  }

  /** A dependency that does not come earlier blocks a single worker. */
  lemma BackwardBlocks(order: seq<Id>, dependsOn: map<Id, seq<Id>>, w: string)
    requires dependsOn.Keys == Elems(order) && !Forward(order, dependsOn)
    ensures !NeverBlocks(map[w := order], dependsOn)
  {
    var s: Schedule := map[w := order];
    var i, c :| 0 <= i < |order| && order[i] in dependsOn && c in dependsOn[order[i]] && c !in order[..i];
    var k, d := FirstBackward(order, dependsOn, i, c);
    var run := RunUpTo(order, dependsOn, w, k);
    var at := run[|run| - 1];
    assert w in s && at[w] == k && s[w] == order;
    assert !IsFinished(s, at, d);
    assert !Complete(s, at);
    assert !Ready(s, dependsOn, at, w);
    assert !SomeoneIsReady(s, dependsOn, at);
  }

  /** Whatever the workers, round robin never blocks, exactly when the order respects all that is waited for. */
  lemma NeverBlocksIff(order: seq<Id>, dependsOn: map<Id, seq<Id>>)
    requires Distinct(order) && dependsOn.Keys == Elems(order)
    ensures (forall workers, s :: IsRoundRobin(order, workers, s) ==> NeverBlocks(s, dependsOn)) <==>
            Forward(order, dependsOn)
  {
    if Forward(order, dependsOn) {
      forall workers, s | IsRoundRobin(order, workers, s) ensures NeverBlocks(s, dependsOn) {
        forall run | IsExecution(s, dependsOn, run) && !Complete(s, run[|run| - 1])
          ensures SomeoneIsReady(s, dependsOn, run[|run| - 1])
        {
          ForwardIsReady(order, workers, s, dependsOn, run[|run| - 1]);
        }
      }
    } else {
      OneQueue(order, "w");
      assert IsRoundRobin(order, ["w"], map["w" := order]);
      BackwardBlocks(order, dependsOn, "w");
    }
  }

  // ---- runtime graphs ----------------------------------------------------------------------

  ghost function Exported(nodes: map<Id, RuntimeOp>): (r: map<Id, seq<Id>>)
    ensures r.Keys == nodes.Keys
  {
    map n | n in nodes :: DependsOn(nodes, n)
  }

  /** The condition looks at a node that comes earlier, or at an id that is no node. */
  ghost predicate LooksBack(nodes: map<Id, RuntimeOp>, op: RuntimeOp, before: seq<Id>) {
    op.condition.Some? && op.condition.value.node in nodes ==> op.condition.value.node in before
  }

  ghost predicate ConditionsForward(nodes: map<Id, RuntimeOp>, order: seq<Id>) {
    forall j :: 0 <= j < |order| && order[j] in nodes ==> LooksBack(nodes, nodes[order[j]], order[..j])
  }

  /** On the topological order of a runtime graph, round robin never blocks exactly when the conditions look
      back: the exported dependencies include the node of the condition, which the order does not know. */
  lemma RoundRobinNeverBlocksIff(nodes: map<Id, RuntimeOp>, nodeOrder: seq<Id>, order: seq<Id>)
    requires IsOrder(nodes, nodeOrder, order)
    ensures (forall workers, s :: IsRoundRobin(order, workers, s) ==> NeverBlocks(s, Exported(nodes))) <==>
            ConditionsForward(nodes, order)
  {
    OrderIsTopological(nodes, nodeOrder, order);
    NeverBlocksIff(order, Exported(nodes));
    hide IsOrder, NeverBlocks, IsRoundRobin;
    if ConditionsForward(nodes, order) {
      forall j, d | 0 <= j < |order| && order[j] in nodes && d in DependsOn(nodes, order[j]) ensures d in order[..j] {
        assert LooksBack(nodes, nodes[order[j]], order[..j]);
      }
    }
    if Forward(order, Exported(nodes)) {
      forall j | 0 <= j < |order| && order[j] in nodes ensures LooksBack(nodes, nodes[order[j]], order[..j]) {
        assert forall d :: d in Exported(nodes)[order[j]] ==> d in order[..j];
      }
    }
  }

  /** A condition on a node that comes later: on one worker the first waits for the second forever. */
  lemma ConditionCanBlock()
    ensures var idle := Scalar("null");
      var op := RuntimeOp("inference", idle, idle, idle, [], None, None);
      var nodes: map<Id, RuntimeOp> := map["a" := op.(condition := Some(Condition("b", idle))), "b" := op];
      IsOrder(nodes, ["a", "b"], ["a", "b"]) && IsRoundRobin(["a", "b"], ["w"], map["w" := ["a", "b"]]) &&
      !NeverBlocks(map["w" := ["a", "b"]], Exported(nodes))
  {
    var idle := Scalar("null");
    var op := RuntimeOp("inference", idle, idle, idle, [], None, None);
    var nodes: map<Id, RuntimeOp> := map["a" := op.(condition := Some(Condition("b", idle))), "b" := op];
    var order := ["a", "b"];
    assert Elems(order) == {"a", "b"} && nodes.Keys == {"a", "b"};
    assert order[0] == "a" && order[1..] == ["b"];
    assert Position(order, "a") == 0 && Position(order, "b") == 1;
    hide Elems, DepGraph, Earlier, IsOrder, NeverBlocks, IsRoundRobin, Position, Keep;
    NoNodeDependencies(nodes);
    SourcesFirst(nodes, "b", "a");
    TwoInOrder(nodes, order, "a", "b");
    OneQueue(order, "w");
    WaitsForLater(nodes);
    BackwardBlocks(order, Exported(nodes), "w");
    OneWorker(order);
  }

  lemma OneWorker(order: seq<Id>)
    requires QueueOf(order, ["w"], "w") == order
    ensures IsRoundRobin(order, ["w"], map["w" := order])
  {
  }

  lemma WaitsForLater(nodes: map<Id, RuntimeOp>)
    requires nodes.Keys == {"a", "b"} && IsCondition(nodes["a"], "b")
    ensures !Forward(["a", "b"], Exported(nodes))
  {
    var order, none := ["a", "b"], [];
    assert "b" in Exported(nodes)["a"];
    assert order[0] == "a" && order[..0] == none;
  }
}
