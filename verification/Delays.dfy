/** Dependencies on ids that never became runtime nodes: which nodes they delay by one layer, and when that changes
    the execution order (runtime/runtime_graph.py:205-230). */
module Delays {
  import opened Collections
  import opened TopologicalSort
  import opened RuntimeGraphs
  import opened ExecutionOrder
  import opened GraphComponents

  // ---- layers by dependencies --------------------------------------------------------------

  /** A node is in a layer once all its dependencies are in earlier ones; an id that is no node is in the first. */
  lemma DoneByDependencies(nodes: map<Id, RuntimeOp>, k: nat, v: Id)
    requires v in nodes || v in DepNodes(nodes)
    ensures v in nodes ==> (v in Done(DepGraph(nodes), k + 1) <==>
              forall d :: d in nodes[v].dependencies ==> d in Done(DepGraph(nodes), k))
    ensures v !in nodes ==> v in Done(DepGraph(nodes), k + 1)
  {
    DepGraphFacts(nodes);
    PredsAreDependencies(nodes, v);
    hide DepGraph, Preds;
  }

  lemma DependencyIsDepNode(nodes: map<Id, RuntimeOp>, v: Id, d: Id)
    requires v in nodes && d in nodes[v].dependencies
    ensures d in DepNodes(nodes)
  {
  }

  lemma NothingDone(g: map<Id, set<Id>>)
    ensures Done(g, 0) == {}
  {
  }

  lemma StrippedDependencies(nodes: map<Id, RuntimeOp>, v: Id)
    requires v in nodes
    ensures v in Stripped(nodes)
    ensures forall d :: d in Stripped(nodes)[v].dependencies <==> d in nodes[v].dependencies && d in nodes
  {
  }

  // ---- the delay of a node -----------------------------------------------------------------

  /** The layer of a node when only nodes count. */
  ghost predicate InLevel(nodes: map<Id, RuntimeOp>, k: nat, n: Id) {
    n in nodes && n in Layer(DepGraph(Stripped(nodes)), k)
  }

  /** A node of level `k` is delayed if it waits for no node but for another id, or if it waits for a delayed node of
      the level before. */
  ghost predicate Delayed(nodes: map<Id, RuntimeOp>, k: nat, n: Id) {
    n in nodes &&
    if k == 0 then exists d :: d in nodes[n].dependencies && d !in nodes
    else exists d :: d in nodes[n].dependencies && d in nodes && InLevel(nodes, k - 1, d) && Delayed(nodes, k - 1, d)
  }

  /** Other ids delay by one layer at most. */
  lemma {:induction false} OneLater(nodes: map<Id, RuntimeOp>, k: nat, v: Id)
    requires v in nodes && v in Done(DepGraph(Stripped(nodes)), k)
    ensures v in Done(DepGraph(nodes), k + 1)
    decreases k
  {
    hide *;
    var g, h := DepGraph(nodes), DepGraph(Stripped(nodes));
    NothingDone(h);
    StrippedDependencies(nodes, v);
    DoneByDependencies(Stripped(nodes), k - 1, v);
    DoneByDependencies(nodes, k, v);
    forall d | d in nodes[v].dependencies ensures d in Done(g, k) {
      if d in nodes {
        OneLater(nodes, k - 1, d);
      } else {
        DependencyIsDepNode(nodes, v, d);
        DoneByDependencies(nodes, k - 1, d);
      }
    }
  }

  lemma {:induction false} NeverSooner(nodes: map<Id, RuntimeOp>, k: nat, v: Id)
    requires v in nodes && v in Done(DepGraph(nodes), k)
    ensures v in Done(DepGraph(Stripped(nodes)), k)
    decreases k
  {
    hide *;
    var g, h := DepGraph(nodes), DepGraph(Stripped(nodes));
    NothingDone(g);
    StrippedDependencies(nodes, v);
    DoneByDependencies(nodes, k - 1, v);
    DoneByDependencies(Stripped(nodes), k - 1, v);
    forall d | d in nodes[v].dependencies && d in nodes ensures d in Done(h, k - 1) {
      NeverSooner(nodes, k - 1, d);
    }
  }

  lemma LevelIsDone(nodes: map<Id, RuntimeOp>, k: nat, v: Id)
    requires v in nodes
    ensures InLevel(nodes, k, v) <==>
              v in Done(DepGraph(Stripped(nodes)), k + 1) && v !in Done(DepGraph(Stripped(nodes)), k)
  {
    hide DepGraph, Done;
  }

  /** A node keeps its layer exactly when it is not delayed. */
  lemma {:induction false} DelayedIff(nodes: map<Id, RuntimeOp>, k: nat, v: Id)
    requires InLevel(nodes, k, v)
    ensures v in Done(DepGraph(nodes), k + 1) <==> !Delayed(nodes, k, v)
    decreases k
  {
    var g, h := DepGraph(nodes), DepGraph(Stripped(nodes));
    NothingDone(g);
    NothingDone(h);
    LevelIsDone(nodes, k, v);
    StrippedDependencies(nodes, v);
    DoneByDependencies(nodes, k, v);
    DoneByDependencies(Stripped(nodes), k, v);
    hide DepGraph, Done, Stripped, InLevel, Layer;
    if k == 0 {
      assert forall d :: d in nodes[v].dependencies ==> d !in nodes;
    } else {
      forall d | d in nodes[v].dependencies
        ensures d in Done(g, k) <==> !(d in nodes && InLevel(nodes, k - 1, d) && Delayed(nodes, k - 1, d))
      {
        DependencyDelayed(nodes, k, v, d);
      }
    }
  }

  lemma {:induction false} DependencyDelayed(nodes: map<Id, RuntimeOp>, k: nat, v: Id, d: Id)
    requires k > 0 && v in nodes && d in nodes[v].dependencies
    requires d in nodes ==> d in Done(DepGraph(Stripped(nodes)), k)
    ensures d in Done(DepGraph(nodes), k) <==> !(d in nodes && InLevel(nodes, k - 1, d) && Delayed(nodes, k - 1, d))
    decreases k, 0
  {
    hide *;
    if d !in nodes {
      DependencyIsDepNode(nodes, v, d);
      DoneByDependencies(nodes, k - 1, d);
    } else {
      LevelIsDone(nodes, k - 1, d);
      if InLevel(nodes, k - 1, d) {
        DelayedIff(nodes, k - 1, d);
      } else {
        OneLater(nodes, k - 1, d);
      }
    }
  }

  /** A delayed node is one layer later, any other node keeps its layer. */
  lemma LayerWithOthers(nodes: map<Id, RuntimeOp>, k: nat, v: Id)
    requires InLevel(nodes, k, v)
    ensures v in Layer(DepGraph(nodes), k + if Delayed(nodes, k, v) then 1 else 0)
  {
    DelayedIff(nodes, k, v);
    LevelIsDone(nodes, k, v);
    OneLater(nodes, k + 1, v);
    hide DepGraph, Done, Delayed, InLevel;
    if v in Done(DepGraph(nodes), k) {
      NeverSooner(nodes, k, v);
    }
  }

  // ---- when the order changes --------------------------------------------------------------

  lemma EarlierByLayer(g: map<Id, set<Id>>, a: Id, i: nat, b: Id, j: nat)
    requires a in Layer(g, i) && b in Layer(g, j)
    ensures Earlier(g, a, b) <==> i < j
  {
    if i < j {
      DoneGrows(g, i + 1, j);
      assert a in Done(g, j) && b !in Done(g, j);
    } else {
      forall k: nat | a in Done(g, k) ensures b in Done(g, k) {
        if k <= i {
          DoneGrows(g, k, i);
        } else {
          DoneGrows(g, j + 1, k);
        }
      }
    }
  }

  lemma PrecedesByLayer(nodes: map<Id, RuntimeOp>, nodeOrder: seq<Id>, a: Id, i: nat, b: Id, j: nat)
    requires a in Layer(DepGraph(nodes), i) && b in Layer(DepGraph(nodes), j)
    ensures Precedes(nodes, nodeOrder, a, b) <==> i < j || (i == j && Position(nodeOrder, a) < Position(nodeOrder, b))
  {
    EarlierByLayer(DepGraph(nodes), a, i, b, j);
    EarlierByLayer(DepGraph(nodes), b, j, a, i);
    hide Earlier, DepGraph, Layer;
  }

  /** A delayed node falls behind one that is not delayed: one of its level placed after it, or one of the next level
      placed before it. */
  ghost predicate SwappedAt(nodes: map<Id, RuntimeOp>, nodeOrder: seq<Id>, k: nat, a: Id, b: Id) {
    InLevel(nodes, k, a) && Delayed(nodes, k, a) &&
    ((InLevel(nodes, k, b) && !Delayed(nodes, k, b) && Position(nodeOrder, a) < Position(nodeOrder, b)) ||
     (InLevel(nodes, k + 1, b) && !Delayed(nodes, k + 1, b) && Position(nodeOrder, b) < Position(nodeOrder, a)))
  }

  ghost predicate Swapped(nodes: map<Id, RuntimeOp>, nodeOrder: seq<Id>, a: Id, b: Id) {
    exists k: nat :: SwappedAt(nodes, nodeOrder, k, a, b)
  }

  lemma LevelUnique(nodes: map<Id, RuntimeOp>, i: nat, j: nat, v: Id)
    requires InLevel(nodes, i, v) && InLevel(nodes, j, v)
    ensures i == j
  {
    var h := DepGraph(Stripped(nodes));
    EarlierByLayer(h, v, i, v, j);
    EarlierByLayer(h, v, j, v, i);
    EarlierAsymmetric(h, v, v);
  }

  lemma SwappedFrom(nodes: map<Id, RuntimeOp>, nodeOrder: seq<Id>, a: Id, i: nat, b: Id, j: nat)
    requires InLevel(nodes, i, a) && InLevel(nodes, j, b)
    ensures Swapped(nodes, nodeOrder, a, b) <==>
              Delayed(nodes, i, a) && !Delayed(nodes, j, b) &&
              ((i == j && Position(nodeOrder, a) < Position(nodeOrder, b)) ||
               (j == i + 1 && Position(nodeOrder, b) < Position(nodeOrder, a)))
  {
    hide InLevel, Delayed, Position;
    if k: nat :| SwappedAt(nodes, nodeOrder, k, a, b) {
      LevelUnique(nodes, i, k, a);
      if InLevel(nodes, k, b) {
        LevelUnique(nodes, j, k, b);
      }
      if InLevel(nodes, k + 1, b) {
        LevelUnique(nodes, j, k + 1, b);
      }
    }
    assert SwappedAt(nodes, nodeOrder, i, a, b) ==> Swapped(nodes, nodeOrder, a, b);
  }

  lemma AgreeIff(nodes: map<Id, RuntimeOp>, nodeOrder: seq<Id>, a: Id, i: nat, b: Id, j: nat)
    requires InLevel(nodes, i, a) && InLevel(nodes, j, b) && Position(nodeOrder, a) != Position(nodeOrder, b)
    ensures (Precedes(nodes, nodeOrder, a, b) <==> Precedes(Stripped(nodes), nodeOrder, a, b)) <==>
            !Swapped(nodes, nodeOrder, a, b) && !Swapped(nodes, nodeOrder, b, a)
  {
    hide *;
    var x, y := if Delayed(nodes, i, a) then 1 else 0, if Delayed(nodes, j, b) then 1 else 0;
    LayerWithOthers(nodes, i, a);
    LayerWithOthers(nodes, j, b);
    LevelIsLayer(nodes, i, a);
    LevelIsLayer(nodes, j, b);
    PrecedesByLayer(nodes, nodeOrder, a, i + x, b, j + y);
    PrecedesByLayer(Stripped(nodes), nodeOrder, a, i, b, j);
    SwappedFrom(nodes, nodeOrder, a, i, b, j);
    SwappedFrom(nodes, nodeOrder, b, j, a, i);
  }

  lemma LevelIsLayer(nodes: map<Id, RuntimeOp>, k: nat, v: Id)
    requires InLevel(nodes, k, v)
    ensures v in Layer(DepGraph(Stripped(nodes)), k)
  {
  }

  lemma SomeLevel(nodes: map<Id, RuntimeOp>, nodeOrder: seq<Id>, stripped: seq<Id>, v: Id) returns (k: nat)
    requires IsOrder(Stripped(nodes), nodeOrder, stripped) && v in nodes
    ensures InLevel(nodes, k, v)
  {
    var h := DepGraph(Stripped(nodes));
    OrderExistsIff(Stripped(nodes), nodeOrder);
    AcyclicIff(h);
    DepGraphFacts(Stripped(nodes));
    var n: nat :| Done(h, n) == Nodes(h);
    hide IsOrder, DepGraph;
    k := LayerBelow(h, n, v);
  }

  lemma {:induction false} LayerBelow(g: map<Id, set<Id>>, n: nat, v: Id) returns (k: nat)
    requires v in Done(g, n)
    ensures v in Layer(g, k)
  {
    NothingDone(g);
    if v in Done(g, n - 1) {
      k := LayerBelow(g, n - 1, v);
    } else {
      k := n - 1;
    }
  }

  lemma SameOrderIff(nodes: map<Id, RuntimeOp>, nodeOrder: seq<Id>, order: seq<Id>, stripped: seq<Id>)
    requires Elems(nodeOrder) == nodes.Keys
    requires IsOrder(nodes, nodeOrder, order) && IsOrder(Stripped(nodes), nodeOrder, stripped)
    ensures order == stripped <==> forall a, b :: a in nodes && b in nodes && a != b ==>
              (Precedes(nodes, nodeOrder, a, b) <==> Precedes(Stripped(nodes), nodeOrder, a, b))
  {
    hide IsOrder, Precedes;
    OrderAscends(nodes, nodeOrder, order);
    OrderIsTopological(nodes, nodeOrder, order);
    OrderAscends(Stripped(nodes), nodeOrder, stripped);
    OrderIsTopological(Stripped(nodes), nodeOrder, stripped);
    if order == stripped {
      forall a, b | a in nodes && b in nodes && a != b
        ensures Precedes(nodes, nodeOrder, a, b) <==> Precedes(Stripped(nodes), nodeOrder, a, b)
      {
        PrecedesAsymmetric(nodes, nodeOrder, a, b);
        PrecedesAsymmetric(Stripped(nodes), nodeOrder, a, b);
        assert a in Elems(order) && b in Elems(order);
        var i :| 0 <= i < |order| && order[i] == a;
        var j :| 0 <= j < |order| && order[j] == b;
      }
    } else if forall a, b :: a in nodes && b in nodes && a != b ==>
                (Precedes(nodes, nodeOrder, a, b) <==> Precedes(Stripped(nodes), nodeOrder, a, b)) {
      forall i, j | 0 <= i < j < |stripped| ensures Precedes(nodes, nodeOrder, stripped[i], stripped[j]) {
        assert stripped[i] in Elems(stripped) && stripped[j] in Elems(stripped);
      }
      forall x, y ensures !(Precedes(nodes, nodeOrder, x, y) && Precedes(nodes, nodeOrder, y, x)) {
        PrecedesAsymmetric(nodes, nodeOrder, x, y);
      }
      AscendingUnique(order, stripped, (x, y) => Precedes(nodes, nodeOrder, x, y));
    }
  }

  /** Other ids leave the order alone exactly when no delayed node falls behind one that is not. */
  lemma OthersHarmlessIff(nodes: map<Id, RuntimeOp>, nodeOrder: seq<Id>, order: seq<Id>, stripped: seq<Id>)
    requires Elems(nodeOrder) == nodes.Keys
    requires IsOrder(nodes, nodeOrder, order) && IsOrder(Stripped(nodes), nodeOrder, stripped)
    ensures order == stripped <==> forall a, b :: a in nodes && b in nodes ==> !Swapped(nodes, nodeOrder, a, b)
  {
    SameOrderIff(nodes, nodeOrder, order, stripped);
    hide IsOrder, Precedes, Swapped, InLevel;
    forall a, b | a in nodes && b in nodes
      ensures a != b ==> ((Precedes(nodes, nodeOrder, a, b) <==> Precedes(Stripped(nodes), nodeOrder, a, b)) <==>
                !Swapped(nodes, nodeOrder, a, b) && !Swapped(nodes, nodeOrder, b, a))
      ensures a == b ==> !Swapped(nodes, nodeOrder, a, b)
    {
      var i := SomeLevel(nodes, nodeOrder, stripped, a);
      var j := SomeLevel(nodes, nodeOrder, stripped, b);
      if a != b {
        DistinctPositions(nodeOrder, a, b);
        AgreeIff(nodes, nodeOrder, a, i, b, j);
      } else {
        LevelUnique(nodes, i, j, a);
        SwappedFrom(nodes, nodeOrder, a, i, b, j);
      }
    }
  }

  // ---- a uniform delay ---------------------------------------------------------------------

  /** Every node that waits for no node waits for some other id. */
  ghost predicate AllDelayed(nodes: map<Id, RuntimeOp>) {
    forall n :: n in nodes ==> nodes[n].dependencies != []
  }

  /** If they delay every node, all layers shift by one. */
  lemma {:induction false} UniformDelay(nodes: map<Id, RuntimeOp>, k: nat, v: Id)
    requires AllDelayed(nodes) && v in nodes
    ensures v in Done(DepGraph(nodes), k + 1) <==> v in Done(DepGraph(Stripped(nodes)), k)
    decreases k, 1
  {
    hide *;
    var g, h := DepGraph(nodes), DepGraph(Stripped(nodes));
    DoneByDependencies(nodes, k, v);
    StrippedDependencies(nodes, v);
    NothingDone(g);
    NothingDone(h);
    if k == 0 {
      SomethingDelays(nodes, v);
    } else {
      DoneByDependencies(Stripped(nodes), k - 1, v);
      forall d | d in nodes[v].dependencies ensures d in Done(g, k) <==> d !in nodes || d in Done(h, k - 1) {
        DelayedDependency(nodes, k, v, d);
      }
    }
  }

  lemma SomethingDelays(nodes: map<Id, RuntimeOp>, v: Id)
    requires AllDelayed(nodes) && v in nodes
    ensures exists d :: d in nodes[v].dependencies
  {
    assert nodes[v].dependencies[0] in nodes[v].dependencies;
  }

  lemma {:induction false} DelayedDependency(nodes: map<Id, RuntimeOp>, k: nat, v: Id, d: Id)
    requires AllDelayed(nodes) && v in nodes && d in nodes[v].dependencies && k > 0
    ensures d in Done(DepGraph(nodes), k) <==> d !in nodes || d in Done(DepGraph(Stripped(nodes)), k - 1)
    decreases k, 0
  {
    hide *;
    if d in nodes {
      UniformDelay(nodes, k - 1, d);
    } else {
      DependencyIsDepNode(nodes, v, d);
      DoneByDependencies(nodes, k - 1, d);
    }
  }

  lemma UniformDelayKeepsEarlier(nodes: map<Id, RuntimeOp>, a: Id, b: Id)
    requires AllDelayed(nodes) && a in nodes && b in nodes
    ensures Earlier(DepGraph(nodes), a, b) <==> Earlier(DepGraph(Stripped(nodes)), a, b)
  {
    var g, h := DepGraph(nodes), DepGraph(Stripped(nodes));
    forall k: nat
      ensures a in Done(g, k + 1) <==> a in Done(h, k)
      ensures b in Done(g, k + 1) <==> b in Done(h, k)
    {
      UniformDelay(nodes, k, a);
      UniformDelay(nodes, k, b);
    }
    hide DepGraph;
    if k: nat :| a in Done(g, k) && b !in Done(g, k) {
      assert a in Done(g, (k - 1) + 1);
      assert a in Done(h, k - 1) && b !in Done(h, k - 1);
    }
    if k: nat :| a in Done(h, k) && b !in Done(h, k) {
      assert a in Done(g, k + 1) && b !in Done(g, k + 1);
    }
  }

  // ---- an order that changes ---------------------------------------------------------------

  /** A node without dependencies comes before one with some, and is preceded by none. */
  lemma SourcesFirst(nodes: map<Id, RuntimeOp>, a: Id, b: Id)
    requires a in nodes && b in nodes && b != a && nodes[b].dependencies == []
    ensures nodes[a].dependencies != [] ==> Earlier(DepGraph(nodes), b, a)
    ensures !Earlier(DepGraph(nodes), a, b)
  {
    var g := DepGraph(nodes);
    NothingDone(g);
    DoneByDependencies(nodes, 0, a);
    DoneByDependencies(nodes, 0, b);
    hide Done, DepGraph, DepNodes;
    if nodes[a].dependencies != [] {
      assert nodes[a].dependencies[0] in nodes[a].dependencies;
      assert b in Done(g, 1) && a !in Done(g, 1);
    }
    forall k: nat | a in Done(g, k) ensures b in Done(g, k) {
      if k > 0 {
        DoneByDependencies(nodes, k - 1, b);
      }
    }
  }

  /** Two nodes in the order that an ascending pair forces. */
  lemma TwoInOrder(nodes: map<Id, RuntimeOp>, nodeOrder: seq<Id>, a: Id, b: Id)
    requires nodes.Keys == {a, b} == Elems(nodeOrder) && a != b && Precedes(nodes, nodeOrder, a, b)
    requires !Cyclic(DepGraph(nodes))
    ensures IsOrder(nodes, nodeOrder, [a, b])
  {
    assert Distinct([a, b]) && Elems([a, b]) == {a, b};
    hide Precedes, DepGraph, IsOrder, Elems, Distinct, Cyclic;
    assert Ordered(nodes, nodeOrder, [a, b]);
    AscendingIsOrder(nodes, nodeOrder, [a, b]);
  }

  /** Nodes that wait for no node make no cycle. */
  lemma NoNodeDependencies(nodes: map<Id, RuntimeOp>)
    requires forall n, d :: n in nodes && d in nodes[n].dependencies ==> d !in nodes
    ensures !Cyclic(DepGraph(nodes))
  {
    var g := DepGraph(nodes);
    DepGraphFacts(nodes);
    forall v | v in DepNodes(nodes) ensures v in Done(g, 2) {
      SinkIsDone(nodes, v);
    }
    DoneAreNodes(g, 2);
    hide DepGraph, DepNodes, Done;
    assert Done(g, 2) == Nodes(g);
    AcyclicIff(g);
  }

  lemma SinkIsDone(nodes: map<Id, RuntimeOp>, v: Id)
    requires forall n, d :: n in nodes && d in nodes[n].dependencies ==> d !in nodes
    requires v in DepNodes(nodes)
    ensures v in Done(DepGraph(nodes), 2)
  {
    hide *;
    DoneByDependencies(nodes, 1, v);
    if v in nodes {
      forall d | d in nodes[v].dependencies ensures d in Done(DepGraph(nodes), 1) {
        DependencyIsDepNode(nodes, v, d);
        DoneByDependencies(nodes, 0, d);
      }
    }
  }

  function Waiting(): (r: map<Id, RuntimeOp>) {
    var idle := Scalar("null");
    var op := RuntimeOp("inference", idle, idle, idle, ["input"], None, None);
    map["a" := op, "b" := op.(dependencies := [])]
  }

  lemma WaitingStripped()
    ensures Stripped(Waiting()).Keys == {"a", "b"}
    ensures Stripped(Waiting())["a"].dependencies == [] && Stripped(Waiting())["b"].dependencies == []
    ensures NoDependencies(Stripped(Waiting()))
  {
    var alone: seq<Id> := [];
    assert Keep(["input"], Waiting().Keys) == alone by { assert ["input"][..0] == alone; }
  }

  /** Two sources in the order that one comparison gives. */
  lemma OrderOfTwo(nodes: map<Id, RuntimeOp>, first: Id, second: Id)
    requires {first, second} == {"a", "b"} == nodes.Keys && NoDependencies(nodes)
    requires Precedes(nodes, ["a", "b"], first, second)
    ensures IsOrder(nodes, ["a", "b"], [first, second])
  {
    assert Elems(["a", "b"]) == {"a", "b"};
    hide Precedes, Elems, IsOrder;
    NoNodeDependencies(nodes);
    TwoInOrder(nodes, ["a", "b"], first, second);
  }

  ghost predicate NoDependencies(nodes: map<Id, RuntimeOp>) {
    forall n, d :: n in nodes && d in nodes[n].dependencies ==> d !in nodes
  }

  lemma PrecedesBy(nodes: map<Id, RuntimeOp>, nodeOrder: seq<Id>, first: Id, second: Id)
    requires Earlier(DepGraph(nodes), first, second) ||
             (Position(nodeOrder, first) < Position(nodeOrder, second) && !Earlier(DepGraph(nodes), second, first))
    ensures Precedes(nodes, nodeOrder, first, second)
  {
    hide DepGraph, Earlier, Position;
  }

  lemma WaitingShape()
    ensures var nodes := Waiting();
      nodes.Keys == {"a", "b"} && NoDependencies(nodes) && nodes["a"].dependencies != [] && nodes["b"].dependencies == []
    ensures Position(["a", "b"], "a") < Position(["a", "b"], "b")
  {
    assert ["a", "b"][0] == "a" && ["a", "b"][1..] == ["b"];
    assert Position(["a", "b"], "a") == 0 && Position(["a", "b"], "b") == 1;
  }

  /** Ids that never became nodes can change the order: one source is delayed, the other is not. */
  lemma OthersCanReorder()
    ensures IsOrder(Waiting(), ["a", "b"], ["b", "a"]) && IsOrder(Stripped(Waiting()), ["a", "b"], ["a", "b"])
  {
    hide *;
    var nodes := Waiting();
    var stripped := Stripped(nodes);
    WaitingShape();
    WaitingStripped();
    SourcesFirst(nodes, "a", "b");
    SourcesFirst(stripped, "b", "a");
    PrecedesBy(nodes, ["a", "b"], "b", "a");
    PrecedesBy(stripped, ["a", "b"], "a", "b");
    OrderOfTwo(nodes, "b", "a");
    OrderOfTwo(stripped, "a", "b");
  }
}
