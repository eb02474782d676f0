/** The layered Kahn sort of utils/graph.py, used by both graph layers.

    A graph maps a node to the set of its successors; a successor need not be a key. Python
    iterates a set in an order the program does not control, so the loops below take the
    next element by `:|`. */
module TopologicalSort {
  import opened Collections

  datatype Error = HasCycle

  ghost function Nodes<T(!new)>(g: map<T, set<T>>): (r: set<T>) {
    g.Keys + (set u, v | u in g && v in g[u] :: v)
  }

  function Preds<T>(g: map<T, set<T>>, v: T): (r: set<T>) {
    set u | u in g && v in g[u]
  }

  predicate Edge<T>(g: map<T, set<T>>, u: T, v: T) {
    u in g && v in g[u]
  }

  // ---- what a layer is --------------------------------------------------------------------

  /** The nodes released after `k` rounds: those whose predecessors are all released earlier. */
  ghost function Done<T(!new)>(g: map<T, set<T>>, k: nat): (r: set<T>) {
    if k == 0 then {} else set v | v in Nodes(g) && Preds(g, v) <= Done(g, k - 1)
  }

  ghost function Layer<T(!new)>(g: map<T, set<T>>, k: nat): (r: set<T>) {
    Done(g, k + 1) - Done(g, k)
  }

  ghost predicate IsPath<T(!new)>(g: map<T, set<T>>, p: seq<T>) {
    p != [] && p[0] in Nodes(g) &&
    forall i, j :: 0 <= i && j == i + 1 && j < |p| ==> Edge(g, p[i], p[j])
  }

  ghost predicate PathTo<T(!new)>(g: map<T, set<T>>, p: seq<T>, v: T) {
    IsPath(g, p) && p[|p| - 1] == v
  }

  ghost predicate IsCycle<T(!new)>(g: map<T, set<T>>, p: seq<T>) {
    IsPath(g, p) && |p| >= 2 && p[0] == p[|p| - 1]
  }

  ghost predicate Cyclic<T(!new)>(g: map<T, set<T>>) {
    exists p :: IsCycle(g, p)
  }

  lemma {:induction false} DoneGrows<T(!new)>(g: map<T, set<T>>, j: nat, k: nat)
    requires j <= k
    ensures Done(g, j) <= Done(g, k)
  {
    if j > 0 {
      DoneGrows(g, j - 1, k - 1);
    }
  }

  /** Released after `k` rounds: no path into the node has more than `k` nodes. */
  lemma {:induction false} DoneBoundsPaths<T(!new)>(g: map<T, set<T>>, k: nat, v: T, p: seq<T>)
    requires v in Done(g, k) && PathTo(g, p, v)
    ensures |p| <= k
  {
    if |p| > 1 {
      assert Edge(g, p[|p| - 2], p[|p| - 1]);
      DoneBoundsPaths(g, k - 1, p[|p| - 2], p[..|p| - 1]);
    }
  }

  /** Not released after `k` rounds: some path into the node has `k + 1` nodes. */
  lemma {:induction false} BlockedHasPath<T(!new)>(g: map<T, set<T>>, k: nat, v: T) returns (p: seq<T>)
    requires v in Nodes(g) && v !in Done(g, k)
    ensures PathTo(g, p, v) && |p| == k + 1
  {
    if k == 0 {
      p := [v];
    } else {
      var u :| u in Preds(g, v) && u !in Done(g, k - 1);
      var q := BlockedHasPath(g, k - 1, u);
      p := q + [v];
    }
  }

  /** Layer `k` holds exactly the nodes whose longest incoming path has `k` edges. */
  lemma LayerIsLongestPath<T(!new)>(g: map<T, set<T>>, v: T, k: nat)
    requires v in Nodes(g)
    ensures v in Layer(g, k) <==>
            (exists p :: PathTo(g, p, v) && |p| == k + 1) && (forall p :: PathTo(g, p, v) ==> |p| <= k + 1)
  {
    if v in Layer(g, k) {
      var p := BlockedHasPath(g, k, v);
      forall q | PathTo(g, q, v) ensures |q| <= k + 1 {
        DoneBoundsPaths(g, k + 1, v, q);
      }
    } else if v in Done(g, k) {
      forall q | PathTo(g, q, v) ensures |q| <= k {
        DoneBoundsPaths(g, k, v, q);
      }
    } else {
      var p := BlockedHasPath(g, k + 1, v);
    }
  }

  // ---- cycles -----------------------------------------------------------------------------

  lemma {:induction false} StuckForever<T(!new)>(g: map<T, set<T>>, k: nat, n: nat)
    requires Done(g, k) == Done(g, k + 1) && k <= n
    ensures Done(g, n) == Done(g, k)
  {
    if k < n {
      StuckForever(g, k, n - 1);
    }
  }

  lemma PathStaysInGraph<T(!new)>(g: map<T, set<T>>, p: seq<T>)
    requires IsPath(g, p)
    ensures Elems(p) <= Nodes(g)
    ensures forall i :: 0 <= i < |p| ==> p[i] in Nodes(g)
  {
    forall i | 0 <= i < |p| ensures p[i] in Nodes(g) {
      if i > 0 {
        assert Edge(g, p[i - 1], p[i]);
      }
    }
  }

  lemma StuckIsCyclic<T(!new)>(g: map<T, set<T>>, k: nat)
    requires Done(g, k) == Done(g, k + 1) != Nodes(g)
    ensures Cyclic(g)
  {
    var v :| v in Nodes(g) && v !in Done(g, k);
    var n := k + |Nodes(g)|;
    StuckForever(g, k, n);
    var p := BlockedHasPath(g, n, v);
    PathStaysInGraph(g, p);
    var i, j := Pigeonhole(p, Nodes(g));
    RepeatIsCycle(g, p, i, j);
  }

  lemma RepeatIsCycle<T(!new)>(g: map<T, set<T>>, p: seq<T>, i: nat, j: nat)
    requires IsPath(g, p) && i < j < |p| && p[i] == p[j] && p[i] in Nodes(g)
    ensures IsCycle(g, p[i..j + 1])
  {
    var c := p[i..j + 1];
    forall a, b | 0 <= a && b == a + 1 && b < |c| ensures Edge(g, c[a], c[b]) {
      assert Edge(g, p[i + a], p[i + b]);
    }
  }

  lemma {:induction false} PumpCycle<T(!new)>(g: map<T, set<T>>, c: seq<T>, n: nat) returns (p: seq<T>)
    requires IsCycle(g, c)
    ensures PathTo(g, p, c[0]) && |p| > n
  {
    if n == 0 {
      p := c;
    } else {
      var q := PumpCycle(g, c, n - 1);
      p := q + c[1..];
      forall i, j | 0 <= i && j == i + 1 && j < |p| ensures Edge(g, p[i], p[j]) {
        if j >= |q| {
          assert p[j] == c[j - |q| + 1] && p[i] == c[j - |q|];
        } else {
          assert p[i] == q[i] && p[j] == q[j];
        }
      }
    }
  }

  lemma CyclicNeverFinishes<T(!new)>(g: map<T, set<T>>, k: nat)
    requires Done(g, k) == Nodes(g)
    ensures !Cyclic(g)
  {
    if c :| IsCycle(g, c) {
      var p := PumpCycle(g, c, k);
      DoneBoundsPaths(g, k, c[0], p);
      assert false;
    }
  }

  // ---- what the sort returns --------------------------------------------------------------

  function Flatten<T>(layers: seq<seq<T>>): (r: seq<T>) {
    if layers == [] then [] else Flatten(layers[..|layers| - 1]) + layers[|layers| - 1]
  }

  ghost predicate KeySorted<T>(s: seq<T>, key: Option<T -> int>) {
    key.Some? ==> SortedBy(s, key.value)
  }

  ghost predicate AreLayers<T(!new)>(g: map<T, set<T>>, key: Option<T -> int>, layers: seq<seq<T>>) {
    forall k :: 0 <= k < |layers| ==>
      Distinct(layers[k]) && Elems(layers[k]) == Layer(g, k) && KeySorted(layers[k], key)
  }

  /** The layers in order, each complete, without repetition, and sorted by the key. */
  ghost predicate IsLayeredSort<T(!new)>(g: map<T, set<T>>, key: Option<T -> int>, s: seq<T>) {
    exists layers :: IsLayering(g, key, s, layers)
  }

  ghost predicate IsLayering<T(!new)>(g: map<T, set<T>>, key: Option<T -> int>, s: seq<T>, layers: seq<seq<T>>) {
    s == Flatten(layers) && AreLayers(g, key, layers) && Done(g, |layers|) == Nodes(g) &&
    forall k :: 0 <= k < |layers| ==> layers[k] != []
  }

  lemma {:induction false} FlattenLayers<T(!new)>(g: map<T, set<T>>, key: Option<T -> int>, layers: seq<seq<T>>)
    requires AreLayers(g, key, layers)
    ensures Distinct(Flatten(layers)) && Elems(Flatten(layers)) == Done(g, |layers|)
  {
    if layers != [] {
      var n := |layers| - 1;
      var init := layers[..n];
      assert AreLayers(g, key, init);
      FlattenLayers(g, key, init);
      ElemsAppend(Flatten(init), layers[n]);
      DoneGrows(g, n, n + 1);
      forall i, j | 0 <= i < j < |Flatten(layers)| ensures Flatten(layers)[i] != Flatten(layers)[j] {
        if i < |Flatten(init)| <= j {
          assert Flatten(layers)[i] in Elems(Flatten(init));
          assert Flatten(layers)[j] in Elems(layers[n]);
        }
      }
    }
  }

  /** Before a node come all the nodes with an edge into it. */
  ghost predicate EdgesForward<T(!new)>(g: map<T, set<T>>, s: seq<T>) {
    forall j, u :: 0 <= j < |s| && u in Preds(g, s[j]) ==> u in s[..j]
  }

  lemma {:induction false} LayersForward<T(!new)>(g: map<T, set<T>>, key: Option<T -> int>, layers: seq<seq<T>>)
    requires AreLayers(g, key, layers)
    ensures EdgesForward(g, Flatten(layers))
  {
    if layers != [] {
      var n := |layers| - 1;
      var init := layers[..n];
      assert AreLayers(g, key, init);
      LayersForward(g, key, init);
      FlattenLayers(g, key, init);
      var s, f := Flatten(layers), Flatten(init);
      forall j, u | 0 <= j < |s| && u in Preds(g, s[j]) ensures u in s[..j] {
        if j < |f| {
          assert s[..j] == f[..j] && s[j] == f[j];
        } else {
          assert s[j] == layers[n][j - |f|] && s[j] in Elems(layers[n]);
          assert u in Elems(f);
          assert s[..j] == f + layers[n][..j - |f|];
        }
      }
    }
  }

  /** Every node once, every edge pointing forward. */
  lemma SortIsTopological<T(!new)>(g: map<T, set<T>>, key: Option<T -> int>, s: seq<T>)
    requires IsLayeredSort(g, key, s)
    ensures Distinct(s) && Elems(s) == Nodes(g) && EdgesForward(g, s)
  {
    var layers :| IsLayering(g, key, s, layers);
    FlattenLayers(g, key, layers);
    LayersForward(g, key, layers);
  }

  lemma {:induction false} LayersAgree<T(!new)>(g: map<T, set<T>>, key: T -> int, a: seq<seq<T>>, b: seq<seq<T>>)
    requires AreLayers(g, Some(key), a) && AreLayers(g, Some(key), b) && |a| == |b|
    requires InjectiveOn(key, Nodes(g))
    ensures a == b
  {
    forall k | 0 <= k < |a| ensures a[k] == b[k] {
      assert Elems(a[k]) <= Nodes(g);
      SortedUnique(a[k], b[k], key);
    }
  }

  lemma LayerCount<T(!new)>(g: map<T, set<T>>, key: Option<T -> int>, a: seq<seq<T>>, b: seq<seq<T>>)
    requires AreLayers(g, key, a) && AreLayers(g, key, b)
    requires Done(g, |a|) == Nodes(g) && forall k :: 0 <= k < |b| ==> b[k] != []
    ensures |b| <= |a|
  {
    assert |a| < |b| ==> b[|a|][0] in Elems(b[|a|]) && Elems(b[|a|]) == Layer(g, |a|);
    assert Layer(g, |a|) == {};
  }

  /** With an injective key one sequence only is possible: the order in which the program
      happens to iterate its sets cannot show. */
  lemma SortIsDeterministic<T(!new)>(g: map<T, set<T>>, key: T -> int, s: seq<T>, t: seq<T>)
    requires IsLayeredSort(g, Some(key), s) && IsLayeredSort(g, Some(key), t)
    requires InjectiveOn(key, Nodes(g))
    ensures s == t
  {
    var a :| IsLayering(g, Some(key), s, a);
    var b :| IsLayering(g, Some(key), t, b);
    LayerCount(g, Some(key), a, b);
    LayerCount(g, Some(key), b, a);
    LayersAgree(g, key, a, b);
  }

  // ---- the algorithm ----------------------------------------------------------------------

  /** How many of the first `i` keys have an edge to `v`. */
  function InCount<T(==)>(g: map<T, set<T>>, keys: seq<T>, i: nat, v: T): (r: nat)
    requires i <= |keys|
  {
    if i == 0 then 0 else InCount(g, keys, i - 1, v) + (if Edge(g, keys[i - 1], v) then 1 else 0)
  }

  lemma MeetOneMore<T(!new)>(p: set<T>, s: set<T>, x: T)
    requires x !in s
    ensures |p * (s + {x})| == |p * s| + (if x in p then 1 else 0)
  {
    assert p * (s + {x}) == p * s + (if x in p then {x} else {});
  }

  lemma {:induction false} InCountIsPreds<T(!new)>(g: map<T, set<T>>, keys: seq<T>, i: nat, v: T)
    requires i <= |keys| && Distinct(keys)
    ensures InCount(g, keys, i, v) == |Preds(g, v) * Elems(keys[..i])|
  {
    hide *;
    if i == 0 {
      NoCount(g, keys, v);
    } else {
      InCountIsPreds(g, keys, i - 1, v);
      CountNext(g, keys, i - 1, v);
      MeetOneMore(Preds(g, v), Elems(keys[..i - 1]), keys[i - 1]);
    }
  }

  lemma NoCount<T(!new)>(g: map<T, set<T>>, keys: seq<T>, v: T)
    ensures InCount(g, keys, 0, v) == |Preds(g, v) * Elems(keys[..0])|
  {
    assert Preds(g, v) * Elems(keys[..0]) == {};
  }

  lemma CountNext<T(!new)>(g: map<T, set<T>>, keys: seq<T>, i: nat, v: T)
    requires i < |keys| && Distinct(keys)
    ensures InCount(g, keys, i + 1, v) == InCount(g, keys, i, v) + (if keys[i] in Preds(g, v) then 1 else 0)
    ensures Elems(keys[..i + 1]) == Elems(keys[..i]) + {keys[i]} && keys[i] !in Elems(keys[..i])
  {
    ElemsSnoc(keys, i);
  }

  ghost predicate CountsInto<T(!new)>(g: map<T, set<T>>, keys: seq<T>, i: nat, inDegree: map<T, int>)
    requires i <= |keys|
  {
    g.Keys <= inDegree.Keys <= Nodes(g) &&
    (forall v :: v in inDegree ==> inDegree[v] == InCount(g, keys, i, v)) &&
    (forall v :: v !in inDegree ==> InCount(g, keys, i, v) == 0)
  }

  function ValueOr0<T>(m: map<T, int>, v: T): (r: int) {
    if v in m then m[v] else 0
  }

  /** The inner counting loop: `in_degree[n] = in_degree.get(n, 0) + 1` for each neighbour. */
  method CountOutgoing<T(==, !new)>(neighbors: set<T>, before: map<T, int>, keys: seq<T>)
    returns (inDegree: map<T, int>, order: seq<T>)
    requires Distinct(keys) && Elems(keys) == before.Keys
    ensures inDegree.Keys == before.Keys + neighbors
    ensures forall v :: v in inDegree ==> inDegree[v] == ValueOr0(before, v) + (if v in neighbors then 1 else 0)
    ensures Distinct(order) && Elems(order) == inDegree.Keys
  {
    inDegree, order := before, keys;
    var todo := neighbors;
    while todo != {}
      invariant todo <= neighbors
      invariant inDegree.Keys == before.Keys + (neighbors - todo)
      invariant Distinct(order) && Elems(order) == inDegree.Keys
      invariant forall v :: v in inDegree ==>
        inDegree[v] == ValueOr0(before, v) + (if v in neighbors - todo then 1 else 0)
    {
      var neighbor :| neighbor in todo;
      if neighbor !in inDegree {
        assert neighbor !in Elems(order);
        ElemsAppend(order, [neighbor]);
        order := order + [neighbor];
      }
      inDegree := inDegree[neighbor := ValueOr0(inDegree, neighbor) + 1];
      todo := todo - {neighbor};
    }
  }

  /** The counting loop over `graph.items()`; `order` is the insertion order of `in_degree`. */
  method CountInDegrees<T(==, !new)>(g: map<T, set<T>>, keys: seq<T>) returns (inDegree: map<T, int>, order: seq<T>)
    requires Distinct(keys) && Elems(keys) == g.Keys
    ensures inDegree.Keys == Nodes(g) && forall v :: v in Nodes(g) ==> inDegree[v] == |Preds(g, v)|
    ensures Distinct(order) && Elems(order) == Nodes(g)
  {
    hide *;
    CountingStart(g, keys);
    inDegree := map v | v in keys :: 0;
    order := keys;
    for i := 0 to |keys|
      invariant Distinct(order) && Elems(order) == inDegree.Keys
      invariant CountsInto(g, keys, i, inDegree)
    {
      ghost var before := inDegree;
      inDegree, order := CountOutgoing(g[keys[i]], inDegree, order);
      CountingStep(g, keys, i, before, inDegree);
    }
    AllCounted(g, keys, inDegree);
  }

  lemma CountingStart<T(!new)>(g: map<T, set<T>>, keys: seq<T>)
    requires Elems(keys) == g.Keys
    ensures forall i :: 0 <= i < |keys| ==> keys[i] in g
    ensures var zeros := map v | v in keys :: 0; Elems(keys) == zeros.Keys && CountsInto(g, keys, 0, zeros)
  {
    assert forall v :: v in Elems(keys) <==> v in keys;
  }

  lemma CountingStep<T(!new)>(g: map<T, set<T>>, keys: seq<T>, i: nat, before: map<T, int>, after: map<T, int>)
    requires i < |keys| && keys[i] in g && CountsInto(g, keys, i, before)
    requires after.Keys == before.Keys + g[keys[i]]
    requires forall v :: v in after ==> after[v] == ValueOr0(before, v) + (if v in g[keys[i]] then 1 else 0)
    ensures CountsInto(g, keys, i + 1, after)
  {
  }

  lemma AllCounted<T(!new)>(g: map<T, set<T>>, keys: seq<T>, inDegree: map<T, int>)
    requires Distinct(keys) && Elems(keys) == g.Keys && CountsInto(g, keys, |keys|, inDegree)
    ensures inDegree.Keys == Nodes(g) && forall v :: v in Nodes(g) ==> inDegree[v] == |Preds(g, v)|
  {
    forall v ensures InCount(g, keys, |keys|, v) == |Preds(g, v)| {
      InCountIsPreds(g, keys, |keys|, v);
      assert keys[..|keys|] == keys;
      assert Preds(g, v) * Elems(keys) == Preds(g, v);
    }
    hide InCount, Distinct;
    forall v | v in Nodes(g) ensures v in inDegree {
      if v !in g {
        var u :| u in g && v in g[u];
        assert u in Preds(g, v);
      }
    }
  }

  ghost predicate CountsDown<T(!new)>(g: map<T, set<T>>, inDegree: map<T, int>, gone: set<T>) {
    inDegree.Keys == Nodes(g) && forall v :: v in inDegree ==> inDegree[v] == |Preds(g, v) - gone|
  }

  /** Nodes whose last waiting predecessor went between `before` and `now`. */
  ghost predicate Released<T(!new)>(g: map<T, set<T>>, ready: seq<T>, before: set<T>, now: set<T>) {
    Distinct(ready) &&
    forall v :: v in ready <==> v in Nodes(g) && !(Preds(g, v) <= before) && Preds(g, v) <= now
  }

  /** The inner decrementing loop: each successor loses one, those that reach zero are collected. */
  method ReleaseOutgoing<T(==, !new)>(neighbors: set<T>, degrees: map<T, int>, collected: seq<T>)
    returns (inDegree: map<T, int>, ready: seq<T>)
    requires neighbors <= degrees.Keys
    ensures inDegree.Keys == degrees.Keys
    ensures forall v :: v in inDegree ==> inDegree[v] == degrees[v] - (if v in neighbors then 1 else 0)
    ensures collected <= ready && Distinct(ready[|collected|..])
    ensures forall v :: v in ready[|collected|..] <==> v in neighbors && inDegree[v] == 0
  {
    inDegree := degrees;
    var todo := neighbors;
    var added: seq<T> := [];
    while todo != {}
      invariant todo <= neighbors
      invariant inDegree.Keys == degrees.Keys
      invariant forall v :: v in inDegree ==> inDegree[v] == degrees[v] - (if v in neighbors - todo then 1 else 0)
      invariant Distinct(added)
      invariant forall v :: v in added <==> v in neighbors - todo && inDegree[v] == 0
    {
      var neighbor :| neighbor in todo;
      inDegree := inDegree[neighbor := inDegree[neighbor] - 1];
      todo := todo - {neighbor};
      if inDegree[neighbor] == 0 {
        added := added + [neighbor];
      }
    }
    ready := collected + added;
    assert ready[|collected|..] == added;
  }

  lemma OneFewerWaiting<T(!new)>(g: map<T, set<T>>, node: T, gone: set<T>, v: T)
    requires node !in gone
    ensures |Preds(g, v) - gone| == |Preds(g, v) - (gone + {node})| + (if Edge(g, node, v) then 1 else 0)
  {
    var last := if Edge(g, node, v) then {node} else {};
    assert Preds(g, v) - gone == Preds(g, v) - (gone + {node}) + last;
  }

  lemma DegreesAfter<T(!new)>(g: map<T, set<T>>, node: T, degrees: map<T, int>, inDegree: map<T, int>, gone: set<T>)
    requires node !in gone && CountsDown(g, degrees, gone) && inDegree.Keys == degrees.Keys
    requires forall v :: v in inDegree ==> inDegree[v] == degrees[v] - (if Edge(g, node, v) then 1 else 0)
    ensures CountsDown(g, inDegree, gone + {node})
  {
    forall v | v in inDegree ensures inDegree[v] == |Preds(g, v) - (gone + {node})| {
      OneFewerWaiting(g, node, gone, v);
      assert v in degrees;
    }
  }

  lemma ReadyAfter<T(!new)>(g: map<T, set<T>>, node: T, collected: seq<T>, added: seq<T>, before: set<T>, gone: set<T>)
    requires before <= gone && node !in gone && Released(g, collected, before, gone) && Distinct(added)
    requires forall v :: v in added <==> v in Nodes(g) && Edge(g, node, v) && Preds(g, v) <= gone + {node}
    ensures Released(g, collected + added, before, gone + {node})
  {
    forall v | v in added ensures v !in collected {
      assert node in Preds(g, v);
    }
    forall v | Edge(g, node, v) ensures !(Preds(g, v) <= before) && !(Preds(g, v) <= gone) {
      assert node in Preds(g, v);
    }
    forall v | !Edge(g, node, v) ensures Preds(g, v) <= gone + {node} <==> Preds(g, v) <= gone {
      assert node !in Preds(g, v);
    }
    DistinctJoin(collected, added);
  }

  lemma DistinctJoin<T(!new)>(a: seq<T>, b: seq<T>)
    requires Distinct(a) && Distinct(b) && forall x :: x in b ==> x !in a
    ensures Distinct(a + b)
  {
    forall i, j | 0 <= i < j < |a + b| ensures (a + b)[i] != (a + b)[j] {
      if i < |a| <= j {
        assert (a + b)[i] in a && (a + b)[j] in b;
      }
    }
  }

  lemma ReleasingStep<T(!new)>(g: map<T, set<T>>, node: T, degrees: map<T, int>, collected: seq<T>,
                               inDegree: map<T, int>, ready: seq<T>, before: set<T>, gone: set<T>)
    requires before <= gone && node !in gone
    requires CountsDown(g, degrees, gone) && Released(g, collected, before, gone)
    requires inDegree.Keys == degrees.Keys
    requires forall v :: v in inDegree ==> inDegree[v] == degrees[v] - (if Edge(g, node, v) then 1 else 0)
    requires collected <= ready && Distinct(ready[|collected|..])
    requires forall v :: v in ready[|collected|..] <==> Edge(g, node, v) && v in inDegree && inDegree[v] == 0
    ensures CountsDown(g, inDegree, gone + {node}) && Released(g, ready, before, gone + {node})
  {
    var added := ready[|collected|..];
    assert ready == collected + added;
    DegreesAfter(g, node, degrees, inDegree, gone);
    forall v | v in inDegree ensures inDegree[v] == 0 <==> Preds(g, v) <= gone + {node} {
      assert |Preds(g, v) - (gone + {node})| == 0 <==> Preds(g, v) - (gone + {node}) == {};
    }
    ReadyAfter(g, node, collected, added, before, gone);
  }

  /** The loop that decrements the in-degrees below one layer and collects the next. */
  method ReleaseLayer<T(==, !new)>(g: map<T, set<T>>, layer: seq<T>, degrees: map<T, int>, ghost gone: set<T>)
    returns (inDegree: map<T, int>, ready: seq<T>)
    requires Distinct(layer) && Elems(layer) !! gone && CountsDown(g, degrees, gone)
    ensures inDegree.Keys == Nodes(g)
    ensures CountsDown(g, inDegree, gone + Elems(layer)) && Released(g, ready, gone, gone + Elems(layer))
  {
    inDegree, ready := degrees, [];
    assert gone + Elems(layer[..0]) == gone;
    for i := 0 to |layer|
      invariant CountsDown(g, inDegree, gone + Elems(layer[..i]))
      invariant Released(g, ready, gone, gone + Elems(layer[..i]))
    {
      ElemsSnoc(layer, i);
      ghost var now := gone + Elems(layer[..i]);
      assert layer[i] in Elems(layer) && layer[i] !in now && gone + Elems(layer[..i + 1]) == now + {layer[i]};
      hide Released, Distinct, CountsDown, Elems, Nodes, Preds;
      var neighbors := if layer[i] in g then g[layer[i]] else {};
      NeighborsCounted(g, inDegree, now, layer[i]);
      ghost var degrees', collected := inDegree, ready;
      inDegree, ready := ReleaseOutgoing(neighbors, inDegree, ready);
      ReleasingStep(g, layer[i], degrees', collected, inDegree, ready, gone, now);
    }
    assert layer[..|layer|] == layer;
  }

  lemma NeighborsCounted<T(!new)>(g: map<T, set<T>>, degrees: map<T, int>, gone: set<T>, u: T)
    requires CountsDown(g, degrees, gone)
    ensures u in g ==> g[u] <= degrees.Keys
  {
  }

  /** `[node for node, deg in in_degree.items() if deg == 0]`. */
  method FirstReady<T(==, !new)>(inDegree: map<T, int>, order: seq<T>) returns (ready: seq<T>)
    requires Distinct(order) && Elems(order) == inDegree.Keys
    ensures Distinct(ready) && forall v :: v in ready <==> v in inDegree && inDegree[v] == 0
  {
    ready := [];
    for i := 0 to |order|
      invariant Distinct(ready) && forall v :: v in ready <==> v in order[..i] && v in inDegree && inDegree[v] == 0
    {
      assert order[..i + 1] == order[..i] + [order[i]];
      assert order[i] in Elems(order);
      if inDegree[order[i]] == 0 {
        ready := ready + [order[i]];
      }
    }
    assert order[..|order|] == order;
    assert forall v :: v in order <==> v in Elems(order);
  }

  /** `ready_nodes.sort(key=secondary_key)`, when there is a key. */
  method Arrange<T(!new)>(ready: seq<T>, secondaryKey: Option<T -> int>) returns (layer: seq<T>)
    requires Distinct(ready)
    ensures Distinct(layer) && Elems(layer) == Elems(ready) && |layer| == |ready|
    ensures KeySorted(layer, secondaryKey)
  {
    layer := if secondaryKey.Some? then StableSort(ready, secondaryKey.value) else ready;
    SameElements(layer, ready);
  }

  ghost predicate LayersSoFar<T(!new)>(g: map<T, set<T>>, key: Option<T -> int>, layers: seq<seq<T>>) {
    AreLayers(g, key, layers) && forall k :: 0 <= k < |layers| ==> layers[k] != []
  }

  lemma StartOfRun<T(!new)>(g: map<T, set<T>>, key: Option<T -> int>, inDegree: map<T, int>, ready: seq<T>)
    requires inDegree.Keys == Nodes(g) && forall v :: v in Nodes(g) ==> inDegree[v] == |Preds(g, v)|
    requires Distinct(ready) && forall v :: v in ready <==> v in inDegree && inDegree[v] == 0
    ensures Running(g, key, [], [], ready, inDegree)
  {
    assert Done(g, 0) == {};
    forall v ensures |Preds(g, v) - {}| == |Preds(g, v)| && (Preds(g, v) <= {} <==> |Preds(g, v)| == 0) {
      NothingGone(Preds(g, v));
    }
    FirstLayer(g, inDegree, ready);
  }

  lemma NothingGone<T(!new)>(s: set<T>)
    ensures s - {} == s && (s <= {} <==> |s| == 0)
  {
  }

  lemma FirstLayer<T(!new)>(g: map<T, set<T>>, inDegree: map<T, int>, ready: seq<T>)
    requires inDegree.Keys == Nodes(g) && forall v :: v in Nodes(g) ==> inDegree[v] == |Preds(g, v)|
    requires forall v :: v in ready <==> v in inDegree && inDegree[v] == 0
    ensures Elems(ready) == Layer(g, 0)
  {
    forall v ensures v in Layer(g, 0) <==> v in Nodes(g) && |Preds(g, v)| == 0 {
      NothingGone(Preds(g, v));
    }
  }

  lemma NextLayer<T(!new)>(g: map<T, set<T>>, key: Option<T -> int>, layers: seq<seq<T>>, current: seq<T>)
    requires LayersSoFar(g, key, layers) && current != [] && Distinct(current) && KeySorted(current, key)
    requires Elems(current) == Layer(g, |layers|)
    ensures LayersSoFar(g, key, layers + [current])
    ensures Flatten(layers + [current]) == Flatten(layers) + current
    ensures Done(g, |layers|) + Elems(current) == Done(g, |layers| + 1)
    ensures Elems(current) !! Done(g, |layers|)
    ensures Nodes(g) - Done(g, |layers| + 1) < Nodes(g) - Done(g, |layers|)
  {
    LayerGrows(g, |layers|, current);
    FlattenSnoc(layers, current);
    hide *;
    LayersSnoc(g, key, layers, current);
  }

  lemma FlattenSnoc<T(!new)>(layers: seq<seq<T>>, current: seq<T>)
    ensures Flatten(layers + [current]) == Flatten(layers) + current
  {
    assert (layers + [current])[..|layers|] == layers;
  }

  lemma LayersSnoc<T(!new)>(g: map<T, set<T>>, key: Option<T -> int>, layers: seq<seq<T>>, current: seq<T>)
    requires LayersSoFar(g, key, layers) && current != [] && Distinct(current) && KeySorted(current, key)
    requires Elems(current) == Layer(g, |layers|)
    ensures LayersSoFar(g, key, layers + [current])
  {
    hide Done, Nodes, Layer, KeySorted, Elems, Distinct, Flatten;
    var next := layers + [current];
    forall k | 0 <= k < |next|
      ensures Distinct(next[k]) && Elems(next[k]) == Layer(g, k) && KeySorted(next[k], key) && next[k] != []
    {
      if k < |layers| {
        assert next[k] == layers[k];
      } else {
        assert next[k] == current;
      }
    }
  }

  lemma LayerGrows<T(!new)>(g: map<T, set<T>>, k: nat, current: seq<T>)
    requires current != [] && Elems(current) == Layer(g, k)
    ensures Done(g, k) + Elems(current) == Done(g, k + 1) && Elems(current) !! Done(g, k)
    ensures Nodes(g) - Done(g, k + 1) < Nodes(g) - Done(g, k)
  {
    DoneGrows(g, k, k + 1);
    DoneAreNodes(g, k + 1);
    var next, before := Done(g, k + 1), Done(g, k);
    hide Done;
    assert current[0] in Elems(current) && current[0] in next && current[0] !in before;
  }

  lemma DoneAreNodes<T(!new)>(g: map<T, set<T>>, k: nat)
    ensures Done(g, k) <= Nodes(g)
  {
  }

  lemma ReadyIsLayer<T(!new)>(g: map<T, set<T>>, k: nat, ready: seq<T>)
    requires Released(g, ready, Done(g, k), Done(g, k + 1))
    ensures Distinct(ready) && Elems(ready) == Layer(g, k + 1)
  {
  }

  lemma EndOfRun<T(!new)>(g: map<T, set<T>>, key: Option<T -> int>, layers: seq<seq<T>>, result: seq<T>,
                          inDegree: map<T, int>)
    requires Running(g, key, layers, result, [], inDegree)
    ensures |result| != |inDegree| <==> Cyclic(g)
    ensures |result| == |inDegree| ==> IsLayeredSort(g, key, result)
  {
    hide *;
    Emitted(g, key, layers, result, inDegree);
    if |result| == |inDegree| {
      CyclicNeverFinishes(g, |layers|);
    } else {
      StuckIsCyclic(g, |layers|);
    }
  }

  lemma Emitted<T(!new)>(g: map<T, set<T>>, key: Option<T -> int>, layers: seq<seq<T>>, result: seq<T>,
                         inDegree: map<T, int>)
    requires Running(g, key, layers, result, [], inDegree)
    ensures Done(g, |layers|) == Done(g, |layers| + 1)
    ensures |result| == |inDegree| <==> Done(g, |layers|) == Nodes(g)
    ensures |result| == |inDegree| ==> IsLayeredSort(g, key, result)
  {
    var n := |layers|;
    DoneGrows(g, n, n + 1);
    assert Done(g, n + 1) == Done(g, n) + Layer(g, n);
    FlattenLayers(g, key, layers);
    DistinctSize(result);
    assert |result| == |Done(g, n)|;
    assert |inDegree| == |inDegree.Keys| == |Nodes(g)|;
    assert Done(g, n) <= Nodes(g);
    SubsetSize(Done(g, n), Nodes(g));
    if Done(g, n) == Nodes(g) {
      assert IsLayering(g, key, result, layers);
    }
  }

  /** What holds between two rounds of the main loop. */
  ghost predicate Running<T(!new)>(g: map<T, set<T>>, key: Option<T -> int>, layers: seq<seq<T>>,
                                   result: seq<T>, ready: seq<T>, inDegree: map<T, int>) {
    result == Flatten(layers) && LayersSoFar(g, key, layers) &&
    Distinct(ready) && Elems(ready) == Layer(g, |layers|) &&
    inDegree.Keys == Nodes(g) && CountsDown(g, inDegree, Done(g, |layers|))
  }

  /** One round: emit the ready layer, then release its successors. */
  method Round<T(==, !new)>(g: map<T, set<T>>, key: Option<T -> int>, ghost layers: seq<seq<T>>,
                            result: seq<T>, ready: seq<T>, inDegree: map<T, int>)
    returns (current: seq<T>, ready': seq<T>, inDegree': map<T, int>)
    requires Running(g, key, layers, result, ready, inDegree) && ready != []
    ensures Running(g, key, layers + [current], result + current, ready', inDegree')
    ensures Nodes(g) - Done(g, |layers| + 1) < Nodes(g) - Done(g, |layers|)
  {
    current := Arrange(ready, key);
    NextLayer(g, key, layers, current);
    inDegree', ready' := ReleaseLayer(g, current, inDegree, Done(g, |layers|));
    ReadyIsLayer(g, |layers|, ready');
  }

  method TopologicalSort<T(==, !new)>(g: map<T, set<T>>, keys: seq<T>, secondaryKey: Option<T -> int>)
    returns (r: Result<seq<T>, Error>)
    requires Distinct(keys) && Elems(keys) == g.Keys
    ensures r.Err? <==> Cyclic(g)
    ensures r.Ok? ==> IsLayeredSort(g, secondaryKey, r.value)
  {
    hide *;
    var inDegree, order := CountInDegrees(g, keys);
    var ready := FirstReady(inDegree, order);
    var result: seq<T> := [];
    ghost var layers: seq<seq<T>> := [];
    StartOfRun(g, secondaryKey, inDegree, ready);
    while ready != []
      invariant Running(g, secondaryKey, layers, result, ready, inDegree)
      decreases Nodes(g) - Done(g, |layers|)
    {
      var current, ready', inDegree' := Round(g, secondaryKey, layers, result, ready, inDegree);
      result, ready, inDegree := result + current, ready', inDegree';
      layers := layers + [current];
    }
    EndOfRun(g, secondaryKey, layers, result, inDegree);
    r := if |result| != |inDegree| then Err(HasCycle) else Ok(result);
  }

  // ---- when a sort exists ------------------------------------------------------------------

  lemma {:induction false} Listed<T(!new)>(s: set<T>) returns (a: seq<T>)
    ensures Distinct(a) && Elems(a) == s
  {
    if s == {} {
      a := [];
    } else {
      var x :| x in s;
      var rest := Listed(s - {x});
      a := [x] + rest;
      assert forall y :: y in rest <==> y in s - {x};
      assert forall y :: y in a <==> y in s;
    }
  }

  lemma ArrangedSet<T(!new)>(s: set<T>, key: Option<T -> int>) returns (a: seq<T>)
    ensures Distinct(a) && Elems(a) == s && KeySorted(a, key)
  {
    a := Listed(s);
    if key.Some? {
      var sorted := StableSort(a, key.value);
      SameElements(sorted, a);
      a := sorted;
    }
  }

  lemma {:induction false} SortFrom<T(!new)>(g: map<T, set<T>>, key: Option<T -> int>, layers: seq<seq<T>>)
    returns (s: seq<T>)
    requires LayersSoFar(g, key, layers) && !Cyclic(g)
    ensures IsLayeredSort(g, key, s)
    decreases Nodes(g) - Done(g, |layers|)
  {
    hide *;
    var layer := ArrangedSet(Layer(g, |layers|), key);
    if layer == [] {
      NothingListed(layer);
      NoMoreLayers(g, |layers|);
      s := Flatten(layers);
      AllLayers(g, key, layers);
    } else {
      NextLayer(g, key, layers, layer);
      s := SortFrom(g, key, layers + [layer]);
    }
  }

  lemma NothingListed<T(!new)>(a: seq<T>)
    requires a == []
    ensures Elems(a) == {}
  {
  }

  lemma AllLayers<T(!new)>(g: map<T, set<T>>, key: Option<T -> int>, layers: seq<seq<T>>)
    requires LayersSoFar(g, key, layers) && Done(g, |layers|) == Nodes(g)
    ensures IsLayeredSort(g, key, Flatten(layers))
  {
    hide Done, Nodes, Flatten, AreLayers;
    assert IsLayering(g, key, Flatten(layers), layers);
  }

  lemma NoMoreLayers<T(!new)>(g: map<T, set<T>>, n: nat)
    requires Layer(g, n) == {} && !Cyclic(g)
    ensures Done(g, n) == Nodes(g)
  {
    DoneGrows(g, n, n + 1);
    SameSets(Done(g, n), Done(g, n + 1));
    if Done(g, n) != Nodes(g) {
      StuckIsCyclic(g, n);
    }
  }

  lemma SameSets<T(!new)>(a: set<T>, b: set<T>)
    requires a <= b && b - a == {}
    ensures a == b
  {
    assert forall x :: x in b ==> x in a || x in b - a;
  }

  /** A sort exists exactly when there is no cycle. */
  lemma SortExistsIff<T(!new)>(g: map<T, set<T>>, key: Option<T -> int>)
    ensures (exists s :: IsLayeredSort(g, key, s)) <==> !Cyclic(g)
  {
    if s :| IsLayeredSort(g, key, s) {
      var layers :| IsLayering(g, key, s, layers);
      CyclicNeverFinishes(g, |layers|);
    }
    if !Cyclic(g) {
      var s := SortFrom(g, key, []);
    }
  }

  /** There is no cycle exactly when every node is released at some time. */
  lemma {:induction false} AcyclicIff<T(!new)>(g: map<T, set<T>>)
    ensures !Cyclic(g) <==> exists k: nat :: Done(g, k) == Nodes(g)
  {
    if k: nat :| Done(g, k) == Nodes(g) {
      CyclicNeverFinishes(g, k);
    }
    SortExistsIff(g, None);
    if !Cyclic(g) {
      var s :| IsLayeredSort(g, None, s);
      var layers :| IsLayering(g, None, s, layers);
      assert Done(g, |layers|) == Nodes(g);
    }
  }
}
