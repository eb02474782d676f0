/** `Graph`: its constructor, `serialize` and `from_json` (graphs/graph.py:48-66, 121-139, 161-167). A graph is the
    list of its operators, the values of the dictionary in order. */
module GraphSerialization {
  import opened Collections
  import opened OpSerialization
  import TS = TopologicalSort
  import E = ExecutionOrder
  import O = Ops

  datatype GraphError = DuplicateName | HasCycle | Unreadable(cause: ParseError)

  function Ids(ops: seq<Op>): (r: seq<Id>)
    ensures |r| == |ops| && forall k :: 0 <= k < |ops| ==> r[k] == ops[k].id
  {
    seq(|ops|, k requires 0 <= k < |ops| => ops[k].id)
  }

  /** A dictionary of operators that holds all their inputs, as both ways to make one establish. */
  ghost predicate IsDict(ops: seq<Op>) {
    Distinct(Ids(ops)) && forall k :: 0 <= k < |ops| ==> Elems(ops[k].inputs) <= Elems(Ids(ops))
  }

  predicate SameName(a: Op, b: Op) {
    (a.body.Input? && b.body.Input? && a.body.name == b.body.name) ||
    (a.body.Output? && b.body.Output? && a.body.name == b.body.name)
  }

  ghost predicate UniqueNames(ops: seq<Op>) {
    forall i, j :: 0 <= i < j < |ops| ==> !SameName(ops[i], ops[j])
  }

  // ---- the constructor ---------------------------------------------------------------------

  ghost function UsedBy(ops: seq<Op>): (r: set<Id>) {
    set k, d | 0 <= k < |ops| && d in ops[k].inputs :: d
  }

  ghost function Users(ops: seq<Op>, d: Id): (r: set<Id>) {
    set k | 0 <= k < |ops| && d in ops[k].inputs :: ops[k].id
  }

  /** The `dependencies` of `topological_sort`: the users of every used operator. */
  ghost function UseGraph(ops: seq<Op>): (r: map<Id, set<Id>>) {
    map d | d in UsedBy(ops) :: Users(ops, d)
  }

  lemma UseNext(ops: seq<Op>, k: nat, before: map<Id, set<Id>>, g: map<Id, set<Id>>)
    requires k < |ops| && before == UseGraph(ops[..k])
    requires E.Extended(before, g, Elems(ops[k].inputs), ops[k].id)
    ensures g == UseGraph(ops[..k + 1])
  {
    var now, next := ops[..k], ops[..k + 1];
    assert forall i :: 0 <= i < k + 1 ==> next[i] == if i < k then now[i] else ops[k];
    forall d ensures d in UsedBy(next) <==> d in UsedBy(now) || d in ops[k].inputs {
      if d in UsedBy(now) {
        var i :| 0 <= i < k && d in now[i].inputs;
        assert d in next[i].inputs;
      }
      assert d in ops[k].inputs ==> d in next[k].inputs;
    }
    forall d | d in g ensures g[d] == Users(next, d) {
      UsersNext(ops, k, d);
      assert d !in before ==> Users(now, d) == {};
    }
  }

  lemma UsersNext(ops: seq<Op>, k: nat, d: Id)
    requires k < |ops|
    ensures Users(ops[..k + 1], d) == Users(ops[..k], d) + if d in ops[k].inputs then {ops[k].id} else {}
  {
    var now, next := ops[..k], ops[..k + 1];
    assert forall i :: 0 <= i < k + 1 ==> next[i] == if i < k then now[i] else ops[k];
    forall x | x in Users(now, d) ensures x in Users(next, d) {
      var i :| 0 <= i < k && d in now[i].inputs && now[i].id == x;
      assert d in next[i].inputs && next[i].id == x;
    }
    assert d in ops[k].inputs ==> d in next[k].inputs && next[k].id == ops[k].id;
  }

  method CollectUses(ops: seq<Op>) returns (g: map<Id, set<Id>>, keys: seq<Id>)
    ensures g == UseGraph(ops) && Distinct(keys) && Elems(keys) == g.Keys
  {
    g, keys := map[], [];
    assert UsedBy(ops[..0]) == {};
    for k := 0 to |ops|
      invariant g == UseGraph(ops[..k]) && Distinct(keys) && Elems(keys) == g.Keys
    {
      hide UseGraph, E.Extended, Elems, Distinct;
      ghost var before := g;
      g, keys := E.AddDependencies(ops[k].id, ops[k].inputs, g, keys);
      UseNext(ops, k, before, g);
    }
    assert ops[..|ops|] == ops;
  }

  ghost function NamesOf(ops: seq<Op>, outputs: bool): (r: set<string>) {
    set k | 0 <= k < |ops| && (if outputs then ops[k].body.Output? else ops[k].body.Input?) :: ops[k].body.name
  }

  /** The loop that fills the two name dictionaries. */
  method CheckNames(ops: seq<Op>) returns (ok: bool)
    ensures ok <==> UniqueNames(ops)
  {
    var inputs: set<string>, outputs: set<string> := {}, {};
    for k := 0 to |ops|
      invariant UniqueNames(ops[..k])
      invariant inputs == NamesOf(ops[..k], false) && outputs == NamesOf(ops[..k], true)
    {
      NamesNext(ops, k);
      if ops[k].body.Input? {
        if ops[k].body.name in inputs {
          return false;
        }
        inputs := inputs + {ops[k].body.name};
      } else if ops[k].body.Output? {
        if ops[k].body.name in outputs {
          return false;
        }
        outputs := outputs + {ops[k].body.name};
      }
    }
    assert ops[..|ops|] == ops;
    ok := true;
  }

  predicate Clashes(op: Op, inputs: set<string>, outputs: set<string>) {
    (op.body.Input? && op.body.name in inputs) || (op.body.Output? && op.body.name in outputs)
  }

  lemma NamesNext(ops: seq<Op>, k: nat)
    requires k < |ops| && UniqueNames(ops[..k])
    ensures UniqueNames(ops[..k + 1]) <==> !Clashes(ops[k], NamesOf(ops[..k], false), NamesOf(ops[..k], true))
    ensures !UniqueNames(ops[..k + 1]) ==> !UniqueNames(ops)
    ensures NamesOf(ops[..k + 1], false) == NamesOf(ops[..k], false) + if ops[k].body.Input? then {ops[k].body.name} else {}
    ensures NamesOf(ops[..k + 1], true) == NamesOf(ops[..k], true) + if ops[k].body.Output? then {ops[k].body.name} else {}
  {
    var now, next := ops[..k], ops[..k + 1];
    assert forall i :: 0 <= i < k + 1 ==> next[i] == if i < k then now[i] else ops[k];
    assert forall i :: 0 <= i < k ==> now[i] == ops[i];
    NamesNextOf(ops, k, false);
    NamesNextOf(ops, k, true);
    if Clashes(ops[k], NamesOf(now, false), NamesOf(now, true)) {
      var i :| 0 <= i < k && SameName(now[i], ops[k]);
      assert SameName(next[i], next[k]);
    }
    if !UniqueNames(next) {
      var i, j :| 0 <= i < j < |next| && SameName(next[i], next[j]);
      assert SameName(ops[i], ops[j]);
      assert j == k;
    }
  }

  lemma NamesNextOf(ops: seq<Op>, k: nat, outputs: bool)
    requires k < |ops|
    ensures NamesOf(ops[..k + 1], outputs) == NamesOf(ops[..k], outputs) +
              if (if outputs then ops[k].body.Output? else ops[k].body.Input?) then {ops[k].body.name} else {}
  {
    var now, next := ops[..k], ops[..k + 1];
    assert forall i :: 0 <= i < k + 1 ==> next[i] == if i < k then now[i] else ops[k];
    assert next[k] == ops[k];
    forall x | x in NamesOf(now, outputs) ensures x in NamesOf(next, outputs) {
      var i :| 0 <= i < k && (if outputs then now[i].body.Output? else now[i].body.Input?) && now[i].body.name == x;
      assert next[i] == now[i];
    }
  }

  /** A graph made from a dictionary: the operators that use or are used by another one, sorted. */
  ghost predicate IsGraphOf(ops: seq<Op>, g: seq<Op>) {
    Elems(g) <= Elems(ops) && TS.IsLayeredSort(UseGraph(ops), None, Ids(g))
  }

  method NewGraph(ops: seq<Op>) returns (r: Result<seq<Op>, GraphError>)
    requires IsDict(ops)
    ensures r.Ok? <==> UniqueNames(ops) && !TS.Cyclic(UseGraph(ops))
    ensures r.Ok? ==> IsGraphOf(ops, r.value)
  {
    var ok := CheckNames(ops);
    if !ok {
      return Err(DuplicateName);
    }
    var uses, keys := CollectUses(ops);
    hide TS.IsLayeredSort, TS.Cyclic, UseGraph, UniqueNames;
    var sorted := TS.TopologicalSort(uses, keys, None);
    if sorted.Err? {
      return Err(HasCycle);
    }
    SortedAreOps(ops, sorted.value);
    var g := Arrange(ops, sorted.value);
    r := Ok(g);
  }

  lemma SortedAreOps(ops: seq<Op>, ids: seq<Id>)
    requires IsDict(ops) && TS.IsLayeredSort(UseGraph(ops), None, ids)
    ensures Elems(ids) <= Elems(Ids(ops))
  {
    TS.SortIsTopological(UseGraph(ops), None, ids);
    forall x | x in TS.Nodes(UseGraph(ops)) ensures x in Elems(Ids(ops)) {
      if x in UsedBy(ops) {
        var k :| 0 <= k < |ops| && x in ops[k].inputs;
        assert x in Elems(ops[k].inputs);
      } else {
        var u :| u in UseGraph(ops) && x in UseGraph(ops)[u];
        var k :| 0 <= k < |ops| && u in ops[k].inputs && ops[k].id == x;
        assert Ids(ops)[k] == x;
      }
    }
  }

  /** The operators with the given ids, in that order. */
  method Arrange(ops: seq<Op>, ids: seq<Id>) returns (g: seq<Op>)
    requires Elems(ids) <= Elems(Ids(ops))
    ensures Ids(g) == ids && Elems(g) <= Elems(ops)
  {
    g := [];
    for i := 0 to |ids|
      invariant Ids(g) == ids[..i] && Elems(g) <= Elems(ops)
    {
      assert ids[i] in Elems(ids) && ids[i] in Ids(ops);
      var k := Position(Ids(ops), ids[i]);
      assert ops[k] in Elems(ops);
      ElemsAppend(g, [ops[k]]);
      g := g + [ops[k]];
    }
    assert ids[..|ids|] == ids;
  }

  // ---- loading -----------------------------------------------------------------------------

  /** Every operator is read with those before it. */
  function ParseAll(data: seq<Serialized>): (r: Result<seq<Op>, ParseError>)
    ensures r.Ok? ==> |r.value| == |data|
  {
    if data == [] then Ok([])
    else
      var init := ParseAll(data[..|data| - 1]);
      if init.Err? then init
      else
        var last := Parse(data[|data| - 1], Elems(Ids(init.value)));
        if last.Err? then Err(last.error) else Ok(init.value + [last.value])
  }

  ghost function Keys(data: seq<Serialized>): (r: seq<Id>)
    ensures |r| == |data| && forall k :: 0 <= k < |data| ==> r[k] == data[k].id
  {
    seq(|data|, k requires 0 <= k < |data| => data[k].id)
  }

  /** Every operator comes after its inputs. */
  ghost predicate InOrder(ops: seq<Op>) {
    forall k :: 0 <= k < |ops| ==> Elems(ops[k].inputs) <= Elems(Ids(ops[..k]))
  }

  lemma InOrderSnoc(ops: seq<Op>, op: Op)
    requires InOrder(ops) && Elems(op.inputs) <= Elems(Ids(ops))
    ensures InOrder(ops + [op]) && Ids(ops + [op]) == Ids(ops) + [op.id]
  {
    hide Elems;
    var all := ops + [op];
    forall k | 0 <= k < |all| ensures Elems(all[k].inputs) <= Elems(Ids(all[..k])) {
      assert all[..k] == ops[..k] && all[k] == if k < |ops| then ops[k] else op;
      assert ops[..|ops|] == ops;
    }
    assert Ids(all) == Ids(ops) + [op.id];
  }

  lemma {:induction false} LoadedInOrder(data: seq<Serialized>)
    requires ParseAll(data).Ok?
    ensures InOrder(ParseAll(data).value) && Ids(ParseAll(data).value) == Keys(data)
  {
    if data != [] {
      var init, last := data[..|data| - 1], data[|data| - 1];
      var before := ParseAll(init).value;
      var op := Parse(last, Elems(Ids(before)));
      assert ParseAll(data) == Ok(before + [op.value]);
      hide Parse, ParseAll, Elems, InOrder;
      LoadedInOrder(init);
      ParseCloses(last, Elems(Ids(before)));
      InOrderSnoc(before, op.value);
      assert Keys(data) == Keys(init) + [last.id];
    }
  }

  lemma OrderedIsDict(ops: seq<Op>)
    requires InOrder(ops) && Distinct(Ids(ops))
    ensures IsDict(ops)
  {
    forall k | 0 <= k < |ops| ensures Elems(ops[k].inputs) <= Elems(Ids(ops)) {
      assert Ids(ops[..k]) == Ids(ops)[..k];
      ElemsAppend(Ids(ops)[..k], Ids(ops)[k..]);
      assert Ids(ops) == Ids(ops)[..k] + Ids(ops)[k..];
    }
  }

  /** An edge of an ordered list points forward. */
  lemma EdgePointsForward(ops: seq<Op>, u: Id, v: Id)
    requires InOrder(ops) && Distinct(Ids(ops)) && TS.Edge(UseGraph(ops), u, v)
    ensures u in Ids(ops) && v in Ids(ops) && Position(Ids(ops), u) < Position(Ids(ops), v)
  {
    var k :| 0 <= k < |ops| && u in ops[k].inputs && ops[k].id == v;
    assert u in Elems(ops[k].inputs);
    assert u in Ids(ops[..k]);
    var i :| 0 <= i < k && Ids(ops[..k])[i] == u;
    assert Ids(ops)[i] == u && Ids(ops)[k] == v;
    PositionIs(Ids(ops), i);
    PositionIs(Ids(ops), k);
  }

  lemma {:induction false} PathPointsForward(ops: seq<Op>, p: seq<Id>, n: nat)
    requires InOrder(ops) && Distinct(Ids(ops)) && TS.IsPath(UseGraph(ops), p) && 1 <= n < |p|
    ensures p[0] in Ids(ops) && p[n] in Ids(ops) && Position(Ids(ops), p[0]) < Position(Ids(ops), p[n])
  {
    hide InOrder, UseGraph, Distinct, Position, TS.Edge;
    var m := n - 1;
    assert TS.Edge(UseGraph(ops), p[m], p[n]);
    EdgePointsForward(ops, p[m], p[n]);
    if m > 0 {
      PathPointsForward(ops, p, m);
    }
  }

  /** What is loaded has no cycle: a document with a cycle refers to an unknown id. */
  lemma LoadedAcyclic(ops: seq<Op>)
    requires InOrder(ops) && Distinct(Ids(ops))
    ensures !TS.Cyclic(UseGraph(ops))
  {
    hide InOrder, UseGraph, Distinct, Position;
    if p :| TS.IsCycle(UseGraph(ops), p) {
      PathPointsForward(ops, p, |p| - 1);
      assert false;
    }
  }

  /** `Graph.from_json`. */
  method FromJson(data: seq<Serialized>) returns (r: Result<seq<Op>, GraphError>)
    requires Distinct(Keys(data))
    ensures r.Ok? <==> ParseAll(data).Ok? && UniqueNames(ParseAll(data).value)
    ensures r.Ok? ==> IsGraphOf(ParseAll(data).value, r.value)
  {
    var ops: seq<Op> := [];
    for k := 0 to |data|
      invariant ParseAll(data[..k]) == Ok(ops)
    {
      ParseNext(data, k);
      var op := Parse(data[k], Elems(Ids(ops)));
      if op.Err? {
        FailsFrom(data, k + 1);
        return Err(Unreadable(op.error));
      }
      ops := ops + [op.value];
    }
    assert data[..|data|] == data;
    LoadedInOrder(data);
    OrderedIsDict(ops);
    LoadedAcyclic(ops);
    r := NewGraph(ops);
  }

  lemma ParseNext(data: seq<Serialized>, k: nat)
    requires k < |data| && ParseAll(data[..k]).Ok?
    ensures var ops := ParseAll(data[..k]).value;
            var last := Parse(data[k], Elems(Ids(ops)));
            ParseAll(data[..k + 1]) == if last.Err? then Err(last.error) else Ok(ops + [last.value])
  {
    var next := data[..k + 1];
    assert next[..|next| - 1] == data[..k] && next[|next| - 1] == data[k];
  }

  lemma {:induction false} FailsFrom(data: seq<Serialized>, k: nat)
    requires k <= |data| && ParseAll(data[..k]).Err?
    ensures ParseAll(data).Err?
    decreases |data| - k
  {
    if k == |data| {
      assert data[..k] == data;
    } else {
      var next := data[..k + 1];
      assert next[..|next| - 1] == data[..k];
      FailsFrom(data, k + 1);
    }
  }

  // ---- round trip --------------------------------------------------------------------------

  ghost predicate AllConstructed(ops: seq<Op>) {
    forall k :: 0 <= k < |ops| ==> Constructed(ops[k])
  }

  /** `Graph.serialize`. */
  ghost function SerializeAll(g: seq<Op>): (r: seq<Serialized>)
    requires AllConstructed(g)
    ensures |r| == |g| && forall k :: 0 <= k < |g| ==> r[k] == Serialize(g[k])
  {
    seq(|g|, k requires 0 <= k < |g| => Serialize(g[k]))
  }

  /** Every operator survives, read with those before it. */
  ghost predicate AllKept(g: seq<Op>) {
    forall k :: 0 <= k < |g| ==> Kept(g[k], Elems(Ids(g[..k])))
  }

  /** A graph lists distinct operators, each after its inputs: exactly those that are linked to another one. */
  lemma GraphInOrder(ops: seq<Op>, g: seq<Op>)
    requires IsDict(ops) && IsGraphOf(ops, g)
    ensures Distinct(Ids(g)) && Elems(Ids(g)) == TS.Nodes(UseGraph(ops)) && InOrder(g)
  {
    TS.SortIsTopological(UseGraph(ops), None, Ids(g));
    hide TS.IsLayeredSort;
    forall k | 0 <= k < |g| ensures Elems(g[k].inputs) <= Elems(Ids(g[..k])) {
      forall d | d in Elems(g[k].inputs) ensures d in Elems(Ids(g[..k])) {
        assert g[k] in Elems(g) && g[k] in ops;
        var j :| 0 <= j < |ops| && ops[j] == g[k];
        assert d in UsedBy(ops) && g[k].id in Users(ops, d);
        assert d in TS.Preds(UseGraph(ops), Ids(g)[k]);
        assert d in Ids(g)[..k] && Ids(g[..k]) == Ids(g)[..k];
      }
    }
  }

  lemma GraphConstructed(ops: seq<Op>, g: seq<Op>)
    requires AllConstructed(ops) && IsGraphOf(ops, g)
    ensures AllConstructed(g)
  {
    hide TS.IsLayeredSort, Constructed;
    forall k | 0 <= k < |g| ensures Constructed(g[k]) {
      assert g[k] in Elems(g) && g[k] in ops;
    }
  }

  /** What operator `k` is read back as. */
  ghost predicate ReadAt(g: seq<Op>, loaded: seq<Op>, k: nat) {
    k < |g| && k < |loaded| && Constructed(g[k]) && Parse(Serialize(g[k]), Elems(Ids(g[..k]))) == Ok(loaded[k])
  }

  ghost predicate ReadFrom(g: seq<Op>, loaded: seq<Op>) {
    |loaded| == |g| && forall k :: 0 <= k < |g| ==> ReadAt(g, loaded, k)
  }

  lemma ReadSnoc(g: seq<Op>, loaded: seq<Op>, op: Op, read: Op)
    requires ReadFrom(g, loaded) && Constructed(op) && Parse(Serialize(op), Elems(Ids(g))) == Ok(read)
    ensures ReadFrom(g + [op], loaded + [read])
  {
    hide Parse, Serialize, Constructed, Elems;
    var all, after := g + [op], loaded + [read];
    forall k | 0 <= k < |all| ensures ReadAt(all, after, k) {
      assert all[..k] == g[..k];
      assert g[..|g|] == g;
      assert k < |g| ==> ReadAt(g, loaded, k);
    }
  }

  lemma {:induction false} SerializedLoads(g: seq<Op>)
    requires AllConstructed(g) && InOrder(g)
    ensures ParseAll(SerializeAll(g)).Ok? && ReadFrom(g, ParseAll(SerializeAll(g)).value)
    ensures Ids(ParseAll(SerializeAll(g)).value) == Ids(g)
  {
    if g != [] {
      hide Parse, Serialize, Constructed, Elems, ReadFrom;
      var n := |g| - 1;
      var init, last := g[..n], g[n];
      ShorterGraph(g);
      SerializedLoads(init);
      var before := ParseAll(SerializeAll(init)).value;
      ReadBackIff(last, Elems(Ids(init)));
      ParseCloses(Serialize(last), Elems(Ids(init)));
      var read := Parse(Serialize(last), Elems(Ids(init))).value;
      ReadSnoc(init, before, last, read);
      assert SerializeAll(g)[..n] == SerializeAll(init) && init + [last] == g;
      assert ParseAll(SerializeAll(g)) == Ok(before + [read]);
      assert Ids(g) == Ids(init) + [last.id] && Ids(before + [read]) == Ids(before) + [last.id];
    } else {
      assert SerializeAll(g) == [];
    }
  }

  lemma ShorterGraph(g: seq<Op>)
    requires AllConstructed(g) && InOrder(g) && g != []
    ensures AllConstructed(g[..|g| - 1]) && InOrder(g[..|g| - 1]) && Constructed(g[|g| - 1])
    ensures Elems(g[|g| - 1].inputs) <= Elems(Ids(g[..|g| - 1]))
  {
    hide Constructed, Elems;
    var init := g[..|g| - 1];
    assert forall k :: 0 <= k < |init| ==> init[k] == g[k] && init[..k] == g[..k];
  }

  /** Loading a serialized graph always succeeds. */
  lemma SerializedIsReadable(ops: seq<Op>, g: seq<Op>)
    requires IsDict(ops) && AllConstructed(ops) && UniqueNames(ops) && IsGraphOf(ops, g)
    ensures AllConstructed(g) && Distinct(Keys(SerializeAll(g)))
    ensures ParseAll(SerializeAll(g)).Ok? && UniqueNames(ParseAll(SerializeAll(g)).value)
  {
    GraphInOrder(ops, g);
    GraphConstructed(ops, g);
    SerializedLoads(g);
    assert Keys(SerializeAll(g)) == Ids(g);
    var loaded := ParseAll(SerializeAll(g)).value;
    hide TS.IsLayeredSort, InOrder, Constructed, Parse, Serialize, Elems;
    forall i, j | 0 <= i < j < |loaded| ensures !SameName(loaded[i], loaded[j]) {
      assert ReadAt(g, loaded, i) && ReadAt(g, loaded, j);
      NamedReadBack(g[i], Elems(Ids(g[..i])));
      NamedReadBack(g[j], Elems(Ids(g[..j])));
      assert !SameName(g[i], g[j]) by { DistinctNames(ops, g, i, j); }
    }
  }

  lemma DistinctNames(ops: seq<Op>, g: seq<Op>, i: nat, j: nat)
    requires UniqueNames(ops) && Elems(g) <= Elems(ops) && Distinct(Ids(g)) && i < j < |g|
    ensures !SameName(g[i], g[j])
  {
    assert g[i] in Elems(ops) && g[j] in Elems(ops);
    var a :| 0 <= a < |ops| && ops[a] == g[i];
    var b :| 0 <= b < |ops| && ops[b] == g[j];
    assert Ids(g)[i] != Ids(g)[j];
    assert if a < b then !SameName(ops[a], ops[b]) else !SameName(ops[b], ops[a]);
  }

  /** Serializing a graph and loading it gives the same operators (ids, ordered inputs, references, loop bounds and
      all), up to order, exactly when every operator is kept. */
  lemma RoundTripIff(ops: seq<Op>, g: seq<Op>, h: seq<Op>)
    requires IsDict(ops) && AllConstructed(ops) && IsGraphOf(ops, g)
    requires AllConstructed(g) && ParseAll(SerializeAll(g)).Ok? && IsGraphOf(ParseAll(SerializeAll(g)).value, h)
    ensures Elems(h) == Elems(g) <==> AllKept(g)
  {
    GraphInOrder(ops, g);
    SerializedLoads(g);
    var loaded := ParseAll(SerializeAll(g)).value;
    LoadedSame(g, loaded);
    hide InOrder, Constructed, Parse, Serialize, AllKept, ParseAll, TS.IsLayeredSort;
    if loaded == g {
      SameGraph(ops, g, h);
    } else {
      LostOp(g, loaded, h);
    }
  }

  lemma LoadedSame(g: seq<Op>, loaded: seq<Op>)
    requires InOrder(g) && ReadFrom(g, loaded)
    ensures loaded == g <==> AllKept(g)
  {
    hide Constructed, Parse, Serialize, Kept;
    forall k | 0 <= k < |g| ensures loaded[k] == g[k] <==> Kept(g[k], Elems(Ids(g[..k]))) {
      assert ReadAt(g, loaded, k);
      ReadBackIff(g[k], Elems(Ids(g[..k])));
    }
  }

  /** Making the graph again keeps all operators, since each of them is linked. */
  lemma SameGraph(ops: seq<Op>, g: seq<Op>, h: seq<Op>)
    requires IsDict(ops) && IsGraphOf(ops, g) && IsGraphOf(g, h)
    ensures Elems(h) == Elems(g)
  {
    hide TS.IsLayeredSort, InOrder, UseGraph, TS.Nodes, Elems;
    GraphInOrder(ops, g);
    OrderedIsDict(g);
    GraphInOrder(g, h);
    SameUses(ops, g);
    SameIdsSameOps(g, h);
  }

  lemma SameIdsSameOps(g: seq<Op>, h: seq<Op>)
    requires Distinct(Ids(g)) && Elems(h) <= Elems(g) && Elems(Ids(h)) == Elems(Ids(g))
    ensures Elems(h) == Elems(g)
  {
    forall x | x in Elems(g) ensures x in Elems(h) {
      var k :| 0 <= k < |g| && g[k] == x;
      assert Ids(g)[k] in Elems(Ids(h));
      var j :| 0 <= j < |h| && Ids(h)[j] == g[k].id;
      assert h[j] in Elems(g);
      var i :| 0 <= i < |g| && g[i] == h[j];
      assert Ids(g)[i] == Ids(g)[k];
    }
  }

  /** No operator of the dictionary with inputs or users was dropped, so no use was. */
  lemma SameUses(ops: seq<Op>, g: seq<Op>)
    requires Distinct(Ids(ops)) && Elems(g) <= Elems(ops) && Elems(Ids(g)) == TS.Nodes(UseGraph(ops))
    ensures TS.Nodes(UseGraph(g)) == TS.Nodes(UseGraph(ops))
  {
    assert UseGraph(g) == UseGraph(ops) by {
      forall d ensures Users(g, d) == Users(ops, d) {
        SameUsersOf(ops, g, d);
      }
      forall d ensures d in UsedBy(g) <==> d in UsedBy(ops) {
        UsedIff(g, d);
        UsedIff(ops, d);
      }
    }
  }

  lemma UsedIff(ops: seq<Op>, d: Id)
    ensures d in UsedBy(ops) <==> Users(ops, d) != {}
  {
    if d in UsedBy(ops) {
      var k :| 0 <= k < |ops| && d in ops[k].inputs;
      assert ops[k].id in Users(ops, d);
    }
  }

  lemma SameUsersOf(ops: seq<Op>, g: seq<Op>, d: Id)
    requires Distinct(Ids(ops)) && Elems(g) <= Elems(ops) && Elems(Ids(g)) == TS.Nodes(UseGraph(ops))
    ensures Users(g, d) == Users(ops, d)
  {
    forall x | x in Users(g, d) ensures x in Users(ops, d) {
      var k :| 0 <= k < |g| && d in g[k].inputs && g[k].id == x;
      assert g[k] in Elems(ops);
      var j :| 0 <= j < |ops| && ops[j] == g[k];
    }
    forall x | x in Users(ops, d) ensures x in Users(g, d) {
      var k :| 0 <= k < |ops| && d in ops[k].inputs && ops[k].id == x;
      assert d in UseGraph(ops) && x in UseGraph(ops)[d] && x in Elems(Ids(g));
      var j :| 0 <= j < |g| && Ids(g)[j] == x;
      assert g[j] in Elems(ops);
      var i :| 0 <= i < |ops| && ops[i] == g[j];
      assert Ids(ops)[i] == Ids(ops)[k];
    }
  }

  /** An operator that is read back differently is missing from what is loaded. */
  lemma LostOp(g: seq<Op>, loaded: seq<Op>, h: seq<Op>)
    requires Distinct(Ids(g)) && Ids(loaded) == Ids(g) && loaded != g && Elems(h) <= Elems(loaded)
    ensures Elems(h) != Elems(g)
  {
    assert |loaded| == |g|;
    var k :| 0 <= k < |g| && loaded[k] != g[k];
    assert g[k] in Elems(g);
    forall j | 0 <= j < |loaded| ensures loaded[j] != g[k] {
      assert Ids(loaded)[j] == Ids(g)[j] && (j != k ==> Ids(g)[j] != Ids(g)[k]);
    }
    assert g[k] !in Elems(h);
  }

  /** A user message with the text "d" after an operator with the id "d" comes back as a reference to it. */
  lemma TextCanBecomeReference()
    ensures exists ops :: Damaged(ops)
  {
    var d := Op("d", [], None, Data(["x"]));
    var messages := [O.OpMessage("user", O.Ref("d")), O.OpMessage("user", O.Literal("d"))];
    var m := Op("m", MessageInputs(messages), None, MessageBody(messages));
    MessageReadsBack("m", None, messages);
    assert Elems(m.inputs) <= {"d"} && m.body.refs[1] == Verbatim("d");
    assert AllConstructed([d, m]);
    hide MessageInputs, MessageBody, Constructed, IsDict, AllConstructed;
    DamagedBy(d, m);
  }

  lemma DamagedBy(d: Op, m: Op)
    requires AllConstructed([d, m]) && d.inputs == [] && d.body.Data? && d.id == "d" && m.id == "m"
    requires Elems(m.inputs) <= {"d"} && m.body.Message? && |m.body.refs| > 1 && m.body.refs[1] == Verbatim("d")
    ensures Damaged([d, m])
  {
    hide Constructed, IsDict, AllConstructed;
    var ops := [d, m];
    assert Ids(ops) == ["d", "m"] && Ids(ops[..1]) == ["d"] && ops[..0] == [];
    assert "d" in Elems(Ids(ops[..1]));
    assert !Kept(ops[1], Elems(Ids(ops[..1])));
    OrderedIsDict(ops);
  }

  /** A readable graph that its serialized form does not give back. */
  ghost predicate Damaged(ops: seq<Op>) {
    IsDict(ops) && InOrder(ops) && AllConstructed(ops) && UniqueNames(ops) && !AllKept(ops)
  }
}
