/** The emission loops of the two workflow parsers (parser/yaml_parser.py:226-284, parser/n8n.py:153-257):
    both resolve the least fixpoint of their dependencies, in whatever order they visit. */
module Worklists {
  import opened Collections

  type Id = string

  /** What each name depends on. */
  type Deps = map<Id, set<Id>>

  // ---- the least fixpoint ------------------------------------------------------------------

  /** Everything whose dependencies are available is in the set. */
  ghost predicate Closed(deps: Deps, known: set<Id>, s: set<Id>) {
    forall n :: n in deps && deps[n] <= known + s ==> n in s
  }

  /** The names that can be resolved: closed, and in every closed set. */
  ghost predicate IsResolvable(deps: Deps, known: set<Id>, s: set<Id>) {
    s <= deps.Keys && Closed(deps, known, s) && forall t :: Closed(deps, known, t) ==> s <= t
  }

  /** There is one least fixpoint, so the order of visits cannot show in it. */
  lemma ResolvableUnique(deps: Deps, known: set<Id>, s: set<Id>, t: set<Id>)
    requires IsResolvable(deps, known, s) && IsResolvable(deps, known, t)
    ensures s == t
  {
    assert s <= t && t <= s;
  }

  /** Every name comes after its dependencies. */
  ghost predicate InOrder(deps: Deps, known: set<Id>, order: seq<Id>) {
    Distinct(order) && forall j :: 0 <= j < |order| ==> order[j] in deps && deps[order[j]] <= known + Elems(order[..j])
  }

  /** Names in order are resolvable, whichever they are. */
  lemma {:induction false} InOrderIsResolvable(deps: Deps, known: set<Id>, order: seq<Id>, t: set<Id>)
    requires InOrder(deps, known, order) && Closed(deps, known, t)
    ensures Elems(order) <= t
  {
    if order != [] {
      var n := |order| - 1;
      forall j | 0 <= j < n ensures order[..n][j] in deps && deps[order[..n][j]] <= known + Elems(order[..n][..j]) {
        assert order[..n][..j] == order[..j];
      }
      InOrderIsResolvable(deps, known, order[..n], t);
      ElemsSnoc(order, n);
      assert order[..n + 1] == order;
      assert deps[order[n]] <= known + t;
    }
  }

  /** In order and stuck: everything resolvable was resolved. */
  lemma StuckIsResolvable(deps: Deps, known: set<Id>, order: seq<Id>)
    requires InOrder(deps, known, order)
    requires forall n :: n in deps && n !in Elems(order) ==> !(deps[n] <= known + Elems(order))
    ensures IsResolvable(deps, known, Elems(order))
  {
    assert forall j :: 0 <= j < |order| ==> order[j] in deps;
    forall t | Closed(deps, known, t) ensures Elems(order) <= t {
      InOrderIsResolvable(deps, known, order, t);
    }
  }

  lemma OrderGrows(deps: Deps, known: set<Id>, order: seq<Id>, n: Id)
    requires InOrder(deps, known, order) && n in deps && n !in Elems(order) && deps[n] <= known + Elems(order)
    ensures InOrder(deps, known, order + [n]) && Elems(order + [n]) == Elems(order) + {n}
  {
    var more := order + [n];
    ElemsAppend(order, [n]);
    forall j | 0 <= j < |more| ensures more[j] in deps && deps[more[j]] <= known + Elems(more[..j]) {
      assert j < |order| ==> more[..j] == order[..j];
      assert j == |order| ==> more[..j] == order;
    }
    forall i | 0 <= i < |order| ensures order[i] != n {
      assert order[i] in Elems(order);
    }
  }

  // ---- the n8n loop ------------------------------------------------------------------------

  datatype Unresolved = Unresolved(names: set<Id>)

  /** The loop of `_parse_n8n_workflow`. A pass visits the pending names in an order the program does not
      control; `known` are the names resolved beforehand, and a name that is neither is never resolved. */
  method ResolveNodes(deps: Deps, known: set<Id>) returns (r: Result<seq<Id>, Unresolved>)
    requires known !! deps.Keys
    ensures r.Ok? <==> IsResolvable(deps, known, deps.Keys)
    ensures r.Ok? ==> InOrder(deps, known, r.value) && Elems(r.value) == deps.Keys
    ensures r.Err? ==> IsResolvable(deps, known, deps.Keys - r.error.names) && {} < r.error.names <= deps.Keys
  {
    var order: seq<Id> := [];
    var pending := deps.Keys;
    while pending != {}
      invariant InOrder(deps, known, order) && Elems(order) == deps.Keys - pending && pending <= deps.Keys
      decreases pending
    {
      var progress := false;
      ghost var before := pending;
      var visit := pending;
      while visit != {}
        invariant InOrder(deps, known, order) && Elems(order) == deps.Keys - pending
        invariant visit <= pending <= before && (progress <==> pending < before)
        invariant !progress ==> forall n :: n in pending - visit ==> !(deps[n] <= known + Elems(order))
      {
        var n :| n in visit;
        visit := visit - {n};
        if exists d :: d in deps[n] && d in pending {
          continue;
        }
        if exists d :: d in deps[n] && d !in known + Elems(order) {
          continue;
        }
        assert deps[n] <= known + Elems(order);
        OrderGrows(deps, known, order, n);
        order := order + [n];
        pending := pending - {n};
        progress := true;
      }
      if !progress {
        StuckIsResolvable(deps, known, order);
        assert Elems(order) == deps.Keys - pending;
        NotAllResolvable(deps, known, Elems(order));
        return Err(Unresolved(pending));
      }
    }
    StuckIsResolvable(deps, known, order);
    r := Ok(order);
  }

  lemma NotAllResolvable(deps: Deps, known: set<Id>, s: set<Id>)
    requires IsResolvable(deps, known, s) && s != deps.Keys
    ensures !IsResolvable(deps, known, deps.Keys)
  {
    if IsResolvable(deps, known, deps.Keys) {
      ResolvableUnique(deps, known, s, deps.Keys);
      assert false;
    }
  }

  // ---- the YAML loop -----------------------------------------------------------------------

  /** An operator of the document: its name and the names it lists as inputs. */
  datatype Entry = Entry(name: Id, inputs: seq<Id>)

  datatype YamlError = DuplicateId(name: Id) | UnknownId(name: Id) | Cycle(names: set<Id>)

  ghost function Names(entries: seq<Entry>): (r: set<Id>) {
    set i | 0 <= i < |entries| :: entries[i].name
  }

  ghost predicate DistinctNames(entries: seq<Entry>, inputs: set<Id>) {
    (forall i :: 0 <= i < |entries| ==> entries[i].name !in inputs) &&
    forall i, j :: 0 <= i < j < |entries| ==> entries[i].name != entries[j].name
  }

  ghost predicate RefsKnown(entries: seq<Entry>, inputs: set<Id>) {
    forall i :: 0 <= i < |entries| ==> Elems(entries[i].inputs) <= inputs + Names(entries)
  }

  ghost function DepsOf(entries: seq<Entry>): (r: Deps)
    ensures r.Keys == Names(entries)
  {
    if entries == [] then map[]
    else
      var n := |entries| - 1;
      NamesNext(entries, n);
      DepsOf(entries[..n])[entries[n].name := Elems(entries[n].inputs)]
  }

  lemma NamesNext(entries: seq<Entry>, i: nat)
    requires i < |entries|
    ensures Names(entries[..i + 1]) == Names(entries[..i]) + {entries[i].name}
    ensures i + 1 == |entries| ==> Names(entries) == Names(entries[..i]) + {entries[i].name}
  {
    var a, b := Names(entries[..i + 1]), Names(entries[..i]);
    forall x | x in b ensures x in a {
      var j :| 0 <= j < i && entries[..i][j].name == x;
      assert entries[..i + 1][j].name == x;
    }
    forall x | x in a ensures x in b + {entries[i].name} {
      var j :| 0 <= j < i + 1 && entries[..i + 1][j].name == x;
      assert j < i ==> entries[..i][j].name == x;
    }
    assert entries[..i + 1][i].name in a;
    assert i + 1 == |entries| ==> entries[..i + 1] == entries;
  }

  lemma {:induction false} DepsOfAt(entries: seq<Entry>, i: nat)
    requires i < |entries| && forall j, k :: 0 <= j < k < |entries| ==> entries[j].name != entries[k].name
    ensures entries[i].name in DepsOf(entries) && DepsOf(entries)[entries[i].name] == Elems(entries[i].inputs)
  {
    if i < |entries| - 1 {
      DepsOfAt(entries[..|entries| - 1], i);
    }
  }

  /** Registering the names: inputs first, then operators. */
  method RegisterNames(entries: seq<Entry>, inputs: set<Id>) returns (r: Result<set<Id>, YamlError>)
    ensures r.Ok? <==> DistinctNames(entries, inputs)
    ensures r.Ok? ==> r.value == inputs + Names(entries)
    ensures r.Err? ==> r.error.DuplicateId?
  {
    var names := inputs;
    assert Names(entries[..0]) == {};
    for i := 0 to |entries|
      invariant names == inputs + Names(entries[..i]) && DistinctNames(entries[..i], inputs)
    {
      NamesNext(entries, i);
      var name := entries[i].name;
      if name in names {
        Repeated(entries, inputs, i);
        return Err(DuplicateId(name));
      }
      assert forall j :: 0 <= j < i ==> entries[..i][j].name in Names(entries[..i]);
      names := names + {name};
    }
    assert entries[..|entries|] == entries;
    r := Ok(names);
  }

  lemma Repeated(entries: seq<Entry>, inputs: set<Id>, i: nat)
    requires i < |entries| && entries[i].name in inputs + Names(entries[..i])
    ensures !DistinctNames(entries, inputs)
  {
    if entries[i].name in Names(entries[..i]) {
      var j :| 0 <= j < i && entries[..i][j].name == entries[i].name;
    }
  }

  predicate KnownRefs(e: Entry, names: set<Id>) {
    forall ref :: ref in e.inputs ==> ref in names
  }

  /** Some reference is still pending. */
  predicate Waits(e: Entry, pending: set<Id>) {
    exists ref :: ref in e.inputs && ref in pending
  }

  lemma ReadyIffNotWaiting(entries: seq<Entry>, inputs: set<Id>, i: nat, pending: set<Id>, order: seq<Id>)
    requires i < |entries| && DistinctNames(entries, inputs) && KnownRefs(entries[i], inputs + Names(entries))
    requires Elems(order) == Names(entries) - pending && pending <= Names(entries)
    ensures entries[i].name in Names(entries) && entries[i].name in DepsOf(entries)
    ensures DepsOf(entries)[entries[i].name] <= inputs + Elems(order) <==> !Waits(entries[i], pending)
  {
    DepsOfAt(entries, i);
    assert forall ref :: ref in entries[i].inputs <==> ref in Elems(entries[i].inputs);
    forall ref | ref in pending ensures ref !in inputs {
      var j :| 0 <= j < |entries| && entries[j].name == ref;
    }
  }

  /** One pass: the pending operators in document order; those whose references are resolved are emitted. */
  method OnePass(entries: seq<Entry>, inputs: set<Id>, names: set<Id>, before: seq<Id>, waiting: set<Id>)
    returns (r: Result<(seq<Id>, set<Id>), YamlError>)
    requires DistinctNames(entries, inputs) && names == inputs + Names(entries)
    requires InOrder(DepsOf(entries), inputs, before) && Elems(before) == Names(entries) - waiting && waiting <= Names(entries)
    requires forall i :: 0 <= i < |entries| && entries[i].name !in waiting ==> KnownRefs(entries[i], names)
    ensures r.Err? <==> exists i :: 0 <= i < |entries| && !KnownRefs(entries[i], names)
    ensures r.Err? ==> r.error.UnknownId?
    ensures r.Ok? ==> InOrder(DepsOf(entries), inputs, r.value.0) && Elems(r.value.0) == Names(entries) - r.value.1
    ensures r.Ok? ==> r.value.1 <= waiting
    ensures r.Ok? && r.value.1 == waiting ==> forall i :: 0 <= i < |entries| && entries[i].name in waiting ==>
              !(DepsOf(entries)[entries[i].name] <= inputs + Elems(r.value.0))
  {
    hide InOrder, DepsOf, Distinct, KnownRefs, Waits, Names, Elems;
    ghost var deps := DepsOf(entries);
    var order, pending := before, waiting;
    for i := 0 to |entries|
      invariant InOrder(deps, inputs, order) && Elems(order) == Names(entries) - pending && pending <= waiting
      invariant forall j :: i <= j < |entries| && entries[j].name in waiting ==> entries[j].name in pending
      invariant forall j :: 0 <= j < i ==> KnownRefs(entries[j], names)
      invariant pending == waiting ==> forall j :: 0 <= j < i && entries[j].name in waiting ==>
                  !(deps[entries[j].name] <= inputs + Elems(order))
    {
      var e := entries[i];
      if e.name !in pending {
        continue;
      }
      if !KnownRefs(e, names) {
        return Err(UnknownId(e.name));
      }
      ReadyIffNotWaiting(entries, inputs, i, pending, order);
      if Waits(e, pending) {
        continue;
      }
      OrderGrows(deps, inputs, order, e.name);
      order, pending := order + [e.name], pending - {e.name};
    }
    r := Ok((order, pending));
  }

  /** The loop of `_compile_workflow`: the document compiles exactly when its names are distinct and known and
      all of them can be resolved; otherwise each name that is left waits for a name that is left. */
  method OrderEntries(entries: seq<Entry>, inputs: set<Id>) returns (r: Result<seq<Id>, YamlError>)
    ensures r.Err? && r.error.DuplicateId? <==> !DistinctNames(entries, inputs)
    ensures r.Err? && r.error.UnknownId? <==> DistinctNames(entries, inputs) && !RefsKnown(entries, inputs)
    ensures r.Ok? <==> DistinctNames(entries, inputs) && RefsKnown(entries, inputs) &&
                       IsResolvable(DepsOf(entries), inputs, Names(entries))
    ensures r.Ok? ==> InOrder(DepsOf(entries), inputs, r.value) && Elems(r.value) == Names(entries)
    ensures r.Err? && r.error.Cycle? ==> WaitForEachOther(DepsOf(entries), r.error.names)
    ensures r.Err? && r.error.Cycle? ==> IsResolvable(DepsOf(entries), inputs, Names(entries) - r.error.names)
  {
    var registered := RegisterNames(entries, inputs);
    if registered.Err? {
      return Err(registered.error);
    }
    ghost var deps := DepsOf(entries);
    var names := registered.value;
    var pending := names - inputs;
    var order: seq<Id> := [];
    RegisteredPending(entries, inputs);
    while pending != {}
      invariant pending <= Names(entries) && InOrder(deps, inputs, order) && Elems(order) == Names(entries) - pending
      invariant forall i :: 0 <= i < |entries| && entries[i].name !in pending ==> KnownRefs(entries[i], names)
      decreases pending
    {
      var pass := OnePass(entries, inputs, names, order, pending);
      RefsKnownIff(entries, inputs, names);
      if pass.Err? {
        return Err(pass.error);
      }
      order := pass.value.0;
      if pass.value.1 == pending {
        NothingMore(entries, inputs, order, pending);
        return Err(Cycle(pending));
      }
      pending := pass.value.1;
    }
    RefsKnownIff(entries, inputs, names);
    assert forall i :: 0 <= i < |entries| ==> entries[i].name in Names(entries);
    StuckIsResolvable(deps, inputs, order);
    r := Ok(order);
  }

  lemma RegisteredPending(entries: seq<Entry>, inputs: set<Id>)
    requires DistinctNames(entries, inputs)
    ensures inputs + Names(entries) - inputs == Names(entries)
    ensures forall i :: 0 <= i < |entries| ==> entries[i].name in Names(entries)
  {
  }

  lemma RefsKnownIff(entries: seq<Entry>, inputs: set<Id>, names: set<Id>)
    requires names == inputs + Names(entries)
    ensures RefsKnown(entries, inputs) <==> forall i :: 0 <= i < |entries| ==> KnownRefs(entries[i], names)
  {
    forall i | 0 <= i < |entries| ensures Elems(entries[i].inputs) <= names <==> KnownRefs(entries[i], names) {
      assert forall ref :: ref in entries[i].inputs <==> ref in Elems(entries[i].inputs);
    }
  }

  /** Every unresolved name depends on an unresolved name. */
  ghost predicate WaitForEachOther(deps: Deps, left: set<Id>) {
    left != {} && left <= deps.Keys && forall n :: n in left ==> deps[n] * left != {}
  }

  lemma NothingMore(entries: seq<Entry>, inputs: set<Id>, order: seq<Id>, pending: set<Id>)
    requires DistinctNames(entries, inputs) && RefsKnown(entries, inputs) && {} < pending <= Names(entries)
    requires InOrder(DepsOf(entries), inputs, order) && Elems(order) == Names(entries) - pending
    requires forall i :: 0 <= i < |entries| && entries[i].name in pending ==>
               !(DepsOf(entries)[entries[i].name] <= inputs + Elems(order))
    ensures WaitForEachOther(DepsOf(entries), pending)
    ensures IsResolvable(DepsOf(entries), inputs, Names(entries) - pending)
    ensures !IsResolvable(DepsOf(entries), inputs, Names(entries))
  {
    var deps := DepsOf(entries);
    forall n | n in pending ensures deps[n] * pending != {} && !(deps[n] <= inputs + Elems(order)) {
      var i :| 0 <= i < |entries| && entries[i].name == n;
      DepsOfAt(entries, i);
      var d :| d in deps[n] && d !in inputs + Elems(order);
      assert d in deps[n] * pending;
    }
    StuckIsResolvable(deps, inputs, order);
    NotAllResolvable(deps, inputs, Elems(order));
  }
}
