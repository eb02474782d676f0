/** The order in which a trace finishes its steps, told by the operators alone (runtime/runtime_graph.py:1563-1689). */
module StepOrder {
  import opened Collections
  import opened Ops
  import opened Lowering

  /** The steps after the trace of an op: a depth-first post-order of first visits, behind those in `s`. It needs no
      memo, as a second visit adds nothing (`Revisited`). */
  ghost function Post(sc: Scope, s: seq<Id>, id: Id): (r: seq<Id>)
    requires sc.Ranked() && id in sc.g
    decreases sc.rank(id), 1, 0
  {
    var before := PostAll(sc, s, Children(sc.g[id]), sc.rank(id));
    if IsStep(sc.g[id]) && id !in before then before + [id] else before
  }

  ghost function PostAll(sc: Scope, s: seq<Id>, ids: seq<Id>, bound: nat): (r: seq<Id>)
    requires sc.Ranked() && sc.Below(ids, bound)
    decreases bound, 0, |ids|
  {
    if ids == [] then s
    else Post(sc, PostAll(sc, s, ids[..|ids| - 1], bound), ids[|ids| - 1])
  }

  lemma PostNext(sc: Scope, s: seq<Id>, ids: seq<Id>, bound: nat, i: nat)
    requires sc.Ranked() && sc.Below(ids, bound) && i < |ids|
    ensures sc.Below(ids[..i], bound) && sc.Below(ids[..i + 1], bound) && ids[i] in sc.g
    ensures PostAll(sc, s, ids[..i + 1], bound) == Post(sc, PostAll(sc, s, ids[..i], bound), ids[i])
  {
    hide Scope.Ranked, Post;
    var more := ids[..i + 1];
    assert more[..|more| - 1] == ids[..i] && more[|more| - 1] == ids[i];
    assert ids[i] in ids;
  }

  lemma PostSnoc(sc: Scope, s: seq<Id>, ids: seq<Id>, c: Id, bound: nat)
    requires sc.Ranked() && sc.Below(ids, bound) && sc.Below(ids + [c], bound)
    ensures c in sc.g && PostAll(sc, s, ids + [c], bound) == Post(sc, PostAll(sc, s, ids, bound), c)
  {
    hide Scope.Ranked, Post, PostAll, Scope.Below;
    var more := ids + [c];
    assert more[..|ids|] == ids && more[..|ids| + 1] == more && more[|ids|] == c;
    PostNext(sc, s, more, bound, |ids|);
  }

  /** All steps that the op reaches are listed. */
  ghost predicate Listed(sc: Scope, s: seq<Id>, id: Id) {
    sc.Ranked() && id in sc.g && forall y :: y in Reach(sc, id) && IsStep(sc.g[y]) ==> y in s
  }

  lemma {:induction false} Revisited(sc: Scope, s: seq<Id>, id: Id)
    requires Listed(sc, s, id)
    ensures Post(sc, s, id) == s
    decreases sc.rank(id), 1, 0
  {
    hide Reach, Scope.Ranked, Children;
    forall c | c in Children(sc.g[id]) ensures Listed(sc, s, c) {
      ReachChild(sc, id, c);
    }
    assert sc.Below(Children(sc.g[id]), sc.rank(id)) by { ChildrenBelow(sc, id); }
    RevisitedAll(sc, s, Children(sc.g[id]), sc.rank(id));
    assert id in Reach(sc, id);
  }

  lemma ChildrenBelow(sc: Scope, id: Id)
    requires sc.Ranked() && id in sc.g
    ensures sc.Below(Children(sc.g[id]), sc.rank(id))
  {
    hide Children;
  }

  lemma {:induction false} RevisitedAll(sc: Scope, s: seq<Id>, ids: seq<Id>, bound: nat)
    requires sc.Ranked() && sc.Below(ids, bound) && forall c :: c in ids ==> Listed(sc, s, c)
    ensures PostAll(sc, s, ids, bound) == s
    decreases bound, 0, |ids|
  {
    hide Listed, Scope.Ranked, Post;
    if ids != [] {
      var n := |ids| - 1;
      RevisitedAll(sc, s, ids[..n], bound);
      Revisited(sc, s, ids[n]);
    }
  }

  lemma PostLeaf(sc: Scope, s: seq<Id>, id: Id)
    requires sc.Ranked() && id in sc.g && Children(sc.g[id]) == [] && !IsStep(sc.g[id])
    ensures Post(sc, s, id) == s
  {
    hide Scope.Ranked, Children;
  }

  lemma PostStep(sc: Scope, s: seq<Id>, id: Id)
    requires sc.Ranked() && id in sc.g
    ensures sc.Below(Children(sc.g[id]), sc.rank(id))
    ensures var before := PostAll(sc, s, Children(sc.g[id]), sc.rank(id));
            Post(sc, s, id) == if IsStep(sc.g[id]) && id !in before then before + [id] else before
  {
    hide PostAll;
  }
}
