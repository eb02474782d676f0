/** Shared vocabulary: failure values, duplicate-free sequences, sums and the stable sort
    that stands for Python's `sorted`. */
module Collections {

  datatype Option<+T> = None | Some(value: T)

  datatype Result<+T, +E> = Ok(value: T) | Err(error: E)

  // ---- duplicate-free sequences -----------------------------------------------------------

  ghost predicate Distinct<T(!new)>(s: seq<T>) {
    forall i, j :: 0 <= i < j < |s| ==> s[i] != s[j]
  }

  function Elems<T>(s: seq<T>): (r: set<T>) {
    set x | x in s
  }

  lemma {:induction false} DistinctSize<T(!new)>(s: seq<T>)
    requires Distinct(s)
    ensures |Elems(s)| == |s|
  {
    if s == [] {
    } else {
      DistinctSize(s[1..]);
      assert Elems(s) == {s[0]} + Elems(s[1..]);
      assert s[0] !in Elems(s[1..]);
    }
  }

  lemma ElemsAppend<T(!new)>(a: seq<T>, b: seq<T>)
    ensures Elems(a + b) == Elems(a) + Elems(b)
  {
    assert forall x :: x in a + b <==> x in a || x in b;
  }

  lemma ElemsSnoc<T(!new)>(s: seq<T>, i: nat)
    requires i < |s|
    ensures s[..i + 1] == s[..i] + [s[i]] && Elems(s[..i + 1]) == Elems(s[..i]) + {s[i]}
    ensures Distinct(s) ==> s[i] !in Elems(s[..i])
  {
    assert s[..i + 1] == s[..i] + [s[i]];
    ElemsAppend(s[..i], [s[i]]);
  }

  lemma SubsetSize<T>(a: set<T>, b: set<T>)
    requires a <= b
    ensures |a| <= |b|
    ensures |a| == |b| ==> a == b
  {
    assert b == a + (b - a);
    assert |b| == |a| + |b - a|;
  }

  /** More elements than values means a repeated value. */
  lemma {:induction false} Pigeonhole<T(!new)>(s: seq<T>, values: set<T>) returns (i: nat, j: nat)
    requires Elems(s) <= values
    requires |s| > |values|
    ensures i < j < |s| && s[i] == s[j]
  {
    if Distinct(s) {
      DistinctSize(s);
      SubsetSize(Elems(s), values);
      assert false;
    }
    i, j :| 0 <= i < j < |s| && s[i] == s[j];
  }

  /** Where the element first occurs; the length when it does not. */
  function Position<T(==)>(s: seq<T>, x: T): (r: nat)
    ensures r <= |s| && (r < |s| <==> x in s) && (r < |s| ==> s[r] == x)
  {
    if s == [] then 0
    else if s[0] == x then 0
    else
      assert x in s <==> x in s[1..];
      1 + Position(s[1..], x)
  }

  lemma {:induction false} PositionIs<T(!new)>(s: seq<T>, i: nat)
    requires Distinct(s) && i < |s|
    ensures Position(s, s[i]) == i
  {
    if i > 0 {
      PositionIs(s[1..], i - 1);
    }
  }

  /** The elements that are kept, in order. */
  function Keep<T(==, !new)>(s: seq<T>, keep: set<T>): (r: seq<T>)
    ensures forall x :: x in r <==> x in s && x in keep
  {
    if s == [] then []
    else Keep(s[..|s| - 1], keep) + if s[|s| - 1] in keep then [s[|s| - 1]] else []
  }

  // ---- stable sort by an integer key ------------------------------------------------------

  ghost predicate SortedBy<T>(s: seq<T>, key: T -> int) {
    forall i, j :: 0 <= i < j < |s| ==> key(s[i]) <= key(s[j])
  }

  function Insert<T>(x: T, s: seq<T>, key: T -> int): (r: seq<T>)
    requires SortedBy(s, key)
    ensures SortedBy(r, key) && multiset(r) == multiset(s) + multiset{x}
  {
    if s == [] || key(x) <= key(s[0]) then
      assert multiset([x] + s) == multiset([x]) + multiset(s);
      [x] + s
    else
      var rest := Insert(x, s[1..], key);
      assert SortedBy([s[0]] + rest, key) by { ConsSorted(s[0], s[1..], x, rest, key); }
      assert multiset(s) == multiset([s[0]]) + multiset(s[1..]) by { assert s == [s[0]] + s[1..]; }
      assert multiset([s[0]] + rest) == multiset([s[0]]) + multiset(rest);
      [s[0]] + rest
  }

  lemma ConsSorted<T>(head: T, tail: seq<T>, x: T, rest: seq<T>, key: T -> int)
    requires SortedBy(rest, key) && multiset(rest) == multiset(tail) + multiset{x}
    requires key(head) <= key(x) && (forall i :: 0 <= i < |tail| ==> key(head) <= key(tail[i]))
    ensures SortedBy([head] + rest, key)
  {
    forall j | 0 <= j < |rest| ensures key(head) <= key(rest[j]) {
      assert rest[j] in multiset(rest);
      assert rest[j] == x || rest[j] in multiset(tail);
    }
  }

  /** Python's `sorted(s, key=key)`. */
  function StableSort<T>(s: seq<T>, key: T -> int): (r: seq<T>)
    ensures SortedBy(r, key) && multiset(r) == multiset(s)
  {
    if s == [] then []
    else
      assert s == [s[0]] + s[1..];
      Insert(s[0], StableSort(s[1..], key), key)
  }

  lemma SameElements<T(!new)>(a: seq<T>, b: seq<T>)
    requires multiset(a) == multiset(b)
    ensures Elems(a) == Elems(b) && |a| == |b|
    ensures Distinct(b) ==> Distinct(a)
  {
    assert forall x :: x in a <==> x in multiset(a);
    assert forall x :: x in b <==> x in multiset(b);
    assert |multiset(a)| == |a| && |multiset(b)| == |b|;
    if Distinct(b) {
      DistinctCounts(b);
      CountsDistinct(a);
    }
  }

  lemma {:induction false} DistinctCounts<T(!new)>(s: seq<T>)
    requires Distinct(s)
    ensures forall x :: multiset(s)[x] <= 1
  {
    if s == [] {
    } else {
      DistinctCounts(s[1..]);
      assert s == [s[0]] + s[1..];
      assert s[0] !in s[1..];
      assert multiset(s[1..])[s[0]] == 0;
    }
  }

  lemma CountsDistinct<T(!new)>(s: seq<T>)
    requires forall x :: multiset(s)[x] <= 1
    ensures Distinct(s)
  {
    if i, j :| 0 <= i < j < |s| && s[i] == s[j] {
      assert s == s[..j] + [s[j]] + s[j + 1..];
      assert s[..j][i] == s[j];
      assert s[j] in multiset(s[..j]);
      assert multiset(s)[s[j]] >= 2;
    }
  }

  ghost predicate InjectiveOn<T(!new)>(key: T -> int, s: set<T>) {
    forall x, y :: x in s && y in s && key(x) == key(y) ==> x == y
  }

  lemma SameTail<T(!new)>(a: seq<T>, b: seq<T>)
    requires Distinct(a) && Distinct(b) && Elems(a) == Elems(b)
    requires a != [] && b != [] && a[0] == b[0]
    ensures Elems(a[1..]) == Elems(b[1..])
  {
    ElemsAppend([a[0]], a[1..]);
    ElemsAppend([b[0]], b[1..]);
    assert a == [a[0]] + a[1..] && b == [b[0]] + b[1..];
    assert a[0] !in Elems(a[1..]) && b[0] !in Elems(b[1..]);
    assert Elems(a[1..]) == Elems(a) - {a[0]} && Elems(b[1..]) == Elems(b) - {b[0]};
  }

  lemma SameHead<T(!new)>(a: seq<T>, b: seq<T>, key: T -> int)
    requires Elems(a) == Elems(b) && a != [] && b != []
    requires SortedBy(a, key) && SortedBy(b, key) && InjectiveOn(key, Elems(a))
    ensures a[0] == b[0]
  {
    assert a[0] in Elems(b) && b[0] in Elems(a);
    var i :| 0 <= i < |b| && b[i] == a[0];
    var j :| 0 <= j < |a| && a[j] == b[0];
    assert key(b[0]) <= key(b[i]) && key(a[0]) <= key(a[j]);
  }

  /** A set has one arrangement in increasing order of an injective key. */
  lemma {:induction false} SortedUnique<T(!new)>(a: seq<T>, b: seq<T>, key: T -> int)
    requires Distinct(a) && Distinct(b) && Elems(a) == Elems(b)
    requires SortedBy(a, key) && SortedBy(b, key) && InjectiveOn(key, Elems(a))
    ensures a == b
  {
    DistinctSize(a);
    DistinctSize(b);
    if a != [] {
      SameHead(a, b, key);
      SameTail(a, b);
      assert Elems(a[1..]) <= Elems(a);
      SortedUnique(a[1..], b[1..], key);
      assert a == [a[0]] + a[1..] && b == [b[0]] + b[1..];
    }
  }

  // ---- sums -------------------------------------------------------------------------------

  function Sum(s: seq<nat>): (r: nat) {
    if s == [] then 0 else Sum(s[..|s| - 1]) + s[|s| - 1]
  }

  /** The sum of a weight over a set. */
  ghost function Weight<T(!new)>(s: set<T>, w: map<T, nat>): (r: nat)
    requires s <= w.Keys
  {
    if s == {} then 0
    else
      var x :| x in s;
      w[x] + Weight(s - {x}, w)
  }

  lemma {:induction false} WeightRemove<T(!new)>(s: set<T>, w: map<T, nat>, x: T)
    requires s <= w.Keys && x in s
    ensures Weight(s, w) == w[x] + Weight(s - {x}, w)
  {
    var y :| y in s && Weight(s, w) == w[y] + Weight(s - {y}, w);
    if x != y {
      WeightRemove(s - {y}, w, x);
      WeightRemove(s - {x}, w, y);
      assert s - {y} - {x} == s - {x} - {y};
    }
  }

  lemma WeightAdd<T(!new)>(s: set<T>, w: map<T, nat>, x: T)
    requires s <= w.Keys && x in w && x !in s
    ensures Weight(s + {x}, w) == Weight(s, w) + w[x]
  {
    WeightRemove(s + {x}, w, x);
    assert s + {x} - {x} == s;
  }

  lemma {:induction false} WeightMonotone<T(!new)>(a: set<T>, b: set<T>, w: map<T, nat>)
    requires a <= b <= w.Keys
    ensures Weight(a, w) <= Weight(b, w)
  {
    if a != {} {
      var x :| x in a;
      WeightRemove(a, w, x);
      WeightRemove(b, w, x);
      WeightMonotone(a - {x}, b - {x}, w);
    }
  }

  lemma {:induction false} WeightSame<T(!new)>(s: set<T>, v: map<T, nat>, w: map<T, nat>)
    requires s <= v.Keys && s <= w.Keys && forall x :: x in s ==> v[x] == w[x]
    ensures Weight(s, v) == Weight(s, w)
  {
    if s != {} {
      var x :| x in s;
      WeightRemove(s, v, x);
      WeightRemove(s, w, x);
      WeightSame(s - {x}, v, w);
    }
  }

  lemma {:induction false} WeightUnion<T(!new)>(a: set<T>, b: set<T>, w: map<T, nat>)
    requires a !! b && a + b <= w.Keys
    ensures Weight(a + b, w) == Weight(a, w) + Weight(b, w)
  {
    if b == {} {
      assert a + b == a;
    } else {
      var x :| x in b;
      WeightUnion(a, b - {x}, w);
      WeightRemove(b, w, x);
      WeightRemove(a + b, w, x);
      assert a + b - {x} == a + (b - {x});
    }
  }
}
