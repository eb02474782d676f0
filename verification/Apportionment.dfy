/** Sharing a batch's optimized nodes among its requests (runtime/server.py:2281-2306). */
module Apportionment {
  import opened Collections

  /** The whole share of one request; nothing when no request has raw nodes. */
  function Floor(total: nat, raw: nat, sum: nat): (r: nat) {
    if sum == 0 then 0 else total * raw / sum
  }

  ghost function Floors(total: nat, raws: seq<nat>, sum: nat): (r: seq<nat>)
    ensures |r| == |raws|
  {
    seq(|raws|, i requires 0 <= i < |raws| => Floor(total, raws[i], sum))
  }

  ghost function Scaled(total: nat, raws: seq<nat>): (r: seq<nat>)
    ensures |r| == |raws|
  {
    seq(|raws|, i requires 0 <= i < |raws| => total * raws[i])
  }

  /** Products by name, so that only the lemmas that need multiplication see it. */
  ghost function Times(a: nat, b: nat): (r: nat) {
    a * b
  }

  lemma Distribute(a: nat, b: nat, c: nat)
    ensures Times(a + b, c) == Times(a, c) + Times(b, c)
    ensures Times(c, a + b) == Times(c, a) + Times(c, b)
  {
  }

  lemma FloorBounds(total: nat, raw: nat, sum: nat)
    requires sum > 0
    ensures Times(Floor(total, raw, sum), sum) <= total * raw < Times(Floor(total, raw, sum) + 1, sum)
  {
    var product := total * raw;
    assert product == product / sum * sum + product % sum;
  }

  lemma {:induction false} ScaledSum(total: nat, raws: seq<nat>)
    ensures Sum(Scaled(total, raws)) == Times(total, Sum(raws))
  {
    if raws != [] {
      var n := |raws| - 1;
      ScaledSum(total, raws[..n]);
      assert Scaled(total, raws)[..n] == Scaled(total, raws[..n]);
      Distribute(Sum(raws[..n]), raws[n], total);
    }
  }

  /** The whole shares fall short of the scaled sum by less than one unit each. */
  lemma {:induction false} FloorsSum(total: nat, raws: seq<nat>, sum: nat)
    requires sum > 0
    ensures Times(Sum(Floors(total, raws, sum)), sum) <= Sum(Scaled(total, raws))
    ensures Sum(Scaled(total, raws)) <= Times(Sum(Floors(total, raws, sum)) + |raws|, sum)
    ensures raws != [] ==> Sum(Scaled(total, raws)) < Times(Sum(Floors(total, raws, sum)) + |raws|, sum)
  {
    if raws != [] {
      var n := |raws| - 1;
      FloorsSum(total, raws[..n], sum);
      FloorBounds(total, raws[n], sum);
      assert Floors(total, raws, sum)[..n] == Floors(total, raws[..n], sum);
      assert Scaled(total, raws)[..n] == Scaled(total, raws[..n]);
      var before, last := Sum(Floors(total, raws[..n], sum)), Floor(total, raws[n], sum);
      hide Times;
      Distribute(before, last, sum);
      Distribute(before + n, last + 1, sum);
    }
  }

  lemma {:induction false} ScaleUp(a: nat, b: nat, c: nat)
    requires a <= b
    ensures Times(a, c) <= Times(b, c)
  {
    if a < b {
      ScaleUp(a, b - 1, c);
      Distribute(b - 1, 1, c);
    }
  }

  lemma CancelFactor(a: nat, b: nat, c: nat)
    requires c > 0
    ensures Times(a, c) <= Times(b, c) ==> a <= b
    ensures Times(a, c) < Times(b, c) ==> a < b
  {
    if a > b {
      ScaleUp(b + 1, a, c);
      Distribute(b, 1, c);
    }
  }

  lemma FloorsBetween(total: nat, raws: seq<nat>, sum: nat)
    requires sum > 0 && sum == Sum(raws) && raws != []
    ensures Sum(Floors(total, raws, sum)) <= total < Sum(Floors(total, raws, sum)) + |raws|
  {
    hide Times, Scaled, Floors, Sum;
    FloorsSum(total, raws, sum);
    ScaledSum(total, raws);
    var floors := Sum(Floors(total, raws, sum));
    CancelFactor(floors, total, sum);
    CancelFactor(total, floors + |raws|, sum);
  }

  /** What the first loop leaves over is less than the number of requests. */
  lemma RemainderFits(total: nat, raws: seq<nat>)
    ensures Sum(Floors(total, raws, Sum(raws))) <= total
    ensures Sum(raws) > 0 ==> total - Sum(Floors(total, raws, Sum(raws))) < |raws|
    ensures Sum(raws) == 0 ==> Sum(Floors(total, raws, Sum(raws))) == 0
  {
    if Sum(raws) > 0 {
      assert raws != [];
      hide Floors, Sum;
      FloorsBetween(total, raws, Sum(raws));
    } else {
      NoFloors(total, raws);
    }
  }

  lemma {:induction false} NoFloors(total: nat, raws: seq<nat>)
    ensures Sum(Floors(total, raws, 0)) == 0
  {
    if raws != [] {
      NoFloors(total, raws[..|raws| - 1]);
      assert Floors(total, raws, 0)[..|raws| - 1] == Floors(total, raws[..|raws| - 1], 0);
    }
  }

  /** The shares: the whole parts, and one more for the first `extra` requests. */
  ghost predicate AreShares(total: nat, raws: seq<nat>, shares: seq<nat>, extra: nat) {
    |shares| == |raws| && extra <= |raws| && forall i :: 0 <= i < |raws| ==>
      shares[i] == Floor(total, raws[i], Sum(raws)) + if i < extra then 1 else 0
  }

  lemma {:induction false} SharesSum(total: nat, raws: seq<nat>, sum: nat, shares: seq<nat>, extra: nat)
    requires |shares| == |raws| && extra <= |raws|
    requires forall i :: 0 <= i < |raws| ==> shares[i] == Floor(total, raws[i], sum) + if i < extra then 1 else 0
    ensures Sum(shares) == Sum(Floors(total, raws, sum)) + extra
  {
    if raws != [] {
      var n := |raws| - 1;
      SharesSum(total, raws[..n], sum, shares[..n], if extra <= n then extra else n);
      assert Floors(total, raws, sum)[..n] == Floors(total, raws[..n], sum);
    }
  }

  /** The two loops over `request_order`: the first requests of the order get one more. Nothing is lost or invented as long as some request has raw
      nodes, or there are no more nodes than requests; each share is a floor or one more. */
  method Apportion(total: nat, raws: seq<nat>) returns (shares: seq<nat>)
    ensures |shares| == |raws|
    ensures forall i :: 0 <= i < |raws| ==>
      Floor(total, raws[i], Sum(raws)) <= shares[i] <= Floor(total, raws[i], Sum(raws)) + 1
    ensures Sum(shares) <= total
    ensures Sum(shares) == total <==> Sum(raws) > 0 || total <= |raws|
    ensures Sum(raws) == 0 ==> Sum(shares) == if total <= |raws| then total else |raws|
    ensures exists extra :: AreShares(total, raws, shares, extra)
  {
    var sum := 0;
    for i := 0 to |raws|
      invariant sum == Sum(raws[..i])
    {
      assert raws[..i + 1][..i] == raws[..i];
      sum := sum + raws[i];
    }
    assert raws[..|raws|] == raws;
    shares := [];
    var granted := 0;
    for i := 0 to |raws|
      invariant |shares| == i && granted == Sum(Floors(total, raws, sum)[..i])
      invariant forall j :: 0 <= j < i ==> shares[j] == Floor(total, raws[j], sum)
    {
      assert Floors(total, raws, sum)[..i + 1][..i] == Floors(total, raws, sum)[..i];
      var share := Floor(total, raws[i], sum);
      shares := shares + [share];
      granted := granted + share;
    }
    assert Floors(total, raws, sum)[..|raws|] == Floors(total, raws, sum);
    RemainderFits(total, raws);
    var remainder, extra := total - granted, 0;
    while extra < |raws| && remainder > 0
      invariant extra <= |raws| && remainder >= 0 && remainder + extra == total - granted
      invariant AreShares(total, raws, shares, extra)
    {
      shares := shares[extra := shares[extra] + 1];
      remainder, extra := remainder - 1, extra + 1;
    }
    SharesSum(total, raws, sum, shares, extra);
  }
}
