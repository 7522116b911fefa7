/** The helpers the engine shares: the memoised factorial, the Fisher–Yates
    shuffle of the coordinates and the memoised symmetric distance oracle. */
module Util {
  import opened Geometry

  /** n! over the naturals. */
  function Fact(n: nat): (r: nat)
    ensures r >= 1
    ensures r >= n
  {
    if n <= 1 then 1 else n * Fact(n - 1)
  }

  /** The module-wide memo of factorials: a map seeded with 0! and 1! that
      every call with a new argument extends by one entry. */
  class FactorialMemo {
    var memo: map<nat, nat>

    ghost predicate Valid()
      reads this
    {
      0 in memo && 1 in memo && forall n :: n in memo ==> memo[n] == Fact(n)
    }

    constructor ()
      ensures Valid() && memo == map[0 := 1, 1 := 1]
    {
      memo := map[0 := 1, 1 := 1];
    }

    /** The memoised answer equals the computed one, so the memo only grows
        and repeated calls agree. */
    method Factorial(num: nat) returns (r: nat)
      requires Valid()
      modifies this
      ensures Valid()
      ensures r == Fact(num)
      ensures memo == old(memo)[num := r]
      ensures old(memo).Keys <= memo.Keys && |memo.Keys - old(memo).Keys| <= 1
    {
      if num in memo {
        return memo[num];
      }
      var result := 1;
      var i := 2;
      while i <= num
        invariant 2 <= i <= num + 1
        invariant result == Fact(i - 1)
      {
        result := result * i;
        i := i + 1;
      }
      memo := memo[num := result];
      assert memo.Keys - old(memo).Keys == {num};
      return result;
    }
  }

  // ---------------------------------------------------------------------
  // Fisher–Yates

  function Swap(s: seq<Point>, i: nat, j: nat): (r: seq<Point>)
    requires i < |s| && j < |s|
  {
    s[i := s[j]][j := s[i]]
  }

  lemma SwapPermutes(s: seq<Point>, i: nat, j: nat)
    requires i < |s| && j < |s|
    ensures |Swap(s, i, j)| == |s| && multiset(Swap(s, i, j)) == multiset(s)
  {
  }

  /** The draws of one shuffle: the k-th step, for position i = len - 1 - k,
      draws j = Math.floor(Math.random() * (i + 1)), some j in [0, i]. */
  predicate ShuffleDraws(js: seq<nat>, len: nat)
  {
    && |js| == (if len == 0 then 0 else len - 1)
    && forall k :: 0 <= k < |js| ==> js[k] <= len - 1 - k
  }

  /** The steps for positions i, i - 1, ..., 1, each swapping position i
      with the drawn j <= i. */
  function ShuffleFrom(s: seq<Point>, i: nat, js: seq<nat>): seq<Point>
    requires |js| == i && (i == 0 || i < |s|)
    requires forall k :: 0 <= k < |js| ==> js[k] <= i - k
    decreases i
  {
    if i == 0 then s else ShuffleFrom(Swap(s, i, js[0]), i - 1, js[1..])
  }

  function FisherYates(s: seq<Point>, js: seq<nat>): seq<Point>
    requires ShuffleDraws(js, |s|)
  {
    ShuffleFrom(s, if |s| == 0 then 0 else |s| - 1, js)
  }

  lemma {:induction false} ShuffleFromPermutes(s: seq<Point>, i: nat, js: seq<nat>)
    requires |js| == i && (i == 0 || i < |s|)
    requires forall k :: 0 <= k < |js| ==> js[k] <= i - k
    ensures |ShuffleFrom(s, i, js)| == |s|
    ensures multiset(ShuffleFrom(s, i, js)) == multiset(s)
    decreases i
  {
    if i > 0 {
      SwapPermutes(s, i, js[0]);
      ShuffleFromPermutes(Swap(s, i, js[0]), i - 1, js[1..]);
    }
  }

  /** The steps still to come never touch the positions above the current
      one: once position i has been swapped it is final. */
  lemma {:induction false} ShuffleFromKeepsAbove(s: seq<Point>, i: nat, js: seq<nat>, k: nat)
    requires |js| == i && (i == 0 || i < |s|)
    requires forall t :: 0 <= t < |js| ==> js[t] <= i - t
    requires i < k < |s|
    ensures |ShuffleFrom(s, i, js)| == |s| && ShuffleFrom(s, i, js)[k] == s[k]
    decreases i
  {
    if i > 0 {
      ShuffleFromKeepsAbove(Swap(s, i, js[0]), i - 1, js[1..], k);
    }
  }

  /** A shuffle is a permutation of its input. */
  lemma FisherYatesPermutes(s: seq<Point>, js: seq<nat>)
    requires ShuffleDraws(js, |s|)
    ensures |FisherYates(s, js)| == |s|
    ensures multiset(FisherYates(s, js)) == multiset(s)
  {
    ShuffleFromPermutes(s, if |s| == 0 then 0 else |s| - 1, js);
  }

  /** The first step settles the last position: it receives the point at
      the first drawn index. */
  lemma FisherYatesLast(s: seq<Point>, js: seq<nat>)
    requires ShuffleDraws(js, |s|) && |s| >= 2
    ensures |FisherYates(s, js)| == |s|
    ensures FisherYates(s, js)[|s| - 1] == s[js[0]]
  {
    var n := |s|;
    FisherYatesPermutes(s, js);
    if n > 2 {
      ShuffleFromKeepsAbove(Swap(s, n - 1, js[0]), n - 2, js[1..], n - 1);
    } else {
      assert js[1..] == [];
    }
  }

  /** shuffleCoordinates: copy the coordinates, then swap position i with a
      drawn j in [0, i] for i from len - 1 down to 1. The input is a value
      and is left as it was. */
  method ShuffleCoordinates(coordinates: seq<Point>, js: seq<nat>) returns (shuffled: seq<Point>)
    requires ShuffleDraws(js, |coordinates|)
    ensures shuffled == FisherYates(coordinates, js)
    ensures |shuffled| == |coordinates| && multiset(shuffled) == multiset(coordinates)
  {
    var a := new Point[|coordinates|](k requires 0 <= k < |coordinates| => coordinates[k]);
    assert a[..] == coordinates;
    var i := a.Length - 1;
    var step := 0;
    while i > 0
      invariant -1 <= i < a.Length
      invariant step == a.Length - 1 - i || (a.Length == 0 && step == 0)
      invariant 0 <= step <= |js|
      invariant i >= 0 ==> |js[step..]| == i
      invariant ShuffleFrom(a[..], if i < 0 then 0 else i, js[step..]) == FisherYates(coordinates, js)
    {
      var j := js[step];
      assert ShuffleFrom(a[..], i, js[step..]) == ShuffleFrom(Swap(a[..], i, j), i - 1, js[step + 1..]) by {
        assert js[step..][1..] == js[step + 1..];
      }
      a[i], a[j] := a[j], a[i];
      i := i - 1;
      step := step + 1;
    }
    shuffled := a[..];
    FisherYatesPermutes(coordinates, js);
  }

  // ---------------------------------------------------------------------
  // The distance oracle

  /** The memoised distance between two points. A lookup tries the key
      (a, b), then the key (b, a), and only on a miss computes the distance
      and stores it under (a, b). */
  class DistanceOracle {
    const base: Metric
    var cache: map<(Point, Point), real>

    ghost predicate Valid()
      reads this
    {
      && Symmetric(base) && NonNegative(base)
      // every cached value is the underlying distance of its pair
      && (forall k :: k in cache ==> cache[k] == base(k.0, k.1))
      // at most one orientation of any pair of two different points is stored
      && (forall k :: k in cache && k.0 != k.1 ==> (k.1, k.0) !in cache)
    }

    constructor (base: Metric)
      requires Symmetric(base) && NonNegative(base)
      ensures Valid() && this.base == base && cache == map[]
    {
      this.base := base;
      cache := map[];
    }

    /** Symmetric and faithful: the answer is the underlying distance of
        the pair in either orientation, whether cached or computed; a miss
        adds the forward key only. */
    method Calc(pointA: Point, pointB: Point) returns (r: real)
      requires Valid()
      modifies this
      ensures Valid()
      ensures r == base(pointA, pointB) && r == base(pointB, pointA)
      ensures cache == if (pointA, pointB) in old(cache) || (pointB, pointA) in old(cache) then old(cache)
                       else old(cache)[(pointA, pointB) := r]
    {
      var forwardKey := (pointA, pointB);
      var reverseKey := (pointB, pointA);
      if forwardKey in cache {
        return cache[forwardKey];
      }
      if reverseKey in cache {
        return cache[reverseKey];
      }
      var distance := base(pointA, pointB);
      cache := cache[forwardKey := distance];
      return distance;
    }
  }
}
