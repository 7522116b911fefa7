/** Points of the plane, the abstract distance between two of them, and the
    length of a closed tour through a sequence of points. */
module Geometry {

  /** A point; two points are the same point exactly when their coordinates
      are equal (the source compares points through a string of their
      coordinates). */
  datatype Point = Point(x: real, y: real)

  /** The underlying distance between two points. The source uses the
      Euclidean norm; here it is any function of this shape. */
  type Metric = (Point, Point) -> real

  ghost predicate Symmetric(d: Metric)
  {
    forall a: Point, b: Point :: d(a, b) == d(b, a)
  }

  ghost predicate NonNegative(d: Metric)
  {
    forall a: Point, b: Point :: 0.0 <= d(a, b)
  }

  /** No point occurs twice. */
  predicate Distinct(s: seq<Point>)
  {
    forall i, j :: 0 <= i < j < |s| ==> s[i] != s[j]
  }

  /** The sum of d over consecutive pairs, accumulated from the left. */
  function PathLength(s: seq<Point>, d: Metric): real
    decreases |s|
  {
    if |s| <= 1 then 0.0 else PathLength(s[..|s| - 1], d) + d(s[|s| - 2], s[|s| - 1])
  }

  /** The closed tour: every consecutive edge plus the edge joining the
      first point and the last one, in that argument order. */
  function TourLength(c: seq<Point>, d: Metric): real
    requires |c| >= 1
  {
    PathLength(c, d) + d(c[0], c[|c| - 1])
  }

  function Reverse(s: seq<Point>): (r: seq<Point>)
    ensures |r| == |s|
    ensures forall k :: 0 <= k < |s| ==> r[k] == s[|s| - 1 - k]
  {
    seq(|s|, k requires 0 <= k < |s| => s[|s| - 1 - k])
  }

  /** Splitting a path between two of its points adds exactly the edge
      that joins the two parts. */
  lemma {:induction false} PathAppend(a: seq<Point>, b: seq<Point>, d: Metric)
    requires |a| >= 1 && |b| >= 1
    ensures PathLength(a + b, d) == PathLength(a, d) + d(a[|a| - 1], b[0]) + PathLength(b, d)
    decreases |b|
  {
    var ab := a + b;
    if |b| == 1 {
      assert ab[..|ab| - 1] == a;
    } else {
      var b' := b[..|b| - 1];
      assert ab[..|ab| - 1] == a + b';
      PathAppend(a, b', d);
    }
  }

  /** A path cut into three parts: the parts plus the two joining edges. */
  lemma PathThree(a: seq<Point>, s: seq<Point>, b: seq<Point>, d: Metric)
    requires |a| >= 1 && |s| >= 1 && |b| >= 1
    ensures PathLength(a + s + b, d)
         == PathLength(a, d) + d(a[|a| - 1], s[0]) + PathLength(s, d) + d(s[|s| - 1], b[0]) + PathLength(b, d)
  {
    var left := a + s;
    assert left[|left| - 1] == s[|s| - 1];
    PathAppend(left, b, d);
    PathAppend(a, s, d);
    assert PathLength(left + b, d) == PathLength(left, d) + d(s[|s| - 1], b[0]) + PathLength(b, d);
  }

  /** With a symmetric distance a path is as long backwards as forwards. */
  lemma {:induction false} PathReverse(s: seq<Point>, d: Metric)
    requires Symmetric(d)
    ensures PathLength(Reverse(s), d) == PathLength(s, d)
    decreases |s|
  {
    if |s| >= 2 {
      var p := s[..|s| - 1];
      assert Reverse(s) == [s[|s| - 1]] + Reverse(p);
      PathReverse(p, d);
      PathAppend([s[|s| - 1]], Reverse(p), d);
    }
  }

  lemma {:induction false} PathNonNegative(s: seq<Point>, d: Metric)
    requires NonNegative(d)
    ensures 0.0 <= PathLength(s, d)
    decreases |s|
  {
    if |s| > 1 {
      PathNonNegative(s[..|s| - 1], d);
    }
  }

  /** A tour is never shorter than zero when no edge is. */
  lemma TourNonNegative(c: seq<Point>, d: Metric)
    requires |c| >= 1 && NonNegative(d)
    ensures 0.0 <= TourLength(c, d)
  {
    PathNonNegative(c, d);
  }

  /** Index arithmetic on a closed tour: an index below the length is its
      own remainder, and one that went round once loses one length. */
  lemma ModSmall(x: int, n: int)
    requires 0 <= x < n
    ensures x % n == x
  {
  }

  lemma ModWrap(x: int, n: int)
    requires 0 < n <= x < 2 * n
    ensures x % n == x - n
  {
    assert (x - n) % n == x - n;
    assert x == (x - n) + n;
  }

  /** A distinct sequence holds each of its points exactly once. */
  lemma {:induction false} DistinctOnce(s: seq<Point>, x: Point)
    requires Distinct(s)
    ensures multiset(s)[x] == if x in s then 1 else 0
    decreases |s|
  {
    if |s| > 0 {
      var p := s[..|s| - 1];
      assert s == p + [s[|s| - 1]];
      DistinctOnce(p, x);
    }
  }

  /** A point occurring at two positions occurs twice. */
  lemma TwiceCounted(s: seq<Point>, i: nat, j: nat)
    requires i < j < |s| && s[i] == s[j]
    ensures multiset(s)[s[i]] >= 2
  {
    assert s == s[..i] + [s[i]] + s[i + 1..j] + [s[j]] + s[j + 1..];
  }

  /** Rearranging a distinct sequence cannot produce a repeated point. */
  lemma PermutationKeepsDistinct(a: seq<Point>, b: seq<Point>)
    requires Distinct(a) && multiset(b) == multiset(a)
    ensures Distinct(b)
  {
    forall i, j | 0 <= i < j < |b|
      ensures b[i] != b[j]
    {
      if b[i] == b[j] {
        TwiceCounted(b, i, j);
        DistinctOnce(a, b[i]);
      }
    }
  }
}
