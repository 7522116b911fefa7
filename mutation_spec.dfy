/** What the two mutation operators of an Individual and its `mutate` entry
    point do to a chromosome, stated as functions of the chromosome before
    the call and of the random draws the call consumes. */
module MutationSpec {
  import opened Geometry

  function Min(a: nat, b: nat): nat { if a <= b then a else b }
  function Max(a: nat, b: nat): nat { if a <= b then b else a }
  function Gap(a: nat, b: nat): nat { if a <= b then b - a else a - b }

  /** The chromosome with the closed range [i, j] reversed. */
  function ReverseRange(s: seq<Point>, i: nat, j: nat): (r: seq<Point>)
    requires i <= j < |s|
  {
    s[..i] + Reverse(s[i..j + 1]) + s[j + 1..]
  }

  /** Position k of the result holds the mirror point inside the range and
      the old point outside it. */
  lemma ReverseRangeAt(s: seq<Point>, i: nat, j: nat)
    requires i <= j < |s|
    ensures |ReverseRange(s, i, j)| == |s|
    ensures forall k :: 0 <= k < |s| ==>
      ReverseRange(s, i, j)[k] == if i <= k <= j then s[i + j - k] else s[k]
  {
    var r := ReverseRange(s, i, j);
    forall k | 0 <= k < |s|
      ensures r[k] == if i <= k <= j then s[i + j - k] else s[k]
    {
      if k < i {
        assert r[k] == s[..i][k];
      } else if k <= j {
        assert r[k] == Reverse(s[i..j + 1])[k - i];
      } else {
        assert r[k] == s[j + 1..][k - j - 1];
      }
    }
  }

  lemma {:induction false} ReversePermutes(s: seq<Point>)
    ensures multiset(Reverse(s)) == multiset(s)
    decreases |s|
  {
    if |s| > 0 {
      var p := s[..|s| - 1];
      assert Reverse(s) == [s[|s| - 1]] + Reverse(p);
      assert s == p + [s[|s| - 1]];
      ReversePermutes(p);
    }
  }

  /** Reversing a range only moves points around. */
  lemma ReverseRangePermutes(s: seq<Point>, i: nat, j: nat)
    requires i <= j < |s|
    ensures |ReverseRange(s, i, j)| == |s|
    ensures multiset(ReverseRange(s, i, j)) == multiset(s)
  {
    ReversePermutes(s[i..j + 1]);
    assert s == s[..i] + s[i..j + 1] + s[j + 1..];
  }

  // ---------------------------------------------------------------------
  // Two-opt

  /** The index before i on the closed tour, as `(idx1 - 1 + len) % len`. */
  function Before(len: nat, i: nat): (b: nat)
    requires i < len
    ensures b < len
  {
    (i - 1 + len) % len
  }

  /** The index after j on the closed tour, as `(idx2 + 1) % len`. */
  function After(len: nat, j: nat): (a: nat)
    requires j < len
    ensures a < len
  {
    (j + 1) % len
  }

  /** The ordered pair of indices two-opt may work on: at least two apart
      and not the first and last position (adjacent on the closed tour). */
  predicate TwoOptPair(len: nat, i: nat, j: nat)
  {
    i < j < len && j - i >= 2 && j - i != len - 1
  }

  /** The two edges entering and leaving the segment [i, j] now. */
  function CurrentEdges(c: seq<Point>, d: Metric, i: nat, j: nat): real
    requires i < j < |c|
  {
    d(c[Before(|c|, i)], c[i]) + d(c[j], c[After(|c|, j)])
  }

  /** The two edges entering and leaving the segment once it is reversed. */
  function SwappedEdges(c: seq<Point>, d: Metric, i: nat, j: nat): real
    requires i < j < |c|
  {
    d(c[Before(|c|, i)], c[j]) + d(c[i], c[After(|c|, j)])
  }

  /** Reversing a segment strictly inside the chromosome replaces the edges
      (c[i-1], c[i]) and (c[j], c[j+1]) by (c[i-1], c[j]) and (c[i], c[j+1]). */
  lemma TwoOptInner(c: seq<Point>, d: Metric, i: nat, j: nat)
    requires Symmetric(d) && 0 < i < j < |c| - 1
    ensures TourLength(ReverseRange(c, i, j), d)
         == TourLength(c, d) - (d(c[i - 1], c[i]) + d(c[j], c[j + 1])) + (d(c[i - 1], c[j]) + d(c[i], c[j + 1]))
  {
    var r := ReverseRange(c, i, j);
    var a, s, b := c[..i], c[i..j + 1], c[j + 1..];
    var rs := Reverse(s);
    PathReverse(s, d);
    assert c == a + s + b;
    assert r == a + rs + b;
    PathThree(a, s, b, d);
    PathThree(a, rs, b, d);
    assert r[0] == c[0] && r[|r| - 1] == c[|c| - 1];
  }

  /** Reversing a prefix [0, j] replaces the closing edge (c[n-1], c[0]) and
      (c[j], c[j+1]) by (c[n-1], c[j]) and (c[0], c[j+1]). */
  lemma TwoOptPrefix(c: seq<Point>, d: Metric, j: nat)
    requires Symmetric(d) && 0 < j < |c| - 1
    ensures TourLength(ReverseRange(c, 0, j), d)
         == TourLength(c, d) - (d(c[|c| - 1], c[0]) + d(c[j], c[j + 1])) + (d(c[|c| - 1], c[j]) + d(c[0], c[j + 1]))
  {
    var r := ReverseRange(c, 0, j);
    var s, b := c[..j + 1], c[j + 1..];
    var rs := Reverse(s);
    PathReverse(s, d);
    assert c == s + b;
    assert r == rs + b;
    PathAppend(s, b, d);
    PathAppend(rs, b, d);
    assert r[0] == c[j] && r[|r| - 1] == c[|c| - 1];
  }

  /** Reversing a suffix [i, n-1] replaces (c[i-1], c[i]) and the closing edge
      (c[n-1], c[0]) by (c[i-1], c[n-1]) and (c[i], c[0]). */
  lemma TwoOptSuffix(c: seq<Point>, d: Metric, i: nat)
    requires Symmetric(d) && 0 < i < |c| - 1
    ensures TourLength(ReverseRange(c, i, |c| - 1), d)
         == TourLength(c, d) - (d(c[i - 1], c[i]) + d(c[|c| - 1], c[0])) + (d(c[i - 1], c[|c| - 1]) + d(c[i], c[0]))
  {
    var r := ReverseRange(c, i, |c| - 1);
    var a, s := c[..i], c[i..];
    var rs := Reverse(s);
    PathReverse(s, d);
    assert c == a + s;
    assert r == a + rs;
    PathAppend(a, s, d);
    PathAppend(a, rs, d);
    assert r[0] == c[0] && r[|r| - 1] == c[i];
  }

  /** The two-opt move: with a symmetric distance, reversing the segment
      changes the tour length by exactly the difference between the two
      swapped edges and the two current ones. */
  lemma TwoOptDelta(c: seq<Point>, d: Metric, i: nat, j: nat)
    requires Symmetric(d) && TwoOptPair(|c|, i, j)
    ensures TourLength(ReverseRange(c, i, j), d)
         == TourLength(c, d) - CurrentEdges(c, d, i, j) + SwappedEdges(c, d, i, j)
  {
    var n := |c|;
    if 0 < i && j < n - 1 {
      ModWrap(i - 1 + n, n);
      ModSmall(j + 1, n);
      TwoOptInner(c, d, i, j);
    } else if i == 0 {
      ModSmall(n - 1, n);
      ModSmall(j + 1, n);
      TwoOptPrefix(c, d, j);
    } else {
      ModWrap(i - 1 + n, n);
      ModWrap(j + 1, n);
      TwoOptSuffix(c, d, i);
    }
  }

  // ---------------------------------------------------------------------
  // One call of mutate

  /** Whether an operator changed the chromosome, and the chromosome after it. */
  datatype Outcome = Outcome(changed: bool, tour: seq<Point>)

  datatype Strategy = ReverseSegment | TwoOpt

  /** The random draws one call of `mutate` consumes: the roll compared with
      the mutation probability, the index of the operator tried first in the
      list [ReverseSegment, TwoOpt], the two indices the segment reversal
      settles on and the two indices two-opt settles on (each pair after
      its rejection loop has accepted it). */
  datatype MutationDraws = MutationDraws(
    roll: real, pick: nat, segment1: nat, segment2: nat, opt1: nat, opt2: nat)

  /** The indices reverseSegmentMutation can end up with: two distinct
      positions of the chromosome. */
  predicate SegmentDraws(len: nat, p1: nat, p2: nat)
  {
    len >= 2 ==> p1 < len && p2 < len && p1 != p2
  }

  /** The indices twoOptMutation can end up with: its rejection loop only
      stops at positions at least two apart that are not the first and the
      last one. */
  predicate TwoOptDraws(len: nat, p1: nat, p2: nat)
  {
    len >= 4 ==> p1 < len && p2 < len && p1 != p2 && Gap(p1, p2) >= 2 && Gap(p1, p2) != len - 1
  }

  predicate DrawsFit(m: MutationDraws, len: nat)
  {
    && 0.0 <= m.roll < 1.0
    && m.pick < 2
    && SegmentDraws(len, m.segment1, m.segment2)
    && TwoOptDraws(len, m.opt1, m.opt2)
  }

  /** Ordering the two-opt draws gives a pair two-opt may work on. */
  lemma TwoOptDrawsOrdered(len: nat, p1: nat, p2: nat)
    requires len >= 4 && TwoOptDraws(len, p1, p2)
    ensures TwoOptPair(len, Min(p1, p2), Max(p1, p2))
  {
  }

  function ReverseSegmentOutcome(c: seq<Point>, p1: nat, p2: nat): Outcome
    requires SegmentDraws(|c|, p1, p2)
  {
    if |c| < 2 then Outcome(false, c)
    else Outcome(true, ReverseRange(c, Min(p1, p2), Max(p1, p2)))
  }

  /** Whether reversing [lo, hi] strictly shortens the two boundary edges. */
  predicate TwoOptImproves(c: seq<Point>, d: Metric, lo: nat, hi: nat)
    requires lo < hi < |c|
  {
    SwappedEdges(c, d, lo, hi) < CurrentEdges(c, d, lo, hi)
  }

  function TwoOptOutcome(c: seq<Point>, d: Metric, p1: nat, p2: nat): Outcome
    requires TwoOptDraws(|c|, p1, p2)
  {
    if |c| < 4 then Outcome(false, c)
    else if TwoOptImproves(c, d, Min(p1, p2), Max(p1, p2))
    then Outcome(true, ReverseRange(c, Min(p1, p2), Max(p1, p2)))
    else Outcome(false, c)
  }

  function Attempt(s: Strategy, c: seq<Point>, d: Metric, m: MutationDraws): Outcome
    requires DrawsFit(m, |c|)
  {
    match s
    case ReverseSegment => ReverseSegmentOutcome(c, m.segment1, m.segment2)
    case TwoOpt => TwoOptOutcome(c, d, m.opt1, m.opt2)
  }

  /** The order the strategies are tried in: the one at index `pick` of
      [ReverseSegment, TwoOpt] first, the remaining one second. */
  function StrategyOrder(pick: nat): seq<Strategy>
  {
    if pick == 0 then [ReverseSegment, TwoOpt] else [TwoOpt, ReverseSegment]
  }

  /** Try the strategies in order until one reports a change. */
  function TryInOrder(strategies: seq<Strategy>, c: seq<Point>, d: Metric, m: MutationDraws): Outcome
    requires DrawsFit(m, |c|)
  {
    if strategies == [] then Outcome(false, c)
    else
      var o := Attempt(strategies[0], c, d, m);
      if o.changed then o else TryInOrder(strategies[1..], c, d, m)
  }

  function MutateOutcome(c: seq<Point>, d: Metric, mutProb: real, m: MutationDraws): Outcome
    requires DrawsFit(m, |c|)
  {
    if m.roll < mutProb then TryInOrder(StrategyOrder(m.pick), c, d, m) else Outcome(false, c)
  }

  /** An outcome in which at most one closed range was reversed, and the
      flag says whether one was. */
  ghost predicate AtMostOneReversal(o: Outcome, c: seq<Point>)
  {
    if o.changed then exists lo: nat, hi: nat :: lo < hi < |c| && o.tour == ReverseRange(c, lo, hi)
    else o.tour == c
  }

  /** A declining operator leaves the chromosome alone and a succeeding one
      reverses one range of it. */
  lemma AttemptAtMostOneReversal(s: Strategy, c: seq<Point>, d: Metric, m: MutationDraws)
    requires DrawsFit(m, |c|)
    ensures AtMostOneReversal(Attempt(s, c, d, m), c)
  {
    var o := Attempt(s, c, d, m);
    if o.changed {
      var lo, hi := if s == ReverseSegment then Min(m.segment1, m.segment2) else Min(m.opt1, m.opt2),
                    if s == ReverseSegment then Max(m.segment1, m.segment2) else Max(m.opt1, m.opt2);
      assert lo < hi < |c| && o.tour == ReverseRange(c, lo, hi);
    }
  }

  /** The reverse-segment operator succeeds exactly on chromosomes of at
      least two points; two-opt succeeds exactly on chromosomes of at least
      four points whose chosen reversal shortens the boundary edges. */
  lemma AttemptSucceeds(c: seq<Point>, d: Metric, m: MutationDraws)
    requires DrawsFit(m, |c|)
    ensures Attempt(ReverseSegment, c, d, m).changed <==> |c| >= 2
    ensures Attempt(TwoOpt, c, d, m).changed <==>
      |c| >= 4 && TwoOptImproves(c, d, Min(m.opt1, m.opt2), Max(m.opt1, m.opt2))
  {
  }

  /** `mutate` changes at most one range of the chromosome: the strategies
      are tried one at a time and the first success ends the search. */
  lemma {:induction false} MutateAtMostOneStrategy(c: seq<Point>, d: Metric, mutProb: real, m: MutationDraws)
    requires DrawsFit(m, |c|)
    ensures AtMostOneReversal(MutateOutcome(c, d, mutProb, m), c)
  {
    if m.roll < mutProb {
      var order := StrategyOrder(m.pick);
      AttemptAtMostOneReversal(order[0], c, d, m);
      AttemptAtMostOneReversal(order[1], c, d, m);
      assert order[1..][1..] == [];
      assert TryInOrder(order[1..][1..], c, d, m) == Outcome(false, c);
      assert TryInOrder(order[1..], c, d, m)
          == (var o := Attempt(order[1], c, d, m); if o.changed then o else Outcome(false, c));
    }
  }

  /** Every mutation outcome is a permutation of the chromosome it started from. */
  lemma MutatePermutes(c: seq<Point>, d: Metric, mutProb: real, m: MutationDraws)
    requires DrawsFit(m, |c|)
    ensures |MutateOutcome(c, d, mutProb, m).tour| == |c|
    ensures multiset(MutateOutcome(c, d, mutProb, m).tour) == multiset(c)
  {
    var o := MutateOutcome(c, d, mutProb, m);
    MutateAtMostOneStrategy(c, d, mutProb, m);
    if o.changed {
      var lo: nat, hi: nat :| lo < hi < |c| && o.tour == ReverseRange(c, lo, hi);
      ReverseRangePermutes(c, lo, hi);
    }
  }

  /** `mutate` changes the chromosome exactly when its roll is below the
      mutation probability and the chromosome has at least two points: two-opt
      may decline, but the segment reversal, first or second, then succeeds. */
  lemma {:induction false} MutateChangesExactly(c: seq<Point>, d: Metric, mutProb: real, m: MutationDraws)
    requires DrawsFit(m, |c|)
    ensures MutateOutcome(c, d, mutProb, m).changed <==> m.roll < mutProb && |c| >= 2
  {
    AttemptSucceeds(c, d, m);
    if m.roll < mutProb {
      var order := StrategyOrder(m.pick);
      assert order[1..][1..] == [];
      assert TryInOrder(order[1..][1..], c, d, m) == Outcome(false, c);
      assert TryInOrder(order[1..], c, d, m)
          == (var o := Attempt(order[1], c, d, m); if o.changed then o else Outcome(false, c));
    }
  }

  /** A two-opt success never lengthens the tour: with a symmetric distance
      the new tour is shorter by exactly the saving on the boundary edges,
      and a declined two-opt leaves the chromosome as it was. */
  lemma TwoOptShortens(c: seq<Point>, d: Metric, p1: nat, p2: nat)
    requires Symmetric(d) && TwoOptDraws(|c|, p1, p2) && |c| >= 1
    ensures var o := TwoOptOutcome(c, d, p1, p2);
      && |o.tour| == |c|
      && (o.changed ==> TourLength(o.tour, d) < TourLength(c, d))
      && (o.changed ==>
            TourLength(o.tour, d) == TourLength(c, d) - CurrentEdges(c, d, Min(p1, p2), Max(p1, p2))
                                      + SwappedEdges(c, d, Min(p1, p2), Max(p1, p2)))
      && (!o.changed ==> o.tour == c)
  {
    if |c| >= 4 {
      TwoOptDrawsOrdered(|c|, p1, p2);
      TwoOptDelta(c, d, Min(p1, p2), Max(p1, p2));
      ReverseRangeAt(c, Min(p1, p2), Max(p1, p2));
    }
  }
}
