/** One candidate tour: its chromosome (an array of points, changed in place
    by the mutation operators), its cached tour length, and the operators
    that evaluate, mutate and mate it. */
module Individuals {
  import opened Geometry
  import opened MutationSpec
  import opened CrossoverSpec
  import opened Util

  datatype Option<T> = None | Some(value: T)

  class Individual {
    const oracle: DistanceOracle
    const mutProb: real
    const geneCount: nat
    const chromosome: array<Point>
    var distance: real

    ghost predicate Valid()
    {
      chromosome.Length == geneCount && geneCount >= 1
    }

    /** The cached distance is the length of the closed tour the chromosome
        describes. */
    ghost predicate Evaluated()
      reads this, chromosome
    {
      Valid() && distance == TourLength(chromosome[..], oracle.base)
    }

    /** A copy of the coordinates becomes the chromosome, which is then
        evaluated. */
    constructor (oracle: DistanceOracle, mutProb: real, coordinates: seq<Point>)
      requires |coordinates| >= 1 && oracle.Valid()
      modifies oracle
      ensures oracle.Valid()
      ensures this.oracle == oracle && this.mutProb == mutProb
      ensures fresh(chromosome) && chromosome[..] == coordinates
      ensures Evaluated()
    {
      this.oracle := oracle;
      this.mutProb := mutProb;
      geneCount := |coordinates|;
      chromosome := new Point[|coordinates|](k requires 0 <= k < |coordinates| => coordinates[k]);
      new;
      var _ := CalculateDistance();
    }

    /** The consecutive edges summed from the left, then the edge from the
        first point to the last, each looked up through the oracle. */
    method CalculateDistance() returns (sumDist: real)
      requires Valid() && oracle.Valid()
      modifies this, oracle
      ensures oracle.Valid()
      ensures Evaluated() && sumDist == distance
    {
      sumDist := 0.0;
      var i := 0;
      while i < chromosome.Length - 1
        invariant 0 <= i <= chromosome.Length - 1
        invariant oracle.Valid()
        invariant sumDist == PathLength(chromosome[..i + 1], oracle.base)
      {
        var edge := oracle.Calc(chromosome[i], chromosome[i + 1]);
        assert chromosome[..i + 2][..i + 1] == chromosome[..i + 1];
        sumDist := sumDist + edge;
        i := i + 1;
      }
      assert chromosome[..i + 1] == chromosome[..];
      var closing := oracle.Calc(chromosome[0], chromosome[chromosome.Length - 1]);
      sumDist := sumDist + closing;
      distance := sumDist;
    }

    /** Swap the two ends inwards until they meet: reverses the closed
        range [idx1, idx2] in place. */
    method ReverseChromosome(idx1: nat, idx2: nat)
      requires idx1 < idx2 < chromosome.Length
      modifies chromosome
      ensures chromosome[..] == ReverseRange(old(chromosome[..]), idx1, idx2)
    {
      ghost var s := chromosome[..];
      var start, end := idx1, idx2;
      while start < end
        invariant idx1 <= start && end <= idx2 && start - idx1 == idx2 - end
        invariant start <= end + 1
        invariant forall k :: idx1 <= k < start ==> chromosome[k] == s[idx1 + idx2 - k]
        invariant forall k :: end < k <= idx2 ==> chromosome[k] == s[idx1 + idx2 - k]
        invariant forall k :: 0 <= k < chromosome.Length && (k < idx1 || idx2 < k || start <= k <= end) ==>
          chromosome[k] == s[k]
      {
        chromosome[start], chromosome[end] := chromosome[end], chromosome[start];
        start, end := start + 1, end - 1;
      }
      ReverseRangeAt(s, idx1, idx2);
      forall k | 0 <= k < chromosome.Length
        ensures chromosome[k] == ReverseRange(s, idx1, idx2)[k]
      {
        if start <= k <= end {
          assert k == idx1 + idx2 - k;
        }
      }
    }

    /** reverseSegmentMutation: declines on fewer than two points, otherwise
        reverses the range between the two drawn indices. */
    method ReverseSegmentMutation(draw1: nat, draw2: nat) returns (mutated: bool)
      requires Valid() && SegmentDraws(geneCount, draw1, draw2)
      modifies chromosome
      ensures Outcome(mutated, chromosome[..]) == ReverseSegmentOutcome(old(chromosome[..]), draw1, draw2)
    {
      var len := chromosome.Length;
      if len < 2 {
        return false;
      }
      var idx1, idx2 := draw1, draw2;
      if idx1 > idx2 {
        idx1, idx2 := idx2, idx1;
      }
      ReverseChromosome(idx1, idx2);
      return true;
    }

    /** The two edges at the ends of the range [idx1, idx2] now, and the
        two the reversal would put there, each looked up through the oracle. */
    method BoundaryEdges(idx1: nat, idx2: nat) returns (currentDistance: real, newDistance: real)
      requires idx1 < idx2 < chromosome.Length && oracle.Valid()
      modifies oracle
      ensures oracle.Valid()
      ensures currentDistance == CurrentEdges(chromosome[..], oracle.base, idx1, idx2)
      ensures newDistance == SwappedEdges(chromosome[..], oracle.base, idx1, idx2)
    {
      var len := chromosome.Length;
      var beforeIdx1 := (idx1 - 1 + len) % len;
      var afterIdx2 := (idx2 + 1) % len;
      assert beforeIdx1 == Before(len, idx1) && afterIdx2 == After(len, idx2);
      var prev, first, last, next := chromosome[beforeIdx1], chromosome[idx1], chromosome[idx2], chromosome[afterIdx2];
      currentDistance := TwoEdges(oracle, prev, first, last, next);
      newDistance := TwoEdges(oracle, prev, last, first, next);
    }

    /** twoOptMutation: declines on fewer than four points; otherwise
        compares the two edges at the ends of the drawn range with the two
        edges the reversal would create, and reverses only on a strict
        improvement. */
    method TwoOptMutation(draw1: nat, draw2: nat) returns (mutated: bool)
      requires Valid() && oracle.Valid() && TwoOptDraws(geneCount, draw1, draw2)
      modifies chromosome, oracle
      ensures oracle.Valid()
      ensures Outcome(mutated, chromosome[..]) == TwoOptOutcome(old(chromosome[..]), oracle.base, draw1, draw2)
    {
      var len := chromosome.Length;
      if len < 4 {
        return false;
      }
      var idx1, idx2 := draw1, draw2;
      if idx1 > idx2 {
        idx1, idx2 := idx2, idx1;
      }
      var currentDistance, newDistance := BoundaryEdges(idx1, idx2);
      if newDistance < currentDistance {
        ReverseChromosome(idx1, idx2);
        return true;
      }
      return false;
    }

    /** mutate: with the roll below the mutation probability, try the
        operators; re-evaluate only after a change. */
    method Mutate(draws: MutationDraws) returns (mutated: bool)
      requires Evaluated() && oracle.Valid() && DrawsFit(draws, geneCount)
      modifies this, chromosome, oracle
      ensures oracle.Valid() && Evaluated()
      ensures Outcome(mutated, chromosome[..]) == MutateOutcome(old(chromosome[..]), oracle.base, mutProb, draws)
      ensures !mutated ==> distance == old(distance)
    {
      mutated := false;
      if draws.roll < mutProb {
        mutated := TryStrategies(draws);
      }
      if mutated {
        var _ := CalculateDistance();
      }
    }

    /** The loop of mutate: draw operators out of [reverseSegment, twoOpt]
        one at a time until one changes the chromosome. */
    method TryStrategies(draws: MutationDraws) returns (mutated: bool)
      requires Valid() && oracle.Valid() && DrawsFit(draws, geneCount)
      modifies chromosome, oracle
      ensures oracle.Valid()
      ensures Outcome(mutated, chromosome[..]) == TryInOrder(StrategyOrder(draws.pick), old(chromosome[..]), oracle.base, draws)
      ensures !mutated ==> chromosome[..] == old(chromosome[..])
    {
      ghost var c0 := chromosome[..];
      ghost var order := StrategyOrder(draws.pick);
      mutated := false;
      var mutationStrategies := [ReverseSegment, TwoOpt];
      ghost var round := 0;
      while |mutationStrategies| > 0 && !mutated
        invariant oracle.Valid()
        invariant 0 <= round <= 2 && |mutationStrategies| == 2 - round
        invariant round == 0 ==> mutationStrategies == [ReverseSegment, TwoOpt]
        invariant round > 0 ==> mutationStrategies == order[round..]
        invariant !mutated ==> chromosome[..] == c0
        invariant !mutated ==>
          TryInOrder(order, c0, oracle.base, draws) == TryInOrder(order[round..], c0, oracle.base, draws)
        invariant mutated ==> Outcome(true, chromosome[..]) == TryInOrder(order, c0, oracle.base, draws)
        decreases |mutationStrategies|
      {
        // the first round draws an index out of two, the second has one left
        var strategyIdx := if |mutationStrategies| == 2 then draws.pick else 0;
        var strategy := mutationStrategies[strategyIdx];
        assert strategy == order[round];
        assert order[round..][0] == order[round] && order[round..][1..] == order[round + 1..];
        mutationStrategies := mutationStrategies[..strategyIdx] + mutationStrategies[strategyIdx + 1..];
        match strategy {
          case ReverseSegment =>
            mutated := ReverseSegmentMutation(draws.segment1, draws.segment2);
          case TwoOpt =>
            mutated := TwoOptMutation(draws.opt1, draws.opt2);
        }
        round := round + 1;
      }
      assert !mutated ==> order[round..] == [];
    }

    /** A child made by this individual: evaluated, sharing its oracle and
        mutation probability. */
    ghost predicate Begot(child: Individual)
      reads child, child.chromosome
    {
      child.Evaluated() && child.oracle == oracle && child.mutProb == mutProb
    }

    /** mate: with the roll below the crossover probability, each parent in
        turn donates a slice to one child and the other parent fills the
        rest; otherwise the children are clones of the parents. Every child
        is evaluated and then mutated once. */
    method Mate(crossProb: real, otherInd: Individual, draws: MateDraws) returns (children: seq<Individual>)
      requires Valid() && otherInd.Valid() && oracle.Valid()
      requires Compatible(chromosome[..], otherInd.chromosome[..])
      requires MateDrawsFit(draws, crossProb, geneCount)
      modifies oracle
      ensures oracle.Valid()
      ensures |children| == 2 && children[0] != children[1]
      ensures fresh(children[0]) && fresh(children[0].chromosome) && Begot(children[0])
      ensures fresh(children[1]) && fresh(children[1].chromosome) && Begot(children[1])
      ensures [children[0].chromosome[..], children[1].chromosome[..]]
           == MateOutcome(chromosome[..], otherInd.chromosome[..], crossProb, draws, oracle.base, mutProb)
    {
      assert |otherInd.chromosome[..]| == |multiset(otherInd.chromosome[..])| == geneCount;
      if draws.roll < crossProb {
        children := CrossoverChildren(otherInd, draws);
      } else {
        children := CloneChildren(otherInd, draws);
      }
    }

    /** The loop that builds the two child chromosomes of the crossover
        branch: this individual donates to the first, the other to the
        second. */
    method CrossoverChromosomes(otherInd: Individual, first: CrossoverDraw, second: CrossoverDraw)
      returns (childChromosomes: seq<seq<Point>>)
      requires Valid() && otherInd.Valid()
      requires Compatible(chromosome[..], otherInd.chromosome[..])
      requires CrossoverDrawFits(first, geneCount) && CrossoverDrawFits(second, geneCount)
      ensures childChromosomes == [Offspring(chromosome[..], otherInd.chromosome[..], true, first),
                                   Offspring(otherInd.chromosome[..], chromosome[..], true, second)]
    {
      ghost var a := chromosome[..];
      ghost var b := otherInd.chromosome[..];
      assert |b| == |multiset(b)| == |a|;
      ghost var starts := [Offspring(a, b, true, first), Offspring(b, a, true, second)];
      childChromosomes := [];
      while |childChromosomes| < 2
        invariant |childChromosomes| <= 2
        invariant childChromosomes == starts[..|childChromosomes|]
      {
        var donor := if |childChromosomes| == 0 then this else otherInd;
        var filler := if |childChromosomes| == 0 then otherInd else this;
        var x := if |childChromosomes| == 0 then first else second;
        var childChromosome := CrossoverRound(donor, filler, x);
        childChromosomes := childChromosomes + [childChromosome];
      }
    }

    /** The children of `mate` without crossover: a clone of each parent,
        evaluated on creation; then each clone is mutated once. */
    method CloneChildren(otherInd: Individual, draws: MateDraws) returns (children: seq<Individual>)
      requires Valid() && otherInd.Valid() && oracle.Valid() && otherInd.geneCount == geneCount
      requires DrawsFit(draws.mutateFirst, geneCount) && DrawsFit(draws.mutateSecond, geneCount)
      modifies oracle
      ensures oracle.Valid()
      ensures |children| == 2 && children[0] != children[1]
      ensures fresh(children[0]) && fresh(children[0].chromosome) && Begot(children[0])
      ensures fresh(children[1]) && fresh(children[1].chromosome) && Begot(children[1])
      ensures children[0].chromosome[..] == MutateOutcome(chromosome[..], oracle.base, mutProb, draws.mutateFirst).tour
      ensures children[1].chromosome[..] == MutateOutcome(otherInd.chromosome[..], oracle.base, mutProb, draws.mutateSecond).tour
    {
      var firstParentClone := new Individual(oracle, mutProb, chromosome[..]);
      var secondParentClone := new Individual(oracle, mutProb, otherInd.chromosome[..]);
      var _ := firstParentClone.Mutate(draws.mutateFirst);
      var _ := secondParentClone.Mutate(draws.mutateSecond);
      children := [firstParentClone, secondParentClone];
    }

    /** The crossover branch of `mate`: build both child chromosomes, then
        create and mutate each child in turn. */
    method CrossoverChildren(otherInd: Individual, draws: MateDraws) returns (children: seq<Individual>)
      requires Valid() && otherInd.Valid() && oracle.Valid()
      requires Compatible(chromosome[..], otherInd.chromosome[..])
      requires CrossoverDrawFits(draws.first, geneCount) && CrossoverDrawFits(draws.second, geneCount)
      requires DrawsFit(draws.mutateFirst, geneCount) && DrawsFit(draws.mutateSecond, geneCount)
      modifies oracle
      ensures oracle.Valid()
      ensures |children| == 2 && children[0] != children[1]
      ensures fresh(children[0]) && fresh(children[0].chromosome) && Begot(children[0])
      ensures fresh(children[1]) && fresh(children[1].chromosome) && Begot(children[1])
      ensures children[0].chromosome[..] == MutateOutcome(Offspring(chromosome[..], otherInd.chromosome[..], true, draws.first),
                                                          oracle.base, mutProb, draws.mutateFirst).tour
      ensures children[1].chromosome[..] == MutateOutcome(Offspring(otherInd.chromosome[..], chromosome[..], true, draws.second),
                                                          oracle.base, mutProb, draws.mutateSecond).tour
    {
      var childChromosomes := CrossoverChromosomes(otherInd, draws.first, draws.second);
      var firstChild := Spawn(oracle, mutProb, childChromosomes[0], draws.mutateFirst);
      var secondChild := Spawn(oracle, mutProb, childChromosomes[1], draws.mutateSecond);
      children := [firstChild, secondChild];
    }
  }

  /** The summed length of the edges (p, q) and (r, t), each looked up in
      the oracle. */
  method TwoEdges(oracle: DistanceOracle, p: Point, q: Point, r: Point, t: Point) returns (sum: real)
    requires oracle.Valid()
    modifies oracle
    ensures oracle.Valid()
    ensures sum == oracle.base(p, q) + oracle.base(r, t)
  {
    var first := oracle.Calc(p, q);
    var second := oracle.Calc(r, t);
    sum := first + second;
  }


  /** The random draws one call of `mate` consumes: the crossover roll, the
      cut draws of the two children and the mutation draws of the two. */
  datatype MateDraws = MateDraws(
    roll: real, first: CrossoverDraw, second: CrossoverDraw,
    mutateFirst: MutationDraws, mutateSecond: MutationDraws)

  predicate MateDrawsFit(m: MateDraws, crossProb: real, len: nat)
  {
    && 0.0 <= m.roll < 1.0
    && (m.roll < crossProb ==> CrossoverDrawFits(m.first, len) && CrossoverDrawFits(m.second, len))
    && DrawsFit(m.mutateFirst, len) && DrawsFit(m.mutateSecond, len)
  }

  /** The chromosome a child starts from: the order crossover of donor and
      filler when crossover fires, a copy of the donor otherwise. Either way
      it holds the donor's points, each once. */
  function Offspring(donor: seq<Point>, filler: seq<Point>, crossed: bool, x: CrossoverDraw): (r: seq<Point>)
    requires Compatible(donor, filler) && |donor| >= 1
    requires crossed ==> CrossoverDrawFits(x, |donor|)
    ensures |r| == |donor| && multiset(r) == multiset(donor) && Distinct(r)
  {
    if crossed then
      SliceEndRange(x, |donor|);
      OrderCrossoverPermutes(donor, filler, x.start, SliceEnd(x, |donor|));
      OrderCrossover(donor, filler, x.start, SliceEnd(x, |donor|))
    else
      donor
  }

  /** The chromosome a child of `mate` ends with, after its one mutation:
      still a rearrangement of the donor with no point twice. */
  function ChildChromosome(donor: seq<Point>, filler: seq<Point>, crossed: bool, x: CrossoverDraw,
                           d: Metric, mutProb: real, m: MutationDraws): (r: seq<Point>)
    requires Compatible(donor, filler) && |donor| >= 1
    requires crossed ==> CrossoverDrawFits(x, |donor|)
    requires DrawsFit(m, |donor|)
    ensures |r| == |donor| && multiset(r) == multiset(donor) && Distinct(r)
  {
    var start := Offspring(donor, filler, crossed, x);
    MutatePermutes(start, d, mutProb, m);
    PermutationKeepsDistinct(start, MutateOutcome(start, d, mutProb, m).tour);
    MutateOutcome(start, d, mutProb, m).tour
  }

  /** The chromosomes of the two children of one `mate`: the first has
      this parent as donor, the second the other parent. Both hold the
      parents' points, each once. */
  function MateOutcome(a: seq<Point>, b: seq<Point>, crossProb: real, m: MateDraws,
                       d: Metric, mutProb: real): (r: seq<seq<Point>>)
    requires Compatible(a, b) && |a| >= 1 && MateDrawsFit(m, crossProb, |a|)
    ensures |r| == 2
    ensures forall i :: 0 <= i < 2 ==> |r[i]| == |a| && multiset(r[i]) == multiset(a) && Distinct(r[i])
  {
    assert |b| == |multiset(b)| == |a|;
    var crossed := m.roll < crossProb;
    [ChildChromosome(a, b, crossed, m.first, d, mutProb, m.mutateFirst),
     ChildChromosome(b, a, crossed, m.second, d, mutProb, m.mutateSecond)]
  }

  /** A crossover child: evaluated on creation, then mutated once. */
  method Spawn(oracle: DistanceOracle, mutProb: real, genes: seq<Point>, m: MutationDraws) returns (child: Individual)
    requires |genes| >= 1 && oracle.Valid() && DrawsFit(m, |genes|)
    modifies oracle
    ensures oracle.Valid()
    ensures fresh(child) && fresh(child.chromosome)
    ensures child.Evaluated() && child.oracle == oracle && child.mutProb == mutProb
    ensures child.chromosome[..] == MutateOutcome(genes, oracle.base, mutProb, m).tour
  {
    child := new Individual(oracle, mutProb, genes);
    var _ := child.Mutate(m);
  }

  /** The cuts of one crossover round, then the child they give. */
  method CrossoverRound(donor: Individual, filler: Individual, x: CrossoverDraw) returns (childChromosome: seq<Point>)
    requires donor.Valid() && Compatible(donor.chromosome[..], filler.chromosome[..])
    requires CrossoverDrawFits(x, donor.chromosome.Length)
    ensures childChromosome == Offspring(donor.chromosome[..], filler.chromosome[..], true, x)
  {
    var len := donor.chromosome.Length;
    var idx1 := x.start;
    SliceEndRange(x, len);
    var idx2 := idx1 + Ceil(x.spread * (len - idx1) as real);
    assert idx2 == SliceEnd(x, len);
    childChromosome := BuildChild(donor.chromosome[..], filler.chromosome[..], idx1, idx2);
    assert childChromosome == OrderCrossover(donor.chromosome[..], filler.chromosome[..], x.start, SliceEnd(x, len));
  }

  /** The slots of the donor slice [idx1, idx2) hold what they held before. */
  ghost predicate SliceKept(c: seq<Option<Point>>, c0: seq<Option<Point>>, idx1: nat, idx2: nat)
  {
    |c| == |c0| && forall k :: idx1 <= k < idx2 && k < |c| ==> c[k] == c0[k]
  }

  /** The m-th point placed sits in the m-th slot after the slice. */
  ghost predicate Placed(c: seq<Option<Point>>, placed: seq<Point>, idx2: nat)
  {
    |c| > 0 && forall m :: 0 <= m < |placed| ==> c[FillIndex(idx2, m, |c|)] == Some(placed[m])
  }

  /** Writing the next point to the next free slot keeps the slice and
      every earlier placement. */
  lemma PlaceNext(c: seq<Option<Point>>, c0: seq<Option<Point>>, placed: seq<Point>, gene: Point, idx1: nat, idx2: nat)
    requires idx1 <= idx2 <= |c| && |placed| < |c| - (idx2 - idx1)
    requires SliceKept(c, c0, idx1, idx2) && Placed(c, placed, idx2)
    ensures var c' := c[FillIndex(idx2, |placed|, |c|) := Some(gene)];
      SliceKept(c', c0, idx1, idx2) && Placed(c', placed + [gene], idx2)
  {
    var n := |c|;
    var slot := FillIndex(idx2, |placed|, n);
    FillSlot(idx1, idx2, n, |placed|);
    forall m | 0 <= m < |placed|
      ensures FillIndex(idx2, m, n) != slot
    {
      FillSlot(idx1, idx2, n, m);
    }
  }

  /** The filling pass of one crossover round: walk the reordered filler
      and put every point not yet in `existingKeys` at the next slot from
      idx2 on, wrapping round. The m-th point placed is the m-th point of
      the filler outside the initial key set, and the slice is untouched. */
  method FillFromFiller(child: array<Option<Point>>, reordered: seq<Point>, existingKeys: set<Point>,
                        idx1: nat, idx2: nat)
    requires child.Length == |reordered| >= 1 && idx1 <= idx2 <= child.Length
    requires Distinct(reordered)
    requires |Without(reordered, existingKeys)| == child.Length - (idx2 - idx1)
    modifies child
    ensures forall k :: idx1 <= k < idx2 ==> child[k] == old(child[k])
    ensures forall m :: 0 <= m < |Without(reordered, existingKeys)| ==>
      child[FillIndex(idx2, m, child.Length)] == Some(Without(reordered, existingKeys)[m])
  {
    var len := child.Length;
    var keys := existingKeys;
    var childIdx := idx2;
    ghost var placed: seq<Point> := [];
    ghost var c0 := child[..];
    for i := 0 to len
      invariant placed == Without(reordered[..i], existingKeys)
      invariant |placed| <= len - (idx2 - idx1)
      invariant childIdx == idx2 + |placed|
      invariant forall x :: x in keys <==> x in existingKeys || x in placed
      invariant SliceKept(child[..], c0, idx1, idx2)
      invariant Placed(child[..], placed, idx2)
    {
      var gene := reordered[i];
      WithoutStep(reordered, existingKeys, i);
      WithoutPrefix(reordered, existingKeys, i + 1);
      WithoutEarlier(reordered, existingKeys, i);
      if gene !in keys {
        PlaceNext(child[..], c0, placed, gene, idx1, idx2);
        assert childIdx % len == FillIndex(idx2, |placed|, len);
        child[childIdx % len] := Some(gene);
        keys := keys + {gene};
        placed := placed + [gene];
        childIdx := childIdx + 1;
      }
    }
    assert reordered[..len] == reordered;
    assert forall k :: idx1 <= k < idx2 ==> child[k] == child[..][k] == c0[k];
    assert forall m :: 0 <= m < |placed| ==> child[FillIndex(idx2, m, len)] == child[..][FillIndex(idx2, m, len)];
  }

  /** The points of a chromosome whose every slot is filled. */
  method Unwrap(child: array<Option<Point>>) returns (genes: seq<Point>)
    requires forall k :: 0 <= k < child.Length ==> child[k].Some?
    ensures |genes| == child.Length
    ensures forall k :: 0 <= k < child.Length ==> child[k] == Some(genes[k])
  {
    genes := [];
    for k := 0 to child.Length
      invariant |genes| == k
      invariant forall t :: 0 <= t < k ==> child[t] == Some(genes[t])
    {
      genes := genes + [child[k].value];
    }
  }

  /** An empty chromosome of `len` slots holding the donor slice
      [idx1, idx2) at its own positions. */
  method CopySlice(donor: seq<Point>, idx1: nat, idx2: nat) returns (child: array<Option<Point>>)
    requires idx1 <= idx2 <= |donor|
    ensures fresh(child) && child.Length == |donor|
    ensures forall k :: 0 <= k < child.Length ==> child[k] == if idx1 <= k < idx2 then Some(donor[k]) else None
  {
    child := new Option<Point>[|donor|](_ => None);
    for i := idx1 to idx2
      invariant forall k :: 0 <= k < child.Length ==> child[k] == if idx1 <= k < i then Some(donor[k]) else None
    {
      child[i] := Some(donor[i]);
    }
  }

  /** The keys of the points already in the chromosome: those of the slice. */
  method CollectKeys(child: array<Option<Point>>, donor: seq<Point>, idx1: nat, idx2: nat) returns (existingKeys: set<Point>)
    requires idx1 <= idx2 <= |donor| == child.Length
    requires forall k :: 0 <= k < child.Length ==> child[k] == if idx1 <= k < idx2 then Some(donor[k]) else None
    ensures existingKeys == SliceGenes(donor, idx1, idx2)
  {
    existingKeys := {};
    for i := 0 to child.Length
      invariant existingKeys == SliceGenes(donor, idx1, if i <= idx1 then idx1 else if i <= idx2 then i else idx2)
    {
      if child[i].Some? {
        SliceGenesStep(donor, idx1, i);
        existingKeys := existingKeys + {child[i].value};
      }
    }
  }

  /** The filler read from idx2 onwards, wrapping round. */
  method Reorder(filler: seq<Point>, idx2: nat) returns (reordered: seq<Point>)
    requires |filler| >= 1
    ensures reordered == Rotated(filler, idx2)
  {
    var len := |filler|;
    reordered := [];
    for i := 0 to len
      invariant |reordered| == i
      invariant forall t :: 0 <= t < i ==> reordered[t] == filler[(idx2 + t) % len]
    {
      reordered := reordered + [filler[(idx2 + i) % len]];
    }
  }

  /** One round of the crossover loop in `mate`: copy the donor slice
      [idx1, idx2) into an empty chromosome, collect its points, read the
      filler from idx2 onwards wrapping round, and place each point not yet
      present at the next free slot after the slice. */
  method BuildChild(donor: seq<Point>, filler: seq<Point>, idx1: nat, idx2: nat) returns (childChromosome: seq<Point>)
    requires Compatible(donor, filler) && idx1 <= idx2 <= |donor| && |donor| >= 1
    ensures childChromosome == OrderCrossover(donor, filler, idx1, idx2)
  {
    var len := |donor|;
    assert |filler| == |multiset(filler)| == len;
    FillersComplement(donor, filler, idx1, idx2);
    var child := CopySlice(donor, idx1, idx2);
    var existingKeys := CollectKeys(child, donor, idx1, idx2);
    var reorderedSecondParent := Reorder(filler, idx2);
    RotatedPermutes(filler, idx2);
    PermutationKeepsDistinct(donor, reorderedSecondParent);
    FillFromFiller(child, reorderedSecondParent, existingKeys, idx1, idx2);
    forall k | 0 <= k < len
      ensures child[k].Some?
    {
      if !(idx1 <= k < idx2) {
        var m := FillIndexCovers(idx1, idx2, len, k);
      }
    }
    childChromosome := Unwrap(child);
    SlotsDetermineChild(donor, filler, idx1, idx2, childChromosome);
  }
}
