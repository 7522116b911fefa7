/** A generation of individuals and the step from one generation to the
    next: tournament selection, elitism, mating, and the best tour ever
    seen. */
module Populations {
  import opened Geometry
  import opened MutationSpec
  import opened CrossoverSpec
  import opened Util
  import opened Individuals

  // ---------------------------------------------------------------------
  // Choosing the fittest

  /** The distances of a generation, in order. */
  function Distances(gen: seq<Individual>): (ds: seq<real>)
    reads gen
    ensures |ds| == |gen| && forall k :: 0 <= k < |gen| ==> ds[k] == gen[k].distance
  {
    seq(|gen|, k requires 0 <= k < |gen| reads gen => gen[k].distance)
  }

  /** The position a left-to-right scan settles on when a later distance
      replaces the best so far only if it is strictly smaller: a minimal
      distance, and the first of the minimal ones. */
  function FittestIndex(ds: seq<real>): (i: nat)
    requires |ds| >= 1
    ensures i < |ds|
    ensures forall j :: 0 <= j < |ds| ==> ds[i] <= ds[j]
    ensures forall j :: 0 <= j < i ==> ds[i] < ds[j]
    decreases |ds|
  {
    if |ds| == 1 then 0
    else
      var j := FittestIndex(ds[..|ds| - 1]);
      if ds[|ds| - 1] < ds[j] then |ds| - 1 else j
  }

  /** The candidates of one tournament, in the order they were drawn. */
  function Drawn(gen: seq<Individual>, picks: seq<nat>): (pool: seq<Individual>)
    requires forall u :: 0 <= u < |picks| ==> picks[u] < |gen|
    ensures |pool| == |picks| && forall u :: 0 <= u < |picks| ==> pool[u] == gen[picks[u]]
  {
    seq(|picks|, u requires 0 <= u < |picks| => gen[picks[u]])
  }

  /** The draw that wins a tournament: no drawn candidate is shorter, and
      every earlier draw is strictly longer. */
  function TournamentPick(gen: seq<Individual>, picks: seq<nat>): (t: nat)
    requires |picks| >= 1 && forall u :: 0 <= u < |picks| ==> picks[u] < |gen|
    reads gen
    ensures t < |picks|
    ensures forall u :: 0 <= u < |picks| ==> gen[picks[t]].distance <= gen[picks[u]].distance
    ensures forall u :: 0 <= u < t ==> gen[picks[t]].distance < gen[picks[u]].distance
  {
    FittestIndex(Distances(Drawn(gen, picks)))
  }

  // ---------------------------------------------------------------------
  // Elitism

  predicate SortedByDistance(s: seq<Individual>)
    reads s
  {
    forall i, j :: 0 <= i < j < |s| ==> s[i].distance <= s[j].distance
  }

  /** One insertion step of the sort: x goes before the first individual
      that is not shorter. */
  function InsertByDistance(x: Individual, s: seq<Individual>): (r: seq<Individual>)
    reads x, set o | o in s
    ensures forall o :: o in r ==> o == x || o in s
    decreases |s|
  {
    if s == [] || x.distance <= s[0].distance then [x] + s
    else [s[0]] + InsertByDistance(x, s[1..])
  }

  /** The sorted copy passElites takes of a generation: insertion of each
      individual in turn. */
  function SortByDistance(s: seq<Individual>): (r: seq<Individual>)
    reads set o | o in s
    ensures forall o :: o in r ==> o in s
    decreases |s|
  {
    if s == [] then []
    else
      var p := s[..|s| - 1];
      assert forall o :: o in p ==> o in s;
      var sorted := SortByDistance(p);
      InsertByDistance(s[|s| - 1], sorted)
  }

  /** Inserting adds exactly x. */
  lemma {:induction false} InsertAddsOne(x: Individual, s: seq<Individual>)
    ensures multiset(InsertByDistance(x, s)) == multiset(s) + multiset{x}
    decreases |s|
  {
    if s != [] && x.distance > s[0].distance {
      InsertAddsOne(x, s[1..]);
      assert s == [s[0]] + s[1..];
    }
  }

  /** Inserting into a sorted sequence keeps it sorted. */
  lemma {:induction false} InsertKeepsSorted(x: Individual, s: seq<Individual>)
    requires SortedByDistance(s)
    ensures SortedByDistance(InsertByDistance(x, s))
    decreases |s|
  {
    if s != [] && x.distance > s[0].distance {
      var rest := InsertByDistance(x, s[1..]);
      InsertKeepsSorted(x, s[1..]);
      forall o | o in rest
        ensures s[0].distance <= o.distance
      {
        if o != x {
          var m :| 0 <= m < |s[1..]| && s[1..][m] == o;
          assert o == s[m + 1];
        }
      }
    }
  }

  /** The sorted copy holds the same individuals, shortest tour first;
      ties may come in any order. */
  lemma {:induction false} SortSortsByDistance(s: seq<Individual>)
    ensures SortedByDistance(SortByDistance(s))
    ensures multiset(SortByDistance(s)) == multiset(s)
    decreases |s|
  {
    if s != [] {
      var p := s[..|s| - 1];
      assert s == p + [s[|s| - 1]];
      SortSortsByDistance(p);
      InsertKeepsSorted(s[|s| - 1], SortByDistance(p));
      InsertAddsOne(s[|s| - 1], SortByDistance(p));
    }
  }

  /** The number of elements `slice(0, n)` keeps of an array of length len:
      a negative n counts back from the end, and both ends are clamped. */
  function PrefixLength(n: int, len: nat): (k: nat)
    ensures k <= len
  {
    if n < 0 then (if n + len < 0 then 0 else n + len)
    else if n < len then n
    else len
  }

  lemma MulNonNegative(a: real, b: real)
    requires 0.0 <= a && 0.0 <= b
    ensures 0.0 <= a * b
  {
  }

  /** numElites: the rate times the size, rounded down. */
  function EliteCount(rate: real, size: nat): int
  {
    (rate * size as real).Floor
  }

  /** A rate in [0, 1] of a size selects at most that size. */
  lemma ScaledFloor(rate: real, size: nat)
    requires 0.0 <= rate <= 1.0
    ensures 0 <= EliteCount(rate, size) <= size
  {
    var s := size as real;
    MulNonNegative(1.0 - rate, s);
    MulNonNegative(rate, s);
    assert (1.0 - rate) * s == s - rate * s;
    var y := rate * s;
    assert y.Floor as real <= y <= s;
  }

  /** The first k of a sorted sequence are no longer than any of the
      others. */
  lemma SortedPrefixSmallest(s: seq<Individual>, k: nat)
    requires SortedByDistance(s) && k <= |s|
    ensures multiset(s[..k]) <= multiset(s)
    ensures forall e, x :: e in s[..k] && x in multiset(s) - multiset(s[..k]) ==> e.distance <= x.distance
  {
    assert s == s[..k] + s[k..];
    assert multiset(s) - multiset(s[..k]) == multiset(s[k..]);
    forall e, x | e in s[..k] && x in multiset(s[k..])
      ensures e.distance <= x.distance
    {
      assert x in s[k..];
    }
  }

  // ---------------------------------------------------------------------
  // Generations

  /** A member of the population: an evaluated tour through exactly the
      given coordinates, sharing the population's oracle and mutation
      probability. */
  ghost predicate Member(ind: Individual, oracle: DistanceOracle, mutProb: real, coordinates: seq<Point>)
    reads ind, ind.chromosome
  {
    && ind.Evaluated() && ind.oracle == oracle && ind.mutProb == mutProb
    && ind.chromosome.Length == |coordinates| && multiset(ind.chromosome[..]) == multiset(coordinates)
  }

  /** Every individual of a generation is a member. */
  ghost predicate Generation(gen: seq<Individual>, oracle: DistanceOracle, mutProb: real, coordinates: seq<Point>)
    reads gen, set x | x in gen :: x.chromosome
  {
    forall k :: 0 <= k < |gen| ==> Member(gen[k], oracle, mutProb, coordinates)
  }

  /** No individual of the generation has a shorter tour than best. */
  ghost predicate NoneShorter(best: Individual, gen: seq<Individual>)
    reads best, gen
  {
    forall k :: 0 <= k < |gen| ==> best.distance <= gen[k].distance
  }

  /** The individual getFittest settles on is a member, and no member is
      shorter. */
  lemma FittestOfGeneration(gen: seq<Individual>, oracle: DistanceOracle, mutProb: real, coordinates: seq<Point>)
    requires |gen| >= 1 && Generation(gen, oracle, mutProb, coordinates)
    ensures var best := gen[FittestIndex(Distances(gen))];
      Member(best, oracle, mutProb, coordinates) && NoneShorter(best, gen) && best in gen
  {
    var i := FittestIndex(Distances(gen));
    assert Member(gen[i], oracle, mutProb, coordinates);
  }

  /** Two tours through the same distinct coordinates can be mated. */
  lemma MembersCompatible(a: Individual, b: Individual, oracle: DistanceOracle, mutProb: real, coordinates: seq<Point>)
    requires Distinct(coordinates)
    requires Member(a, oracle, mutProb, coordinates) && Member(b, oracle, mutProb, coordinates)
    ensures Compatible(a.chromosome[..], b.chromosome[..])
  {
    PermutationKeepsDistinct(coordinates, a.chromosome[..]);
    PermutationKeepsDistinct(coordinates, b.chromosome[..]);
  }

  /** The best ever after a generation: the generation's fittest when it
      is strictly shorter, the previous best otherwise; either way a member
      no individual of the generation beats. */
  lemma KeepsBest(gen: seq<Individual>, best: Individual, fittest: Individual, oracle: DistanceOracle,
                  mutProb: real, coordinates: seq<Point>)
    requires Generation(gen, oracle, mutProb, coordinates) && Member(best, oracle, mutProb, coordinates)
    requires fittest in gen && forall k :: 0 <= k < |gen| ==> fittest.distance <= gen[k].distance
    ensures var kept := if fittest.distance < best.distance then fittest else best;
      Member(kept, oracle, mutProb, coordinates) && NoneShorter(kept, gen)
  {
    var i :| 0 <= i < |gen| && gen[i] == fittest;
    assert Member(gen[i], oracle, mutProb, coordinates);
  }

  /** The draws of one round of the breeding loop: the three tournament
      draws of each parent and the draws of their `mate`. */
  datatype Breeding = Breeding(first: seq<nat>, second: seq<nat>, mate: MateDraws)

  predicate BreedingFits(b: Breeding, popSize: nat, crossProb: real, len: nat)
  {
    && |b.first| == 3 && (forall u :: 0 <= u < 3 ==> b.first[u] < popSize)
    && |b.second| == 3 && (forall u :: 0 <= u < 3 ==> b.second[u] < popSize)
    && MateDrawsFit(b.mate, crossProb, len)
  }

  /** The number of rounds the breeding loop runs after `elites`
      individuals were carried over: each round adds two, and the loop
      stops at the first count that reaches popSize. */
  function MatingRounds(popSize: nat, elites: nat): (r: nat)
    ensures r == 0 <==> elites >= popSize
    ensures elites + 2 * r >= popSize
    ensures r > 0 ==> elites + 2 * (r - 1) < popSize
  {
    if elites >= popSize then 0 else (popSize - elites + 1) / 2
  }

  /** Two members mate into two new members: the children's tours are
      again permutations of the coordinates, evaluated with the same oracle. */
  method MateMembers(parent1: Individual, parent2: Individual, crossProb: real, m: MateDraws,
                     oracle: DistanceOracle, mutProb: real, coordinates: seq<Point>)
    returns (children: seq<Individual>)
    requires oracle.Valid() && Distinct(coordinates) && MateDrawsFit(m, crossProb, |coordinates|)
    requires Member(parent1, oracle, mutProb, coordinates) && Member(parent2, oracle, mutProb, coordinates)
    modifies oracle
    ensures oracle.Valid()
    ensures |children| == 2 && fresh(children[0]) && fresh(children[1])
    ensures Generation(children, oracle, mutProb, coordinates)
  {
    MembersCompatible(parent1, parent2, oracle, mutProb, coordinates);
    children := parent1.Mate(crossProb, parent2, m);
    assert Member(children[0], oracle, mutProb, coordinates);
    assert Member(children[1], oracle, mutProb, coordinates);
  }

  /** The i-th individual's tour is the i-th shuffle of the coordinates. */
  ghost predicate Shuffled(gen: seq<Individual>, coordinates: seq<Point>, shuffles: seq<seq<nat>>)
    reads gen, set x | x in gen :: x.chromosome
  {
    && |gen| == |shuffles|
    && forall k :: 0 <= k < |gen| ==>
      ShuffleDraws(shuffles[k], |coordinates|) && gen[k].chromosome[..] == FisherYates(coordinates, shuffles[k])
  }

  /** The constructor's loop: popSize individuals, the i-th evaluated from
      the i-th shuffle of the coordinates. */
  method FirstGeneration(oracle: DistanceOracle, popSize: nat, mutProb: real, coordinates: seq<Point>,
                         shuffles: seq<seq<nat>>) returns (gen: seq<Individual>)
    requires oracle.Valid() && |coordinates| >= 1
    requires |shuffles| == popSize && forall i :: 0 <= i < popSize ==> ShuffleDraws(shuffles[i], |coordinates|)
    modifies oracle
    ensures oracle.Valid() && |gen| == popSize
    ensures Generation(gen, oracle, mutProb, coordinates)
    ensures forall k :: 0 <= k < popSize ==> fresh(gen[k])
    ensures Shuffled(gen, coordinates, shuffles)
  {
    gen := [];
    for i := 0 to popSize
      invariant oracle.Valid() && |gen| == i
      invariant forall k :: 0 <= k < i ==> fresh(gen[k]) && Member(gen[k], oracle, mutProb, coordinates)
      invariant forall k :: 0 <= k < i ==> gen[k].chromosome[..] == FisherYates(coordinates, shuffles[k])
    {
      var chromosome := ShuffleCoordinates(coordinates, shuffles[i]);
      var individual := new Individual(oracle, mutProb, chromosome);
      gen := gen + [individual];
    }
  }

  /** The first n individuals of a generation are a generation. */
  lemma PrefixGeneration(gen: seq<Individual>, n: nat, oracle: DistanceOracle, mutProb: real, coordinates: seq<Point>)
    requires n <= |gen| && Generation(gen, oracle, mutProb, coordinates)
    ensures Generation(gen[..n], oracle, mutProb, coordinates)
  {
    forall k | 0 <= k < n
      ensures Member(gen[..n][k], oracle, mutProb, coordinates)
    {
      assert gen[..n][k] == gen[k];
    }
  }

  /** Individuals taken from a generation are members too. */
  lemma SubGeneration(part: seq<Individual>, gen: seq<Individual>, oracle: DistanceOracle, mutProb: real,
                      coordinates: seq<Point>)
    requires Generation(gen, oracle, mutProb, coordinates)
    requires multiset(part) <= multiset(gen)
    ensures Generation(part, oracle, mutProb, coordinates)
  {
    forall k | 0 <= k < |part|
      ensures Member(part[k], oracle, mutProb, coordinates)
    {
      assert part[k] in multiset(part);
      assert part[k] in gen;
    }
  }

  lemma GenerationAppend(gen: seq<Individual>, more: seq<Individual>, oracle: DistanceOracle, mutProb: real,
                         coordinates: seq<Point>)
    requires Generation(gen, oracle, mutProb, coordinates) && Generation(more, oracle, mutProb, coordinates)
    ensures Generation(gen + more, oracle, mutProb, coordinates)
  {
    forall k | 0 <= k < |gen + more|
      ensures Member((gen + more)[k], oracle, mutProb, coordinates)
    {
      if k >= |gen| {
        assert (gen + more)[k] == more[k - |gen|];
      }
    }
  }

  /** The Population constructor: a fresh distance oracle, the memoised
      factorial of the number of points, popSize individuals built from
      shuffles of the coordinates, and the fittest of them as the best ever
      seen. */
  method NewPopulation(popSize: nat, crossProb: real, mutProb: real, elitismRate: real, coordinates: seq<Point>,
                       base: Metric, memo: FactorialMemo, shuffles: seq<seq<nat>>) returns (p: Population)
    requires Symmetric(base) && NonNegative(base) && memo.Valid()
    requires popSize >= 1 && |coordinates| >= 1 && Distinct(coordinates)
    requires |shuffles| == popSize && forall i :: 0 <= i < popSize ==> ShuffleDraws(shuffles[i], |coordinates|)
    modifies memo
    ensures fresh(p) && fresh(p.oracle) && p.Valid() && p.oracle.Valid() && memo.Valid()
    ensures p.popSize == popSize && p.crossProb == crossProb && p.mutProb == mutProb
    ensures p.elitismRate == elitismRate && p.coordinates == coordinates && p.oracle.base == base
    ensures p.genNumber == 0 && p.numPossibleRoutes == Fact(|coordinates|)
    ensures memo.memo == old(memo.memo)[|coordinates| := p.numPossibleRoutes]
    ensures Shuffled(p.currentGen, coordinates, shuffles)
    ensures p.fittestEver in p.currentGen
  {
    var distanceCalculator := new DistanceOracle(base);
    var routes := memo.Factorial(|coordinates|);
    var gen := FirstGeneration(distanceCalculator, popSize, mutProb, coordinates, shuffles);
    // getFittest on the first generation, through the index it is proved
    // to return
    var best := FittestIndex(Distances(gen));
    FittestOfGeneration(gen, distanceCalculator, mutProb, coordinates);
    p := new Population(popSize, crossProb, mutProb, elitismRate, coordinates,
                        distanceCalculator, routes, gen, gen[best]);
  }

  class Population {
    const coordinates: seq<Point>
    const popSize: nat
    const crossProb: real
    const mutProb: real
    const elitismRate: real
    const oracle: DistanceOracle
    const numPossibleRoutes: nat
    var currentGen: seq<Individual>
    var genNumber: nat
    var fittestEver: Individual

    /** The settings fixed at construction. */
    ghost predicate Settled()
    {
      && |coordinates| >= 1 && Distinct(coordinates)
      && numPossibleRoutes == Fact(|coordinates|)
      && popSize >= 1
    }

    /** popSize members, each a tour through the coordinates, and the best
        tour ever seen no longer than any of them. */
    ghost predicate Valid()
      reads this, currentGen, set x | x in currentGen :: x.chromosome
      reads fittestEver, fittestEver.chromosome
    {
      && Settled() && |currentGen| == popSize
      && Generation(currentGen, oracle, mutProb, coordinates)
      && Member(fittestEver, oracle, mutProb, coordinates)
      && NoneShorter(fittestEver, currentGen)
    }

    /** The state the constructor leaves: the settings, the oracle, the
        first generation and its fittest member, at generation 0. */
    constructor (popSize: nat, crossProb: real, mutProb: real, elitismRate: real, coordinates: seq<Point>,
                 oracle: DistanceOracle, numPossibleRoutes: nat, gen: seq<Individual>, fittest: Individual)
      requires oracle.Valid() && |coordinates| >= 1 && Distinct(coordinates)
      requires numPossibleRoutes == Fact(|coordinates|)
      requires popSize >= 1 && |gen| == popSize && Generation(gen, oracle, mutProb, coordinates)
      requires Member(fittest, oracle, mutProb, coordinates) && NoneShorter(fittest, gen)
      ensures Valid()
      ensures this.popSize == popSize && this.crossProb == crossProb && this.mutProb == mutProb
      ensures this.elitismRate == elitismRate && this.coordinates == coordinates && this.oracle == oracle
      ensures this.numPossibleRoutes == numPossibleRoutes && genNumber == 0
      ensures currentGen == gen && fittestEver == fittest
    {
      this.coordinates := coordinates;
      this.popSize := popSize;
      this.crossProb := crossProb;
      this.mutProb := mutProb;
      this.elitismRate := elitismRate;
      this.oracle := oracle;
      this.numPossibleRoutes := numPossibleRoutes;
      currentGen := gen;
      genNumber := 0;
      fittestEver := fittest;
    }

    /** getFittest: a member of minimal distance, the earliest on ties. */
    method GetFittest() returns (fittest: Individual)
      requires |currentGen| >= 1
      ensures fittest == currentGen[FittestIndex(Distances(currentGen))]
      ensures fittest in currentGen
      ensures forall k :: 0 <= k < |currentGen| ==> fittest.distance <= currentGen[k].distance
    {
      ghost var ds := Distances(currentGen);
      fittest := currentGen[0];
      for i := 0 to |currentGen|
        invariant fittest == currentGen[if i == 0 then 0 else FittestIndex(ds[..i])]
      {
        var individual := currentGen[i];
        assert ds[..i + 1][..i] == ds[..i];
        if individual.distance < fittest.distance {
          fittest := individual;
        }
      }
      assert ds[..|currentGen|] == ds;
    }

    /** selectParentTournament(k): the winner of k drawn members, none when
        k is zero. */
    method SelectParentTournament(k: nat, picks: seq<nat>) returns (best: Individual?)
      requires |picks| == k && forall u :: 0 <= u < k ==> picks[u] < |currentGen|
      ensures k == 0 <==> best == null
      ensures k > 0 ==> best == currentGen[picks[TournamentPick(currentGen, picks)]]
    {
      best := null;
      ghost var ds := Distances(Drawn(currentGen, picks));
      for i := 0 to k
        invariant i == 0 ==> best == null
        invariant i > 0 ==> best == currentGen[picks[FittestIndex(ds[..i])]]
      {
        var candidate := currentGen[picks[i]];
        assert ds[..i + 1][..i] == ds[..i];
        if best == null || candidate.distance < best.distance {
          best := candidate;
        }
      }
      assert ds[..k] == ds;
    }

    /** passElites: the floor(elitismRate * popSize) shortest members, as a
        `slice(0, n)` of a sorted copy; the generation itself keeps its
        order. */
    function PassElites(): (elites: seq<Individual>)
      reads this, currentGen
      ensures |elites| == PrefixLength(EliteCount(elitismRate, popSize), |currentGen|)
      ensures 0.0 <= elitismRate <= 1.0 && |currentGen| == popSize ==>
        |elites| == EliteCount(elitismRate, popSize)
      ensures multiset(elites) <= multiset(currentGen)
      ensures forall e, x :: e in elites && x in multiset(currentGen) - multiset(elites) ==> e.distance <= x.distance
    {
      var sortedInds := SortByDistance(currentGen);
      SortSortsByDistance(currentGen);
      var n := PrefixLength(EliteCount(elitismRate, popSize), |sortedInds|);
      SortedPrefixSmallest(sortedInds, n);
      if 0.0 <= elitismRate <= 1.0 then
        ScaledFloor(elitismRate, popSize);
        sortedInds[..n]
      else
        sortedInds[..n]
    }

    /** The individuals a new generation starts from: the elites when the
        rate is non-zero, none otherwise. */
    function Carried(): (elites: seq<Individual>)
      reads this, currentGen
      ensures elitismRate == 0.0 ==> elites == []
      ensures multiset(elites) <= multiset(currentGen)
    {
      if elitismRate != 0.0 then PassElites() else []
    }

    /** The carried individuals are members, at most popSize of them. */
    lemma CarriedMembers()
      requires Valid()
      ensures |Carried()| <= popSize && Generation(Carried(), oracle, mutProb, coordinates)
    {
      var carried := Carried();
      assert |multiset(carried)| <= |multiset(currentGen)|;
      SubGeneration(carried, currentGen, oracle, mutProb, coordinates);
    }

    /** One round of the breeding loop: two tournaments, then the two
        children of the winners' `mate`. */
    method BreedRound(b: Breeding) returns (children: seq<Individual>)
      requires Valid() && oracle.Valid() && BreedingFits(b, popSize, crossProb, |coordinates|)
      modifies oracle
      ensures oracle.Valid()
      ensures |children| == 2 && fresh(children[0]) && fresh(children[1])
      ensures Generation(children, oracle, mutProb, coordinates)
    {
      var parent1 := SelectParentTournament(3, b.first);
      var parent2 := SelectParentTournament(3, b.second);
      assert Member(parent1, oracle, mutProb, coordinates) && Member(parent2, oracle, mutProb, coordinates);
      children := MateMembers(parent1, parent2, crossProb, b.mate, oracle, mutProb, coordinates);
    }

    /** The while loop of createNextGen: from the carried individuals on,
        each round appends the two children of one breeding round, until
        there are popSize individuals or one more. */
    method Breed(elites: seq<Individual>, draws: seq<Breeding>) returns (nextGen: seq<Individual>)
      requires Valid() && oracle.Valid() && Generation(elites, oracle, mutProb, coordinates)
      requires |draws| == MatingRounds(popSize, |elites|)
      requires forall r :: 0 <= r < |draws| ==> BreedingFits(draws[r], popSize, crossProb, |coordinates|)
      modifies oracle
      ensures Valid() && oracle.Valid()
      ensures |nextGen| == |elites| + 2 * |draws| && nextGen[..|elites|] == elites
      ensures Generation(nextGen, oracle, mutProb, coordinates)
    {
      nextGen := elites;
      var round := 0;
      while |nextGen| < popSize
        invariant Valid() && oracle.Valid()
        invariant round <= |draws| && |nextGen| == |elites| + 2 * round
        invariant nextGen[..|elites|] == elites
        invariant Generation(nextGen, oracle, mutProb, coordinates)
        decreases popSize - |nextGen|
      {
        var newChildren := BreedRound(draws[round]);
        GenerationAppend(nextGen, newChildren, oracle, mutProb, coordinates);
        nextGen := nextGen + newChildren;
        round := round + 1;
      }
    }

    /** createNextGen: carry the elites when the rate is non-zero, breed
        up to popSize or one more, keep the first popSize, count the
        generation, and replace the best ever only by a strictly shorter
        tour. */
    method CreateNextGen(draws: seq<Breeding>)
      requires Valid() && oracle.Valid()
      requires |draws| == MatingRounds(popSize, |Carried()|)
      requires forall r :: 0 <= r < |draws| ==> BreedingFits(draws[r], popSize, crossProb, |coordinates|)
      modifies this, oracle
      ensures Valid() && oracle.Valid()
      ensures genNumber == old(genNumber) + 1
      ensures currentGen[..|old(Carried())|] == old(Carried())
      ensures fittestEver == old(fittestEver) || (fittestEver in currentGen && fittestEver.distance < old(fittestEver.distance))
      ensures fittestEver == old(fittestEver) || fittestEver == currentGen[FittestIndex(Distances(currentGen))]
      ensures fittestEver.distance <= old(fittestEver.distance)
    {
      ghost var carried := Carried();
      var nextGen: seq<Individual> := [];
      if elitismRate != 0.0 {
        nextGen := nextGen + PassElites();
      }
      assert nextGen == carried;
      CarriedMembers();
      nextGen := Breed(nextGen, draws);
      assert nextGen[..popSize][..|carried|] == carried;
      Advance(nextGen);
    }

    /** The end of createNextGen: the first popSize individuals become the
        generation, the generation count goes up, and the best ever is
        replaced only by a strictly shorter tour of the new generation. */
    method Advance(nextGen: seq<Individual>)
      requires Valid() && |nextGen| >= popSize && Generation(nextGen, oracle, mutProb, coordinates)
      modifies this
      ensures Valid()
      ensures currentGen == nextGen[..popSize] && genNumber == old(genNumber) + 1
      ensures fittestEver == old(fittestEver) || (fittestEver in currentGen && fittestEver.distance < old(fittestEver.distance))
      ensures fittestEver == old(fittestEver) || fittestEver == currentGen[FittestIndex(Distances(currentGen))]
      ensures fittestEver.distance <= old(fittestEver.distance)
    {
      PrefixGeneration(nextGen, popSize, oracle, mutProb, coordinates);
      ghost var previous := fittestEver;
      currentGen := nextGen[..popSize];
      genNumber := genNumber + 1;
      var currentGenFittest := GetFittest();
      ghost var ds := Distances(currentGen);
      if currentGenFittest.distance < fittestEver.distance {
        fittestEver := currentGenFittest;
      }
      assert Distances(currentGen) == ds;
      KeepsBest(currentGen, previous, currentGenFittest, oracle, mutProb, coordinates);
    }
  }

}
